/**
 * Highlighting on the About page (src/pages/About.tsx).
 *
 * The bio builds a regular expression `(t1|t2|...)` from a list of terms,
 * each escaped with `term.replace(/[.*+?^${}()|[\]\\]/g, '\\$&')`, splits
 * the bio text with it, and emphasises every piece equal to a term. The
 * achievements do the same with the fixed pattern `(\$20M|80%|20%|8 hours)`
 * when one of the four tokens occurs.
 *
 * The model has three layers: escaping and the meaning of an escaped
 * pattern; `String.prototype.split` with a capturing pattern, after the
 * algorithm of section 22.2.6.14 of ECMA-262 (RegExp.prototype[@@split]);
 * and the emphasis of the pieces.
 */
module Highlight {
  import opened Wrappers
  import opened Text

  // ---------------------------------------------------------------------
  // Escaping and the meaning of an escaped pattern
  // ---------------------------------------------------------------------

  /** The characters the escaping replacement prefixes with a backslash. */
  predicate IsRegexSpecial(c: char) {
    c == '.' || c == '*' || c == '+' || c == '?' || c == '^' || c == '$' || c == '{' ||
    c == '}' || c == '(' || c == ')' || c == '|' || c == '[' || c == ']' || c == '\\'
  }

  /** The replacement for one character. */
  function EscapeChar(c: char): (r: string)
    ensures IsRegexSpecial(c) ==> r == ['\\', c]
    ensures !IsRegexSpecial(c) ==> r == [c]
  {
    if IsRegexSpecial(c) then ['\\', c] else [c]
  }

  /** `term.replace(/[.*+?^${}()|[\]\\]/g, '\\$&')` */
  function Escape(t: string): (r: string)
    ensures |r| >= |t|
    ensures |r| == |t| <==> forall k :: 0 <= k < |t| ==> !IsRegexSpecial(t[k])
  {
    if t == [] then [] else EscapeChar(t[0]) + Escape(t[1..])
  }

  /** One position of a pattern made of plain characters, escaped characters
      and `.`: a literal character, or any character but a line terminator. */
  datatype Atom = Lit(c: char) | AnyChar

  predicate IsLineTerminator(c: char) {
    c == '\n' || c == '\r' || c == '\U{2028}' || c == '\U{2029}'
  }

  predicate AtomMatches(a: Atom, c: char) {
    match a
    case Lit(x) => c == x
    case AnyChar => !IsLineTerminator(c)
  }

  /** Reads a pattern as a sequence of atoms: `\c` is the literal `c` for a
      special `c`, `.` is any character, other special characters are
      outside this fragment of the regular-expression language (`None`). */
  function Atoms(p: string): Option<seq<Atom>> {
    if p == [] then Some([])
    else if p[0] == '\\' then
      if |p| >= 2 && IsRegexSpecial(p[1]) then
        match Atoms(p[2..])
        case Some(rest) => Some([Lit(p[1])] + rest)
        case None => None
      else None
    else if p[0] == '.' then
      match Atoms(p[1..])
      case Some(rest) => Some([AnyChar] + rest)
      case None => None
    else if IsRegexSpecial(p[0]) then None
    else
      match Atoms(p[1..])
      case Some(rest) => Some([Lit(p[0])] + rest)
      case None => None
  }

  /** The atoms match the text of `s` that starts at position `q`. */
  predicate AtomsMatchAt(atoms: seq<Atom>, s: string, q: nat) {
    q + |atoms| <= |s| &&
    forall k :: 0 <= k < |atoms| ==> AtomMatches(atoms[k], s[q + k])
  }

  /** Pattern `p` matches the text of `s` that starts at position `q`. */
  predicate MatchesAt(p: string, s: string, q: nat) {
    Atoms(p).Some? && AtomsMatchAt(Atoms(p).value, s, q)
  }

  /** Length of the text a pattern of this fragment matches. */
  function MatchLength(p: string): nat {
    if Atoms(p).Some? then |Atoms(p).value| else 0
  }

  /** The literal atoms of a term. */
  function Literal(t: string): (r: seq<Atom>)
    ensures |r| == |t| && forall k :: 0 <= k < |t| ==> r[k] == Lit(t[k])
  {
    seq(|t|, k requires 0 <= k < |t| => Lit(t[k]))
  }

  /** An escaped term reads back as the term's literal characters. */
  lemma {:induction false} EscapeReadsLiterally(t: string)
    ensures Atoms(Escape(t)) == Some(Literal(t))
  {
    if t != [] {
      EscapeReadsLiterally(t[1..]);
      var rest := Escape(t[1..]);
      var p := Escape(t);
      assert p == EscapeChar(t[0]) + rest;
      if IsRegexSpecial(t[0]) {
        assert p[0] == '\\' && p[1] == t[0] && p[2..] == rest;
      } else {
        assert p[0] == t[0] && p[1..] == rest;
      }
      assert Literal(t) == [Lit(t[0])] + Literal(t[1..]);
    }
  }

  /** Literal atoms match exactly where the term occurs. */
  lemma LiteralMatchesOccurrence(t: string, s: string, q: nat)
    ensures AtomsMatchAt(Literal(t), s, q) <==> OccursAt(s, t, q)
  {
    var lit := Literal(t);
    if AtomsMatchAt(lit, s, q) {
      var u := s[q..q + |t|];
      forall k | 0 <= k < |u| ensures u[k] == t[k] {
        assert AtomMatches(lit[k], s[q + k]);
      }
      assert u == t;
    }
    if OccursAt(s, t, q) {
      forall k | 0 <= k < |lit| ensures AtomMatches(lit[k], s[q + k]) {
        assert s[q..q + |t|][k] == s[q + k];
      }
    }
  }

  /** Escaping makes a term match exactly its own text: a `.` in "4.5 years",
      ".NET" or "React.js" matches only a dot. */
  lemma EscapedMatchesExactly(t: string, s: string, q: nat)
    ensures MatchesAt(Escape(t), s, q) <==> OccursAt(s, t, q)
    ensures MatchLength(Escape(t)) == |t|
  {
    EscapeReadsLiterally(t);
    LiteralMatchesOccurrence(t, s, q);
  }

  /** Without escaping, the dot of "4.5 years" would match any character:
      the pattern "4.5" matches "4x5", the escaped one does not. */
  lemma UnescapedDotMatchesAnything()
    ensures MatchesAt("4.5", "4x5", 0)
    ensures !MatchesAt(Escape("4.5"), "4x5", 0)
  {
    var p := "4.5";
    assert p[0] == '4' && p[1] == '.' && p[2] == '5';
    assert !IsRegexSpecial('4') && !IsRegexSpecial('5');
    assert Atoms(p[3..]) == Some([]);
    assert p[2..][0] == '5' && p[2..][1..] == p[3..];
    assert [Lit('5')] + [] == [Lit('5')];
    assert Atoms(p[2..]) == Some([Lit('5')]);
    assert p[1..][0] == '.' && p[1..][1..] == p[2..];
    assert [AnyChar] + [Lit('5')] == [AnyChar, Lit('5')];
    assert [Lit('4')] + [AnyChar, Lit('5')] == [Lit('4'), AnyChar, Lit('5')];
    assert Atoms(p[1..]) == Some([AnyChar, Lit('5')]);
    assert Atoms(p) == Some([Lit('4'), AnyChar, Lit('5')]);
    EscapedMatchesExactly("4.5", "4x5", 0);
    assert "4x5"[0..3][1] != "4.5"[1];
  }

  // ---------------------------------------------------------------------
  // The pattern source `'(' + escaped.join('|') + ')'`
  // ---------------------------------------------------------------------

  function EscapeAll(terms: seq<string>): (r: seq<string>)
    ensures |r| == |terms| && forall i :: 0 <= i < |terms| ==> r[i] == Escape(terms[i])
  {
    seq(|terms|, i requires 0 <= i < |terms| => Escape(terms[i]))
  }

  function Join(alternatives: seq<string>): string {
    if |alternatives| == 0 then ""
    else if |alternatives| == 1 then alternatives[0]
    else alternatives[0] + "|" + Join(alternatives[1..])
  }

  /** `'(' + terms.map(escape).join('|') + ')'`: a group whose alternatives
      read back as exactly the escaped terms, in order, since escaping keeps
      a `|` inside a term from splitting it. */
  function PatternSource(terms: seq<string>): (src: string)
    ensures |src| >= 2 && src[0] == '(' && src[|src| - 1] == ')'
    ensures |terms| > 0 ==> Alternatives(src[1..|src| - 1], "") == EscapeAll(terms)
  {
    var src := "(" + Join(EscapeAll(terms)) + ")";
    assert src[1..|src| - 1] == Join(EscapeAll(terms));
    if |terms| > 0 then JoinReadsBack(terms); src else src
  }

  /** Reads the body of a group back into its top-level alternatives:
      a `|` outside an escape separates them. */
  function Alternatives(p: string, current: string): seq<string> {
    if p == [] then [current]
    else if p[0] == '\\' && |p| >= 2 then Alternatives(p[2..], current + p[..2])
    else if p[0] == '|' then [current] + Alternatives(p[1..], "")
    else Alternatives(p[1..], current + [p[0]])
  }

  lemma {:induction false} EscapedHasNoSeparator(t: string, rest: string, current: string)
    ensures Alternatives(Escape(t) + rest, current) == Alternatives(rest, current + Escape(t))
  {
    if t != [] {
      var chunk := EscapeChar(t[0]);
      var p := Escape(t) + rest;
      assert p == chunk + (Escape(t[1..]) + rest);
      EscapedHasNoSeparator(t[1..], rest, current + chunk);
      if IsRegexSpecial(t[0]) {
        assert p[0] == '\\' && |p| >= 2;
        assert p[..2] == chunk && p[2..] == Escape(t[1..]) + rest;
        assert Alternatives(p, current) == Alternatives(Escape(t[1..]) + rest, current + chunk);
      } else {
        assert p[0] == t[0] && p[0] != '\\' && p[0] != '|';
        assert p[1..] == Escape(t[1..]) + rest;
        assert Alternatives(p, current) == Alternatives(Escape(t[1..]) + rest, current + [t[0]]);
      }
      assert current + chunk + Escape(t[1..]) == current + Escape(t);
    } else {
      assert Escape(t) + rest == rest && current + Escape(t) == current;
    }
  }

  lemma {:induction false} JoinReadsBack(terms: seq<string>)
    requires |terms| > 0
    ensures Alternatives(Join(EscapeAll(terms)), "") == EscapeAll(terms)
  {
    var alts := EscapeAll(terms);
    if |terms| == 1 {
      EscapedHasNoSeparator(terms[0], "", "");
      assert Join(alts) == Escape(terms[0]) + "";
      assert "" + Escape(terms[0]) == alts[0];
      assert alts == [alts[0]];
    } else {
      var tail := Join(alts[1..]);
      assert alts[1..] == EscapeAll(terms[1..]);
      EscapedHasNoSeparator(terms[0], "|" + tail, "");
      assert Join(alts) == Escape(terms[0]) + ("|" + tail);
      var p := "|" + tail;
      assert p[0] == '|' && p[1..] == tail;
      JoinReadsBack(terms[1..]);
      assert [] + Escape(terms[0]) == alts[0];
    }
  }

  // ---------------------------------------------------------------------
  // `split` with a capturing alternation
  // ---------------------------------------------------------------------

  /** The alternative the regex engine takes at position `q`: the first, from
      index `from` on, that matches there. */
  function FirstAlternative(alternatives: seq<string>, s: string, q: nat, from: nat): (r: Option<nat>)
    decreases |alternatives| - from
    ensures r.Some? ==> from <= r.value < |alternatives| && MatchesAt(alternatives[r.value], s, q)
    ensures r.Some? ==> forall j :: from <= j < r.value ==> !MatchesAt(alternatives[j], s, q)
    ensures r.None? ==> forall j :: from <= j < |alternatives| ==> !MatchesAt(alternatives[j], s, q)
  {
    if from >= |alternatives| then None
    else if MatchesAt(alternatives[from], s, q) then Some(from)
    else FirstAlternative(alternatives, s, q, from + 1)
  }

  function MatchEnd(alternatives: seq<string>, s: string, q: nat, i: nat): (e: nat)
    requires i < |alternatives| && MatchesAt(alternatives[i], s, q)
    ensures q <= e <= |s|
  {
    q + MatchLength(alternatives[i])
  }

  /** The split loop: `p` is the end of the last match, `q` the position tried
      next. A match `s[q..e]` contributes the text before it and, as the
      capture of the group, itself; an empty match at `p` is skipped. */
  function SplitFrom(s: string, alternatives: seq<string>, p: nat, q: nat): (r: seq<string>)
    requires p <= q <= |s|
    ensures |r| % 2 == 1
    decreases |s| - q, if p < q then 1 else 0
  {
    if q == |s| then [s[p..]]
    else
      match FirstAlternative(alternatives, s, q, 0)
      case None => SplitFrom(s, alternatives, p, q + 1)
      case Some(i) =>
        var e := MatchEnd(alternatives, s, q, i);
        if e == p then SplitFrom(s, alternatives, p, q + 1)
        else [s[p..q], s[q..e]] + SplitFrom(s, alternatives, e, e)
  }

  /** `s.split(new RegExp('(' + alternatives.join('|') + ')', 'g'))` */
  function Split(s: string, alternatives: seq<string>): (r: seq<string>)
    ensures |s| > 0 ==> |r| % 2 == 1
  {
    if |s| == 0 then
      if FirstAlternative(alternatives, s, 0, 0).Some? then [] else [""]
    else SplitFrom(s, alternatives, 0, 0)
  }

  function Concat(parts: seq<string>): string {
    if parts == [] then "" else parts[0] + Concat(parts[1..])
  }

  lemma ConcatPair(a: string, b: string, rest: seq<string>)
    ensures Concat([a, b] + rest) == a + b + Concat(rest)
  {
    assert ([a, b] + rest)[1..] == [b] + rest;
    assert ([b] + rest)[1..] == rest;
  }

  lemma {:induction false} SplitFromConcat(s: string, alternatives: seq<string>, p: nat, q: nat)
    requires p <= q <= |s|
    ensures Concat(SplitFrom(s, alternatives, p, q)) == s[p..]
    decreases |s| - q, if p < q then 1 else 0
  {
    if q == |s| {
      assert Concat([s[p..]]) == s[p..] + Concat([]);
    } else {
      match FirstAlternative(alternatives, s, q, 0)
      case None =>
        SplitFromConcat(s, alternatives, p, q + 1);
      case Some(i) =>
        var e := MatchEnd(alternatives, s, q, i);
        if e == p {
          SplitFromConcat(s, alternatives, p, q + 1);
        } else {
          SplitFromConcat(s, alternatives, e, e);
          ConcatPair(s[p..q], s[q..e], SplitFrom(s, alternatives, e, e));
          assert s[p..] == s[p..q] + s[q..e] + s[e..];
        }
    }
  }

  /** The pieces put back together give the input: the capturing group keeps
      every match in the output. */
  lemma SplitConcat(s: string, alternatives: seq<string>)
    ensures Concat(Split(s, alternatives)) == s
  {
    if |s| == 0 {
      assert Concat([""]) == "" + Concat([]);
    } else {
      SplitFromConcat(s, alternatives, 0, 0);
    }
  }

  /** All terms are non-empty (true of both term lists of the page). */
  predicate NonEmptyTerms(terms: seq<string>) {
    forall i :: 0 <= i < |terms| ==> terms[i] != []
  }

  /** No alternative matches anywhere in [p, q). */
  predicate NoMatchBetween(alternatives: seq<string>, s: string, p: nat, q: nat) {
    forall k :: p <= k < q ==> FirstAlternative(alternatives, s, k, 0).None?
  }

  /** The pieces alternate between unmatched text and terms: there is an odd
      number of them, and a piece is a term exactly at the odd positions. */
  predicate Alternating(parts: seq<string>, terms: seq<string>) {
    |parts| % 2 == 1 &&
    forall k :: 0 <= k < |parts| ==> (parts[k] in terms <==> k % 2 == 1)
  }

  /** No term occurs at position `m` of `s`. */
  predicate NoTermAt(s: string, terms: seq<string>, m: nat) {
    forall j :: 0 <= j < |terms| ==> !OccursAt(s, terms[j], m)
  }

  /** `terms[i]` is the first listed term that occurs at position `m` of `s`. */
  predicate EarliestAt(s: string, terms: seq<string>, m: nat, i: nat) {
    i < |terms| && OccursAt(s, terms[i], m) &&
    forall j :: 0 <= j < i ==> !OccursAt(s, terms[j], m)
  }

  /** Where piece `k` starts, counted from the start of the first piece. */
  function Offset(parts: seq<string>, k: nat): nat
    requires k <= |parts|
  {
    |Concat(parts[..k])|
  }

  /** No term occurs at any position of a gap (an even piece), the pieces
      being laid out in `s` from position `base`. */
  predicate GapsClear(s: string, terms: seq<string>, parts: seq<string>, base: nat) {
    forall k :: 0 <= k < |parts| && k % 2 == 0 ==>
      forall m :: base + Offset(parts, k) <= m < base + Offset(parts, k) + |parts[k]| ==> NoTermAt(s, terms, m)
  }

  /** Each capture (an odd piece) is the first listed term that occurs where
      it starts. */
  predicate CapturesLeftmost(s: string, terms: seq<string>, parts: seq<string>, base: nat) {
    forall k :: 0 <= k < |parts| && k % 2 == 1 ==> CaptureAt(s, terms, parts, base, k)
  }

  /** Piece `k` is the first listed term that occurs where it starts. */
  predicate CaptureAt(s: string, terms: seq<string>, parts: seq<string>, base: nat, k: nat)
    requires k < |parts|
  {
    exists i :: 0 <= i < |terms| && EarliestAt(s, terms, base + Offset(parts, k), i) && parts[k] == terms[i]
  }

  /** Every position from `base` on at which a term occurs lies inside a
      capture. */
  predicate Covered(s: string, terms: seq<string>, parts: seq<string>, base: nat) {
    forall m :: base <= m < |s| && !NoTermAt(s, terms, m) ==>
      exists k :: 0 <= k < |parts| && k % 2 == 1 && base + Offset(parts, k) <= m < base + Offset(parts, k) + |parts[k]|
  }

  lemma NoneMeansNoTerm(s: string, terms: seq<string>, m: nat)
    requires FirstAlternative(EscapeAll(terms), s, m, 0).None?
    ensures NoTermAt(s, terms, m)
  {
    forall j | 0 <= j < |terms| ensures !OccursAt(s, terms[j], m) {
      EscapedMatchesExactly(terms[j], s, m);
    }
  }

  /** The alternative the engine takes is the first listed term occurring
      there. */
  lemma TakenIsEarliest(s: string, terms: seq<string>, m: nat, i: nat)
    requires FirstAlternative(EscapeAll(terms), s, m, 0) == Some(i)
    ensures EarliestAt(s, terms, m, i)
  {
    forall j | 0 <= j <= i ensures MatchesAt(EscapeAll(terms)[j], s, m) <==> OccursAt(s, terms[j], m) {
      EscapedMatchesExactly(terms[j], s, m);
    }
  }

  /** Text the engine scanned without a match holds no term occurrence. */
  lemma GapHoldsNoTerm(s: string, terms: seq<string>, p: nat, q: nat)
    requires NoMatchBetween(EscapeAll(terms), s, p, q)
    ensures forall m: nat :: p <= m < q ==> NoTermAt(s, terms, m)
  {
    forall m: nat | p <= m < q ensures NoTermAt(s, terms, m) {
      NoneMeansNoTerm(s, terms, m);
    }
  }

  lemma OffsetCons(a: string, b: string, rest: seq<string>, k: nat)
    requires k <= |rest|
    ensures Offset([a, b] + rest, k + 2) == |a| + |b| + Offset(rest, k)
  {
    assert ([a, b] + rest)[..k + 2] == [a, b] + rest[..k];
    ConcatPair(a, b, rest[..k]);
  }

  /** Where the pieces after a gap and a capture start. */
  lemma ConsOffsets(a: string, b: string, rest: seq<string>)
    ensures Offset([a, b] + rest, 0) == 0
    ensures Offset([a, b] + rest, 1) == |a|
    ensures forall k :: 0 <= k <= |rest| ==> Offset([a, b] + rest, k + 2) == |a| + |b| + Offset(rest, k)
  {
    var r := [a, b] + rest;
    assert r[..0] == [];
    assert r[..1] == [a];
    assert Concat([a]) == a + Concat([]);
    forall k | 0 <= k <= |rest| ensures Offset(r, k + 2) == |a| + |b| + Offset(rest, k) {
      OffsetCons(a, b, rest, k);
    }
  }

  /** The last piece of a split: the unscanned rest, in which nothing matched. */
  lemma LastGapFound(s: string, terms: seq<string>, p: nat)
    requires p <= |s|
    requires NoMatchBetween(EscapeAll(terms), s, p, |s|)
    ensures GapsClear(s, terms, [s[p..]], p)
    ensures CapturesLeftmost(s, terms, [s[p..]], p)
    ensures Covered(s, terms, [s[p..]], p)
  {
    var r := [s[p..]];
    assert Offset(r, 0) == 0 by { assert r[..0] == []; }
    GapHoldsNoTerm(s, terms, p, |s|);
  }

  /** A gap and a capture put in front of pieces found from the capture's
      end: gaps still hold no term. */
  lemma ConsGaps(s: string, terms: seq<string>, p: nat, q: nat, e: nat, rest: seq<string>)
    requires p <= q <= e <= |s|
    requires NoMatchBetween(EscapeAll(terms), s, p, q)
    requires GapsClear(s, terms, rest, e)
    ensures GapsClear(s, terms, [s[p..q], s[q..e]] + rest, p)
  {
    var r := [s[p..q], s[q..e]] + rest;
    ConsOffsets(s[p..q], s[q..e], rest);
    GapHoldsNoTerm(s, terms, p, q);
    forall k | 0 <= k < |r| && k % 2 == 0
      ensures forall m :: p + Offset(r, k) <= m < p + Offset(r, k) + |r[k]| ==> NoTermAt(s, terms, m)
    {
      if k >= 2 {
        assert r[k] == rest[k - 2] && (k - 2) % 2 == 0;
        assert p + Offset(r, k) == e + Offset(rest, k - 2);
      }
    }
  }

  /** ... and captures are still the first listed term where they start. */
  lemma ConsCaptures(s: string, terms: seq<string>, p: nat, q: nat, e: nat, i: nat, rest: seq<string>)
    requires p <= q <= e <= |s|
    requires EarliestAt(s, terms, q, i) && s[q..e] == terms[i]
    requires CapturesLeftmost(s, terms, rest, e)
    ensures CapturesLeftmost(s, terms, [s[p..q], s[q..e]] + rest, p)
  {
    var r := [s[p..q], s[q..e]] + rest;
    forall k | 0 <= k < |r| && k % 2 == 1
      ensures CaptureAt(s, terms, r, p, k)
    {
      if k == 1 {
        HeadCapture(s, terms, p, q, e, i, rest);
      } else {
        ShiftedCapture(s, terms, p, q, e, rest, k - 2);
      }
    }
  }

  lemma HeadCapture(s: string, terms: seq<string>, p: nat, q: nat, e: nat, i: nat, rest: seq<string>)
    requires p <= q <= e <= |s|
    requires EarliestAt(s, terms, q, i) && s[q..e] == terms[i]
    ensures CaptureAt(s, terms, [s[p..q], s[q..e]] + rest, p, 1)
  {
    var r := [s[p..q], s[q..e]] + rest;
    assert r[..1] == [s[p..q]];
    assert Concat([s[p..q]]) == s[p..q] + Concat([]);
    assert p + Offset(r, 1) == q;
    assert EarliestAt(s, terms, p + Offset(r, 1), i) && r[1] == terms[i];
  }

  lemma ShiftedCapture(s: string, terms: seq<string>, p: nat, q: nat, e: nat, rest: seq<string>, k: nat)
    requires p <= q <= e <= |s|
    requires k < |rest| && k % 2 == 1
    requires CapturesLeftmost(s, terms, rest, e)
    ensures CaptureAt(s, terms, [s[p..q], s[q..e]] + rest, p, k + 2)
  {
    var r := [s[p..q], s[q..e]] + rest;
    OffsetCons(s[p..q], s[q..e], rest, k);
    assert p + Offset(r, k + 2) == e + Offset(rest, k);
    assert CaptureAt(s, terms, rest, e, k);
    var i' :| 0 <= i' < |terms| && EarliestAt(s, terms, e + Offset(rest, k), i') && rest[k] == terms[i'];
    assert r[k + 2] == rest[k];
  }

  /** ... and every occurrence still lies inside a capture. */
  lemma ConsCovered(s: string, terms: seq<string>, p: nat, q: nat, e: nat, rest: seq<string>)
    requires p <= q < e <= |s|
    requires NoMatchBetween(EscapeAll(terms), s, p, q)
    requires Covered(s, terms, rest, e)
    ensures Covered(s, terms, [s[p..q], s[q..e]] + rest, p)
  {
    var r := [s[p..q], s[q..e]] + rest;
    ConsOffsets(s[p..q], s[q..e], rest);
    GapHoldsNoTerm(s, terms, p, q);
    forall m: nat | p <= m < |s| && !NoTermAt(s, terms, m)
      ensures exists k :: 0 <= k < |r| && k % 2 == 1 && p + Offset(r, k) <= m < p + Offset(r, k) + |r[k]|
    {
      assert q <= m;
      if m < e {
        assert p + Offset(r, 1) <= m < p + Offset(r, 1) + |r[1]|;
      } else {
        var k :| 0 <= k < |rest| && k % 2 == 1 && e + Offset(rest, k) <= m < e + Offset(rest, k) + |rest[k]|;
        assert r[k + 2] == rest[k];
        assert p + Offset(r, k + 2) <= m < p + Offset(r, k + 2) + |r[k + 2]|;
      }
    }
  }

  lemma AlternatingCons(gap: string, term: string, rest: seq<string>, terms: seq<string>)
    requires gap !in terms && term in terms
    requires Alternating(rest, terms)
    ensures Alternating([gap, term] + rest, terms)
  {
    var parts := [gap, term] + rest;
    forall k | 2 <= k < |parts| ensures parts[k] == rest[k - 2] {}
  }

  /** Text the engine scanned without a match is no term. */
  lemma GapIsNoTerm(s: string, terms: seq<string>, p: nat, q: nat)
    requires NonEmptyTerms(terms)
    requires p <= q <= |s|
    requires NoMatchBetween(EscapeAll(terms), s, p, q)
    ensures s[p..q] !in terms
  {
    forall j | 0 <= j < |terms| ensures terms[j] != s[p..q] {
      if p < q {
        assert FirstAlternative(EscapeAll(terms), s, p, 0).None?;
        EscapedMatchesExactly(terms[j], s, p);
      }
    }
  }

  /** A match of the escaped terms is the term it was taken for. */
  lemma MatchIsTerm(s: string, terms: seq<string>, q: nat, i: nat)
    requires i < |terms| && MatchesAt(EscapeAll(terms)[i], s, q)
    ensures MatchEnd(EscapeAll(terms), s, q, i) == q + |terms[i]|
    ensures s[q..q + |terms[i]|] == terms[i]
  {
    EscapedMatchesExactly(terms[i], s, q);
  }

  lemma {:induction false} SplitFromShape(s: string, terms: seq<string>, p: nat, q: nat)
    requires NonEmptyTerms(terms)
    requires p <= q <= |s|
    requires NoMatchBetween(EscapeAll(terms), s, p, q)
    ensures Alternating(SplitFrom(s, EscapeAll(terms), p, q), terms)
    decreases |s| - q, if p < q then 1 else 0
  {
    var alts := EscapeAll(terms);
    if q == |s| {
      GapIsNoTerm(s, terms, p, q);
      assert s[p..] == s[p..q];
    } else {
      match FirstAlternative(alts, s, q, 0)
      case None =>
        SplitFromShape(s, terms, p, q + 1);
      case Some(i) =>
        var e := MatchEnd(alts, s, q, i);
        MatchIsTerm(s, terms, q, i);
        SplitFromShape(s, terms, e, e);
        GapIsNoTerm(s, terms, p, q);
        AlternatingCons(s[p..q], s[q..e], SplitFrom(s, alts, e, e), terms);
    }
  }

  /** From any split state, no term occurs in a gap, each capture is the
      first listed term occurring where it starts, and every occurrence of
      a term lies inside a capture. */
  lemma {:induction false} SplitFromLeftmost(s: string, terms: seq<string>, p: nat, q: nat)
    requires NonEmptyTerms(terms)
    requires p <= q <= |s|
    requires NoMatchBetween(EscapeAll(terms), s, p, q)
    ensures GapsClear(s, terms, SplitFrom(s, EscapeAll(terms), p, q), p)
    ensures CapturesLeftmost(s, terms, SplitFrom(s, EscapeAll(terms), p, q), p)
    ensures Covered(s, terms, SplitFrom(s, EscapeAll(terms), p, q), p)
    decreases |s| - q, if p < q then 1 else 0
  {
    var alts := EscapeAll(terms);
    if q == |s| {
      LastGapFound(s, terms, p);
    } else {
      match FirstAlternative(alts, s, q, 0)
      case None =>
        SplitFromLeftmost(s, terms, p, q + 1);
      case Some(i) =>
        var e := MatchEnd(alts, s, q, i);
        MatchIsTerm(s, terms, q, i);
        var rest := SplitFrom(s, alts, e, e);
        SplitFromLeftmost(s, terms, e, e);
        ConsGaps(s, terms, p, q, e, rest);
        TakenIsEarliest(s, terms, q, i);
        ConsCaptures(s, terms, p, q, e, i, rest);
        ConsCovered(s, terms, p, q, e, rest);
    }
  }

  /** With non-empty terms, the pieces of a split alternate between text
      in which no term occurs and the terms matched; each match is the first
      listed term occurring where it starts, and every occurrence of a term
      lies inside a match. */
  lemma SplitShape(s: string, terms: seq<string>)
    requires NonEmptyTerms(terms)
    ensures Alternating(Split(s, EscapeAll(terms)), terms)
    ensures GapsClear(s, terms, Split(s, EscapeAll(terms)), 0)
    ensures CapturesLeftmost(s, terms, Split(s, EscapeAll(terms)), 0)
    ensures Covered(s, terms, Split(s, EscapeAll(terms)), 0)
  {
    if |s| == 0 {
      var r := FirstAlternative(EscapeAll(terms), s, 0, 0);
      if r.Some? {
        EscapedMatchesExactly(terms[r.value], s, 0);
      }
      assert "" !in terms;
      assert s[0..] == s;
      LastGapFound(s, terms, 0);
    } else {
      SplitFromShape(s, terms, 0, 0);
      SplitFromLeftmost(s, terms, 0, 0);
    }
  }

  /** Leftmost-first alternation: at a position the engine takes the first
      listed term that occurs there. */
  lemma FirstListedTermWins(terms: seq<string>, i: nat, s: string, q: nat)
    requires i < |terms| && OccursAt(s, terms[i], q)
    requires forall j :: 0 <= j < i ==> !OccursAt(s, terms[j], q)
    ensures FirstAlternative(EscapeAll(terms), s, q, 0) == Some(i)
  {
    var alts := EscapeAll(terms);
    forall j | 0 <= j <= i ensures MatchesAt(alts[j], s, q) <==> j == i {
      EscapedMatchesExactly(terms[j], s, q);
    }
  }

  /** A term listed after a term that is a prefix of it is never taken, since
      the earlier one matches wherever the later one does. */
  lemma ShadowedTermNeverTaken(terms: seq<string>, i: nat, j: nat, s: string, q: nat)
    requires i < j < |terms|
    requires StartsWith(terms[j], terms[i])
    ensures FirstAlternative(EscapeAll(terms), s, q, 0) != Some(j)
  {
    var alts := EscapeAll(terms);
    EscapedMatchesExactly(terms[j], s, q);
    EscapedMatchesExactly(terms[i], s, q);
    if MatchesAt(alts[j], s, q) {
      var n := |terms[i]|;
      assert s[q..q + n] == s[q..q + |terms[j]|][..n];
    }
  }

  // ---------------------------------------------------------------------
  // Emphasis
  // ---------------------------------------------------------------------

  /** A rendered piece: plain text, or a bold `<span>`. */
  datatype Piece = Plain(text: string) | Emph(text: string)

  /** `parts.map(part => terms.includes(part) ? <span>{part}</span> : part)` */
  function Emphasise(parts: seq<string>, terms: seq<string>): (r: seq<Piece>)
    ensures |r| == |parts|
    ensures forall k :: 0 <= k < |parts| ==> r[k].text == parts[k] && (r[k].Emph? <==> parts[k] in terms)
  {
    seq(|parts|, k requires 0 <= k < |parts| =>
      if parts[k] in terms then Emph(parts[k]) else Plain(parts[k]))
  }

  /** The text a reader sees. */
  function Rendered(pieces: seq<Piece>): string {
    if pieces == [] then "" else pieces[0].text + Rendered(pieces[1..])
  }

  lemma {:induction false} TextOfEmphasised(parts: seq<string>, terms: seq<string>)
    ensures Rendered(Emphasise(parts, terms)) == Concat(parts)
  {
    if parts != [] {
      TextOfEmphasised(parts[1..], terms);
      assert Emphasise(parts, terms)[1..] == Emphasise(parts[1..], terms);
    }
  }

  /** Highlighting `s` with `terms`: split, then emphasise the term pieces. */
  function HighlightTerms(s: string, terms: seq<string>): seq<Piece> {
    Emphasise(Split(s, EscapeAll(terms)), terms)
  }

  /** Where piece `k` starts in the rendered text. */
  function PieceOffset(pieces: seq<Piece>, k: nat): nat
    requires k <= |pieces|
  {
    |Rendered(pieces[..k])|
  }

  /** No term occurs at any position of a plain piece of the rendering of `s`. */
  predicate PlainHoldsNoTerm(s: string, terms: seq<string>, pieces: seq<Piece>) {
    forall k :: 0 <= k < |pieces| && pieces[k].Plain? ==>
      forall m :: PieceOffset(pieces, k) <= m < PieceOffset(pieces, k) + |pieces[k].text| ==> NoTermAt(s, terms, m)
  }

  /** Each emphasised piece is the first listed term that occurs where it
      starts. */
  predicate EmphasisIsLeftmost(s: string, terms: seq<string>, pieces: seq<Piece>) {
    forall k :: 0 <= k < |pieces| && pieces[k].Emph? ==>
      exists i :: 0 <= i < |terms| && EarliestAt(s, terms, PieceOffset(pieces, k), i) && pieces[k].text == terms[i]
  }

  /** Every position of `s` at which a term occurs lies in an emphasised piece. */
  predicate EveryTermEmphasised(s: string, terms: seq<string>, pieces: seq<Piece>) {
    forall m :: 0 <= m < |s| && !NoTermAt(s, terms, m) ==>
      exists k :: 0 <= k < |pieces| && pieces[k].Emph? &&
        PieceOffset(pieces, k) <= m < PieceOffset(pieces, k) + |pieces[k].text|
  }

  lemma EmphasiseOffsets(parts: seq<string>, terms: seq<string>)
    ensures forall k :: 0 <= k <= |parts| ==> PieceOffset(Emphasise(parts, terms), k) == Offset(parts, k)
  {
    forall k | 0 <= k <= |parts| ensures PieceOffset(Emphasise(parts, terms), k) == Offset(parts, k) {
      assert Emphasise(parts, terms)[..k] == Emphasise(parts[..k], terms);
      TextOfEmphasised(parts[..k], terms);
    }
  }

  lemma PlainFromGaps(s: string, terms: seq<string>, parts: seq<string>)
    requires Alternating(parts, terms) && GapsClear(s, terms, parts, 0)
    ensures PlainHoldsNoTerm(s, terms, Emphasise(parts, terms))
  {
    var pieces := Emphasise(parts, terms);
    EmphasiseOffsets(parts, terms);
    forall k | 0 <= k < |pieces| && pieces[k].Plain?
      ensures forall m :: PieceOffset(pieces, k) <= m < PieceOffset(pieces, k) + |pieces[k].text| ==> NoTermAt(s, terms, m)
    {
      assert k % 2 == 0 && PieceOffset(pieces, k) == 0 + Offset(parts, k);
    }
  }

  lemma EmphasisFromCaptures(s: string, terms: seq<string>, parts: seq<string>)
    requires Alternating(parts, terms) && CapturesLeftmost(s, terms, parts, 0)
    ensures EmphasisIsLeftmost(s, terms, Emphasise(parts, terms))
  {
    var pieces := Emphasise(parts, terms);
    EmphasiseOffsets(parts, terms);
    forall k | 0 <= k < |pieces| && pieces[k].Emph?
      ensures exists i :: 0 <= i < |terms| && EarliestAt(s, terms, PieceOffset(pieces, k), i) && pieces[k].text == terms[i]
    {
      assert k % 2 == 1 && PieceOffset(pieces, k) == 0 + Offset(parts, k);
      assert CaptureAt(s, terms, parts, 0, k);
    }
  }

  lemma EmphasisFromCovered(s: string, terms: seq<string>, parts: seq<string>)
    requires Alternating(parts, terms) && Covered(s, terms, parts, 0)
    ensures EveryTermEmphasised(s, terms, Emphasise(parts, terms))
  {
    var pieces := Emphasise(parts, terms);
    EmphasiseOffsets(parts, terms);
    forall m | 0 <= m < |s| && !NoTermAt(s, terms, m)
      ensures exists k :: 0 <= k < |pieces| && pieces[k].Emph? && PieceOffset(pieces, k) <= m < PieceOffset(pieces, k) + |pieces[k].text|
    {
      var k :| 0 <= k < |parts| && k % 2 == 1 && 0 + Offset(parts, k) <= m < 0 + Offset(parts, k) + |parts[k]|;
      assert pieces[k].Emph? && PieceOffset(pieces, k) == Offset(parts, k);
    }
  }

  /** The highlighted text reads exactly as the input; the emphasised pieces
      are exactly those at odd positions; no term occurs anywhere in a plain
      piece; each emphasised piece is the first listed term occurring where
      it starts; and every occurrence of a term lies in an emphasised piece. */
  lemma HighlightIsFaithful(s: string, terms: seq<string>)
    requires NonEmptyTerms(terms)
    ensures Rendered(HighlightTerms(s, terms)) == s
    ensures var pieces := HighlightTerms(s, terms);
            forall k :: 0 <= k < |pieces| ==> (pieces[k].Emph? <==> k % 2 == 1)
    ensures PlainHoldsNoTerm(s, terms, HighlightTerms(s, terms))
    ensures EmphasisIsLeftmost(s, terms, HighlightTerms(s, terms))
    ensures EveryTermEmphasised(s, terms, HighlightTerms(s, terms))
  {
    var parts := Split(s, EscapeAll(terms));
    SplitConcat(s, EscapeAll(terms));
    TextOfEmphasised(parts, terms);
    SplitShape(s, terms);
    PlainFromGaps(s, terms, parts);
    EmphasisFromCaptures(s, terms, parts);
    EmphasisFromCovered(s, terms, parts);
  }

  /** The converse of `NoTermSplitsWhole`: a text in which a term occurs
      gets an emphasised piece. */
  lemma TermPresentIsEmphasised(s: string, terms: seq<string>, j: nat)
    requires NonEmptyTerms(terms)
    requires j < |terms| && Contains(s, terms[j])
    ensures exists k :: 0 <= k < |HighlightTerms(s, terms)| && HighlightTerms(s, terms)[k].Emph?
  {
    var m: nat :| m <= |s| && OccursAt(s, terms[j], m);
    assert m < |s| && !NoTermAt(s, terms, m);
    HighlightIsFaithful(s, terms);
  }

  // ---------------------------------------------------------------------
  // The bio
  // ---------------------------------------------------------------------

  const BioText: string :=
    "4.5 years" + " of experience working with JavaScript, React, C# and .NET. I have built full stack web applications for BTG Pactual (World's best SME Bank), such as internet banking features, webviews and backoffice platforms. Additionally, I have built a project for my internship using Java, SpringBoot, JavaScript and React.js that assisted in the daily chores of the company staff."

  const BioTerms: seq<string> :=
    ["4.5 years", "JavaScript", "React", "C#", ".NET", "BTG Pactual", "Java", "SpringBoot", "React.js"]

  /** The bio as rendered. */
  function RenderBio(): seq<Piece> {
    HighlightTerms(BioText, BioTerms)
  }

  /** The rendered bio reads as the bio text, its bold pieces are exactly
      the terms the pattern matched, leftmost-first, and no occurrence of a
      term is left in plain text. */
  lemma RenderBioIsFaithful()
    ensures Rendered(RenderBio()) == BioText
    ensures forall k :: 0 <= k < |RenderBio()| ==> (RenderBio()[k].Emph? <==> k % 2 == 1)
    ensures PlainHoldsNoTerm(BioText, BioTerms, RenderBio())
    ensures EmphasisIsLeftmost(BioText, BioTerms, RenderBio())
    ensures EveryTermEmphasised(BioText, BioTerms, RenderBio())
  {
    BioStartsWithFirstTerm();
    HighlightIsFaithful(BioText, BioTerms);
  }

  lemma LeadingPieces(s: string, terms: seq<string>, pieces: seq<Piece>)
    requires |terms| > 0 && |terms[0]| > 0 && OccursAt(s, terms[0], 0)
    requires forall k :: 0 <= k < |pieces| ==> (pieces[k].Emph? <==> k % 2 == 1)
    requires PlainHoldsNoTerm(s, terms, pieces)
    requires EmphasisIsLeftmost(s, terms, pieces)
    requires EveryTermEmphasised(s, terms, pieces)
    ensures |pieces| >= 2 && pieces[0] == Plain("") && pieces[1] == Emph(terms[0])
  {
    assert !NoTermAt(s, terms, 0);
    var k :| 0 <= k < |pieces| && pieces[k].Emph? && PieceOffset(pieces, k) <= 0 < PieceOffset(pieces, k) + |pieces[k].text|;
    assert k != 0;
    assert pieces[..0] == [];
    assert pieces[0].Plain? && PieceOffset(pieces, 0) == 0;
    assert pieces[0].text == "";
    assert pieces[..1] == [pieces[0]];
    assert Rendered([pieces[0]]) == "" + Rendered([]);
    assert PieceOffset(pieces, 1) == 0 && pieces[1].Emph?;
    var i :| 0 <= i < |terms| && EarliestAt(s, terms, 0, i) && pieces[1].text == terms[i];
    assert i == 0;
  }

  /** A text that starts with the first listed term renders as an empty
      plain piece followed by that term in bold. */
  lemma LeadingTermEmphasised(s: string, terms: seq<string>)
    requires NonEmptyTerms(terms)
    requires |terms| > 0 && OccursAt(s, terms[0], 0)
    ensures |HighlightTerms(s, terms)| >= 2
    ensures HighlightTerms(s, terms)[0] == Plain("")
    ensures HighlightTerms(s, terms)[1] == Emph(terms[0])
  {
    HighlightIsFaithful(s, terms);
    LeadingPieces(s, terms, HighlightTerms(s, terms));
  }

  lemma BioStartsWithFirstTerm()
    ensures NonEmptyTerms(BioTerms) && |BioTerms| > 0
    ensures OccursAt(BioText, BioTerms[0], 0)
  {
    assert BioText[..9] == "4.5 years";
  }

  /** The bio opens with an empty plain piece and "4.5 years" in bold. */
  lemma BioOpensWithYears()
    ensures |RenderBio()| >= 2
    ensures RenderBio()[0] == Plain("") && RenderBio()[1] == Emph("4.5 years")
  {
    BioStartsWithFirstTerm();
    LeadingTermEmphasised(BioText, BioTerms);
  }

  /** Order matters: at "JavaScript" the second term is taken ... */
  lemma BioJavaScriptWins()
    ensures FirstAlternative(EscapeAll(BioTerms), "JavaScript", 0, 0) == Some(1)
  {
    var s := "JavaScript";
    var terms := BioTerms;
    assert OccursAt(s, terms[1], 0) && !OccursAt(s, terms[0], 0) by {
      assert s[0..10] == s;
      assert s[0] != terms[0][0];
    }
    FirstListedTermWins(terms, 1, s, 0);
  }

  /** ... although "Java", the seventh, matches there too. */
  lemma BioJavaMatchesThere()
    ensures MatchesAt(EscapeAll(BioTerms)[6], "JavaScript", 0)
  {
    var s := "JavaScript";
    assert OccursAt(s, BioTerms[6], 0) by {
      assert s[0..4] == "Java";
    }
    EscapedMatchesExactly(BioTerms[6], s, 0);
  }

  /** "React" is listed before "React.js", so "React.js" is never taken as a
      whole: in "React.js" only "React" is emphasised. */
  lemma BioReactJsNeverWhole(s: string, q: nat)
    ensures FirstAlternative(EscapeAll(BioTerms), s, q, 0) != Some(8)
  {
    assert StartsWith(BioTerms[8], BioTerms[2]) by {
      assert BioTerms[8][..5] == "React";
    }
    ShadowedTermNeverTaken(BioTerms, 2, 8, s, q);
  }

  // ---------------------------------------------------------------------
  // The achievements
  // ---------------------------------------------------------------------

  const AchievementTokens: seq<string> := ["$20M", "80%", "20%", "8 hours"]

  /** The alternatives of `/(\$20M|80%|20%|8 hours)/g` as written. */
  const AchievementAlternatives: seq<string> := ["\\$20M", "80%", "20%", "8 hours"]

  lemma {:induction false} EscapeKeepsPlainText(t: string)
    requires forall k :: 0 <= k < |t| ==> !IsRegexSpecial(t[k])
    ensures Escape(t) == t
  {
    if t != [] {
      EscapeKeepsPlainText(t[1..]);
      assert [t[0]] + t[1..] == t;
    }
  }

  lemma EscapeToken(t: string)
    requires t in AchievementTokens
    ensures Escape(t) == if t == "$20M" then "\\$20M" else t
  {
    if t == "$20M" {
      EscapeKeepsPlainText("20M");
      assert t[1..] == "20M";
    } else {
      EscapeKeepsPlainText(t);
    }
  }

  lemma TokensEscape()
    ensures forall i :: 0 <= i < 4 ==> Escape(AchievementTokens[i]) == AchievementAlternatives[i]
  {
    forall i | 0 <= i < 4 ensures Escape(AchievementTokens[i]) == AchievementAlternatives[i] {
      EscapeToken(AchievementTokens[i]);
    }
  }

  /** The hand-written pattern is the escaped token list, so the tokens are
      matched literally: the dollar sign is the one character that needs
      escaping. */
  lemma AchievementPatternIsEscaped()
    ensures AchievementAlternatives == EscapeAll(AchievementTokens)
  {
    TokensEscape();
  }

  /** `includes` of any of the four tokens. */
  predicate ContainsAnyToken(a: string) {
    Contains(a, "$20M") || Contains(a, "80%") || Contains(a, "20%") || Contains(a, "8 hours")
  }

  /** One achievement line as rendered. */
  function RenderAchievement(a: string): (r: seq<Piece>)
    ensures Rendered(r) == a
  {
    if ContainsAnyToken(a) then
      AchievementPatternIsEscaped();
      HighlightIsFaithful(a, AchievementTokens);
      Emphasise(Split(a, AchievementAlternatives), AchievementTokens)
    else
      [Plain(a)]
  }

  lemma {:induction false} NoMatchSplitsWhole(s: string, alternatives: seq<string>, p: nat, q: nat)
    requires p <= q <= |s|
    requires NoMatchBetween(alternatives, s, q, |s|)
    ensures SplitFrom(s, alternatives, p, q) == [s[p..]]
    decreases |s| - q
  {
    if q < |s| {
      NoMatchSplitsWhole(s, alternatives, p, q + 1);
    }
  }

  /** A text that contains none of the terms splits into itself alone. */
  lemma NoTermSplitsWhole(s: string, terms: seq<string>)
    requires forall j :: 0 <= j < |terms| ==> !Contains(s, terms[j])
    ensures Split(s, EscapeAll(terms)) == [s]
  {
    var alts := EscapeAll(terms);
    forall k: nat | k <= |s| ensures FirstAlternative(alts, s, k, 0).None? {
      forall j | 0 <= j < |terms| ensures !MatchesAt(alts[j], s, k) {
        EscapedMatchesExactly(terms[j], s, k);
      }
    }
    if |s| > 0 {
      NoMatchSplitsWhole(s, alts, 0, 0);
      assert s[0..] == s;
    }
  }

  /** The `includes` test changes nothing but the work done: an achievement
      without a token renders as the one plain piece splitting would give.
      Every achievement reads as written, its bold pieces are exactly the
      pieces equal to a token, at the odd positions, and every occurrence of
      a token is bold. */
  lemma AchievementRendering(a: string)
    ensures RenderAchievement(a) == Emphasise(Split(a, AchievementAlternatives), AchievementTokens)
    ensures Rendered(RenderAchievement(a)) == a
    ensures forall k :: 0 <= k < |RenderAchievement(a)| ==> (RenderAchievement(a)[k].Emph? <==> k % 2 == 1)
    ensures PlainHoldsNoTerm(a, AchievementTokens, RenderAchievement(a))
    ensures EmphasisIsLeftmost(a, AchievementTokens, RenderAchievement(a))
    ensures EveryTermEmphasised(a, AchievementTokens, RenderAchievement(a))
  {
    AchievementPatternIsEscaped();
    var toks := AchievementTokens;
    assert NonEmptyTerms(toks);
    if !ContainsAnyToken(a) {
      NoTermSplitsWhole(a, toks);
      assert Contains(a, a) by {
        assert a[0..|a|] == a;
        assert OccursAt(a, a, 0);
      }
      assert Emphasise([a], toks) == [Plain(a)];
    }
    HighlightIsFaithful(a, toks);
  }
}
