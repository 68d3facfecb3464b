/**
 * The keyboard dispatcher (src/hooks/useKeyboardNavigation.ts). Every keydown
 * is dispatched on its own: there is no key sequence and no timeout. A key
 * leads to a route change, a named document event, a scroll to the previous
 * or next section, or nothing.
 *
 * Which section is current is found from layout geometry in the source; here
 * it is an input (`current`, an index into the `sectionCount` sections, or
 * `None` when no section spans the reference line).
 */
module KeyboardNavigation {
  import opened Wrappers
  import opened Text
  import opened Browser

  datatype Direction = Prev | Next

  datatype Action =
    | NoAction
    | Navigate(route: string)
    | Emit(event: string)
    | AdjacentSection(direction: Direction)

  /** The target is an `INPUT` or `TEXTAREA` element; `None` is a target that
      is not an HTML element. */
  predicate IsTextField(targetTag: Option<string>) {
    targetTag.Some? && (targetTag.value == "INPUT" || targetTag.value == "TEXTAREA")
  }

  /** `handleKeyPress`: the action a keydown leads to. */
  function KeyAction(targetTag: Option<string>, metaKey: bool, ctrlKey: bool, key: string): (a: Action)
    ensures IsTextField(targetTag) ==> a == NoAction
    ensures a.AdjacentSection? ==> metaKey || ctrlKey
    ensures a.Navigate? || a.Emit? ==> !metaKey && !ctrlKey && |key| == 1
  {
    if IsTextField(targetTag) then NoAction
    else if metaKey || ctrlKey then
      var k := ToLower(key);
      if k == "arrowup" then AdjacentSection(Prev)
      else if k == "arrowdown" then AdjacentSection(Next)
      else NoAction
    else
      var k := ToLower(key);
      if k == "h" then Navigate("/")
      else if k == "a" then Navigate("/about")
      else if k == "p" then Navigate("/projects")
      else if k == "c" then Navigate("/contact")
      else if k == "k" then Emit("toggle-keyboard-help")
      else if k == "t" then Emit("toggle-theme")
      else NoAction
  }

  /** `event.preventDefault()` is called exactly for the two section chords. */
  predicate PreventsDefault(a: Action) {
    a.AdjacentSection?
  }

  // ---------------------------------------------------------------------
  // The bindings as a table, and the help table `shortcuts`
  // ---------------------------------------------------------------------

  /** One binding: whether Ctrl/Cmd is held, the lower-case key, the action. */
  datatype Binding = Binding(chord: bool, key: string, action: Action)

  const Bindings: seq<Binding> := [
    Binding(false, "h", Navigate("/")),
    Binding(false, "a", Navigate("/about")),
    Binding(false, "p", Navigate("/projects")),
    Binding(false, "c", Navigate("/contact")),
    Binding(false, "k", Emit("toggle-keyboard-help")),
    Binding(false, "t", Emit("toggle-theme")),
    Binding(true, "arrowup", AdjacentSection(Prev)),
    Binding(true, "arrowdown", AdjacentSection(Next))
  ]

  /** The first binding from index `i` on for (chord, key), or no action. */
  function Lookup(bindings: seq<Binding>, chord: bool, key: string, i: nat): Action
    decreases |bindings| - i
  {
    if i >= |bindings| then NoAction
    else if bindings[i].chord == chord && bindings[i].key == key then bindings[i].action
    else Lookup(bindings, chord, key, i + 1)
  }

  datatype Shortcut = Shortcut(key: string, description: string)

  /** `shortcuts`: the help dialog's table, in its fixed order. */
  const Shortcuts: seq<Shortcut> := [
    Shortcut("H", "Go to Home"),
    Shortcut("A", "Go to About"),
    Shortcut("P", "Go to Projects"),
    Shortcut("C", "Go to Contact"),
    Shortcut("K", "Toggle keyboard shortcuts"),
    Shortcut("T", "Toggle theme"),
    Shortcut("Ctrl + \U{2191}", "Previous section"),
    Shortcut("Ctrl + \U{2193}", "Next section")
  ]

  /** The dispatcher is exactly the binding table: outside text fields a keydown
      does what the first binding for its modifier state and lower-cased key
      says, and nothing when there is none. */
  lemma {:induction false} DispatchIsTableLookup(targetTag: Option<string>, metaKey: bool, ctrlKey: bool, key: string)
    requires !IsTextField(targetTag)
    ensures KeyAction(targetTag, metaKey, ctrlKey, key) == Lookup(Bindings, metaKey || ctrlKey, ToLower(key), 0)
  {
    var k := ToLower(key);
    var c := metaKey || ctrlKey;
    var b := Bindings;
    assert Lookup(b, c, k, 8) == NoAction;
    assert Lookup(b, c, k, 7) == if c && k == "arrowdown" then AdjacentSection(Next) else NoAction;
    assert Lookup(b, c, k, 6) == if c && k == "arrowup" then AdjacentSection(Prev) else Lookup(b, c, k, 7);
    if c {
      assert Lookup(b, c, k, 0) == Lookup(b, c, k, 6);
    } else {
      assert Lookup(b, c, k, 6) == NoAction;
    }
  }

  /** A keydown inside a text field does nothing. */
  lemma TextFieldSuppressesAll(targetTag: Option<string>, metaKey: bool, ctrlKey: bool, key: string)
    requires IsTextField(targetTag)
    ensures KeyAction(targetTag, metaKey, ctrlKey, key) == NoAction
  {
  }

  /** Keys are matched case-insensitively. */
  lemma CaseInsensitive(targetTag: Option<string>, metaKey: bool, ctrlKey: bool, key: string)
    ensures KeyAction(targetTag, metaKey, ctrlKey, key) == KeyAction(targetTag, metaKey, ctrlKey, ToLower(key))
  {
    ToLowerIdempotent(key);
  }

  /** With Ctrl or Cmd held, no one-character key acts: the letter shortcuts
      are unmodified keys only. */
  lemma ChordIgnoresLetters(targetTag: Option<string>, metaKey: bool, ctrlKey: bool, key: string)
    requires metaKey || ctrlKey
    requires |key| == 1
    ensures KeyAction(targetTag, metaKey, ctrlKey, key) == NoAction
  {
    assert |ToLower(key)| == 1;
  }

  /** The key of each letter row of the help table, typed in either case,
      leads to the action of the binding in the same position. */
  lemma HelpRowsAreBound(targetTag: Option<string>, i: nat)
    requires !IsTextField(targetTag)
    requires i < 6
    ensures KeyAction(targetTag, false, false, Shortcuts[i].key) == Bindings[i].action
    ensures KeyAction(targetTag, false, false, ToLower(Shortcuts[i].key)) == Bindings[i].action
  {
    var upper := Shortcuts[i].key;
    assert |upper| == 1 && 'A' <= upper[0] <= 'Z';
    assert ToLower(upper) == [LowerChar(upper[0])];
    assert ToLower(ToLower(upper)) == ToLower(upper) by { ToLowerIdempotent(upper); }
  }

  lemma ArrowUpLowers()
    ensures ToLower("ArrowUp") == "arrowup"
  {
    var up := "ArrowUp";
    assert LowerChar('A') == 'a' && LowerChar('U') == 'u';
    assert LowerChar('r') == 'r' && LowerChar('o') == 'o' && LowerChar('w') == 'w' && LowerChar('p') == 'p';
    assert ToLower(up) == [LowerChar(up[0]), LowerChar(up[1]), LowerChar(up[2]), LowerChar(up[3]),
                           LowerChar(up[4]), LowerChar(up[5]), LowerChar(up[6])];
  }

  lemma ArrowDownLowers()
    ensures ToLower("ArrowDown") == "arrowdown"
  {
    var down := "ArrowDown";
    assert LowerChar('A') == 'a' && LowerChar('D') == 'd';
    assert LowerChar('r') == 'r' && LowerChar('o') == 'o' && LowerChar('w') == 'w' && LowerChar('n') == 'n';
    assert ToLower(down) == [LowerChar(down[0]), LowerChar(down[1]), LowerChar(down[2]), LowerChar(down[3]),
                             LowerChar(down[4]), LowerChar(down[5]), LowerChar(down[6]), LowerChar(down[7]),
                             LowerChar(down[8])];
  }

  /** The two chord rows of the help table, "Ctrl + up arrow" and "Ctrl +
      down arrow", are the Ctrl/Cmd bindings of the arrow keys, in the same
      positions: with Ctrl or Cmd held, ArrowUp scrolls to the previous
      section and ArrowDown to the next. */
  lemma ChordRowsAreBound(targetTag: Option<string>, metaKey: bool, ctrlKey: bool)
    requires !IsTextField(targetTag)
    requires metaKey || ctrlKey
    ensures Shortcuts[6].key == "Ctrl + \U{2191}" && Bindings[6].chord
    ensures KeyAction(targetTag, metaKey, ctrlKey, "ArrowUp") == Bindings[6].action == AdjacentSection(Prev)
    ensures Shortcuts[7].key == "Ctrl + \U{2193}" && Bindings[7].chord
    ensures KeyAction(targetTag, metaKey, ctrlKey, "ArrowDown") == Bindings[7].action == AdjacentSection(Next)
  {
    ArrowUpLowers();
    ArrowDownLowers();
    DispatchIsTableLookup(targetTag, metaKey, ctrlKey, "ArrowUp");
    DispatchIsTableLookup(targetTag, metaKey, ctrlKey, "ArrowDown");
  }

  /** Without a modifier, only the six letters of the help table act. */
  lemma OnlyHelpLettersAct(targetTag: Option<string>, key: string)
    requires !IsTextField(targetTag)
    requires KeyAction(targetTag, false, false, key) != NoAction
    ensures exists i :: 0 <= i < 6 && ToLower(key) == ToLower(Shortcuts[i].key)
  {
    var k := ToLower(key);
    var i := if k == "h" then 0 else if k == "a" then 1 else if k == "p" then 2
             else if k == "c" then 3 else if k == "k" then 4 else 5;
    var upper := Shortcuts[i].key;
    assert ToLower(upper) == [LowerChar(upper[0])];
  }

  // ---------------------------------------------------------------------
  // navigateToAdjacentSection
  // ---------------------------------------------------------------------

  /** The target index: one step in the direction, clamped to the sections. */
  function AdjacentIndex(direction: Direction, current: nat, count: nat): (t: nat)
    requires current < count
    ensures t < count
    ensures t != current <==> ((direction == Next && current + 1 < count) || (direction == Prev && 0 < current))
    ensures direction == Next && t != current ==> t == current + 1
    ensures direction == Prev && t != current ==> t + 1 == current
  {
    match direction
    case Next => if current + 1 < count - 1 then current + 1 else count - 1
    case Prev => if current - 1 > 0 then current - 1 else 0
  }

  /** The section scrolled to, if any: none without sections, without a
      current section, or when the clamped target is the current one. */
  function ScrollTarget(direction: Direction, count: nat, current: Option<nat>): (r: Option<nat>)
    requires current.Some? ==> current.value < count
    ensures r.Some? <==>
              current.Some? &&
              ((direction == Next && current.value + 1 < count) || (direction == Prev && 0 < current.value))
    ensures r.Some? ==> r.value < count && r.value != current.value
    ensures r.Some? && direction == Next ==> r.value == current.value + 1
    ensures r.Some? && direction == Prev ==> r.value + 1 == current.value
  {
    if count == 0 then None
    else if current.None? then None
    else
      var t := AdjacentIndex(direction, current.value, count);
      if t != current.value then Some(t) else None
  }

  /** Going to the next section and then to the previous one comes back. */
  lemma NextThenPrev(count: nat, i: nat)
    requires i < count
    ensures ScrollTarget(Next, count, Some(i)).Some? ==>
            ScrollTarget(Prev, count, ScrollTarget(Next, count, Some(i))) == Some(i)
  {
  }

  // ---------------------------------------------------------------------
  // The listener and its effects
  // ---------------------------------------------------------------------

  /** The document's `keydown` listener with what it can affect: the router
      location, the custom events it dispatches, the sections it scrolls to. */
  class KeyboardNavigator {
    const location: Location
    var dispatchedEvents: seq<string>
    var scrollRequests: seq<nat>

    constructor (location: Location)
      ensures this.location == location && dispatchedEvents == [] && scrollRequests == []
    {
      this.location := location;
      dispatchedEvents := [];
      scrollRequests := [];
    }

    method HandleKeyPress(targetTag: Option<string>, metaKey: bool, ctrlKey: bool, key: string,
                          sectionCount: nat, current: Option<nat>) returns (preventDefault: bool)
      requires current.Some? ==> current.value < sectionCount
      modifies this`dispatchedEvents, this`scrollRequests, location
      ensures preventDefault == PreventsDefault(KeyAction(targetTag, metaKey, ctrlKey, key))
      ensures location.pathname ==
                match KeyAction(targetTag, metaKey, ctrlKey, key)
                case Navigate(route) => route
                case _ => old(location.pathname)
      ensures dispatchedEvents ==
                match KeyAction(targetTag, metaKey, ctrlKey, key)
                case Emit(e) => old(dispatchedEvents) + [e]
                case _ => old(dispatchedEvents)
      ensures scrollRequests ==
                match KeyAction(targetTag, metaKey, ctrlKey, key)
                case AdjacentSection(d) =>
                  (match ScrollTarget(d, sectionCount, current)
                   case Some(t) => old(scrollRequests) + [t]
                   case None => old(scrollRequests))
                case _ => old(scrollRequests)
    {
      var action := KeyAction(targetTag, metaKey, ctrlKey, key);
      preventDefault := false;
      match action {
        case NoAction =>
        case Navigate(route) =>
          location.pathname := route;
        case Emit(e) =>
          dispatchedEvents := dispatchedEvents + [e];
        case AdjacentSection(d) =>
          var target := ScrollTarget(d, sectionCount, current);
          if target.Some? {
            scrollRequests := scrollRequests + [target.value];
          }
          preventDefault := true;
      }
    }
  }
}
