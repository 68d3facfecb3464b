/**
 * The document-head manager (src/components/Meta.tsx). Its effect sets the
 * document title to `title + " | Developer Portfolio"` and writes eleven
 * `<meta>` tags: a tag already present for a key (by `property` or by
 * `name`) gets the new content, otherwise one new tag is appended, with the
 * `property` attribute for "og:" keys and `name` for the others. Its cleanup
 * removes the first tag of each of the nine og:/twitter: keys and leaves
 * "description" and "theme-color" in place.
 *
 * The head is reduced to its sequence of meta tags in document order. A tag
 * carries one of the two attributes, so `querySelector` on
 * `meta[property=k], meta[name=k]` finds the first tag whose key is `k`.
 */
module Meta {
  import opened Wrappers
  import opened Text

  datatype Attr = Property | Name

  datatype MetaTag = MetaTag(attr: Attr, key: string, content: string)

  /** One entry of the `metaTags` object, in its insertion order. */
  datatype Entry = Entry(key: string, content: string)

  /** The component's properties. */
  datatype MetaProps = MetaProps(title: string, description: string, image: string, kind: string)

  const DefaultProps: MetaProps := MetaProps(
    "Portfolio",
    "Full-stack developer portfolio showcasing modern web applications and technical expertise",
    "/og-image.jpg",
    "website")

  const TitleSuffix: string := " | Developer Portfolio"

  /** `fullTitle`. */
  function FullTitle(title: string): (r: string)
    ensures |r| == |title| + |TitleSuffix|
    ensures r[..|title|] == title && r[|title|..] == TitleSuffix
  {
    title + TitleSuffix
  }

  /** The About page passes a title that already ends in the suffix, so its
      document title carries the suffix twice. */
  lemma AboutTitleRepeatsSuffix()
    ensures FullTitle("About | Developer Portfolio") == "About" + TitleSuffix + TitleSuffix
  {
  }

  // ---------------------------------------------------------------------
  // The tags of one key
  // ---------------------------------------------------------------------

  /** The tags whose key is `k`, in document order. */
  function Only(tags: seq<MetaTag>, k: string): seq<MetaTag> {
    if tags == [] then []
    else (if tags[0].key == k then [tags[0]] else []) + Only(tags[1..], k)
  }

  lemma {:induction false} OnlyAppend(a: seq<MetaTag>, b: seq<MetaTag>, k: string)
    ensures Only(a + b, k) == Only(a, k) + Only(b, k)
  {
    if a != [] {
      assert (a + b)[1..] == a[1..] + b;
      OnlyAppend(a[1..], b, k);
    } else {
      assert a + b == b;
    }
  }

  lemma {:induction false} OnlyAbsent(tags: seq<MetaTag>, k: string)
    requires forall j :: 0 <= j < |tags| ==> tags[j].key != k
    ensures Only(tags, k) == []
  {
    if tags != [] {
      OnlyAbsent(tags[1..], k);
    }
  }

  /** `document.querySelector`: the index of the first tag with key `key`. */
  function Find(tags: seq<MetaTag>, key: string): (r: Option<nat>)
    ensures r.Some? ==> r.value < |tags| && tags[r.value].key == key
    ensures r.Some? ==> forall j :: 0 <= j < r.value ==> tags[j].key != key
    ensures r.None? ==> forall j :: 0 <= j < |tags| ==> tags[j].key != key
  {
    if tags == [] then None
    else if tags[0].key == key then Some(0)
    else
      match Find(tags[1..], key)
      case Some(i) => Some(i + 1)
      case None => None
  }

  /** The tag found is the first of the tags of its key. */
  lemma FoundIsFirst(tags: seq<MetaTag>, key: string)
    ensures Find(tags, key).None? <==> Only(tags, key) == []
    ensures Find(tags, key).Some? ==>
              var i := Find(tags, key).value;
              Only(tags, key) == [tags[i]] + Only(tags[i + 1..], key)
  {
    match Find(tags, key)
    case None =>
      OnlyAbsent(tags, key);
    case Some(i) =>
      assert tags == tags[..i] + [tags[i]] + tags[i + 1..];
      OnlyAppend(tags[..i] + [tags[i]], tags[i + 1..], key);
      OnlyAppend(tags[..i], [tags[i]], key);
      OnlyAbsent(tags[..i], key);
      assert Only([tags[i]], key) == [tags[i]] + Only([], key);
  }

  /** The content the head holds for `key`: that of the first tag. */
  function Lookup(tags: seq<MetaTag>, key: string): (r: Option<string>)
    ensures r == if Only(tags, key) == [] then None else Some(Only(tags, key)[0].content)
  {
    FoundIsFirst(tags, key);
    match Find(tags, key)
    case Some(i) => Some(tags[i].content)
    case None => None
  }

  // ---------------------------------------------------------------------
  // Writing one entry
  // ---------------------------------------------------------------------

  /** A created tag: `property` for "og:" keys, `name` for the others. */
  function NewTag(key: string, content: string): (t: MetaTag)
    ensures t.key == key && t.content == content
    ensures t.attr == Property <==> StartsWith(key, "og:")
  {
    MetaTag(if StartsWith(key, "og:") then Property else Name, key, content)
  }

  /** What writing `content` under `key` does to the tags of that key: the
      first one gets the content, or one new tag is created. */
  function Written(tagsOfKey: seq<MetaTag>, key: string, content: string): seq<MetaTag> {
    if tagsOfKey == [] then [NewTag(key, content)]
    else [tagsOfKey[0].(content := content)] + tagsOfKey[1..]
  }

  /** One iteration of the `forEach` over the entries. */
  function Upsert(tags: seq<MetaTag>, e: Entry): (r: seq<MetaTag>)
    ensures Only(r, e.key) == Written(Only(tags, e.key), e.key, e.content)
    ensures forall k :: k != e.key ==> Only(r, k) == Only(tags, k)
    ensures |r| == |tags| + (if Only(tags, e.key) == [] then 1 else 0)
    ensures Lookup(r, e.key) == Some(e.content)
  {
    FoundIsFirst(tags, e.key);
    match Find(tags, e.key)
    case Some(i) =>
      var r := tags[i := tags[i].(content := e.content)];
      UpdateFirst(tags, e.key, i, e.content);
      r
    case None =>
      var n := NewTag(e.key, e.content);
      assert forall k :: Only(tags + [n], k) == Only(tags, k) + Only([n], k) by {
        forall k ensures Only(tags + [n], k) == Only(tags, k) + Only([n], k) {
          OnlyAppend(tags, [n], k);
        }
      }
      assert forall k :: Only([n], k) == (if n.key == k then [n] else []) + Only([], k);
      tags + [n]
  }

  lemma UpdateFirst(tags: seq<MetaTag>, key: string, i: nat, content: string)
    requires Find(tags, key) == Some(i)
    ensures Only(tags[i := tags[i].(content := content)], key) ==
            Written(Only(tags, key), key, content)
    ensures forall k :: k != key ==> Only(tags[i := tags[i].(content := content)], k) == Only(tags, k)
  {
    FoundIsFirst(tags, key);
    var x := tags[i].(content := content);
    var r := tags[i := x];
    assert r == tags[..i] + [x] + tags[i + 1..];
    assert tags == tags[..i] + [tags[i]] + tags[i + 1..];
    forall k ensures Only(r, k) == Only(tags[..i], k) + Only([x], k) + Only(tags[i + 1..], k)
                  && Only(tags, k) == Only(tags[..i], k) + Only([tags[i]], k) + Only(tags[i + 1..], k)
    {
      OnlyAppend(tags[..i] + [x], tags[i + 1..], k);
      OnlyAppend(tags[..i], [x], k);
      OnlyAppend(tags[..i] + [tags[i]], tags[i + 1..], k);
      OnlyAppend(tags[..i], [tags[i]], k);
    }
    assert forall k :: Only([x], k) == (if x.key == k then [x] else []) + Only([], k);
    assert forall k :: Only([tags[i]], k) == (if tags[i].key == k then [tags[i]] else []) + Only([], k);
    OnlyAbsent(tags[..i], key);
  }

  /** An entry whose content the head already holds changes nothing. */
  lemma UpsertHeld(tags: seq<MetaTag>, e: Entry)
    requires Lookup(tags, e.key) == Some(e.content)
    ensures Upsert(tags, e) == tags
  {
    FoundIsFirst(tags, e.key);
    var i := Find(tags, e.key).value;
    assert tags[i := tags[i].(content := e.content)] == tags;
  }

  // ---------------------------------------------------------------------
  // The effect: all entries, in order
  // ---------------------------------------------------------------------

  /** The entries written, in order. */
  function ApplyEntries(tags: seq<MetaTag>, entries: seq<Entry>): (r: seq<MetaTag>)
    ensures |tags| <= |r| <= |tags| + |entries|
  {
    if entries == [] then tags
    else Upsert(ApplyEntries(tags, entries[..|entries| - 1]), entries[|entries| - 1])
  }

  /** The content the last entry for `k` gives it, if any. */
  function ContentFor(entries: seq<Entry>, k: string): Option<string> {
    if entries == [] then None
    else if entries[|entries| - 1].key == k then Some(entries[|entries| - 1].content)
    else ContentFor(entries[..|entries| - 1], k)
  }

  /** After the effect, each key's tags are those before with the first one
      rewritten, or a single new tag; keys without an entry are untouched. */
  lemma {:induction false} ApplyEffect(tags: seq<MetaTag>, entries: seq<Entry>, k: string)
    ensures Only(ApplyEntries(tags, entries), k) ==
              match ContentFor(entries, k)
              case None => Only(tags, k)
              case Some(c) => Written(Only(tags, k), k, c)
  {
    if entries != [] {
      var init := entries[..|entries| - 1];
      var last := entries[|entries| - 1];
      ApplyEffect(tags, init, k);
      if last.key == k {
        var o := Only(tags, k);
        match ContentFor(init, k)
        case None =>
        case Some(c) =>
          assert Written(Written(o, k, c), k, last.content) == Written(o, k, last.content);
      }
    }
  }

  /** After the effect, the head holds each entry's content for its key. */
  lemma AppliedLookup(tags: seq<MetaTag>, entries: seq<Entry>, k: string)
    requires ContentFor(entries, k).Some?
    ensures Lookup(ApplyEntries(tags, entries), k) == ContentFor(entries, k)
  {
    ApplyEffect(tags, entries, k);
  }

  predicate DistinctKeys(entries: seq<Entry>) {
    forall i, j :: 0 <= i < j < |entries| ==> entries[i].key != entries[j].key
  }

  lemma {:induction false} ContentForDistinct(entries: seq<Entry>, i: nat)
    requires DistinctKeys(entries) && i < |entries|
    ensures ContentFor(entries, entries[i].key) == Some(entries[i].content)
  {
    if i < |entries| - 1 {
      var init := entries[..|entries| - 1];
      assert init[i] == entries[i];
      assert DistinctKeys(init) by {
        forall a, b | 0 <= a < b < |init| ensures init[a].key != init[b].key {
          assert init[a] == entries[a] && init[b] == entries[b];
        }
      }
      ContentForDistinct(init, i);
    }
  }

  /** With distinct keys, the head holds every entry's content after the effect. */
  lemma EntryHeld(tags: seq<MetaTag>, entries: seq<Entry>, i: nat)
    requires DistinctKeys(entries) && i < |entries|
    ensures Lookup(ApplyEntries(tags, entries), entries[i].key) == Some(entries[i].content)
  {
    ContentForDistinct(entries, i);
    AppliedLookup(tags, entries, entries[i].key);
  }

  /** Running the effect again with the same inputs changes nothing. */
  lemma ApplyIsIdempotent(tags: seq<MetaTag>, entries: seq<Entry>)
    requires DistinctKeys(entries)
    ensures ApplyEntries(ApplyEntries(tags, entries), entries) == ApplyEntries(tags, entries)
  {
    var once := ApplyEntries(tags, entries);
    forall i | 0 <= i < |entries| ensures Lookup(once, entries[i].key) == Some(entries[i].content) {
      EntryHeld(tags, entries, i);
    }
    ReapplyPrefix(once, entries, |entries|);
    assert entries[..|entries|] == entries;
  }

  lemma {:induction false} ReapplyPrefix(once: seq<MetaTag>, entries: seq<Entry>, n: nat)
    requires DistinctKeys(entries) && n <= |entries|
    requires forall i :: 0 <= i < |entries| ==> Lookup(once, entries[i].key) == Some(entries[i].content)
    ensures ApplyEntries(once, entries[..n]) == once
  {
    if n > 0 {
      assert entries[..n][..n - 1] == entries[..n - 1];
      ReapplyPrefix(once, entries, n - 1);
      UpsertHeld(once, entries[n - 1]);
    }
  }

  // ---------------------------------------------------------------------
  // The entries of the component
  // ---------------------------------------------------------------------

  /** The `metaTags` object for the given properties, page origin, router
      pathname and theme. */
  function MetaEntries(p: MetaProps, origin: string, pathname: string, isDarkMode: bool): (es: seq<Entry>)
    ensures |es| == 11
    ensures DistinctKeys(es)
  {
    var fullTitle := FullTitle(p.title);
    [ Entry("description", p.description),
      Entry("og:title", fullTitle),
      Entry("og:description", p.description),
      Entry("og:image", origin + p.image),
      Entry("og:url", origin + pathname),
      Entry("og:type", p.kind),
      Entry("twitter:card", "summary_large_image"),
      Entry("twitter:title", fullTitle),
      Entry("twitter:description", p.description),
      Entry("twitter:image", origin + p.image),
      Entry("theme-color", if isDarkMode then "#0f172a" else "#f8fafc") ]
  }

  /** What the head holds after the effect: the social cards repeat the page
      title and description, both images are the origin followed by the image
      path, the URL is the origin followed by the pathname, and the theme
      colour follows dark mode. */
  lemma EffectContents(tags: seq<MetaTag>, p: MetaProps, origin: string, pathname: string, isDarkMode: bool)
    ensures var head := ApplyEntries(tags, MetaEntries(p, origin, pathname, isDarkMode));
            Lookup(head, "og:title") == Lookup(head, "twitter:title") == Some(FullTitle(p.title)) &&
            Lookup(head, "description") == Lookup(head, "og:description") ==
              Lookup(head, "twitter:description") == Some(p.description) &&
            Lookup(head, "og:image") == Lookup(head, "twitter:image") == Some(origin + p.image) &&
            Lookup(head, "og:url") == Some(origin + pathname) &&
            Lookup(head, "og:type") == Some(p.kind) &&
            Lookup(head, "twitter:card") == Some("summary_large_image") &&
            Lookup(head, "theme-color") == Some(if isDarkMode then "#0f172a" else "#f8fafc")
  {
    var es := MetaEntries(p, origin, pathname, isDarkMode);
    EntryHeld(tags, es, 0);
    EntryHeld(tags, es, 1);
    EntryHeld(tags, es, 2);
    EntryHeld(tags, es, 3);
    EntryHeld(tags, es, 4);
    EntryHeld(tags, es, 5);
    EntryHeld(tags, es, 6);
    EntryHeld(tags, es, 7);
    EntryHeld(tags, es, 8);
    EntryHeld(tags, es, 9);
    EntryHeld(tags, es, 10);
  }

  /** A page that passes no properties describes the site as a whole: the
      titles read "Portfolio" with the suffix, the description is the default
      one, the image is the default image under the origin, the type is
      "website". */
  lemma DefaultsDescribeTheSite(tags: seq<MetaTag>, origin: string, pathname: string, isDarkMode: bool)
    ensures var head := ApplyEntries(tags, MetaEntries(DefaultProps, origin, pathname, isDarkMode));
            Lookup(head, "og:title") == Some("Portfolio" + TitleSuffix) &&
            Lookup(head, "description") == Some(DefaultProps.description) &&
            Lookup(head, "og:image") == Some(origin + "/og-image.jpg") &&
            Lookup(head, "og:type") == Some("website")
  {
    EffectContents(tags, DefaultProps, origin, pathname, isDarkMode);
  }

  /** A head without meta tags gains eleven, one per key, "og:" keys under
      `property` and the others under `name`. */
  lemma FreshHead(p: MetaProps, origin: string, pathname: string, isDarkMode: bool, k: string)
    ensures var es := MetaEntries(p, origin, pathname, isDarkMode);
            ContentFor(es, k).Some? ==>
              Only(ApplyEntries([], es), k) == [NewTag(k, ContentFor(es, k).value)]
    ensures var es := MetaEntries(p, origin, pathname, isDarkMode);
            ContentFor(es, k).None? ==> Only(ApplyEntries([], es), k) == []
  {
    ApplyEffect([], MetaEntries(p, origin, pathname, isDarkMode), k);
  }

  // ---------------------------------------------------------------------
  // The cleanup
  // ---------------------------------------------------------------------

  const RemovedKeys: seq<string> := [
    "og:title", "og:description", "og:image", "og:url", "og:type",
    "twitter:card", "twitter:title", "twitter:description", "twitter:image"
  ]

  /** `querySelector(...)?.remove()` for one key: the first tag with the key
      leaves the head. */
  function RemoveFirst(tags: seq<MetaTag>, key: string): (r: seq<MetaTag>)
    ensures Only(r, key) == if Only(tags, key) == [] then [] else Only(tags, key)[1..]
    ensures forall k :: k != key ==> Only(r, k) == Only(tags, k)
    ensures |r| == |tags| - (if Only(tags, key) == [] then 0 else 1)
  {
    FoundIsFirst(tags, key);
    match Find(tags, key)
    case Some(i) =>
      var r := tags[..i] + tags[i + 1..];
      assert tags == tags[..i] + [tags[i]] + tags[i + 1..];
      forall k ensures Only(r, k) == Only(tags[..i], k) + Only(tags[i + 1..], k)
                    && Only(tags, k) == Only(tags[..i], k) + Only([tags[i]], k) + Only(tags[i + 1..], k)
      {
        OnlyAppend(tags[..i], tags[i + 1..], k);
        OnlyAppend(tags[..i] + [tags[i]], tags[i + 1..], k);
        OnlyAppend(tags[..i], [tags[i]], k);
      }
      assert forall k :: Only([tags[i]], k) == (if tags[i].key == k then [tags[i]] else []) + Only([], k);
      OnlyAbsent(tags[..i], key);
      r
    case None =>
      tags
  }

  /** The keys removed, in order. */
  function RemoveKeys(tags: seq<MetaTag>, keys: seq<string>): (r: seq<MetaTag>)
    ensures |tags| - |keys| <= |r| <= |tags|
  {
    if keys == [] then tags
    else RemoveFirst(RemoveKeys(tags, keys[..|keys| - 1]), keys[|keys| - 1])
  }

  /** A listed key loses its first tag, the others keep all of theirs. */
  lemma {:induction false} RemoveEffect(tags: seq<MetaTag>, keys: seq<string>, k: string)
    requires forall i, j :: 0 <= i < j < |keys| ==> keys[i] != keys[j]
    ensures Only(RemoveKeys(tags, keys), k) ==
              if k !in keys || Only(tags, k) == [] then (if k in keys then [] else Only(tags, k))
              else Only(tags, k)[1..]
  {
    if keys != [] {
      var init := keys[..|keys| - 1];
      assert keys == init + [keys[|keys| - 1]];
      RemoveEffect(tags, init, k);
      if k == keys[|keys| - 1] {
        assert k !in init;
      }
    }
  }

  lemma RemovedKeysDistinct()
    ensures forall i, j :: 0 <= i < j < |RemovedKeys| ==> RemovedKeys[i] != RemovedKeys[j]
  {
  }

  /** The cleanup keeps every tag of the keys it does not list, such as
      "description" and "theme-color". */
  lemma CleanupKeepsOthers(tags: seq<MetaTag>, k: string)
    requires k !in RemovedKeys
    ensures Only(RemoveKeys(tags, RemovedKeys), k) == Only(tags, k)
  {
    RemovedKeysDistinct();
    RemoveEffect(tags, RemovedKeys, k);
  }

  lemma CleanupKeepsContent(tags: seq<MetaTag>, k: string, content: string)
    requires k !in RemovedKeys && Lookup(tags, k) == Some(content)
    ensures Lookup(RemoveKeys(tags, RemovedKeys), k) == Some(content)
  {
    CleanupKeepsOthers(tags, k);
  }

  /** The cleanup removes the first tag of each of the nine social keys. */
  lemma CleanupRemovesSocial(tags: seq<MetaTag>, i: nat)
    requires i < |RemovedKeys|
    ensures var k := RemovedKeys[i];
            Only(RemoveKeys(tags, RemovedKeys), k) == if Only(tags, k) == [] then [] else Only(tags, k)[1..]
  {
    RemovedKeysDistinct();
    RemoveEffect(tags, RemovedKeys, RemovedKeys[i]);
  }

  /** The nine removed keys are, in order, the nine entries right after
      "description": every entry except "description" and "theme-color". */
  lemma RemovedKeysAreWritten(p: MetaProps, origin: string, pathname: string, isDarkMode: bool)
    ensures forall i :: 0 <= i < |RemovedKeys| ==> MetaEntries(p, origin, pathname, isDarkMode)[i + 1].key == RemovedKeys[i]
  {
  }

  /** Mounting on a head without social tags and unmounting again leaves no
      social tag behind. */
  lemma UnmountRemovesSocialTags(tags: seq<MetaTag>, p: MetaProps, origin: string, pathname: string, isDarkMode: bool)
    requires forall i :: 0 <= i < |RemovedKeys| ==> Only(tags, RemovedKeys[i]) == []
    ensures var after := RemoveKeys(ApplyEntries(tags, MetaEntries(p, origin, pathname, isDarkMode)), RemovedKeys);
            forall i :: 0 <= i < |RemovedKeys| ==> Only(after, RemovedKeys[i]) == []
  {
    var es := MetaEntries(p, origin, pathname, isDarkMode);
    var head := ApplyEntries(tags, es);
    RemovedKeysAreWritten(p, origin, pathname, isDarkMode);
    forall i | 0 <= i < |RemovedKeys| ensures Only(RemoveKeys(head, RemovedKeys), RemovedKeys[i]) == [] {
      var k := RemovedKeys[i];
      ContentForDistinct(es, i + 1);
      ApplyEffect(tags, es, k);
      CleanupRemovesSocial(head, i);
    }
  }

  /** Unmounting keeps the description the effect wrote ... */
  lemma UnmountKeepsDescription(tags: seq<MetaTag>, p: MetaProps, origin: string, pathname: string, isDarkMode: bool)
    ensures var after := RemoveKeys(ApplyEntries(tags, MetaEntries(p, origin, pathname, isDarkMode)), RemovedKeys);
            Lookup(after, "description") == Some(p.description)
  {
    var es := MetaEntries(p, origin, pathname, isDarkMode);
    EntryHeld(tags, es, 0);
    CleanupKeepsContent(ApplyEntries(tags, es), "description", p.description);
  }

  /** ... and the theme colour. */
  lemma UnmountKeepsThemeColor(tags: seq<MetaTag>, p: MetaProps, origin: string, pathname: string, isDarkMode: bool)
    ensures var after := RemoveKeys(ApplyEntries(tags, MetaEntries(p, origin, pathname, isDarkMode)), RemovedKeys);
            Lookup(after, "theme-color") == Some(if isDarkMode then "#0f172a" else "#f8fafc")
  {
    var es := MetaEntries(p, origin, pathname, isDarkMode);
    EntryHeld(tags, es, 10);
    CleanupKeepsContent(ApplyEntries(tags, es), "theme-color", es[10].content);
  }

  // ---------------------------------------------------------------------
  // The document head
  // ---------------------------------------------------------------------

  /** `document.title` and the meta tags of `document.head`. */
  class Head {
    var title: string
    var tags: seq<MetaTag>

    constructor (title: string, tags: seq<MetaTag>)
      ensures this.title == title && this.tags == tags
    {
      this.title := title;
      this.tags := tags;
    }

    /** The effect body: the title, then the entries in order. */
    method ApplyMeta(p: MetaProps, origin: string, pathname: string, isDarkMode: bool)
      modifies this
      ensures title == FullTitle(p.title)
      ensures tags == ApplyEntries(old(tags), MetaEntries(p, origin, pathname, isDarkMode))
    {
      title := FullTitle(p.title);
      WriteEntries(MetaEntries(p, origin, pathname, isDarkMode));
    }

    /** `Object.entries(metaTags).forEach(...)`: update the first tag of the
        key, or append a new one. */
    method WriteEntries(entries: seq<Entry>)
      modifies this`tags
      ensures tags == ApplyEntries(old(tags), entries)
    {
      var i := 0;
      while i < |entries|
        invariant i <= |entries|
        invariant tags == ApplyEntries(old(tags), entries[..i])
      {
        assert entries[..i + 1][..i] == entries[..i];
        var e := entries[i];
        var existing := Find(tags, e.key);
        if existing.Some? {
          tags := tags[existing.value := tags[existing.value].(content := e.content)];
        } else {
          tags := tags + [NewTag(e.key, e.content)];
        }
        i := i + 1;
      }
      assert entries[..i] == entries;
    }

    /** The cleanup returned by the effect. */
    method Cleanup()
      modifies this`tags
      ensures tags == RemoveKeys(old(tags), RemovedKeys)
    {
      RemoveEach(RemovedKeys);
    }

    /** `tagsToRemove.forEach(...)`: remove the first tag of each key, in
        order. */
    method RemoveEach(keys: seq<string>)
      modifies this`tags
      ensures tags == RemoveKeys(old(tags), keys)
    {
      var i := 0;
      while i < |keys|
        invariant i <= |keys|
        invariant tags == RemoveKeys(old(tags), keys[..i])
      {
        assert keys[..i + 1][..i] == keys[..i];
        var existing := Find(tags, keys[i]);
        if existing.Some? {
          tags := tags[..existing.value] + tags[existing.value + 1..];
        }
        i := i + 1;
      }
      assert keys[..i] == keys;
    }
  }
}
