/**
 * The first-visit hook (src/hooks/useFirstVisit.ts): a flag backed by the
 * storage key "has_visited". The mount effect sets the key and the flag on a
 * first visit, and schedules one 'toggle-keyboard-help' event for 2000 ms
 * later; on any later mount it does nothing.
 */
module FirstVisit {
  import opened Browser

  const VisitedKey: string := "has_visited"
  const HelpEvent: string := "toggle-keyboard-help"
  const HelpDelayMs: nat := 2000

  /** A `setTimeout` that dispatches a named document event. */
  datatype Timer = Timer(delayMs: nat, event: string)

  /** What the mount effect leaves behind: the flag, the storage, the timers. */
  datatype VisitOutcome = VisitOutcome(isFirstVisit: bool, items: map<string, string>, scheduled: seq<Timer>)

  /** The mount effect, run on the storage `items`. */
  function MountEffect(items: map<string, string>): (o: VisitOutcome)
    ensures o.isFirstVisit <==> VisitedKey !in items || items[VisitedKey] == []
    ensures o.isFirstVisit ==> VisitedKey in o.items && o.items[VisitedKey] == "true"
    ensures forall k :: k != VisitedKey ==> (k in o.items <==> k in items)
    ensures forall k :: k != VisitedKey && k in items ==> o.items[k] == items[k]
    ensures !o.isFirstVisit ==> o.items == items
    ensures o.scheduled == if o.isFirstVisit then [Timer(HelpDelayMs, HelpEvent)] else []
  {
    if TruthyItem(items, VisitedKey) == [] then
      VisitOutcome(true, items[VisitedKey := "true"], [Timer(HelpDelayMs, HelpEvent)])
    else
      VisitOutcome(false, items, [])
  }

  /** A second mount after a first visit reports "not first visit", writes
      nothing and schedules nothing: over both mounts the help event is
      scheduled exactly once when the first was a first visit. */
  lemma SecondMountIsNotFirst(items: map<string, string>)
    ensures var first := MountEffect(items);
            var second := MountEffect(first.items);
            !second.isFirstVisit && second.items == first.items && second.scheduled == [] &&
            |first.scheduled + second.scheduled| == (if first.isFirstVisit then 1 else 0)
  {
    var first := MountEffect(items);
    assert first.items[VisitedKey] != [];
  }

  /** The hook instance of one mounted component. */
  class FirstVisitHook {
    var isFirstVisit: bool
    var effectRan: bool
    var scheduled: seq<Timer>
    const storage: LocalStorage

    /** Before its effect has run, the hook holds its initial state. */
    predicate Valid()
      reads this
    {
      !effectRan ==> !isFirstVisit && scheduled == []
    }

    /** The first render: the flag is false before the effect runs. */
    constructor (storage: LocalStorage)
      ensures this.storage == storage
      ensures Valid() && !isFirstVisit && !effectRan && scheduled == []
    {
      this.storage := storage;
      isFirstVisit := false;
      effectRan := false;
      scheduled := [];
    }

    /** The effect with an empty dependency list: React runs it once per mount. */
    method RunMountEffect()
      requires Valid() && !effectRan
      modifies this`isFirstVisit, this`effectRan, this`scheduled, storage
      ensures Valid() && effectRan
      ensures isFirstVisit == MountEffect(old(storage.items)).isFirstVisit
      ensures storage.items == MountEffect(old(storage.items)).items
      ensures scheduled == MountEffect(old(storage.items)).scheduled
    {
      var hasVisited := TruthyItem(storage.items, VisitedKey);
      if hasVisited == [] {
        isFirstVisit := true;
        storage.items := storage.items[VisitedKey := "true"];
        scheduled := scheduled + [Timer(HelpDelayMs, HelpEvent)];
      }
      effectRan := true;
    }
  }

  /** Two mounts over one storage without the key: the first reports a first
      visit and schedules the help event; the second reports neither. */
  method TwoMounts(storage: LocalStorage) returns (first: FirstVisitHook, second: FirstVisitHook)
    requires VisitedKey !in storage.items
    modifies storage
    ensures first.isFirstVisit && first.scheduled == [Timer(HelpDelayMs, HelpEvent)]
    ensures !second.isFirstVisit && second.scheduled == []
    ensures storage.items == old(storage.items)[VisitedKey := "true"]
  {
    first := new FirstVisitHook(storage);
    first.RunMountEffect();
    second := new FirstVisitHook(storage);
    SecondMountIsNotFirst(old(storage.items));
    second.RunMountEffect();
  }
}
