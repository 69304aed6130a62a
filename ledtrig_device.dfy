/**
 * The device-to-trigger registry of the LED device activity trigger.
 *
 * The kernel keeps a global list `devs_list` of entries {name, dev, trig}
 * guarded by a reader/writer semaphore. Here the list is the `devs` field of
 * a `Registry` object and each operation runs as one atomic step; whether the
 * non-blocking read lock was obtained is an input of `Activity`. The LED
 * trigger core is a foreign subsystem: its three entry points are recorded,
 * in call order, in the ghost log `log`.
 */
module LedtrigDevice {
  import opened Wrappers
  import opened DevName

  /** The on and off time, in milliseconds, of the one-shot blink (BLINK_DELAY). */
  const BlinkDelay: nat := 30

  /**
   * The `struct led_trigger *` an entry holds. `kzalloc` leaves it `Null`;
   * `led_trigger_register_simple` writes back whatever the LED core produced,
   * and the registry never looks inside it.
   */
  datatype Handle = Null | Trigger(id: nat)

  /** One `struct ledtrig_dev_data`, without its list links. */
  datatype Entry = Entry(name: string, dev: DevId, trig: Handle)

  /** A call into the LED trigger core. */
  datatype Event =
    | Register(name: string, trig: Handle)  // led_trigger_register_simple, with the handle it wrote back
    | Unregister(trig: Handle)              // led_trigger_unregister_simple
    | Fire(trig: Handle, delayOn: nat, delayOff: nat, invert: int)  // led_trigger_blink_oneshot

  // ---------------------------------------------------------------------
  // The list, as a sequence in list order (head first)
  // ---------------------------------------------------------------------

  predicate HasDev(s: seq<Entry>, dev: DevId) {
    exists i :: 0 <= i < |s| && s[i].dev == dev
  }

  /** No two entries share a device. */
  predicate UniqueDevs(s: seq<Entry>) {
    forall i, j :: 0 <= i < j < |s| ==> s[i].dev != s[j].dev
  }

  /** Every entry carries the name derived from its device. */
  predicate WellNamed(s: seq<Entry>) {
    forall i :: 0 <= i < |s| ==> s[i].name == TrigName(s[i].dev)
  }

  /** Where `list_for_each_entry` stops when it looks for `dev`. */
  function FirstMatch(s: seq<Entry>, dev: DevId): (r: Option<nat>)
    ensures r.Some? ==> r.value < |s| && s[r.value].dev == dev
    ensures r.Some? ==> forall k :: 0 <= k < r.value ==> s[k].dev != dev
    ensures r.None? <==> !HasDev(s, dev)
  {
    if s == [] then None
    else if s[0].dev == dev then Some(0)
    else match FirstMatch(s[1..], dev)
      case None => None
      case Some(k) => Some(k + 1)
  }

  /** The list after `ledtrig_dev_add` links candidate `e` (allocation succeeded). */
  function Added(s: seq<Entry>, e: Entry): seq<Entry> {
    if HasDev(s, e.dev) then s else [e] + s
  }

  /** The list after `ledtrig_dev_del(dev)`. */
  function Deleted(s: seq<Entry>, dev: DevId): seq<Entry> {
    match FirstMatch(s, dev)
    case None => s
    case Some(i) => s[..i] + s[i + 1..]
  }

  /** The backend calls `ledtrig_dev_remove_all` makes on list `s`. */
  function UnregisterAll(s: seq<Entry>): seq<Event> {
    if s == [] then [] else [Unregister(s[0].trig)] + UnregisterAll(s[1..])
  }

  /** The candidate `ledtrig_dev_new` builds: `None` when kzalloc fails. */
  function New(dev: DevId, allocOk: bool): (r: Option<Entry>)
    ensures r.Some? <==> allocOk
    ensures r.Some? ==> r.value.dev == dev && r.value.trig == Null
    ensures r.Some? ==> WellNamed([r.value])
  {
    if allocOk then Some(Entry(TrigName(dev), dev, Null)) else None
  }

  // ---------------------------------------------------------------------
  // Which triggers are registered
  // ---------------------------------------------------------------------

  /** The handles of the `Register` calls in `log`, with repetitions. */
  function Registered(log: seq<Event>): multiset<Handle> {
    if log == [] then multiset{}
    else (if log[0].Register? then multiset{log[0].trig} else multiset{}) + Registered(log[1..])
  }

  /** The handles of the `Unregister` calls in `log`, with repetitions. */
  function Unregistered(log: seq<Event>): multiset<Handle> {
    if log == [] then multiset{}
    else (if log[0].Unregister? then multiset{log[0].trig} else multiset{}) + Unregistered(log[1..])
  }

  /** The handles the entries of `s` hold, with repetitions. */
  function Handles(s: seq<Entry>): multiset<Handle> {
    if s == [] then multiset{} else multiset{s[0].trig} + Handles(s[1..])
  }

  lemma {:induction false} LogAppend(a: seq<Event>, b: seq<Event>)
    ensures Registered(a + b) == Registered(a) + Registered(b)
    ensures Unregistered(a + b) == Unregistered(a) + Unregistered(b)
  {
    if a != [] {
      assert (a + b)[1..] == a[1..] + b;
      LogAppend(a[1..], b);
    } else {
      assert a + b == b;
    }
  }

  lemma {:induction false} HandlesAppend(a: seq<Entry>, b: seq<Entry>)
    ensures Handles(a + b) == Handles(a) + Handles(b)
  {
    if a != [] {
      assert (a + b)[1..] == a[1..] + b;
      HandlesAppend(a[1..], b);
    } else {
      assert a + b == b;
    }
  }

  lemma HandlesCons(e: Entry, s: seq<Entry>)
    ensures Handles([e] + s) == multiset{e.trig} + Handles(s)
  {
    assert ([e] + s)[1..] == s;
  }

  /** Appending one call to the log adds its handle to the matching multiset. */
  lemma LogSnoc(log: seq<Event>, ev: Event)
    ensures Registered(log + [ev]) == Registered(log) + (if ev.Register? then multiset{ev.trig} else multiset{})
    ensures Unregistered(log + [ev]) == Unregistered(log) + (if ev.Unregister? then multiset{ev.trig} else multiset{})
  {
    LogAppend(log, [ev]);
    assert [ev][1..] == [];
  }

  // ---------------------------------------------------------------------
  // Properties of the list operations
  // ---------------------------------------------------------------------

  /** Adding keeps devices unique; afterwards the device is present. */
  lemma AddedKeepsUnique(s: seq<Entry>, e: Entry)
    requires UniqueDevs(s)
    ensures UniqueDevs(Added(s, e)) && HasDev(Added(s, e), e.dev)
  {
    if !HasDev(s, e.dev) {
      var r := [e] + s;
      assert r[0] == e;
      forall i, j | 0 <= i < j < |r| ensures r[i].dev != r[j].dev {
        if i > 0 { assert r[i] == s[i - 1] && r[j] == s[j - 1]; }
        else { assert r[j] == s[j - 1]; }
      }
    }
  }

  /**
   * Linking a new, well-named entry at the head and logging its registration
   * keeps uniqueness, derived names and the balance of registered triggers.
   */
  lemma LinkKeepsInvariant(s: seq<Entry>, log: seq<Event>, e: Entry)
    requires UniqueDevs(s) && WellNamed(s) && Registered(log) == Unregistered(log) + Handles(s)
    requires !HasDev(s, e.dev) && e.name == TrigName(e.dev)
    ensures UniqueDevs([e] + s) && WellNamed([e] + s)
    ensures Registered(log + [Register(e.name, e.trig)]) == Unregistered(log + [Register(e.name, e.trig)]) + Handles([e] + s)
  {
    AddedKeepsUnique(s, e);
    assert Added(s, e) == [e] + s;
    HandlesCons(e, s);
    LogSnoc(log, Register(e.name, e.trig));
    forall k | 0 <= k < |[e] + s| ensures ([e] + s)[k].name == TrigName(([e] + s)[k].dev) {
      if k > 0 { assert ([e] + s)[k] == s[k - 1]; }
    }
  }

  /** A second add of a present device changes nothing (idempotence of add). */
  lemma AddedTwice(s: seq<Entry>, e1: Entry, e2: Entry)
    requires e1.dev == e2.dev
    ensures Added(Added(s, e1), e2) == Added(s, e1)
  {
    if !HasDev(s, e1.dev) {
      assert ([e1] + s)[0].dev == e2.dev;
    }
  }

  /**
   * With a match, deleting removes exactly the first entry of `dev`: the
   * entries before it stay in place and those after it move down by one.
   */
  lemma DeletedRemovesFirst(s: seq<Entry>, dev: DevId)
    requires HasDev(s, dev)
    ensures |Deleted(s, dev)| == |s| - 1
    ensures forall k :: 0 <= k < FirstMatch(s, dev).value ==> Deleted(s, dev)[k] == s[k]
    ensures forall k :: FirstMatch(s, dev).value <= k < |s| - 1 ==> Deleted(s, dev)[k] == s[k + 1]
  {
    var i := FirstMatch(s, dev).value;
    assert Deleted(s, dev) == s[..i] + s[i + 1..];
  }

  /** With a match, deleting takes exactly one entry, that match, out of the list. */
  lemma DeletedMultiset(s: seq<Entry>, dev: DevId)
    requires HasDev(s, dev)
    ensures multiset(Deleted(s, dev)) + multiset{s[FirstMatch(s, dev).value]} == multiset(s)
  {
    var i := FirstMatch(s, dev).value;
    assert Deleted(s, dev) == s[..i] + s[i + 1..];
    MultisetRemoveAt(s, i);
  }

  lemma MultisetRemoveAt<T>(s: seq<T>, i: nat)
    requires i < |s|
    ensures multiset(s[..i] + s[i + 1..]) + multiset{s[i]} == multiset(s)
  {
    assert s == s[..i] + [s[i]] + s[i + 1..];
  }

  /** Unlinking entry `i` takes exactly its handle out of the list's handles. */
  lemma HandlesRemoveAt(s: seq<Entry>, i: nat)
    requires i < |s|
    ensures Handles(s[..i] + s[i + 1..]) + multiset{s[i].trig} == Handles(s)
  {
    var front, rest := s[..i], s[i..];
    var t := s[i].trig;
    assert s == front + rest;
    assert rest == [s[i]] + s[i + 1..];
    HandlesAppend(front, rest);
    HandlesCons(s[i], s[i + 1..]);
    HandlesAppend(front, s[i + 1..]);
    ghost var hf, hb := Handles(front), Handles(s[i + 1..]);
    assert Handles(s) == hf + (multiset{t} + hb);
    assert Handles(front + s[i + 1..]) == hf + hb;
  }

  /** With a match, deleting takes exactly the first match's handle out of the list's handles. */
  lemma DeletedHandles(s: seq<Entry>, dev: DevId)
    requires HasDev(s, dev)
    ensures Handles(Deleted(s, dev)) + multiset{s[FirstMatch(s, dev).value].trig} == Handles(s)
  {
    var i := FirstMatch(s, dev).value;
    assert Deleted(s, dev) == s[..i] + s[i + 1..];
    HandlesRemoveAt(s, i);
  }

  /** Deleting keeps devices unique and, on a unique list, leaves no entry of `dev`. */
  lemma DeletedKeepsUnique(s: seq<Entry>, dev: DevId)
    requires UniqueDevs(s)
    ensures UniqueDevs(Deleted(s, dev))
    ensures !HasDev(Deleted(s, dev), dev)
  {
    if HasDev(s, dev) {
      DeletedRemovesFirst(s, dev);
      var i, r := FirstMatch(s, dev).value, Deleted(s, dev);
      forall a, b | 0 <= a < b < |r| ensures r[a].dev != r[b].dev {
        var a', b' := if a < i then a else a + 1, if b < i then b else b + 1;
        assert r[a] == s[a'] && r[b] == s[b'] && a' < b';
      }
      forall k | 0 <= k < |r| ensures r[k].dev != dev {
        var k' := if k < i then k else k + 1;
        assert r[k] == s[k'] && k' != i;
      }
    }
  }

  /** Deleting keeps every remaining entry's derived name. */
  lemma DeletedKeepsNames(s: seq<Entry>, dev: DevId)
    requires WellNamed(s)
    ensures WellNamed(Deleted(s, dev))
  {
    if HasDev(s, dev) {
      DeletedRemovesFirst(s, dev);
    }
  }

  /** `add` of a new device followed by `del` of it restores the list. */
  lemma DeleteUndoesAdd(s: seq<Entry>, e: Entry)
    requires !HasDev(s, e.dev)
    ensures Deleted(Added(s, e), e.dev) == s
  {
    assert FirstMatch([e] + s, e.dev) == Some(0);
  }

  /** Unlinking the head keeps a list unique and well named. */
  lemma TailKeepsInvariant(s: seq<Entry>)
    requires s != [] && UniqueDevs(s) && WellNamed(s)
    ensures UniqueDevs(s[1..]) && WellNamed(s[1..])
  {
    forall i, j | 0 <= i < j < |s| - 1 ensures s[1..][i].dev != s[1..][j].dev {
      assert s[1..][i] == s[i + 1] && s[1..][j] == s[j + 1];
    }
  }

  /**
   * On a unique, well-named list whose devices all fit seven decimal digits
   * per number, no two entries register a trigger under the same name.
   */
  lemma RegisteredNamesDistinct(s: seq<Entry>)
    requires UniqueDevs(s) && WellNamed(s)
    requires forall k :: 0 <= k < |s| ==> s[k].dev.major < Pow10(7) && s[k].dev.minor < Pow10(7)
    ensures forall i, j :: 0 <= i < j < |s| ==> s[i].name != s[j].name
  {
    forall i, j | 0 <= i < j < |s| ensures s[i].name != s[j].name {
      NamesDistinct(s[i].dev, s[j].dev);
    }
  }

  /** Releasing the head is the first step of tearing down `s`. */
  lemma DrainStep(log: seq<Event>, s: seq<Entry>)
    requires s != []
    ensures (log + [Unregister(s[0].trig)]) + UnregisterAll(s[1..]) == log + UnregisterAll(s)
  {
  }

  /** Teardown issues one unregister per entry, in list order. */
  lemma {:induction false} UnregisterAllAt(s: seq<Entry>, k: nat)
    requires k < |s|
    ensures |UnregisterAll(s)| == |s|
    ensures UnregisterAll(s)[k] == Unregister(s[k].trig)
  {
    if k > 0 {
      UnregisterAllAt(s[1..], k - 1);
    } else if |s| > 1 {
      UnregisterAllAt(s[1..], 0);
    }
  }

  /** Teardown of `s` unregisters exactly the handles of `s` and registers nothing. */
  lemma {:induction false} UnregisterAllHandles(s: seq<Entry>)
    ensures Registered(UnregisterAll(s)) == multiset{}
    ensures Unregistered(UnregisterAll(s)) == Handles(s)
  {
    if s != [] {
      var u := UnregisterAll(s);
      assert u[1..] == UnregisterAll(s[1..]);
      UnregisterAllHandles(s[1..]);
    }
  }

  // ---------------------------------------------------------------------
  // The registry
  // ---------------------------------------------------------------------

  class Registry {
    /** `devs_list`, head first. */
    var devs: seq<Entry>
    /** Every call made into the LED trigger core, oldest first. */
    ghost var log: seq<Event>

    /**
     * Devices are unique, names are derived from devices, and the triggers
     * registered and not yet unregistered are exactly those the linked
     * entries hold, counted with repetitions.
     */
    ghost predicate Valid()
      reads this
    {
      UniqueDevs(devs) && WellNamed(devs) &&
      Registered(log) == Unregistered(log) + Handles(devs)
    }

    /** `static LIST_HEAD(devs_list)`: the list starts empty. */
    constructor ()
      ensures Valid() && devs == [] && log == []
    {
      devs := [];
      log := [];
    }

    /** The `list_for_each_entry` scan for `dev`, with its `found` flag. */
    method Lookup(dev: DevId) returns (found: bool, i: nat)
      ensures found == HasDev(devs, dev)
      ensures found ==> FirstMatch(devs, dev) == Some(i)
    {
      found, i := false, 0;
      while i < |devs|
        invariant i <= |devs|
        invariant forall k :: 0 <= k < i ==> devs[k].dev != dev
      {
        if devs[i].dev == dev {
          found := true;
          return;
        }
        i := i + 1;
      }
    }

    /** `ledtrig_dev_activity`: blink the first trigger of `dev` once. */
    method Activity(dev: DevId, lockAcquired: bool)
      requires Valid()
      modifies this`log
      ensures Valid() && devs == old(devs)
      ensures lockAcquired && HasDev(devs, dev) ==>
        log == old(log) + [Fire(devs[FirstMatch(devs, dev).value].trig, BlinkDelay, BlinkDelay, 0)]
      ensures !(lockAcquired && HasDev(devs, dev)) ==> log == old(log)
    {
      if !lockAcquired {
        return;
      }
      var found, i := Lookup(dev);
      if found {
        log := log + [Fire(devs[i].trig, BlinkDelay, BlinkDelay, 0)];
        LogSnoc(old(log), Fire(devs[i].trig, BlinkDelay, BlinkDelay, 0));
      }
    }

    /** `ledtrig_dev_release`: unregister the trigger; the kfree is not modelled. */
    method Release(e: Entry)
      modifies this`log
      ensures log == old(log) + [Unregister(e.trig)]
      ensures Registered(log) == Registered(old(log))
      ensures Unregistered(log) == Unregistered(old(log)) + multiset{e.trig}
    {
      log := log + [Unregister(e.trig)];
      LogSnoc(old(log), Unregister(e.trig));
    }

    /**
     * `ledtrig_dev_add`. `allocOk` is whether kzalloc succeeded; `registered`
     * is the trigger pointer `led_trigger_register_simple` writes back.
     */
    method Add(dev: DevId, allocOk: bool, registered: Handle)
      requires Valid()
      modifies this
      ensures Valid()
      ensures !allocOk || HasDev(old(devs), dev) ==> devs == old(devs) && log == old(log)
      ensures allocOk && !HasDev(old(devs), dev) ==>
        devs == [Entry(TrigName(dev), dev, registered)] + old(devs) &&
        log == old(log) + [Register(TrigName(dev), registered)]
      ensures allocOk ==> devs == Added(old(devs), Entry(TrigName(dev), dev, registered))
    {
      var cand := New(dev, allocOk);
      if cand.None? {
        return;
      }
      var found, _ := Lookup(dev);
      if !found {
        ghost var linked := Entry(cand.value.name, dev, registered);
        LinkKeepsInvariant(devs, log, linked);
        devs := [cand.value] + devs;                              // list_add
        log := log + [Register(cand.value.name, registered)];    // led_trigger_register_simple
        devs := [devs[0].(trig := registered)] + devs[1..];     // ... stores the handle
        assert devs == [linked] + old(devs);
      }
      // otherwise the candidate is freed and nothing else happens
    }

    /** `ledtrig_dev_del`: unlink the first entry of `dev` and release it. */
    method Del(dev: DevId)
      requires Valid()
      modifies this
      ensures Valid()
      ensures devs == Deleted(old(devs), dev)
      ensures !HasDev(devs, dev)
      ensures !HasDev(old(devs), dev) ==> log == old(log)
      ensures HasDev(old(devs), dev) ==>
        log == old(log) + [Unregister(old(devs)[FirstMatch(old(devs), dev).value].trig)]
    {
      DeletedKeepsUnique(devs, dev);
      DeletedKeepsNames(devs, dev);
      var found, i := Lookup(dev);
      if found {
        var e := devs[i];
        DeletedHandles(devs, dev);
        devs := devs[..i] + devs[i + 1..];  // list_del
        Release(e);
      }
    }

    /**
     * `ledtrig_dev_remove_all`. Each pass unlinks the node the cursor is on
     * and steps the cursor back to the list head, so every pass takes the
     * current head until the list is empty.
     */
    method RemoveAll()
      requires Valid()
      modifies this
      ensures Valid()
      ensures devs == []
      ensures log == old(log) + UnregisterAll(old(devs))
    {
      while devs != []
        invariant Valid()
        invariant log + UnregisterAll(devs) == old(log) + UnregisterAll(old(devs))
        decreases |devs|
      {
        var e := devs[0];
        DrainStep(log, devs);
        TailKeepsInvariant(devs);
        devs := devs[1..];  // list_del(en)
        Release(e);         // ledtrig_dev_release
      }
      assert log + UnregisterAll(devs) == log;
    }
  }

  // ---------------------------------------------------------------------
  // Consequences for callers
  // ---------------------------------------------------------------------

  /** A second teardown right after the first one makes no backend call. */
  method RemoveAllTwice(r: Registry)
    requires r.Valid()
    modifies r
    ensures r.Valid() && r.devs == []
    ensures r.log == old(r.log) + UnregisterAll(old(r.devs))
  {
    r.RemoveAll();
    ghost var once := r.log;
    r.RemoveAll();
    assert r.log == once;
  }

  /** `add` then `del` of a new device: same list, one register and one unregister. */
  method AddThenDel(r: Registry, dev: DevId, registered: Handle)
    requires r.Valid() && !HasDev(r.devs, dev)
    modifies r
    ensures r.Valid() && r.devs == old(r.devs)
    ensures r.log == old(r.log) + [Register(TrigName(dev), registered), Unregister(registered)]
  {
    r.Add(dev, true, registered);
    r.Del(dev);
  }

  /** Two adds of 8:0 leave one entry and one registration. */
  method ScenarioDuplicate() {
    var r := new Registry();
    var d := DevId(8, 0);
    r.Add(d, true, Trigger(1));
    assert r.devs[0].dev == d;
    r.Add(d, true, Trigger(2));
    assert r.devs == [Entry(TrigName(d), d, Trigger(1))];
    assert r.log == [Register(TrigName(d), Trigger(1))];
  }

  /** Add 8:0 and 8:16, delete 8:0: only 8:16 is left. */
  method ScenarioDelete() {
    var r := new Registry();
    var d0, d16 := DevId(8, 0), DevId(8, 16);
    r.Add(d0, true, Trigger(1));
    r.Add(d16, true, Trigger(2));
    r.Del(d0);
    assert r.devs == [Entry(TrigName(d16), d16, Trigger(2))];
  }

  /** Activity on 8:0 fires its trigger once with 30/30; on 9:0 nothing happens. */
  method ScenarioActivity() {
    var r := new Registry();
    var d := DevId(8, 0);
    r.Add(d, true, Trigger(1));
    assert r.devs[0].dev == d;
    r.Activity(d, true);
    assert r.log == [Register(TrigName(d), Trigger(1)), Fire(Trigger(1), 30, 30, 0)];
    r.Activity(DevId(9, 0), true);
    r.Activity(d, false);
    assert |r.log| == 2;
  }

  /** Add 8:0 and 8:16, then tear down: both triggers unregistered once, newest first. */
  method ScenarioTeardown() {
    var r := new Registry();
    var d0, d16 := DevId(8, 0), DevId(8, 16);
    r.Add(d0, true, Trigger(1));
    r.Add(d16, true, Trigger(2));
    ghost var before := r.log;
    r.RemoveAll();
    assert r.devs == [];
    assert UnregisterAll(r.devs) == [];
    assert r.log == before + [Unregister(Trigger(2)), Unregister(Trigger(1))];
  }
}
