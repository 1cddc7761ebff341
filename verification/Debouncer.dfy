/** The debouncer of the file watcher and the polling step that drives it (src/daemon/watch.rs). */
module Debouncer {
  import opened Clock
  import opened Wrappers
  import opened EventLog

  /** The emitted events are those of the given records, in this order, no record twice. */
  ghost predicate EventsOf(log: Log, records: seq<nat>, events: seq<WatchEvent>) {
    && |records| == |events|
    && (forall k :: 0 <= k < |records| ==>
         records[k] < |log| && log[records[k]].Recorded? && log[records[k]].event == events[k])
    && (forall k, l :: 0 <= k < l < |records| ==> records[k] != records[l])
  }

  class DebouncedEvents<P(==,!new)> {
    const pathOf: string -> P
    const debounceDuration: nat
    var pending: map<P, (WatchEvent, nat)>
    var configPending: Option<nat>
    /** Everything recorded and drained so far. */
    ghost var log: Log

    ghost function Held(slot: Slot<P>): Option<(WatchEvent, nat)>
      reads this
    {
      HeldIn(pending, configPending, slot)
    }

    static ghost function HeldIn(pending: map<P, (WatchEvent, nat)>, configPending: Option<nat>, slot: Slot<P>)
      : Option<(WatchEvent, nat)>
    {
      match slot
      case ConfigSlot => if configPending.Some? then Some((ConfigChanged, configPending.value)) else None
      case PathSlot(p) => if p in pending then Some(pending[p]) else None
    }

    /** The fields hold exactly what the log says has to be remembered. */
    ghost predicate Valid()
      reads this
    {
      forall slot: Slot<P> :: Held(slot) == Remembered(log, slot, debounceDuration, pathOf)
    }

    constructor (pathOf: string -> P, debounceMs: nat)
      ensures this.pathOf == pathOf && debounceDuration == debounceMs
      ensures log == [] && Valid()
    {
      this.pathOf := pathOf;
      debounceDuration := debounceMs;
      pending := map[];
      configPending := None;
      log := [];
    }

    method Record(event: WatchEvent, now: nat)
      requires Valid()
      modifies this
      ensures Valid() && log == old(log) + [Recorded(event, now)]
    {
      match event {
        case ModuleChanged(path) => pending := pending[pathOf(path) := (event, now)];
        case ModuleRemoved(path) => pending := pending[pathOf(path) := (event, now)];
        case ConfigChanged => configPending := Some(now);
        case Error(_) => pending := pending[pathOf("") := (event, now)];
      }
      log := log + [Recorded(event, now)];
      forall slot: Slot<P> ensures Held(slot) == Remembered(log, slot, debounceDuration, pathOf) {
        RememberedAfterRecord(old(log), event, now, slot, debounceDuration, pathOf);
      }
    }

    predicate Due(time: nat, now: nat) {
      Elapsed(time, now) >= debounceDuration
    }

    /** Takes the expired path events out of the table, in whatever order the table is walked. */
    method TakeExpired(now: nat) returns (events: seq<WatchEvent>, ghost paths: seq<P>)
      modifies this`pending
      ensures pending == old(pending) - set p | p in old(pending) && Due(old(pending)[p].1, now)
      ensures Taken(old(pending), now, paths, events)
    {
      events, paths := [], [];
      var expired := set p | p in pending && Due(pending[p].1, now);
      ghost var all := expired;
      while expired != {}
        invariant expired <= all && pending == old(pending) - (all - expired)
        invariant |paths| == |events|
        invariant forall p :: p in paths <==> p in all - expired
        invariant forall k :: 0 <= k < |paths| ==>
          paths[k] in old(pending) && events[k] == old(pending)[paths[k]].0
        invariant forall k, l :: 0 <= k < l < |paths| ==> paths[k] != paths[l]
        decreases |expired|
      {
        var path :| path in expired;
        events := events + [pending[path].0];
        paths := paths + [path];
        pending := pending - {path};
        expired := expired - {path};
      }
    }

    ghost predicate Taken(table: map<P, (WatchEvent, nat)>, now: nat, paths: seq<P>, events: seq<WatchEvent>) {
      && |paths| == |events|
      && (forall p :: p in paths <==> p in table && Due(table[p].1, now))
      && (forall k :: 0 <= k < |paths| ==> paths[k] in table && events[k] == table[paths[k]].0)
      && (forall k, l :: 0 <= k < l < |paths| ==> paths[k] != paths[l])
    }

    /**
     Emits, in some order of the paths, exactly the records that this drain has to emit by the log;
     the configuration event comes first.
     */
    method DrainReady(now: nat) returns (ready: seq<WatchEvent>, ghost records: seq<nat>)
      requires Valid()
      modifies this
      ensures Valid() && log == old(log) + [Drained(now)]
      ensures EventsOf(log, records, ready)
      ensures forall i: nat :: i in records <==> EmittedAt(log, i, |old(log)|, debounceDuration, pathOf)
      ensures forall k :: 0 <= k < |ready| && ready[k].ConfigChanged? ==> k == 0
    {
      ghost var pending0, config0 := pending, configPending;
      assert forall slot: Slot<P> ::
        HeldIn(pending0, config0, slot) == Remembered(log, slot, debounceDuration, pathOf);
      ready := [];
      if configPending.Some? && Due(configPending.value, now) {
        ready := ready + [ConfigChanged];
        configPending := None;
      }
      ghost var paths;
      var events;
      events, paths := TakeExpired(now);
      AfterDrain(log, pending0, config0, now, pending, configPending);
      records := RecordsOf(log, SlotsOf(config0, now, paths), ready + events, now) by {
        SlotsAnswer(log, pending0, config0, now, paths, events);
      }
      ready := ready + events;
      log := log + [Drained(now)];
    }

    /** The slots that a drain answers, in the order of emission. */
    ghost function SlotsOf(config0: Option<nat>, now: nat, paths: seq<P>): seq<Slot<P>> {
      (if config0.Some? && Due(config0.value, now) then [ConfigSlot] else []) +
      seq(|paths|, k requires 0 <= k < |paths| => PathSlot(paths[k]))
    }

    lemma SlotsAnswer(log: Log, pending0: map<P, (WatchEvent, nat)>, config0: Option<nat>, now: nat,
                      paths: seq<P>, events: seq<WatchEvent>)
      requires forall slot: Slot<P> ::
        HeldIn(pending0, config0, slot) == Remembered(log, slot, debounceDuration, pathOf)
      requires Taken(pending0, now, paths, events)
      ensures
        var first := if config0.Some? && Due(config0.value, now) then [ConfigChanged] else [];
        Answers(log, SlotsOf(config0, now, paths), first + events)
      ensures forall slot :: slot in SlotsOf(config0, now, paths) <==> RipeSlot(log, slot, now)
    {
      var slots := SlotsOf(config0, now, paths);
      var first := if config0.Some? && Due(config0.value, now) then [ConfigChanged] else [];
      forall k | 0 <= k < |slots|
        ensures var r := HeldIn(pending0, config0, slots[k]); r.Some? && r.value.0 == (first + events)[k]
        ensures HeldIn(pending0, config0, slots[k]) == Remembered(log, slots[k], debounceDuration, pathOf)
      {
      }
      forall slot: Slot<P> ensures slot in slots <==> RipeSlot(log, slot, now) {
        assert HeldIn(pending0, config0, slot) == Remembered(log, slot, debounceDuration, pathOf);
        match slot
        case ConfigSlot =>
          if config0.Some? && Due(config0.value, now) {
            assert slots[0] == ConfigSlot;
          }
        case PathSlot(p) =>
          if p in paths {
            var k :| 0 <= k < |paths| && paths[k] == p;
            assert slots[|first| + k] == slot;
          }
      }
    }

    /** Dropping what is due from the fields is what a drain does to the log. */
    lemma AfterDrain(log: Log, pending0: map<P, (WatchEvent, nat)>, config0: Option<nat>, now: nat,
                     pending1: map<P, (WatchEvent, nat)>, config1: Option<nat>)
      requires forall slot: Slot<P> ::
        HeldIn(pending0, config0, slot) == Remembered(log, slot, debounceDuration, pathOf)
      requires config1 == if config0.Some? && Due(config0.value, now) then None else config0
      requires pending1 == pending0 - set p | p in pending0 && Due(pending0[p].1, now)
      ensures forall slot: Slot<P> ::
        HeldIn(pending1, config1, slot) == Remembered(log + [Drained(now)], slot, debounceDuration, pathOf)
    {
      forall slot: Slot<P>
        ensures HeldIn(pending1, config1, slot) == Remembered(log + [Drained(now)], slot, debounceDuration, pathOf)
      {
        RememberedAfterDrain(log, now, slot, debounceDuration, pathOf);
        assert HeldIn(pending0, config0, slot) == Remembered(log, slot, debounceDuration, pathOf);
      }
    }

    /**
     The k-th emitted event is the one remembered for the k-th slot; slots differ, and only the
     first can be the configuration.
     */
    ghost predicate Answers(log: Log, slots: seq<Slot<P>>, ready: seq<WatchEvent>) {
      && |slots| == |ready|
      && (forall k :: 0 <= k < |slots| ==>
           var r := Remembered(log, slots[k], debounceDuration, pathOf); r.Some? && r.value.0 == ready[k])
      && (forall k, l :: 0 <= k < l < |slots| ==> slots[k] != slots[l] && slots[l] != ConfigSlot)
    }

    ghost predicate RipeSlot(log: Log, slot: Slot<P>, now: nat) {
      var r := Remembered(log, slot, debounceDuration, pathOf);
      r.Some? && Due(r.value.1, now)
    }

    /** From the slots answered by a drain to the records emitted by it. */
    lemma RecordsOf(log: Log, slots: seq<Slot<P>>, ready: seq<WatchEvent>, now: nat) returns (records: seq<nat>)
      requires Answers(log, slots, ready)
      requires forall slot :: slot in slots <==> RipeSlot(log, slot, now)
      ensures EventsOf(log + [Drained(now)], records, ready)
      ensures forall i: nat :: i in records <==> EmittedAt(log + [Drained(now)], i, |log|, debounceDuration, pathOf)
      ensures forall k :: 0 <= k < |ready| && ready[k].ConfigChanged? ==> k == 0
    {
      records := seq(|slots|, k requires 0 <= k < |slots| => LastRecord(log, slots[k]));
      var longer := log + [Drained(now)];
      forall k | 0 <= k < |slots|
        ensures records[k] < |log| && Records(log, records[k], slots[k], pathOf)
        ensures LastOf(log, slots[k], pathOf) == Some(records[k]) && log[records[k]].event == ready[k]
        ensures SlotOf(ready[k], pathOf) == slots[k]
      {
      }
      forall k | 0 < k < |ready| ensures !ready[k].ConfigChanged? {
        assert slots[0] != slots[k] && slots[k] != ConfigSlot;
      }
      forall i: nat | i in records
        ensures EmittedAt(longer, i, |log|, debounceDuration, pathOf)
      {
        var k :| 0 <= k < |records| && records[k] == i;
        assert slots[k] in slots;
        EmissionIsRemembered(log, now, i, debounceDuration, pathOf);
      }
      forall i: nat | EmittedAt(longer, i, |log|, debounceDuration, pathOf)
        ensures i in records
      {
        assert longer[i] == log[i];
        EmissionIsRemembered(log, now, i, debounceDuration, pathOf);
        var slot := SlotOf(log[i].event, pathOf);
        assert RipeSlot(log, slot, now);
        var k :| 0 <= k < |slots| && slots[k] == slot;
        assert records[k] == i;
      }
    }

    ghost function LastRecord(log: Log, slot: Slot<P>): nat {
      var last := LastOf(log, slot, pathOf);
      if last.Some? then last.value else 0
    }

    method HasPending() returns (r: bool)
      requires Valid()
      ensures r <==> exists i: nat :: PendingIn(log, i, debounceDuration, pathOf)
    {
      r := pending != map[] || configPending.Some?;
      HeldIsPending();
    }

    lemma HeldIsPending()
      requires Valid()
      ensures (exists slot: Slot<P> :: Held(slot).Some?) <==>
          exists i: nat :: PendingIn(log, i, debounceDuration, pathOf)
      ensures (pending != map[] || configPending.Some?) <==> exists slot: Slot<P> :: Held(slot).Some?
    {
      if slot: Slot<P> :| Held(slot).Some? {
        assert PendingIn(log, LastRecord(log, slot), debounceDuration, pathOf);
      }
      if i: nat :| PendingIn(log, i, debounceDuration, pathOf) {
        var slot := SlotOf(log[i].event, pathOf);
        assert Records(log, i, slot, pathOf);
        assert Held(slot).Some?;
      }
      if pending != map[] {
        var p :| p in pending;
        assert Held(PathSlot(p)).Some?;
      }
      if configPending.Some? {
        assert Held(ConfigSlot).Some?;
      }
    }

    /**
     One turn of the watch loop: record what has arrived, then drain.  `arrived` pairs each event
     with the time of its recording.
     */
    method Poll(arrived: seq<(WatchEvent, nat)>, now: nat) returns (ready: seq<WatchEvent>, ghost records: seq<nat>)
      requires Valid()
      modifies this
      ensures Valid()
      ensures |log| == |old(log)| + |arrived| + 1 && old(log) <= log && log[|log| - 1] == Drained(now)
      ensures forall k :: 0 <= k < |arrived| ==> log[|old(log)| + k] == Recorded(arrived[k].0, arrived[k].1)
      ensures EventsOf(log, records, ready)
      ensures forall i: nat :: i in records <==> EmittedAt(log, i, |log| - 1, debounceDuration, pathOf)
    {
      for k := 0 to |arrived|
        invariant Valid()
        invariant |log| == |old(log)| + k && old(log) <= log
        invariant forall j :: 0 <= j < k ==> log[|old(log)| + j] == Recorded(arrived[j].0, arrived[j].1)
      {
        Record(arrived[k].0, arrived[k].1);
      }
      ready, records := DrainReady(now);
    }
  }
}
