/**
 The minimal breaker of the benchmark suite (benches/runtime_benchmarks.rs): it opens at the
 first failure, a success closes it from any state, and a probe never times out.
 */
module BenchBreaker {
  import opened Clock
  import opened Wrappers
  import opened KeyedRuns

  datatype CircuitState = Closed | Open(openedAt: nat) | HalfOpen

  type Entry = Option<CircuitState>

  predicate Admits(entry: Entry, now: nat, timeout: nat) {
    match entry
    case None => true
    case Some(Closed) => true
    case Some(Open(openedAt)) => Elapsed(openedAt, now) >= timeout
    case Some(HalfOpen) => false
  }

  /** This breaker has no reset: that operation leaves it alone. */
  function Next(entry: Entry, e: Event, timeout: nat): Entry {
    match e.op
    case Check => if entry.Some? && entry.value.Open? && Admits(entry, e.at, timeout) then Some(HalfOpen) else entry
    case Success => if entry.Some? then Some(Closed) else None
    case Failure => Some(Open(e.at))
    case Reset => entry
    case Evict => None
  }

  function Step(timeout: nat): KeyStep<CircuitState> {
    (entry, e) => Next(entry, e, timeout)
  }

  class CircuitBreaker {
    const timeout: nat
    var states: map<string, CircuitState>

    constructor (timeout: nat)
      ensures this.timeout == timeout && states == map[]
    {
      this.timeout := timeout;
      states := map[];
    }

    method CheckRequest(key: string, now: nat) returns (allowed: bool)
      modifies this
      ensures states == Apply(Step(timeout), old(states), Event(key, Check, now))
      ensures allowed <==> Admits(EntryAt(old(states), key), now, timeout)
    {
      assert key !in states ==> states - {key} == states;
      assert key in states ==> states == states[key := states[key]];
      allowed := true;
      if key in states {
        match states[key]
        case Closed =>
        case Open(openedAt) =>
          if Elapsed(openedAt, now) >= timeout {
            states := states[key := HalfOpen];
          } else {
            allowed := false;
          }
        case HalfOpen =>
          allowed := false;
      }
    }

    method RecordSuccess(key: string, now: nat)
      modifies this
      ensures states == Apply(Step(timeout), old(states), Event(key, Success, now))
    {
      assert key !in states ==> states - {key} == states;
      if key in states {
        states := states[key := Closed];
      }
    }

    method RecordFailure(key: string, now: nat)
      modifies this
      ensures states == Apply(Step(timeout), old(states), Event(key, Failure, now))
    {
      states := states[key := Open(now)];
    }
  }

  predicate Touches(e: Event, key: string, ops: set<Op>) {
    e.key == key && e.op in ops
  }

  lemma {:induction false} StaysHalfOpen(events: seq<Event>, timeout: nat)
    requires forall e :: e in events ==> e.op == Check || e.op == Reset
    ensures RunKey(Step(timeout), Some(HalfOpen), events) == Some(HalfOpen)
  {
    if events != [] {
      assert events[|events| - 1] in events;
      StaysHalfOpen(events[..|events| - 1], timeout);
    }
  }

  /** After the probe is let through, no request for the key passes until a record or an eviction for that key. */
  lemma ProbeIsExclusive(states: map<string, CircuitState>, probe: Event, events: seq<Event>, later: nat, timeout: nat)
    requires probe.op == Check && probe.key in states && states[probe.key].Open?
    requires Admits(EntryAt(states, probe.key), probe.at, timeout)
    requires forall e :: e in events ==> !Touches(e, probe.key, {Success, Failure, Evict})
    ensures !Admits(EntryAt(Run(Step(timeout), Apply(Step(timeout), states, probe), events), probe.key), later, timeout)
  {
    var after := Apply(Step(timeout), states, probe);
    KeysAreIndependent(Step(timeout), after, events, probe.key);
    forall e | e in Project(events, probe.key) ensures e.op == Check || e.op == Reset {
      ProjectMembers(events, probe.key, e);
    }
    StaysHalfOpen(Project(events, probe.key), timeout);
  }

  lemma {:induction false} StaysOpen(openedAt: nat, events: seq<Event>, timeout: nat)
    requires forall e :: e in events ==>
      e.op != Success && e.op != Evict && openedAt <= e.at < openedAt + timeout
    ensures var entry := RunKey(Step(timeout), Some(Open(openedAt)), events);
            entry.Some? && entry.value.Open? && entry.value.openedAt >= openedAt
  {
    if events != [] {
      assert events[|events| - 1] in events;
      StaysOpen(openedAt, events[..|events| - 1], timeout);
    }
  }

  lemma {:induction false} StaysHealthy(entry: Entry, events: seq<Event>, timeout: nat)
    requires entry.None? || entry == Some(Closed)
    requires forall e :: e in events ==> e.op != Failure
    ensures var after := RunKey(Step(timeout), entry, events); after.None? || after == Some(Closed)
  {
    if events != [] {
      assert events[|events| - 1] in events;
      StaysHealthy(entry, events[..|events| - 1], timeout);
    }
  }

  /** After a success every request for the key passes, until it fails again. */
  lemma {:induction false} SuccessHeals(states: map<string, CircuitState>, success: Event, events: seq<Event>,
                                        later: nat, timeout: nat)
    requires success.op == Success
    requires forall e :: e in events ==> !Touches(e, success.key, {Failure})
    ensures
      var after := Run(Step(timeout), Apply(Step(timeout), states, success), events);
      Admits(EntryAt(after, success.key), later, timeout)
  {
    var healed := Apply(Step(timeout), states, success);
    EntryAfter(Step(timeout), states, success, success.key);
    KeysAreIndependent(Step(timeout), healed, events, success.key);
    forall e | e in Project(events, success.key) ensures e.op != Failure {
      ProjectMembers(events, success.key, e);
    }
    StaysHealthy(EntryAt(healed, success.key), Project(events, success.key), timeout);
  }

  /**
   Once a failure is over a timeout old, and not before, the key lets a request through, if
   nothing else has happened to it.
   */
  lemma {:induction false} QuietFailureAdmitsIff(states: map<string, CircuitState>, failure: Event, events: seq<Event>,
                                                 later: nat, timeout: nat)
    requires failure.op == Failure && later >= failure.at
    requires forall e :: e in events ==> e.key != failure.key
    ensures
      var after := Run(Step(timeout), Apply(Step(timeout), states, failure), events);
      Admits(EntryAt(after, failure.key), later, timeout) <==> later >= failure.at + timeout
  {
    var failed := Apply(Step(timeout), states, failure);
    EntryAfter(Step(timeout), states, failure, failure.key);
    KeysAreIndependent(Step(timeout), failed, events, failure.key);
    NothingProjected(events, failure.key);
  }

  lemma {:induction false} OpenKeyStaysOpen(states: map<string, CircuitState>, key: string, openedAt: nat,
                                            events: seq<Event>, timeout: nat)
    requires EntryAt(states, key) == Some(Open(openedAt))
    requires forall e :: e in events && e.key == key ==>
      e.op != Success && e.op != Evict && openedAt <= e.at < openedAt + timeout
    ensures
      var entry := EntryAt(Run(Step(timeout), states, events), key);
      entry.Some? && entry.value.Open? && entry.value.openedAt >= openedAt
  {
    KeysAreIndependent(Step(timeout), states, events, key);
    forall e | e in Project(events, key) ensures e in events && e.key == key {
      ProjectMembers(events, key, e);
    }
    StaysOpen(openedAt, Project(events, key), timeout);
  }

  /**
   After a failure no request for the key passes before the timeout, unless a success or an
   eviction comes in between.
   */
  lemma {:induction false} FailureBlocks(states: map<string, CircuitState>, failure: Event, events: seq<Event>,
                                         later: nat, timeout: nat)
    requires failure.op == Failure && failure.at <= later < failure.at + timeout
    requires forall e :: e in events && e.key == failure.key ==>
      e.op != Success && e.op != Evict && failure.at <= e.at < failure.at + timeout
    ensures
      var after := Run(Step(timeout), Apply(Step(timeout), states, failure), events);
      !Admits(EntryAt(after, failure.key), later, timeout)
  {
    EntryAfter(Step(timeout), states, failure, failure.key);
    OpenKeyStaysOpen(Apply(Step(timeout), states, failure), failure.key, failure.at, events, timeout);
  }
}
