/** The circuit breaker that guards module requests (src/reliability/circuit_breaker/mod.rs). */
module CircuitBreaker {
  import opened Clock
  import opened Integers
  import opened Wrappers
  import opened KeyedRuns

  datatype CircuitState =
    | Closed(failureCount: u32)
    | Open(openedAt: nat, failureCount: u32)
    | HalfOpen(startedAt: nat)

  datatype Config = Config(failureThreshold: u32, timeout: nat, probeTimeout: nat)

  datatype OpenReason = CircuitOpen | ProbeInFlight

  datatype OpenError = OpenError(key: string, failureCount: u32, reason: OpenReason)

  type Entry = Option<CircuitState>

  function SaturatingIncrement(n: u32): u32 {
    if n == U32_MAX then n else n + 1
  }

  /** Does a check at this moment let the request through? */
  predicate Admits(entry: Entry, now: nat, c: Config) {
    match entry
    case None => true
    case Some(Closed(_)) => true
    case Some(Open(openedAt, _)) => Elapsed(openedAt, now) >= c.timeout
    case Some(HalfOpen(startedAt)) => Elapsed(startedAt, now) >= c.probeTimeout
  }

  predicate Tripped(entry: Entry) {
    entry.Some? && !entry.value.Closed?
  }

  function OnCheck(entry: Entry, now: nat, c: Config): Entry {
    if Tripped(entry) && Admits(entry, now, c) then Some(HalfOpen(now)) else entry
  }

  function OnSuccess(entry: Entry): Entry {
    match entry
    case None => None
    case Some(Closed(_)) => Some(Closed(0))
    case Some(HalfOpen(_)) => Some(Closed(0))
    case Some(Open(_, _)) => entry
  }

  function OnFailure(entry: Entry, now: nat, c: Config): Entry {
    match entry
    case None => if c.failureThreshold <= 1 then Some(Open(now, 1)) else Some(Closed(1))
    case Some(Closed(count)) =>
      var newCount := SaturatingIncrement(count);
      if newCount >= c.failureThreshold then Some(Open(now, newCount)) else Some(Closed(newCount))
    case Some(HalfOpen(_)) => Some(Open(now, 1))
    case Some(Open(_, count)) => Some(Open(now, SaturatingIncrement(count)))
  }

  function OnReset(entry: Entry): Entry {
    if entry.Some? then Some(Closed(0)) else None
  }

  function Next(entry: Entry, e: Event, c: Config): Entry {
    match e.op
    case Check => OnCheck(entry, e.at, c)
    case Success => OnSuccess(entry)
    case Failure => OnFailure(entry, e.at, c)
    case Reset => OnReset(entry)
    case Evict => None
  }

  function Step(c: Config): KeyStep<CircuitState> {
    (entry, e) => Next(entry, e, c)
  }

  class CircuitBreaker {
    const config: Config
    /** The tracked keys; a key that is idle or crowded out disappears from here. */
    var states: map<string, CircuitState>

    constructor (config: Config)
      ensures this.config == config && states == map[]
    {
      this.config := config;
      states := map[];
    }

    method CheckRequest(key: string, now: nat) returns (r: Result<(), OpenError>)
      modifies this
      ensures states == Apply(Step(config), old(states), Event(key, Check, now))
      ensures r.Ok? <==> Admits(EntryAt(old(states), key), now, config)
      ensures r.Err? ==>
        r.error == match old(states)[key]
                   case Open(_, count) => OpenError(key, count, CircuitOpen)
                   case _ => OpenError(key, 0, ProbeInFlight)
    {
      assert key !in states ==> states - {key} == states;
      assert key in states ==> states == states[key := states[key]];
      if key !in states {
        return Ok(());
      }
      match states[key]
      case Closed(_) =>
        return Ok(());
      case Open(openedAt, failureCount) =>
        if Elapsed(openedAt, now) >= config.timeout {
          states := states[key := HalfOpen(now)];
          return Ok(());
        }
        return Err(OpenError(key, failureCount, CircuitOpen));
      case HalfOpen(startedAt) =>
        if Elapsed(startedAt, now) >= config.probeTimeout {
          states := states[key := HalfOpen(now)];
          return Ok(());
        }
        return Err(OpenError(key, 0, ProbeInFlight));
    }

    method RecordSuccess(key: string, now: nat)
      modifies this
      ensures states == Apply(Step(config), old(states), Event(key, Success, now))
    {
      assert key !in states ==> states - {key} == states;
      assert key in states ==> states == states[key := states[key]];
      if key in states {
        match states[key]
        case Closed(count) =>
          if count != 0 {
            states := states[key := Closed(0)];
          }
        case HalfOpen(_) =>
          states := states[key := Closed(0)];
        case Open(_, _) =>
      }
    }

    method RecordFailure(key: string, now: nat)
      modifies this
      ensures states == Apply(Step(config), old(states), Event(key, Failure, now))
    {
      var threshold := config.failureThreshold;
      if key !in states {
        states := states[key := if threshold <= 1 then Open(now, 1) else Closed(1)];
        return;
      }
      match states[key]
      case Closed(count) =>
        var newCount := SaturatingIncrement(count);
        states := states[key := if newCount >= threshold then Open(now, newCount) else Closed(newCount)];
      case HalfOpen(_) =>
        states := states[key := Open(now, 1)];
      case Open(_, count) =>
        states := states[key := Open(now, SaturatingIncrement(count))];
    }

    method ResetKey(key: string, now: nat)
      modifies this
      ensures states == Apply(Step(config), old(states), Event(key, Reset, now))
    {
      assert key !in states ==> states - {key} == states;
      if key in states {
        states := states[key := Closed(0)];
      }
    }

    /** Offered as an inspection, but it is a check: it may take the probe slot itself. */
    method IsBlocking(key: string, now: nat) returns (blocking: bool)
      modifies this
      ensures states == Apply(Step(config), old(states), Event(key, Check, now))
      ensures blocking <==> !Admits(EntryAt(old(states), key), now, config)
    {
      var r := CheckRequest(key, now);
      return r.Err?;
    }
  }

  // ---- Laws of one key's run ----

  /** Failures since the last success, reset or eviction. */
  function FailureStretch(events: seq<Event>): nat {
    if events == [] then 0
    else
      var front := events[..|events| - 1];
      match events[|events| - 1].op
      case Failure => FailureStretch(front) + 1
      case Check => FailureStretch(front)
      case _ => 0
  }

  /** A threshold of zero opens at the first failure, just as one does. */
  function OpeningCount(c: Config): nat {
    if c.failureThreshold <= 1 then 1 else c.failureThreshold
  }

  /**
   From an untracked key: the stored count of a closed circuit is the true failure stretch and
   stays below the threshold; so a stretch that reaches it leaves the circuit tripped.
   */
  lemma {:induction false} ClosedCountsFailures(events: seq<Event>, c: Config)
    ensures
      var entry, stretch := RunKey(Step(c), None, events), FailureStretch(events);
      && (entry.None? ==> stretch == 0)
      && (entry.Some? && entry.value.Closed? ==> entry.value.failureCount == stretch < OpeningCount(c))
      && (stretch >= OpeningCount(c) ==> Tripped(entry))
  {
    if events != [] {
      ClosedCountsFailures(events[..|events| - 1], c);
    }
  }

  /**
   Failures in a row open an untracked circuit exactly if there are as many as the threshold says,
   and at least one.
   */
  lemma {:induction false} FailuresInARowTripIff(events: seq<Event>, c: Config)
    requires forall e :: e in events ==> e.op == Failure
    ensures FailureStretch(events) == |events|
    ensures Tripped(RunKey(Step(c), None, events)) <==> |events| >= 1 && |events| >= c.failureThreshold
  {
    if events != [] {
      var front := events[..|events| - 1];
      assert events[|events| - 1] in events && forall e :: e in front ==> e in events;
      FailuresInARowTripIff(front, c);
      ClosedCountsFailures(front, c);
    }
    ClosedCountsFailures(events, c);
  }

  /** A tripped circuit has seen, at some moment of its run, a stretch of failures that reached the threshold. */
  lemma {:induction false} TrippedOnlyAtThreshold(events: seq<Event>, c: Config) returns (n: nat)
    requires Tripped(RunKey(Step(c), None, events))
    ensures n <= |events| && FailureStretch(events[..n]) >= OpeningCount(c)
  {
    var front := events[..|events| - 1];
    ClosedCountsFailures(front, c);
    if Tripped(RunKey(Step(c), None, front)) {
      n := TrippedOnlyAtThreshold(front, c);
      assert events[..n] == front[..n];
    } else {
      n := |events|;
      assert events[..n] == events;
    }
  }

  /** Operations that can end a tripped period. */
  predicate Closes(op: Op) {
    op == Success || op == Reset || op == Evict
  }

  ghost predicate Within(events: seq<Event>, from: nat, length: nat) {
    forall i :: 0 <= i < |events| ==> from <= events[i].at < from + length
  }

  lemma {:induction false} OpenPeriod(openedAt: nat, count: u32, events: seq<Event>, c: Config)
    requires Within(events, openedAt, c.timeout)
    requires forall e :: e in events ==> e.op != Reset && e.op != Evict
    ensures var entry := RunKey(Step(c), Some(Open(openedAt, count)), events);
            entry.Some? && entry.value.Open? && entry.value.openedAt >= openedAt
  {
    if events != [] {
      assert events[|events| - 1] in events;
      OpenPeriod(openedAt, count, events[..|events| - 1], c);
    }
  }

  /**
   After a failure that leaves the circuit of a key open, nothing is let through for that key for
   the timeout unless it is reset or evicted, whatever happens to other keys meanwhile.
   */
  lemma {:induction false} OpenBlocksInTable(states: map<string, CircuitState>, events: seq<Event>, key: string,
                                             now: nat, c: Config)
    requires key in states && states[key].Open?
    requires states[key].openedAt <= now < states[key].openedAt + c.timeout
    requires forall e :: e in events && e.key == key ==>
      e.op != Reset && e.op != Evict && states[key].openedAt <= e.at < states[key].openedAt + c.timeout
    ensures !Admits(EntryAt(Run(Step(c), states, events), key), now, c)
  {
    KeysAreIndependent(Step(c), states, events, key);
    var mine := Project(events, key);
    forall e | e in mine ensures e in events && e.key == key {
      ProjectMembers(events, key, e);
    }
    OpenPeriod(states[key].openedAt, states[key].failureCount, mine, c);
  }

  /**
   A failure that trips the circuit, or meets it tripped, open or half-open, blocks the key for the
   timeout from that moment, over any run without a reset or eviction.
   */
  lemma {:induction false} FailureBlocks(states: map<string, CircuitState>, failure: Event, events: seq<Event>,
                                         later: nat, c: Config)
    requires failure.op == Failure && failure.at <= later < failure.at + c.timeout
    requires
      || Tripped(EntryAt(states, failure.key))
      || Tripped(EntryAt(Apply(Step(c), states, failure), failure.key))
    requires forall e :: e in events && e.key == failure.key ==>
      e.op != Reset && e.op != Evict && failure.at <= e.at < failure.at + c.timeout
    ensures
      var after := Run(Step(c), Apply(Step(c), states, failure), events);
      !Admits(EntryAt(after, failure.key), later, c)
  {
    EntryAfter(Step(c), states, failure, failure.key);
    OpenBlocksInTable(Apply(Step(c), states, failure), events, failure.key, later, c);
  }

  /** And if nothing else happens to the key, it lets a request through exactly once the timeout is over. */
  lemma {:induction false} QuietFailureAdmitsIff(states: map<string, CircuitState>, failure: Event, events: seq<Event>,
                                                 later: nat, c: Config)
    requires failure.op == Failure && later >= failure.at
    requires
      || Tripped(EntryAt(states, failure.key))
      || Tripped(EntryAt(Apply(Step(c), states, failure), failure.key))
    requires forall e :: e in events ==> e.key != failure.key
    ensures
      var after := Run(Step(c), Apply(Step(c), states, failure), events);
      Admits(EntryAt(after, failure.key), later, c) <==> later >= failure.at + c.timeout
  {
    EntryAfter(Step(c), states, failure, failure.key);
    KeysAreIndependent(Step(c), Apply(Step(c), states, failure), events, failure.key);
    NothingProjected(events, failure.key);
  }

  /** A probe that is never heard of again gives way to the next one exactly once the probe timeout is over. */
  lemma {:induction false} LostProbeAdmitsIff(states: map<string, CircuitState>, probe: Event, events: seq<Event>,
                                              later: nat, c: Config)
    requires probe.op == Check && later >= probe.at
    requires Tripped(EntryAt(states, probe.key)) && Admits(EntryAt(states, probe.key), probe.at, c)
    requires forall e :: e in events ==> e.key != probe.key
    ensures
      var after := Run(Step(c), Apply(Step(c), states, probe), events);
      Admits(EntryAt(after, probe.key), later, c) <==> later >= probe.at + c.probeTimeout
  {
    EntryAfter(Step(c), states, probe, probe.key);
    KeysAreIndependent(Step(c), Apply(Step(c), states, probe), events, probe.key);
    NothingProjected(events, probe.key);
  }

  /** As long as no stretch of failures has reached the threshold, every request passes. */
  lemma HealthyCircuitAdmits(events: seq<Event>, later: nat, c: Config)
    requires forall n: nat :: n <= |events| ==> FailureStretch(events[..n]) < OpeningCount(c)
    ensures Admits(RunKey(Step(c), None, events), later, c)
  {
    if Tripped(RunKey(Step(c), None, events)) {
      var n := TrippedOnlyAtThreshold(events, c);
      assert false;
    }
  }

  /** Failures since the circuit last closed, vanished, or let a probe through. */
  function Accusations(events: seq<Event>, c: Config): nat {
    if events == [] then 0
    else
      var front, last := events[..|events| - 1], events[|events| - 1];
      var entry := RunKey(Step(c), None, front);
      match last.op
      case Failure => Accusations(front, c) + 1
      case Check => if Tripped(entry) && Admits(entry, last.at, c) then 0 else Accusations(front, c)
      case Success => if entry.Some? && entry.value.Open? then Accusations(front, c) else 0
      case _ => 0
  }

  /** The count that a blocked request is told is the number of those failures, as far as it can be stored. */
  lemma {:induction false} OpenCountsFailures(events: seq<Event>, c: Config)
    ensures
      var entry, count := RunKey(Step(c), None, events), Accusations(events, c);
      if entry.Some? && entry.value.Closed? then entry.value.failureCount == count
      else if entry.Some? && entry.value.Open? then
        entry.value.failureCount == if count <= U32_MAX then count else U32_MAX
      else count == 0
  {
    ClosedCountsFailures(events, c);
    if events != [] {
      ClosedCountsFailures(events[..|events| - 1], c);
      OpenCountsFailures(events[..|events| - 1], c);
    }
  }

  function ProbeSpacing(c: Config): nat {
    if c.timeout <= c.probeTimeout then c.timeout else c.probeTimeout
  }

  /** When the entry last became open or half-open. */
  function Stamp(entry: Entry): nat
    requires Tripped(entry)
  {
    match entry.value
    case Open(openedAt, _) => openedAt
    case HalfOpen(startedAt) => startedAt
  }

  lemma {:induction false} TrippedPeriod(entry: Entry, events: seq<Event>, c: Config)
    requires Tripped(entry) && TimesOrdered(events)
    requires forall e :: e in events ==> !Closes(e.op) && Stamp(entry) <= e.at
    ensures
      var after := RunKey(Step(c), entry, events);
      && Tripped(after) && Stamp(entry) <= Stamp(after)
      && (events == [] ==> after == entry)
      && (events != [] ==> Stamp(after) <= events[|events| - 1].at)
  {
    if events != [] {
      var front := events[..|events| - 1];
      assert events[|events| - 1] in events;
      TrippedPeriod(entry, front, c);
    }
  }

  function Admissions(entry: Entry, events: seq<Event>, c: Config): nat {
    if events == [] then 0
    else
      var front, last := events[..|events| - 1], events[|events| - 1];
      Admissions(entry, front, c) +
        (if last.op == Check && Admits(RunKey(Step(c), entry, front), last.at, c) then 1 else 0)
  }

  /**
   While no success, reset or eviction comes in between, a tripped circuit lets through at most
   one request per probe spacing, failures or not: the requests let through, times the spacing,
   fit into the time that passed since the circuit tripped.
   */
  lemma {:induction false} ProbesAreSpaced(entry: Entry, events: seq<Event>, c: Config)
    requires Tripped(entry) && TimesOrdered(events)
    requires forall e :: e in events ==> !Closes(e.op) && Stamp(entry) <= e.at
    ensures Tripped(RunKey(Step(c), entry, events))
    ensures Stamp(entry) + Admissions(entry, events, c) * ProbeSpacing(c) <= Stamp(RunKey(Step(c), entry, events))
  {
    if events != [] {
      var front, last := events[..|events| - 1], events[|events| - 1];
      assert last in events;
      ProbesAreSpaced(entry, front, c);
      TrippedPeriod(entry, front, c);
      OneStepSpacing(RunKey(Step(c), entry, front), last, c);
      OneMore(Admissions(entry, front, c), ProbeSpacing(c));
    }
  }

  lemma OneMore(n: nat, d: nat)
    ensures (n + 1) * d == n * d + d
  {
  }

  lemma AtLeastOne(n: nat, d: nat)
    ensures n >= 1 ==> n * d >= d
  {
  }

  lemma OneStepSpacing(entry: Entry, e: Event, c: Config)
    requires Tripped(entry) && !Closes(e.op) && Stamp(entry) <= e.at
    ensures Tripped(Next(entry, e, c)) && Stamp(entry) <= Stamp(Next(entry, e, c))
    ensures e.op == Check && Admits(entry, e.at, c) ==>
              Stamp(entry) + ProbeSpacing(c) <= Stamp(Next(entry, e, c))
  {
  }

  /** In particular, while a probe is in flight no second request passes. */
  lemma ProbeIsExclusive(startedAt: nat, events: seq<Event>, c: Config)
    requires TimesOrdered(events) && Within(events, startedAt, ProbeSpacing(c))
    requires forall e :: e in events ==> !Closes(e.op)
    ensures Admissions(Some(HalfOpen(startedAt)), events, c) == 0
  {
    var entry := Some(HalfOpen(startedAt));
    forall e | e in events ensures Stamp(entry) <= e.at {
      var i :| 0 <= i < |events| && events[i] == e;
    }
    ProbesAreSpaced(entry, events, c);
    TrippedPeriod(entry, events, c);
    AtLeastOne(Admissions(entry, events, c), ProbeSpacing(c));
  }

  /** The inspection changes nothing exactly when it does not take a probe slot. */
  lemma IsBlockingIsPureIff(entry: Entry, now: nat, c: Config)
    ensures OnCheck(entry, now, c) == entry <==>
              !(Tripped(entry) && Admits(entry, now, c)) || entry == Some(HalfOpen(now))
    ensures Tripped(entry) && Admits(entry, now, c) && c.probeTimeout > 0 ==>
              !Admits(OnCheck(entry, now, c), now, c)
  {
  }

  /**
   What the inspection costs: when it finds that a tripped circuit would let a request through, it
   takes that place itself, and no request passes for the probe spacing, unless a success, reset
   or eviction comes in between.
   */
  lemma InspectionTakesProbe(entry: Entry, now: nat, events: seq<Event>, c: Config)
    requires Tripped(entry) && Admits(entry, now, c)
    requires TimesOrdered(events) && Within(events, now, ProbeSpacing(c))
    requires forall e :: e in events ==> !Closes(e.op)
    ensures Admissions(OnCheck(entry, now, c), events, c) == 0
  {
    ProbeIsExclusive(now, events, c);
  }

  /** A circuit that has let nobody through is still open: a success while it is open leaves it open. */
  lemma {:induction false} RecoveryNeedsProbe(entry: Entry, events: seq<Event>, c: Config)
    requires entry.Some? && entry.value.Open?
    requires Admissions(entry, events, c) == 0
    requires forall e :: e in events ==> e.op != Reset && e.op != Evict
    ensures RunKey(Step(c), entry, events).Some? && RunKey(Step(c), entry, events).value.Open?
  {
    if events != [] {
      assert events[|events| - 1] in events;
      RecoveryNeedsProbe(entry, events[..|events| - 1], c);
    }
  }
}
