/**
 Whether a tripped circuit can recover: runs of `Admission` that open the circuit of a module,
 let a probe through, and record what it did.
 */
module RecoveryRuns {
  import opened Wrappers
  import opened ModulePath
  import opened KeyedRuns
  import opened CircuitBreaker
  import opened Admission

  /** The time of the last breaker operation. */
  function LastTime(s: State): nat {
    if s.log == [] then 0 else s.log[|s.log| - 1].event.at
  }

  /** The step does not go back in time. */
  predicate OnTime(s: State, step: Action)
    requires Enabled(s, step)
  {
    Operation(s, step).Some? ==> LastTime(s) <= Operation(s, step).value.at
  }

  lemma StepKeepsOrder(p: Params, s: State, step: Action)
    requires Enabled(s, step) && OnTime(s, step) && InTimeOrder(s.log)
    ensures InTimeOrder(Admission.Next(p, s, step).log)
    ensures LastTime(Admission.Next(p, s, step)) ==
              if Operation(s, step).Some? then Operation(s, step).value.at else LastTime(s)
  {
  }

  /** Some run that a clock allows ends here. */
  ghost predicate Reachable(p: Params, s: State) {
    exists states: seq<State>, steps: seq<Action> :: IsTimedRun(p, states, steps) && states[|steps|] == s
  }

  lemma StartIsReachable(p: Params)
    ensures Reachable(p, INITIAL)
  {
    var states, steps: seq<Action> := [INITIAL], [];
    assert IsTimedRun(p, states, steps);
  }

  lemma Extend(p: Params, s: State, step: Action)
    requires Reachable(p, s) && Enabled(s, step) && OnTime(s, step)
    ensures Reachable(p, Admission.Next(p, s, step))
  {
    var states: seq<State>, steps: seq<Action> :| IsTimedRun(p, states, steps) && states[|steps|] == s;
    var longer, more := states + [Admission.Next(p, s, step)], steps + [step];
    StepKeepsOrder(p, s, step);
    assert IsTimedRun(p, longer, more);
  }

  /** A run that ends with this step. */
  lemma LastStep(p: Params, s: State, step: Action) returns (states: seq<State>, steps: seq<Action>, i: nat)
    requires Reachable(p, s) && Enabled(s, step) && OnTime(s, step)
    ensures IsTimedRun(p, states, steps) && i + 1 == |steps|
    ensures states[i] == s && steps[i] == step && states[i + 1] == Admission.Next(p, s, step)
  {
    var before: seq<State>, taken: seq<Action> :| IsTimedRun(p, before, taken) && before[|taken|] == s;
    StepKeepsOrder(p, s, step);
    states, steps, i := before + [Admission.Next(p, s, step)], taken + [step], |taken|;
  }

  lemma ReachableInOrder(p: Params, s: State)
    requires Reachable(p, s)
    ensures InTimeOrder(s.log)
  {
  }

  lemma ReachableInv(p: Params, s: State)
    requires Reachable(p, s)
    ensures PermitInv(p, s) && RecordInv(s)
  {
    var states: seq<State>, steps: seq<Action> :| IsTimedRun(p, states, steps) && states[|steps|] == s;
    PermitInvAlways(p, states, steps, |steps|);
    RecordInvAlways(p, states, steps, |steps|);
  }

  // ---- One request on its way ----

  /** The state differs from `s` only in this request, which has come this far, and in semaphores and history. */
  predicate OnlyMoved(s: State, s': State, id: nat, m: ModulePath, phase: Phase) {
    && s'.requests.Keys == s.requests.Keys + {id}
    && (forall k :: k in s.requests && k != id ==> s'.requests[k] == s.requests[k])
    && s'.requests[id].m == m && s'.requests[id].phase == phase
  }

  /** One step of the request. */
  lemma Move(p: Params, s: State, here: State, step: Action, m: ModulePath, phase: Phase) returns (there: State)
    requires Reachable(p, here) && Enabled(here, step) && OnTime(here, step) && Actor(step).Some?
    requires if step.Arrive? then here == s && step.m == m
             else OnlyMoved(s, here, step.id, m, here.requests[step.id].phase)
    requires Moved(p, here, step).phase == phase
    ensures there == Admission.Next(p, here, step) && Reachable(p, there) && OnlyMoved(s, there, step.id, m, phase)
    ensures there.breaker ==
              match Operation(here, step)
              case None => here.breaker
              case Some(e) => Apply(Step(p.config), here.breaker, e)
    ensures LastTime(there) == match Operation(here, step) case None => LastTime(here) case Some(e) => e.at
  {
    ReachableInOrder(p, here);
    StepKeepsOrder(p, here, step);
    Extend(p, here, step);
    there := Admission.Next(p, here, step);
  }

  /** While no other request moves, the requests that run for a key stay the same. */
  lemma SameRunning(s: State, s': State, id: nat, m: ModulePath, phase: Phase, key: string)
    requires id !in s.requests && OnlyMoved(s, s', id, m, phase) && !Holding(phase)
    ensures Running(s', key) == Running(s, key)
  {
    assert forall k :: k in s'.requests <==> k in s.requests || k == id;
  }

  /** A request that the breaker lets through gets its semaphore. */
  lemma ToSemaphore(p: Params, s: State, id: nat, m: ModulePath, now: nat) returns (s': State)
    requires Reachable(p, s) && LastTime(s) <= now && id !in s.requests
    requires Admits(EntryAt(s.breaker, CacheKey(m)), now, p.config)
    ensures Reachable(p, s') && OnlyMoved(s, s', id, m, HasSemaphore) && LastTime(s') == now
    ensures s'.breaker == Apply(Step(p.config), s.breaker, Event(CacheKey(m), Check, now))
  {
    s' := Move(p, s, s, Arrive(id, m), m, Arrived);
    s' := Move(p, s, s', CheckBreaker(id, now), m, Checked);
    if CacheKey(m) in s'.sems.table {
      s' := Move(p, s, s', GetSemaphore(id), m, HasSemaphore);
    } else {
      s' := Move(p, s, s', GetSemaphore(id), m, SawNoSemaphore);
      s' := Move(p, s, s', GetOrInsertSemaphore(id), m, HasSemaphore);
    }
  }

  lemma PermitIsFree(p: Params, s: State, here: State, id: nat, m: ModulePath)
    requires Reachable(p, here) && id !in s.requests && OnlyMoved(s, here, id, m, HasSemaphore)
    requires |Running(s, CacheKey(m))| < p.limit
    ensures Enabled(here, TryAcquire(id)) && Moved(p, here, TryAcquire(id)).phase == Loading
  {
    ReachableInv(p, here);
    SameRunning(s, here, id, m, HasSemaphore, CacheKey(m));
    RunningAreHolders(p, here, CacheKey(m));
    assert UsesOwnSemaphore(here.requests[id], here.sems.table);
  }

  /** And, if the limit is not reached, its permit. */
  lemma ToLoading(p: Params, s: State, id: nat, m: ModulePath, now: nat) returns (s': State)
    requires Reachable(p, s) && LastTime(s) <= now && id !in s.requests
    requires Admits(EntryAt(s.breaker, CacheKey(m)), now, p.config)
    requires |Running(s, CacheKey(m))| < p.limit
    ensures Reachable(p, s') && OnlyMoved(s, s', id, m, Loading) && LastTime(s') == now
    ensures s'.breaker == Apply(Step(p.config), s.breaker, Event(CacheKey(m), Check, now))
  {
    var here := ToSemaphore(p, s, id, m, now);
    PermitIsFree(p, s, here, id, m);
    s' := Move(p, s, here, TryAcquire(id), m, Loading);
  }

  lemma Leave(p: Params, s: State, here: State, id: nat, m: ModulePath) returns (s': State)
    requires Reachable(p, here) && OnlyMoved(s, here, id, m, Leaving)
    ensures Reachable(p, s') && OnlyMoved(s, s', id, m, Gone)
    ensures s'.breaker == here.breaker && LastTime(s') == LastTime(here)
  {
    ReachableInv(p, here);
    assert UsesOwnSemaphore(here.requests[id], here.sems.table);
    s' := Move(p, s, here, Release(id), m, Gone);
  }

  /** A request whose load fails. */
  lemma FailOne(p: Params, s: State, id: nat, m: ModulePath, now: nat) returns (s': State)
    requires Reachable(p, s) && LastTime(s) <= now && id !in s.requests
    requires Admits(EntryAt(s.breaker, CacheKey(m)), now, p.config)
    requires |Running(s, CacheKey(m))| < p.limit
    ensures Reachable(p, s') && OnlyMoved(s, s', id, m, Gone) && LastTime(s') == now
    ensures s'.breaker == Apply(Step(p.config), Apply(Step(p.config), s.breaker, Event(CacheKey(m), Check, now)),
                                Event(CacheKey(m), Failure, now))
  {
    s' := ToLoading(p, s, id, m, now);
    s' := Move(p, s, s', FinishLoad(id, false), m, LoadFailed);
    s' := Move(p, s, s', BlameLoad(id, now), m, Leaving);
    s' := Leave(p, s, s', id, m);
  }

  /** A request that executes with success, up to the moment before it records that. */
  lemma ExecuteOne(p: Params, s: State, id: nat, m: ModulePath, now: nat) returns (s': State)
    requires Reachable(p, s) && LastTime(s) <= now && id !in s.requests
    requires Admits(EntryAt(s.breaker, CacheKey(m)), now, p.config)
    requires |Running(s, CacheKey(m))| < p.limit && Sanitary(m)
    ensures Reachable(p, s') && OnlyMoved(s, s', id, m, Succeeded) && LastTime(s') == now
    ensures s'.breaker == Apply(Step(p.config), s.breaker, Event(CacheKey(m), Check, now))
  {
    s' := ToLoading(p, s, id, m, now);
    s' := Move(p, s, s', FinishLoad(id, true), m, Loaded);
    s' := Move(p, s, s', CollectBody(id), m, Executing);
    s' := Move(p, s, s', FinishExecution(id, true), m, Succeeded);
  }

  // ---- Opening a circuit ----

  /** The entry after this many failed loads in a row. */
  function AfterFailures(c: Config, n: nat): Option<CircuitState>
    requires n <= OpeningCount(c)
  {
    if n == 0 then None else if n < OpeningCount(c) then Some(Closed(n)) else Some(Open(0, n))
  }

  lemma FailureOnEntry(c: Config, n: nat)
    requires n < OpeningCount(c)
    ensures Admits(AfterFailures(c, n), 0, c)
    ensures OnFailure(OnCheck(AfterFailures(c, n), 0, c), 0, c) == AfterFailures(c, n + 1)
  {
  }

  /** `s'` is `s` after finished requests with ids from `base` on, and only this key's entry may differ. */
  ghost predicate FinishedSince(s: State, s': State, base: nat, next: nat, key: string) {
    && (forall id :: id in s'.requests <==> id in s.requests || base <= id < next)
    && (forall id :: id in s.requests && id < base ==> s'.requests[id] == s.requests[id])
    && (forall id :: base <= id < next ==> s'.requests[id].phase == Gone)
    && (forall k :: k != key ==> EntryAt(s'.breaker, k) == EntryAt(s.breaker, k))
  }

  lemma FinishedKeepRunning(s: State, s': State, base: nat, next: nat, key: string)
    requires FinishedSince(s, s', base, next, key) && forall id :: id in s.requests ==> id < base
    ensures Running(s', key) == Running(s, key)
  {
  }

  /** One failed load more. */
  lemma FailOneMore(p: Params, s: State, here: State, base: nat, m: ModulePath, n: nat) returns (s': State)
    requires Reachable(p, here) && LastTime(here) == 0 && FinishedSince(s, here, base, base + n, CacheKey(m))
    requires (forall id :: id in s.requests ==> id < base) && |Running(s, CacheKey(m))| < p.limit
    requires n < OpeningCount(p.config) && EntryAt(here.breaker, CacheKey(m)) == AfterFailures(p.config, n)
    ensures Reachable(p, s') && LastTime(s') == 0 && FinishedSince(s, s', base, base + n + 1, CacheKey(m))
    ensures EntryAt(s'.breaker, CacheKey(m)) == AfterFailures(p.config, n + 1)
  {
    var key := CacheKey(m);
    FailureOnEntry(p.config, n);
    FinishedKeepRunning(s, here, base, base + n, key);
    s' := FailOne(p, here, base + n, m, 0);
    BothEntries(p, here, s', Event(key, Check, 0), Event(key, Failure, 0));
  }

  /** Failed loads, one after the other, take a fresh key as far as its open state. */
  lemma {:induction false} FailLoads(p: Params, s: State, base: nat, m: ModulePath, n: nat) returns (s': State)
    requires Reachable(p, s) && LastTime(s) == 0 && forall id :: id in s.requests ==> id < base
    requires n <= OpeningCount(p.config) && |Running(s, CacheKey(m))| < p.limit
    requires EntryAt(s.breaker, CacheKey(m)).None?
    ensures Reachable(p, s') && LastTime(s') == 0 && FinishedSince(s, s', base, base + n, CacheKey(m))
    ensures EntryAt(s'.breaker, CacheKey(m)) == AfterFailures(p.config, n)
  {
    if n == 0 {
      s' := s;
    } else {
      var here := FailLoads(p, s, base, m, n - 1);
      s' := FailOneMore(p, s, here, base, m, n - 1);
    }
  }

  lemma BothEntries(p: Params, s: State, s': State, e: Event, e': Event)
    requires e.key == e'.key
    requires s'.breaker == Apply(Step(p.config), Apply(Step(p.config), s.breaker, e), e')
    ensures EntryAt(s'.breaker, e.key) == Step(p.config)(Step(p.config)(EntryAt(s.breaker, e.key), e), e')
    ensures forall k :: k != e.key ==> EntryAt(s'.breaker, k) == EntryAt(s.breaker, k)
  {
  }

  // ---- Probes ----

  /** From a start where the key is untracked: failed loads open its circuit. */
  lemma OpenCircuit(p: Params, s: State, base: nat, m: ModulePath) returns (s': State)
    requires Reachable(p, s) && forall id :: id in s.requests ==> id < base
    requires |Running(s, CacheKey(m))| < p.limit && EntryAt(s.breaker, CacheKey(m)).None? && LastTime(s) == 0
    ensures Reachable(p, s') && FinishedSince(s, s', base, base + OpeningCount(p.config), CacheKey(m))
    ensures Running(s', CacheKey(m)) == Running(s, CacheKey(m)) && LastTime(s') == 0
    ensures Admits(EntryAt(s'.breaker, CacheKey(m)), p.config.timeout, p.config)
    ensures EntryAt(s'.breaker, CacheKey(m)) == Some(Open(0, OpeningCount(p.config)))
  {
    s' := FailLoads(p, s, base, m, OpeningCount(p.config));
    FinishedKeepRunning(s, s', base, base + OpeningCount(p.config), CacheKey(m));
  }

  /** And once the timeout has passed, one more request is let through as the probe, and executes with success. */
  lemma ProbeSucceeds(p: Params, s: State, base: nat, m: ModulePath) returns (s': State, probe: nat)
    requires Reachable(p, s) && (forall id :: id in s.requests ==> id < base) && Sanitary(m)
    requires |Running(s, CacheKey(m))| < p.limit && EntryAt(s.breaker, CacheKey(m)).None? && LastTime(s) == 0
    ensures Reachable(p, s') && probe == base + OpeningCount(p.config) && LastTime(s') == p.config.timeout
    ensures (forall id :: id in s'.requests <==> id in s.requests || base <= id <= probe)
    ensures (forall id :: id in s.requests ==> s'.requests[id] == s.requests[id])
    ensures (forall id :: base <= id < probe ==> s'.requests[id].phase == Gone)
    ensures InPhase(s', probe, Succeeded) && s'.requests[probe].m == m
    ensures EntryAt(s'.breaker, CacheKey(m)) == Some(HalfOpen(p.config.timeout))
    ensures forall k :: k != CacheKey(m) ==> EntryAt(s'.breaker, k) == EntryAt(s.breaker, k)
  {
    var here := OpenCircuit(p, s, base, m);
    probe := base + OpeningCount(p.config);
    s' := ExecuteOne(p, here, probe, m, p.config.timeout);
  }

  lemma NobodyRuns(key: string)
    ensures Running(INITIAL, key) == {}
  {
  }

  /**
   The same run for every sanitary module: its circuit opens, its probe executes with success,
   and recording that closes the circuit exactly if the module is a platform module; the
   circuit of a tenant module stays half-open.
   */
  lemma OwnProbeClosesIff(p: Params, m: ModulePath) returns (states: seq<State>, steps: seq<Action>, i: nat)
    requires p.limit >= 1 && Sanitary(m)
    ensures IsTimedRun(p, states, steps) && i < |steps| && steps[i].RecordOutcome?
    ensures InPhase(states[i], steps[i].id, Succeeded) && states[i].requests[steps[i].id].m == m
    ensures EntryAt(states[i].breaker, CacheKey(m)) == Some(HalfOpen(p.config.timeout))
    ensures EntryAt(states[i + 1].breaker, CacheKey(m)) ==
              if m.Platform? then Some(Closed(0)) else Some(HalfOpen(p.config.timeout))
  {
    StartIsReachable(p);
    NobodyRuns(CacheKey(m));
    var s, probe := ProbeSucceeds(p, INITIAL, 0, m);
    states, steps, i := LastStep(p, s, RecordOutcome(probe, p.config.timeout));
    OwnHandlerNameIff(m);
    EntryAfter(Step(p.config), s.breaker, Event(HandlerName(m), Success, p.config.timeout), CacheKey(m));
  }

  /** Recording this success closes this half-open circuit. */
  lemma SuccessCloses(p: Params, s: State, id: nat, now: nat, key: string)
    returns (states: seq<State>, steps: seq<Action>, i: nat)
    requires Reachable(p, s) && LastTime(s) <= now && InPhase(s, id, Succeeded) && HandlerName(s.requests[id].m) == key
    requires EntryAt(s.breaker, key).Some? && EntryAt(s.breaker, key).value.HalfOpen?
    ensures IsTimedRun(p, states, steps) && i + 1 == |steps| && steps[i] == RecordOutcome(id, now)
    ensures states[i] == s && EntryAt(states[i + 1].breaker, key) == Some(Closed(0))
    ensures forall k :: k in s.requests && k != id ==>
              k in states[i + 1].requests && states[i + 1].requests[k] == s.requests[k]
  {
    states, steps, i := LastStep(p, s, RecordOutcome(id, now));
    EntryAfter(Step(p.config), s.breaker, Event(key, Success, now), key);
  }

  lemma DifferentKeys(m: ModulePath, healer: ModulePath)
    requires m.Tenant? && Sanitary(m) && Sanitary(healer) && healer == Healer(m)
    ensures CacheKey(healer) != CacheKey(m)
  {
    assert |healer.tenantId| == |m.tenantId| + 7;
    if CacheKey(healer) == CacheKey(m) {
      CacheKeyInjective(healer, m);
      assert false;
    }
  }

  /** After a tenant's probe its namesake can execute with success. */
  lemma NamesakeSucceeds(p: Params, m: ModulePath) returns (s: State, id: nat)
    requires p.limit >= 1 && m.Tenant? && Sanitary(m) && Sanitary(Healer(m))
    ensures Reachable(p, s) && LastTime(s) == p.config.timeout
    ensures InPhase(s, id, Succeeded) && s.requests[id].m == Healer(m)
    ensures EntryAt(s.breaker, CacheKey(m)) == Some(HalfOpen(p.config.timeout))
  {
    StartIsReachable(p);
    NobodyRuns(CacheKey(m));
    var probed, probe := ProbeSucceeds(p, INITIAL, 0, m);
    DifferentKeys(m, Healer(m));
    NoneRunsFor(probed, probe, m, Healer(m));
    assert EntryAt(INITIAL.breaker, CacheKey(Healer(m))).None?;
    id := probe + 1;
    s := ExecuteOne(p, probed, id, Healer(m), p.config.timeout);
    EntryAfter(Step(p.config), probed.breaker, Event(CacheKey(Healer(m)), Check, p.config.timeout), CacheKey(m));
  }

  /** The healer of a sanitary module, if it is sanitary too, closes the circuit, half-open after a probe. */
  lemma HealerCloses(p: Params, m: ModulePath) returns (states: seq<State>, steps: seq<Action>, i: nat)
    requires p.limit >= 1 && Sanitary(m) && Sanitary(Healer(m))
    ensures IsTimedRun(p, states, steps) && i < |steps| && steps[i].RecordOutcome?
    ensures EntryAt(states[i].breaker, CacheKey(m)) == Some(HalfOpen(p.config.timeout))
    ensures EntryAt(states[i + 1].breaker, CacheKey(m)) == Some(Closed(0))
  {
    if m.Platform? {
      states, steps, i := OwnProbeClosesIff(p, m);
    } else {
      var s, id := NamesakeSucceeds(p, m);
      HealerMeetsKeyIff(m, Healer(m));
      states, steps, i := SuccessCloses(p, s, id, p.config.timeout, CacheKey(m));
    }
  }

  lemma NoneRunsFor(s: State, probe: nat, m: ModulePath, healer: ModulePath)
    requires forall id :: id in s.requests ==> id <= probe
    requires forall id :: id in s.requests && id < probe ==> s.requests[id].phase == Gone
    requires probe in s.requests && s.requests[probe].m == m && CacheKey(healer) != CacheKey(m)
    ensures Running(s, CacheKey(healer)) == {}
  {
  }

  /** Some run that a clock allows closes the tripped circuit of this module without a reset or eviction. */
  ghost predicate CanRecover(p: Params, m: ModulePath) {
    exists states: seq<State>, steps: seq<Action>, i: nat ::
      && IsTimedRun(p, states, steps) && i < |steps| && !steps[i].BreakerUpkeep?
      && Tripped(EntryAt(states[i].breaker, CacheKey(m))) && !Tripped(EntryAt(states[i + 1].breaker, CacheKey(m)))
  }

  /**
   A circuit can recover exactly if its healer is an acceptable module: always for a platform
   module, and for a tenant module only if the id of its namesake passes the name check.
   */
  lemma CanRecoverIff(p: Params, m: ModulePath)
    requires p.limit >= 1 && Sanitary(m)
    ensures CanRecover(p, m) <==> Sanitary(Healer(m))
  {
    if Sanitary(Healer(m)) {
      var states, steps, i := HealerCloses(p, m);
      assert Tripped(EntryAt(states[i].breaker, CacheKey(m)));
    }
    if CanRecover(p, m) {
      OnlySanitaryHeals(p, m);
    }
  }

  lemma OnlySanitaryHeals(p: Params, m: ModulePath)
    requires Sanitary(m) && CanRecover(p, m)
    ensures Sanitary(Healer(m))
  {
    var states: seq<State>, steps: seq<Action>, i: nat :|
      && IsTimedRun(p, states, steps) && i < |steps| && !steps[i].BreakerUpkeep?
      && Tripped(EntryAt(states[i].breaker, CacheKey(m))) && !Tripped(EntryAt(states[i + 1].breaker, CacheKey(m)));
    CircuitClosesIff(p, states, steps, i, m);
    SucceededIsSanitary(p, states, steps, i, steps[i].id);
  }

  /**
   Recovery does not wait for the probe: a request that was admitted before the circuit tripped
   closes it with its own success while the probe is still loading.
   */
  lemma OldSuccessCloses(p: Params, m: ModulePath) returns (states: seq<State>, steps: seq<Action>, i: nat, probe: nat)
    requires p.limit >= 2 && Sanitary(m) && m.Platform?
    ensures IsTimedRun(p, states, steps) && i < |steps| && steps[i] == RecordOutcome(0, p.config.timeout) && probe != 0
    ensures EntryAt(states[i].breaker, CacheKey(m)) == Some(HalfOpen(p.config.timeout))
    ensures EntryAt(states[i + 1].breaker, CacheKey(m)) == Some(Closed(0))
    ensures InPhase(states[i + 1], probe, Loading) && Key(states[i + 1], probe) == CacheKey(m)
  {
    var s;
    s, probe := OldRequestAndProbe(p, m);
    OwnHandlerNameIff(m);
    states, steps, i := SuccessCloses(p, s, 0, p.config.timeout, CacheKey(m));
  }

  lemma OldRequest(p: Params, m: ModulePath) returns (s: State)
    requires p.limit >= 1 && Sanitary(m)
    ensures Reachable(p, s) && s.requests.Keys == {0} && InPhase(s, 0, Succeeded) && s.requests[0].m == m
    ensures EntryAt(s.breaker, CacheKey(m)).None? && |Running(s, CacheKey(m))| == 1 && LastTime(s) == 0
  {
    StartIsReachable(p);
    NobodyRuns(CacheKey(m));
    s := ExecuteOne(p, INITIAL, 0, m, 0);
    EntryAfter(Step(p.config), INITIAL.breaker, Event(CacheKey(m), Check, 0), CacheKey(m));
    assert Running(s, CacheKey(m)) == {0};
  }

  /** A request that was admitted at the start has executed, and a probe is on its way. */
  lemma OldRequestAndProbe(p: Params, m: ModulePath) returns (s: State, probe: nat)
    requires p.limit >= 2 && Sanitary(m)
    ensures Reachable(p, s) && LastTime(s) == p.config.timeout
    ensures InPhase(s, 0, Succeeded) && s.requests[0].m == m
    ensures probe != 0 && InPhase(s, probe, Loading) && s.requests[probe].m == m
    ensures EntryAt(s.breaker, CacheKey(m)) == Some(HalfOpen(p.config.timeout))
  {
    var first := OldRequest(p, m);
    var here := OpenCircuit(p, first, 1, m);
    probe := 1 + OpeningCount(p.config);
    s := ToLoading(p, here, probe, m, p.config.timeout);
    EntryAfter(Step(p.config), here.breaker, Event(CacheKey(m), Check, p.config.timeout), CacheKey(m));
  }
}
