/**
 Any number of concurrent requests in multi-module mode, taken apart into the steps between
 which others can run: breaker check, the two lock sections around the semaphore table, permit,
 load, body, execution, record, release (`get_module_semaphore` in src/runtime/cache.rs;
 `resolve_multi_module`, `resolve_multi_module_path` and `handle_request_inner` in
 src/runtime/request_handler.rs).  A platform request by name is a request for `Platform(name)`.
 */
module Admission {
  import opened Wrappers
  import opened ModulePath
  import opened KeyedRuns
  import opened CircuitBreaker

  datatype Phase =
    | Arrived
    | Checked
    | SawNoSemaphore
    | HasSemaphore
    | Loading
    | LoadFailed
    | Loaded
    | Executing
    | Succeeded
    | Failed
    | Leaving
    | Gone

  /** `sem` is the semaphore of the request, once it has found or created one. */
  datatype Request = Request(m: ModulePath, phase: Phase, sem: nat)

  /** One breaker operation of the run: whose it is, if a request's, and whether it lets one through. */
  datatype LogEntry = LogEntry(event: Event, who: Option<nat>, passed: bool)

  /** The semaphore of each key, numbered in order of creation, and the free permits of each semaphore. */
  datatype Semaphores = Semaphores(table: map<string, nat>, permits: map<nat, nat>, created: nat)

  /** `log` is the history of the breaker. */
  datatype State = State(
    requests: map<nat, Request>,
    sems: Semaphores,
    breaker: map<string, CircuitState>,
    log: seq<LogEntry>)

  datatype Params = Params(limit: nat, config: Config)

  /** The flags are outcomes decided elsewhere.  `Drop` covers early replies and abandoned connections. */
  datatype Action =
    | Arrive(id: nat, m: ModulePath)
    | CheckBreaker(id: nat, now: nat)
    | GetSemaphore(id: nat)
    | GetOrInsertSemaphore(id: nat)
    | TryAcquire(id: nat)
    | FinishLoad(id: nat, ok: bool)
    | BlameLoad(id: nat, now: nat)
    | CollectBody(id: nat)
    | FinishExecution(id: nat, ok: bool)
    | RecordOutcome(id: nat, now: nat)
    | Drop(id: nat)
    | Release(id: nat)
    | BreakerUpkeep(key: string, op: Op, now: nat)

  const INITIAL := State(map[], Semaphores(map[], map[], 0), map[], [])

  predicate InPhase(s: State, id: nat, phase: Phase) {
    id in s.requests && s.requests[id].phase == phase
  }

  predicate Holding(phase: Phase) {
    match phase
    case Arrived | Checked | SawNoSemaphore | HasSemaphore | Gone => false
    case _ => true
  }

  /** Only sanitary modules load, since the lookups refuse all others; a request can be dropped only while it waits. */
  predicate Enabled(s: State, step: Action) {
    match step
    case Arrive(id, _) => id !in s.requests
    case CheckBreaker(id, _) => InPhase(s, id, Arrived)
    case GetSemaphore(id) => InPhase(s, id, Checked)
    case GetOrInsertSemaphore(id) => InPhase(s, id, SawNoSemaphore)
    case TryAcquire(id) => InPhase(s, id, HasSemaphore) && s.requests[id].sem in s.sems.permits
    case FinishLoad(id, ok) => InPhase(s, id, Loading) && (ok ==> Sanitary(s.requests[id].m))
    case BlameLoad(id, _) => InPhase(s, id, LoadFailed)
    case CollectBody(id) => InPhase(s, id, Loaded)
    case FinishExecution(id, _) => InPhase(s, id, Executing)
    case RecordOutcome(id, _) => InPhase(s, id, Succeeded) || InPhase(s, id, Failed)
    case Drop(id) => InPhase(s, id, Loading) || InPhase(s, id, Loaded) || InPhase(s, id, Executing)
    case Release(id) => InPhase(s, id, Leaving) && s.requests[id].sem in s.sems.permits
    case BreakerUpkeep(_, op, _) => op == Reset || op == Evict
  }

  /** The request that takes this step, if it is a request's. */
  function Actor(step: Action): Option<nat> {
    if step.BreakerUpkeep? then None else Some(step.id)
  }

  function Key(s: State, id: nat): string
    requires id in s.requests
  {
    CacheKey(s.requests[id].m)
  }

  /** The breaker operation of a step, if it has one. */
  function Operation(s: State, step: Action): Option<Event>
    requires Enabled(s, step)
  {
    match step
    case CheckBreaker(id, now) => Some(Event(Key(s, id), Check, now))
    case BlameLoad(id, now) => Some(Event(Key(s, id), Failure, now))
    case RecordOutcome(id, now) =>
      Some(Event(HandlerName(s.requests[id].m), if InPhase(s, id, Succeeded) then Success else Failure, now))
    case BreakerUpkeep(key, op, now) => Some(Event(key, op, now))
    case _ => None
  }

  predicate Passes(p: Params, s: State, e: Event) {
    Admits(EntryAt(s.breaker, e.key), e.at, p.config)
  }

  /** What a step does to its own request. */
  function Moved(p: Params, s: State, step: Action): Request
    requires Enabled(s, step) && Actor(step).Some?
  {
    if step.Arrive? then Request(step.m, Arrived, 0)
    else
      var r := s.requests[step.id];
      match step
      case CheckBreaker(id, now) =>
        r.(phase := if Passes(p, s, Event(Key(s, id), Check, now)) then Checked else Gone)
      case GetSemaphore(id) =>
        if Key(s, id) in s.sems.table then r.(phase := HasSemaphore, sem := s.sems.table[Key(s, id)])
        else r.(phase := SawNoSemaphore)
      case GetOrInsertSemaphore(id) =>
        r.(phase := HasSemaphore,
           sem := if Key(s, id) in s.sems.table then s.sems.table[Key(s, id)] else s.sems.created)
      case TryAcquire(_) => r.(phase := if s.sems.permits[r.sem] == 0 then Gone else Loading)
      case FinishLoad(_, ok) => r.(phase := if ok then Loaded else LoadFailed)
      case CollectBody(_) => r.(phase := Executing)
      case FinishExecution(_, ok) => r.(phase := if ok then Succeeded else Failed)
      case Release(_) => r.(phase := Gone)
      case _ => r.(phase := Leaving)
  }

  /** What a step does to the semaphores. */
  function SemaphoresAfter(p: Params, s: State, step: Action): Semaphores
    requires Enabled(s, step)
  {
    match step
    case GetOrInsertSemaphore(id) =>
      if Key(s, id) in s.sems.table then s.sems
      else
        var sem := s.sems.created;
        Semaphores(s.sems.table[Key(s, id) := sem], s.sems.permits[sem := p.limit], sem + 1)
    case TryAcquire(id) =>
      var sem := s.requests[id].sem;
      if s.sems.permits[sem] == 0 then s.sems
      else s.sems.(permits := s.sems.permits[sem := s.sems.permits[sem] - 1])
    case Release(id) =>
      var sem := s.requests[id].sem;
      s.sems.(permits := s.sems.permits[sem := s.sems.permits[sem] + 1])
    case _ => s.sems
  }

  function Next(p: Params, s: State, step: Action): State
    requires Enabled(s, step)
  {
    var op := Operation(s, step);
    State(
      if Actor(step).Some? then s.requests[step.id := Moved(p, s, step)] else s.requests,
      SemaphoresAfter(p, s, step),
      if op.Some? then Apply(Step(p.config), s.breaker, op.value) else s.breaker,
      if op.Some? then s.log + [LogEntry(op.value, Actor(step), Passes(p, s, op.value))] else s.log)
  }

  ghost predicate IsRun(p: Params, states: seq<State>, steps: seq<Action>) {
    && |states| == |steps| + 1
    && states[0] == INITIAL
    && forall i {:trigger steps[i]} :: 0 <= i < |steps| ==>
         Enabled(states[i], steps[i]) && states[i + 1] == Next(p, states[i], steps[i])
  }

  /** The clock never runs backwards from one breaker operation to the next. */
  ghost predicate InTimeOrder(log: seq<LogEntry>) {
    forall i, j :: 0 <= i < j < |log| ==> log[i].event.at <= log[j].event.at
  }

  /** A run that a clock allows; whatever holds of all runs holds of these. */
  ghost predicate IsTimedRun(p: Params, states: seq<State>, steps: seq<Action>) {
    IsRun(p, states, steps) && InTimeOrder(states[|steps|].log)
  }

  // ---- Permits ----

  predicate Holds(r: Request, sem: nat) {
    Holding(r.phase) && r.sem == sem
  }

  /** The requests that hold a permit of this semaphore. */
  function Holders(requests: map<nat, Request>, sem: nat): set<nat> {
    set id | id in requests && Holds(requests[id], sem)
  }

  ghost predicate TableInv(sems: Semaphores) {
    && (forall k :: k in sems.table ==> sems.table[k] in sems.permits)
    && (forall k, k' :: k in sems.table && k' in sems.table && sems.table[k] == sems.table[k'] ==> k == k')
    && (forall sem :: sem in sems.permits ==> sem < sems.created)
  }

  ghost predicate UsesOwnSemaphore(r: Request, table: map<string, nat>) {
    Holding(r.phase) || r.phase.HasSemaphore? ==> CacheKey(r.m) in table && table[CacheKey(r.m)] == r.sem
  }

  /** Different keys have different semaphores, and every request uses the semaphore of its key. */
  ghost predicate OneSemaphorePerKey(s: State) {
    && TableInv(s.sems)
    && forall id :: id in s.requests ==> UsesOwnSemaphore(s.requests[id], s.sems.table)
  }

  /** No permit is lost and none is invented. */
  ghost predicate PermitsConserved(p: Params, s: State) {
    forall sem :: sem in s.sems.permits ==> s.sems.permits[sem] + |Holders(s.requests, sem)| == p.limit
  }

  function Count(held: bool): nat {
    if held then 1 else 0
  }

  lemma SwapOne(before: set<nat>, after: set<nat>, id: nat)
    requires before - {id} == after - {id}
    ensures |after| == |before| - Count(id in before) + Count(id in after)
  {
    assert id in before ==> before == (before - {id}) + {id};
    assert id in after ==> after == (after - {id}) + {id};
    assert id !in before ==> before - {id} == before;
    assert id !in after ==> after - {id} == after;
  }

  lemma HoldersAfter(requests: map<nat, Request>, id: nat, r: Request, sem: nat)
    ensures |Holders(requests[id := r], sem)| ==
              |Holders(requests, sem)| - Count(id in requests && Holds(requests[id], sem)) + Count(Holds(r, sem))
  {
    SwapOne(Holders(requests, sem), Holders(requests[id := r], sem), id);
  }

  lemma TableGrows(p: Params, s: State, step: Action)
    requires TableInv(s.sems) && Enabled(s, step)
    ensures TableInv(SemaphoresAfter(p, s, step))
    ensures forall k :: k in s.sems.table ==>
              k in SemaphoresAfter(p, s, step).table && SemaphoresAfter(p, s, step).table[k] == s.sems.table[k]
  {
  }

  lemma OwnSemaphoreFits(p: Params, s: State, step: Action)
    requires OneSemaphorePerKey(s) && Enabled(s, step) && Actor(step).Some?
    ensures UsesOwnSemaphore(Moved(p, s, step), SemaphoresAfter(p, s, step).table)
  {
    assert !step.Arrive? ==> UsesOwnSemaphore(s.requests[step.id], s.sems.table);
  }

  lemma StepKeepsSemaphores(p: Params, s: State, step: Action)
    requires OneSemaphorePerKey(s) && Enabled(s, step)
    ensures OneSemaphorePerKey(Next(p, s, step))
  {
    TableGrows(p, s, step);
    if Actor(step).Some? {
      OwnSemaphoreFits(p, s, step);
    }
  }

  /** Does this request hold a permit of this semaphore? */
  predicate HoldsIn(s: State, id: nat, sem: nat) {
    id in s.requests && Holds(s.requests[id], sem)
  }

  /** A permit leaves the semaphore exactly when the request of the step takes it, and comes back when it lets go. */
  lemma PermitMoves(p: Params, s: State, step: Action, sem: nat)
    requires TableInv(s.sems) && Enabled(s, step) && Actor(step).Some? && sem in s.sems.permits
    ensures
      var after := SemaphoresAfter(p, s, step);
      && sem in after.permits
      && after.permits[sem] + Count(Holds(Moved(p, s, step), sem))
         == s.sems.permits[sem] + Count(HoldsIn(s, step.id, sem))
  {
  }

  lemma NewSemaphoreIsFull(p: Params, s: State, step: Action, sem: nat)
    requires OneSemaphorePerKey(s) && Enabled(s, step)
    requires sem !in s.sems.permits && sem in SemaphoresAfter(p, s, step).permits
    ensures step.GetOrInsertSemaphore? && SemaphoresAfter(p, s, step).permits[sem] == p.limit
    ensures !Holds(Moved(p, s, step), sem)
    ensures Holders(s.requests, sem) == {}
  {
    forall id | id in s.requests ensures !Holds(s.requests[id], sem) {
      assert UsesOwnSemaphore(s.requests[id], s.sems.table);
    }
  }

  lemma StepKeepsPermits(p: Params, s: State, step: Action)
    requires OneSemaphorePerKey(s) && PermitsConserved(p, s) && Enabled(s, step)
    ensures PermitsConserved(p, Next(p, s, step))
  {
    var s' := Next(p, s, step);
    if Actor(step).Some? {
      forall sem | sem in s'.sems.permits
        ensures s'.sems.permits[sem] + |Holders(s'.requests, sem)| == p.limit
      {
        HoldersAfter(s.requests, step.id, Moved(p, s, step), sem);
        if sem in s.sems.permits {
          PermitMoves(p, s, step, sem);
        } else {
          NewSemaphoreIsFull(p, s, step, sem);
        }
      }
    }
  }

  ghost predicate PermitInv(p: Params, s: State) {
    OneSemaphorePerKey(s) && PermitsConserved(p, s)
  }

  lemma {:induction false} PermitInvAlways(p: Params, states: seq<State>, steps: seq<Action>, i: nat)
    requires IsRun(p, states, steps) && i < |states|
    ensures PermitInv(p, states[i])
  {
    if i > 0 {
      PermitInvAlways(p, states, steps, i - 1);
      assert states[i] == Next(p, states[i - 1], steps[i - 1]);
      StepKeepsSemaphores(p, states[i - 1], steps[i - 1]);
      StepKeepsPermits(p, states[i - 1], steps[i - 1]);
    }
  }

  lemma TableOnlyGrows(p: Params, s: State, step: Action, key: string)
    requires Enabled(s, step) && key in s.sems.table
    ensures key in Next(p, s, step).sems.table && Next(p, s, step).sems.table[key] == s.sems.table[key]
  {
  }

  lemma {:induction false} SemaphoreStays(p: Params, states: seq<State>, steps: seq<Action>, i: nat, j: nat,
                                          key: string)
    requires IsRun(p, states, steps) && i <= j < |states| && key in states[i].sems.table
    ensures key in states[j].sems.table && states[j].sems.table[key] == states[i].sems.table[key]
    decreases j
  {
    if i < j {
      SemaphoreStays(p, states, steps, i, j - 1, key);
      assert states[j] == Next(p, states[j - 1], steps[j - 1]);
      TableOnlyGrows(p, states[j - 1], steps[j - 1], key);
    }
  }

  predicate KnowsSemaphore(s: State, id: nat) {
    id in s.requests && (Holding(s.requests[id].phase) || s.requests[id].phase.HasSemaphore?)
  }

  /**
   Two requests, at whatever moments they use their semaphores, use the same one exactly when
   they are for the same key.
   */
  lemma OneKeyOneSemaphore(p: Params, states: seq<State>, steps: seq<Action>, i: nat, j: nat, a: nat, b: nat)
    requires IsRun(p, states, steps) && i <= j < |states|
    requires KnowsSemaphore(states[i], a) && KnowsSemaphore(states[j], b)
    ensures
      var ra, rb := states[i].requests[a], states[j].requests[b];
      ra.sem == rb.sem <==> CacheKey(ra.m) == CacheKey(rb.m)
  {
    PermitInvAlways(p, states, steps, i);
    PermitInvAlways(p, states, steps, j);
    var ra, rb := states[i].requests[a], states[j].requests[b];
    assert UsesOwnSemaphore(ra, states[i].sems.table) && UsesOwnSemaphore(rb, states[j].sems.table);
    SemaphoreStays(p, states, steps, i, j, CacheKey(ra.m));
  }

  /** The requests that are between taking and giving back a permit for this key. */
  function Running(s: State, key: string): set<nat> {
    set id | id in s.requests && Holding(s.requests[id].phase) && Key(s, id) == key
  }

  lemma RunningAreHolders(p: Params, s: State, key: string)
    requires PermitInv(p, s)
    ensures key in s.sems.table ==>
              s.sems.table[key] in s.sems.permits && Running(s, key) == Holders(s.requests, s.sems.table[key])
    ensures key !in s.sems.table ==> Running(s, key) == {}
  {
    forall id | id in s.requests ensures UsesOwnSemaphore(s.requests[id], s.sems.table) {
    }
  }

  /**
   At every moment of every run, for every key: free permits and running requests add up to the
   limit, so never more than the limit run at once, and a key nobody is running for has all its permits.
   */
  lemma PermitsAndRunningAddUp(p: Params, states: seq<State>, steps: seq<Action>, i: nat, key: string)
    requires IsRun(p, states, steps) && i < |states|
    ensures
      var s := states[i];
      && |Running(s, key)| <= p.limit
      && (key in s.sems.table ==>
            && s.sems.table[key] in s.sems.permits
            && s.sems.permits[s.sems.table[key]] + |Running(s, key)| == p.limit)
  {
    PermitInvAlways(p, states, steps, i);
    RunningAreHolders(p, states[i], key);
  }

  /** A request is turned away as overloaded exactly when the limit of requests for its key is running. */
  lemma OverloadedIffFull(p: Params, states: seq<State>, steps: seq<Action>, i: nat)
    requires IsRun(p, states, steps) && i < |steps| && steps[i].TryAcquire?
    ensures
      var s, id := states[i], steps[i].id;
      InPhase(states[i + 1], id, Gone) <==> |Running(s, Key(s, id))| == p.limit
  {
    var s, id := states[i], steps[i].id;
    PermitInvAlways(p, states, steps, i);
    assert UsesOwnSemaphore(s.requests[id], s.sems.table);
    PermitsAndRunningAddUp(p, states, steps, i, Key(s, id));
    assert states[i + 1] == Next(p, s, steps[i]);
  }

  // ---- Every request leaves ----

  /** How many steps a request has left at most. */
  function StepsLeft(phase: Phase): nat {
    match phase
    case Arrived => 9
    case Checked => 8
    case SawNoSemaphore => 7
    case HasSemaphore => 6
    case Loading => 5
    case Loaded => 4
    case Executing => 3
    case LoadFailed | Succeeded | Failed => 2
    case Leaving => 1
    case Gone => 0
  }

  /** A step that this request can take now. */
  function OwnStep(s: State, id: nat): Action
    requires id in s.requests && !s.requests[id].phase.Gone?
  {
    match s.requests[id].phase
    case Arrived => CheckBreaker(id, 0)
    case Checked => GetSemaphore(id)
    case SawNoSemaphore => GetOrInsertSemaphore(id)
    case HasSemaphore => TryAcquire(id)
    case Loading => FinishLoad(id, false)
    case LoadFailed => BlameLoad(id, 0)
    case Loaded => CollectBody(id)
    case Executing => FinishExecution(id, false)
    case Succeeded | Failed => RecordOutcome(id, 0)
    case _ => Release(id)
  }

  lemma CanMove(p: Params, s: State, id: nat)
    requires OneSemaphorePerKey(s) && id in s.requests && !s.requests[id].phase.Gone?
    ensures Enabled(s, OwnStep(s, id)) && Actor(OwnStep(s, id)) == Some(id)
  {
    assert UsesOwnSemaphore(s.requests[id], s.sems.table);
  }

  lemma OwnStepAdvances(p: Params, s: State, step: Action)
    requires Enabled(s, step) && Actor(step).Some? && step.id in s.requests
    ensures Moved(p, s, step).m == s.requests[step.id].m
    ensures StepsLeft(Moved(p, s, step).phase) < StepsLeft(s.requests[step.id].phase)
  {
  }

  /**
   Nothing a request does can block, and each of its steps brings it nearer to the end, where
   it holds no permit: so every request gives its permit back, whatever the others do.
   */
  lemma RequestsNeverStick(p: Params, states: seq<State>, steps: seq<Action>, i: nat, id: nat)
    requires IsRun(p, states, steps) && i < |states| && id in states[i].requests
    ensures !states[i].requests[id].phase.Gone? ==> Enabled(states[i], OwnStep(states[i], id))
    ensures i < |steps| ==>
      && id in states[i + 1].requests
      && states[i + 1].requests[id].m == states[i].requests[id].m
      && (if Actor(steps[i]) == Some(id)
          then StepsLeft(states[i + 1].requests[id].phase) < StepsLeft(states[i].requests[id].phase)
          else states[i + 1].requests[id] == states[i].requests[id])
  {
    PermitInvAlways(p, states, steps, i);
    if !states[i].requests[id].phase.Gone? {
      CanMove(p, states[i], id);
    }
    if i < |steps| {
      assert states[i + 1] == Next(p, states[i], steps[i]);
      if Actor(steps[i]) == Some(id) {
        OwnStepAdvances(p, states[i], steps[i]);
      }
    }
  }

  /**
   What the steps leave open: loads and executions may end either way, waiting requests may
   vanish, keys may be reset or evicted.
   */
  lemma NothingIsRuledOut(s: State, id: nat, key: string, now: nat, ok: bool)
    ensures InPhase(s, id, Loading) ==> Enabled(s, FinishLoad(id, false)) && Enabled(s, Drop(id))
    ensures InPhase(s, id, Loading) && Sanitary(s.requests[id].m) ==> Enabled(s, FinishLoad(id, true))
    ensures InPhase(s, id, Loaded) ==> Enabled(s, CollectBody(id)) && Enabled(s, Drop(id))
    ensures InPhase(s, id, Executing) ==> Enabled(s, FinishExecution(id, ok)) && Enabled(s, Drop(id))
    ensures InPhase(s, id, Arrived) ==> Enabled(s, CheckBreaker(id, now))
    ensures InPhase(s, id, Succeeded) || InPhase(s, id, Failed) ==> Enabled(s, RecordOutcome(id, now))
    ensures Enabled(s, BreakerUpkeep(key, Reset, now)) && Enabled(s, BreakerUpkeep(key, Evict, now))
  {
  }

  // ---- Outcomes ----

  /** The breaker operations of one request, in order. */
  function Mine(log: seq<LogEntry>, id: nat): seq<LogEntry> {
    if log == [] then []
    else
      var last := log[|log| - 1];
      Mine(log[..|log| - 1], id) + (if last.who == Some(id) then [last] else [])
  }

  predicate IsCheck(e: LogEntry, m: ModulePath) {
    e.event.op == Check && e.event.key == CacheKey(m)
  }

  /** A failed load under the key that was checked, or the outcome of an execution under the handler name. */
  predicate IsOutcome(e: LogEntry, m: ModulePath) {
    || (e.event.op == Failure && e.event.key == CacheKey(m))
    || ((e.event.op == Success || e.event.op == Failure) && e.event.key == HandlerName(m) && Sanitary(m))
  }

  predicate CheckPassed(mine: seq<LogEntry>, m: ModulePath) {
    |mine| == 1 && IsCheck(mine[0], m) && mine[0].passed
  }

  predicate CheckThenOutcome(mine: seq<LogEntry>, m: ModulePath) {
    |mine| == 2 && CheckPassed(mine[..1], m) && IsOutcome(mine[1], m)
  }

  predicate RecordsFit(r: Request, mine: seq<LogEntry>) {
    match r.phase
    case Arrived => mine == []
    case Leaving => CheckPassed(mine, r.m) || CheckThenOutcome(mine, r.m)
    case Gone => (|mine| == 1 && IsCheck(mine[0], r.m)) || CheckThenOutcome(mine, r.m)
    case Loaded | Executing | Succeeded | Failed => CheckPassed(mine, r.m) && Sanitary(r.m)
    case _ => CheckPassed(mine, r.m)
  }

  ghost predicate RecordInv(s: State) {
    forall id: nat ::
      if id in s.requests then RecordsFit(s.requests[id], Mine(s.log, id)) else Mine(s.log, id) == []
  }

  lemma MineExtends(log: seq<LogEntry>, e: LogEntry, id: nat)
    ensures Mine(log + [e], id) == Mine(log, id) + if e.who == Some(id) then [e] else []
  {
    assert (log + [e])[..|log|] == log;
  }

  lemma OthersRecordsStay(p: Params, s: State, step: Action, id: nat)
    requires Enabled(s, step) && Actor(step) != Some(id)
    ensures Mine(Next(p, s, step).log, id) == Mine(s.log, id)
    ensures id in s.requests <==> id in Next(p, s, step).requests
    ensures id in s.requests ==> Next(p, s, step).requests[id] == s.requests[id]
  {
    var op := Operation(s, step);
    if op.Some? {
      MineExtends(s.log, LogEntry(op.value, Actor(step), Passes(p, s, op.value)), id);
    }
  }

  lemma OwnRecordsFit(p: Params, s: State, step: Action, mine: seq<LogEntry>)
    requires Enabled(s, step) && Actor(step).Some?
    requires if step.id in s.requests then RecordsFit(s.requests[step.id], mine) else mine == []
    ensures
      var op := Operation(s, step);
      RecordsFit(Moved(p, s, step),
                 if op.Some? then mine + [LogEntry(op.value, Actor(step), Passes(p, s, op.value))] else mine)
  {
    var op := Operation(s, step);
    if op.Some? {
      assert (mine + [LogEntry(op.value, Actor(step), Passes(p, s, op.value))])[..|mine|] == mine;
    }
  }

  lemma StepKeepsRecords(p: Params, s: State, step: Action)
    requires RecordInv(s) && Enabled(s, step)
    ensures RecordInv(Next(p, s, step))
  {
    var s' := Next(p, s, step);
    forall id: nat
      ensures if id in s'.requests then RecordsFit(s'.requests[id], Mine(s'.log, id)) else Mine(s'.log, id) == []
    {
      if Actor(step) != Some(id) {
        OthersRecordsStay(p, s, step, id);
      } else {
        var op := Operation(s, step);
        OwnRecordsFit(p, s, step, Mine(s.log, id));
        if op.Some? {
          MineExtends(s.log, LogEntry(op.value, Actor(step), Passes(p, s, op.value)), id);
        }
      }
    }
  }

  lemma {:induction false} RecordInvAlways(p: Params, states: seq<State>, steps: seq<Action>, i: nat)
    requires IsRun(p, states, steps) && i < |states|
    ensures RecordInv(states[i])
  {
    if i > 0 {
      RecordInvAlways(p, states, steps, i - 1);
      assert states[i] == Next(p, states[i - 1], steps[i - 1]);
      StepKeepsRecords(p, states[i - 1], steps[i - 1]);
    }
  }

  /**
   What a request does to the breaker in any run: one check under its cache key, then at most
   one outcome, and that only if the check passed.  The outcome of a platform request is
   recorded under the key that was checked; the success of a tenant request never is.
   */
  lemma OneOutcomeAfterOwnCheck(p: Params, states: seq<State>, steps: seq<Action>, i: nat, id: nat)
    requires IsRun(p, states, steps) && i < |states| && id in states[i].requests
    ensures
      var m, mine := states[i].requests[id].m, Mine(states[i].log, id);
      && |mine| <= 2
      && (mine != [] ==> IsCheck(mine[0], m))
      && (|mine| == 2 ==> mine[0].passed && IsOutcome(mine[1], m))
      && (|mine| == 2 && m.Platform? ==> mine[1].event.key == mine[0].event.key)
      && (|mine| == 2 && mine[1].event.op == Success && mine[1].event.key == mine[0].event.key ==> m.Platform?)
  {
    RecordInvAlways(p, states, steps, i);
    var m, mine := states[i].requests[id].m, Mine(states[i].log, id);
    assert RecordsFit(states[i].requests[id], mine);
    OwnHandlerNameIff(m);
  }

  lemma OneStepStage(p: Params, s: State, step: Action, id: nat)
    requires Enabled(s, step) && id in s.requests
    ensures
      var s' := Next(p, s, step);
      && id in s'.requests && s'.requests[id].m == s.requests[id].m
      && (s'.requests[id] == s.requests[id] || StepsLeft(s'.requests[id].phase) < StepsLeft(s.requests[id].phase))
  {
    if Actor(step) == Some(id) {
      OwnStepAdvances(p, s, step);
    }
  }

  /** A request keeps its module, only ever comes nearer to its end, and is the same as long as it comes no nearer. */
  lemma {:induction false} StageStays(p: Params, states: seq<State>, steps: seq<Action>, i: nat, j: nat, id: nat)
    requires IsRun(p, states, steps) && i <= j < |states| && id in states[i].requests
    ensures id in states[j].requests && states[j].requests[id].m == states[i].requests[id].m
    ensures StepsLeft(states[j].requests[id].phase) <= StepsLeft(states[i].requests[id].phase)
    ensures StepsLeft(states[j].requests[id].phase) == StepsLeft(states[i].requests[id].phase) ==>
              states[j].requests[id] == states[i].requests[id]
    decreases j
  {
    if i < j {
      StageStays(p, states, steps, i, j - 1, id);
      assert states[j] == Next(p, states[j - 1], steps[j - 1]);
      OneStepStage(p, states[j - 1], steps[j - 1], id);
    }
  }

  /** In any run, what a request records is how its execution ended: a success if it did well, else a failure. */
  lemma OutcomeTellsExecution(p: Params, states: seq<State>, steps: seq<Action>, i: nat, j: nat)
    requires IsRun(p, states, steps) && i < j < |steps|
    requires steps[i].FinishExecution? && steps[j].RecordOutcome? && steps[j].id == steps[i].id
    ensures |states[j + 1].log| == |states[j].log| + 1
    ensures
      var id, entry := steps[j].id, states[j + 1].log[|states[j].log|];
      && entry.who == Some(id) && id in states[i].requests
      && entry.event == Event(HandlerName(states[i].requests[id].m), if steps[i].ok then Success else Failure,
          steps[j].now)
  {
    assert states[i + 1] == Next(p, states[i], steps[i]) && states[j + 1] == Next(p, states[j], steps[j]);
    StageStays(p, states, steps, i + 1, j, steps[i].id);
  }

  // ---- The breaker over a whole run ----

  function Events(log: seq<LogEntry>): seq<Event> {
    if log == [] then [] else Events(log[..|log| - 1]) + [log[|log| - 1].event]
  }

  lemma EventsExtend(log: seq<LogEntry>, e: LogEntry)
    ensures Events(log + [e]) == Events(log) + [e.event]
  {
    assert (log + [e])[..|log|] == log;
  }

  lemma RunOneMore(step: KeyStep<CircuitState>, states: map<string, CircuitState>, log: seq<LogEntry>, e: LogEntry)
    ensures Run(step, states, Events(log + [e])) == Apply(step, Run(step, states, Events(log)), e.event)
  {
    EventsExtend(log, e);
    var events := Events(log);
    assert (events + [e.event])[..|events|] == events;
  }

  /** The breaker operations between two moments of a run. */
  function Since(s: State, s': State): seq<LogEntry> {
    if |s.log| <= |s'.log| then s'.log[|s.log|..] else []
  }

  lemma StepReplays(p: Params, start: State, s: State, step: Action)
    requires Enabled(s, step)
    requires |start.log| <= |s.log| && s.breaker == Run(Step(p.config), start.breaker, Events(Since(start, s)))
    ensures
      var s' := Next(p, s, step);
      |start.log| <= |s'.log| && s'.breaker == Run(Step(p.config), start.breaker, Events(Since(start, s')))
  {
    var op := Operation(s, step);
    if op.Some? {
      var e := LogEntry(op.value, Actor(step), Passes(p, s, op.value));
      RunOneMore(Step(p.config), start.breaker, Since(start, s), e);
      assert (s.log + [e])[|start.log|..] == s.log[|start.log|..] + [e];
    }
  }

  /** Between two moments of a run the breaker has done exactly what the log says, one operation after the other. */
  lemma {:induction false} BreakerReplaysLog(p: Params, states: seq<State>, steps: seq<Action>, i: nat, j: nat)
    requires IsRun(p, states, steps) && i <= j < |states|
    ensures |states[i].log| <= |states[j].log|
    ensures states[j].breaker == Run(Step(p.config), states[i].breaker, Events(Since(states[i], states[j])))
    decreases j
  {
    if i == j {
      assert Since(states[i], states[j]) == [];
    } else {
      BreakerReplaysLog(p, states, steps, i, j - 1);
      assert states[j] == Next(p, states[j - 1], steps[j - 1]);
      StepReplays(p, states[i], states[j - 1], steps[j - 1]);
    }
  }

  lemma {:induction false} EventIsLogged(log: seq<LogEntry>, e: Event)
    requires e in Events(log)
    ensures exists l :: l in log && l.event == e
  {
    var front, last := log[..|log| - 1], log[|log| - 1];
    assert log == front + [last];
    if e in Events(front) {
      EventIsLogged(front, e);
    }
    assert last in log;
  }

  /**
   Concurrent or not, no request for a key whose circuit is open gets past its check before the
   timeout, unless the key is reset or evicted.
   */
  lemma OpenCircuitAdmitsNobody(p: Params, states: seq<State>, steps: seq<Action>, i: nat, j: nat, key: string)
    requires IsRun(p, states, steps) && i <= j < |steps|
    requires key in states[i].breaker && states[i].breaker[key].Open?
    requires steps[j].CheckBreaker? && Key(states[j], steps[j].id) == key
    requires
      var openedAt := states[i].breaker[key].openedAt;
      && openedAt <= steps[j].now < openedAt + p.config.timeout
      && forall l :: l in Since(states[i], states[j]) && l.event.key == key ==>
           l.event.op != Reset && l.event.op != Evict && openedAt <= l.event.at < openedAt + p.config.timeout
    ensures InPhase(states[j + 1], steps[j].id, Gone)
  {
    BreakerReplaysLog(p, states, steps, i, j);
    var later := Since(states[i], states[j]);
    forall e | e in Events(later) && e.key == key ensures exists l :: l in later && l.event == e {
      EventIsLogged(later, e);
    }
    OpenBlocksInTable(states[i].breaker, Events(later), key, steps[j].now, p.config);
    assert states[j + 1] == Next(p, states[j], steps[j]);
  }

  // ---- Tenant circuits ----

  /** The one other tenant module whose handler name is this module's cache key. */
  function Namesake(m: ModulePath): ModulePath
    requires m.Tenant?
  {
    Tenant("tenant:" + m.tenantId, m.name)
  }

  /** Whose recorded success reaches the circuit of this module. */
  function Healer(m: ModulePath): ModulePath {
    if m.Tenant? then Namesake(m) else m
  }

  lemma HealerMeetsKeyIff(m: ModulePath, m': ModulePath)
    requires Sanitary(m) && Sanitary(m')
    ensures HandlerName(m') == CacheKey(m) <==> m' == Healer(m)
  {
    HandlerNameMeetsCacheKeyIff(m', m);
  }

  /** The breaker operations that close a tripped circuit. */
  lemma ClosesIff(p: Params, s: State, step: Action, key: string)
    requires Enabled(s, step) && Tripped(EntryAt(s.breaker, key))
    ensures
      var op := Operation(s, step);
      !Tripped(EntryAt(Next(p, s, step).breaker, key)) <==>
        && op.Some? && op.value.key == key
        && (op.value.op == Reset || op.value.op == Evict
            || (op.value.op == Success && s.breaker[key].HalfOpen?))
  {
    if Operation(s, step).Some? {
      EntryAfter(Step(p.config), s.breaker, Operation(s, step).value, key);
    }
  }

  /** What closes the circuit of this module, step by step: its upkeep, or a success of its healer while half-open. */
  predicate ClosesCircuit(s: State, step: Action, m: ModulePath)
    requires Enabled(s, step)
  {
    match step
    case BreakerUpkeep(key, _, _) => key == CacheKey(m)
    case RecordOutcome(id, _) =>
      && InPhase(s, id, Succeeded) && s.requests[id].m == Healer(m)
      && CacheKey(m) in s.breaker && s.breaker[CacheKey(m)].HalfOpen?
    case _ => false
  }

  /**
   In any run a tripped circuit closes exactly by a reset or eviction, or, when half-open, by a
   success that its healer records: any request of a platform module itself, also one that was
   admitted before the circuit tripped; for a tenant module never its own probe, only its namesake.
   */
  lemma CircuitClosesIff(p: Params, states: seq<State>, steps: seq<Action>, i: nat, m: ModulePath)
    requires IsRun(p, states, steps) && i < |steps| && Sanitary(m)
    requires Tripped(EntryAt(states[i].breaker, CacheKey(m)))
    ensures !Tripped(EntryAt(states[i + 1].breaker, CacheKey(m))) <==> ClosesCircuit(states[i], steps[i], m)
  {
    var s, step := states[i], steps[i];
    assert states[i + 1] == Next(p, s, step);
    ClosesIff(p, s, step, CacheKey(m));
    if step.RecordOutcome? {
      SucceededIsSanitary(p, states, steps, i, step.id);
      if InPhase(s, step.id, Succeeded) {
        HealerMeetsKeyIff(m, s.requests[step.id].m);
      }
    }
  }

  lemma SucceededIsSanitary(p: Params, states: seq<State>, steps: seq<Action>, i: nat, id: nat)
    requires IsRun(p, states, steps) && i < |states|
    ensures InPhase(states[i], id, Succeeded) ==> Sanitary(states[i].requests[id].m)
  {
    RecordInvAlways(p, states, steps, i);
    if InPhase(states[i], id, Succeeded) {
      assert RecordsFit(states[i].requests[id], Mine(states[i].log, id));
    }
  }

  /**
   A request whose key is that of another, sanitary module takes permits and breaker checks of
   that module, but never executes: all it ever records there is the failure of its load.
   */
  lemma ForeignRequestsOnlyFail(p: Params, states: seq<State>, steps: seq<Action>, i: nat, id: nat, m: ModulePath)
    requires IsRun(p, states, steps) && i < |states| && id in states[i].requests && Sanitary(m)
    requires states[i].requests[id].m != m && Key(states[i], id) == CacheKey(m)
    ensures
      var mine := Mine(states[i].log, id);
      && !InPhase(states[i], id, Executing)
      && (|mine| == 2 ==> mine[1].event.op == Failure && mine[1].event.key == CacheKey(m))
  {
    RecordInvAlways(p, states, steps, i);
    assert RecordsFit(states[i].requests[id], Mine(states[i].log, id));
    SharedKeyIff(m, states[i].requests[id].m);
  }

  predicate NeverRequested(requests: map<nat, Request>, m: ModulePath) {
    forall id :: id in requests ==> requests[id].m != m
  }

  ghost predicate NoSuccess(log: seq<LogEntry>, key: string) {
    forall e :: e in log && e.event.key == key ==> e.event.op != Success
  }

  lemma StepRecordsNoTenantSuccess(p: Params, s: State, step: Action, m: ModulePath)
    requires Enabled(s, step) && RecordInv(s) && m.Tenant? && Sanitary(m) && NeverRequested(s.requests, Namesake(m))
    ensures Operation(s, step).Some? && Operation(s, step).value.op == Success ==>
              Operation(s, step).value.key != CacheKey(m)
  {
    if step.RecordOutcome? {
      var r := s.requests[step.id];
      assert RecordsFit(r, Mine(s.log, step.id));
      if HandlerName(r.m) == CacheKey(m) {
        HandlerNameMeetsCacheKeyIff(r.m, m);
        if r.m.Platform? {
          TenantKeyHasSlash(m);
        }
      }
    }
  }

  lemma {:induction false} RequestsRemain(p: Params, states: seq<State>, steps: seq<Action>, i: nat, j: nat,
                                          m: ModulePath)
    requires IsRun(p, states, steps) && i <= j < |states| && NeverRequested(states[j].requests, m)
    ensures NeverRequested(states[i].requests, m)
    decreases j - i
  {
    if i < j {
      assert states[i + 1] == Next(p, states[i], steps[i]);
      RequestsRemain(p, states, steps, i + 1, j, m);
      forall id | id in states[i].requests
        ensures states[i].requests[id].m != m
      {
        RequestsNeverStick(p, states, steps, i, id);
      }
    }
  }

  /** Tenant executions are recorded under the handler name, so a tenant's cache key never hears of a success. */
  lemma {:induction false} TenantKeyHearsNoSuccess(p: Params, states: seq<State>, steps: seq<Action>, i: nat,
                                                   m: ModulePath)
    requires IsRun(p, states, steps) && i < |states|
    requires m.Tenant? && Sanitary(m) && NeverRequested(states[i].requests, Namesake(m))
    ensures NoSuccess(states[i].log, CacheKey(m))
  {
    if i > 0 {
      RequestsRemain(p, states, steps, i - 1, i, Namesake(m));
      TenantKeyHearsNoSuccess(p, states, steps, i - 1, m);
      RecordInvAlways(p, states, steps, i - 1);
      StepRecordsNoTenantSuccess(p, states[i - 1], steps[i - 1], m);
      assert states[i] == Next(p, states[i - 1], steps[i - 1]);
    }
  }

  lemma {:induction false} TrippedStays(entry: Option<CircuitState>, events: seq<Event>, c: Config)
    requires Tripped(entry) && forall e :: e in events ==> !Closes(e.op)
    ensures Tripped(RunKey(Step(c), entry, events))
  {
    if events != [] {
      assert events[|events| - 1] in events;
      TrippedStays(entry, events[..|events| - 1], c);
    }
  }

  /**
   What follows from the two names: the circuit of a tenant module, once open, never closes
   again, however many of its probes succeed, until the key is evicted or reset.
   */
  lemma TenantCircuitNeverRecovers(p: Params, states: seq<State>, steps: seq<Action>, i: nat, j: nat, m: ModulePath)
    requires IsRun(p, states, steps) && i <= j < |states|
    requires m.Tenant? && Sanitary(m) && NeverRequested(states[j].requests, Namesake(m))
    requires Tripped(EntryAt(states[i].breaker, CacheKey(m)))
    requires forall l :: l in Since(states[i], states[j]) && l.event.key == CacheKey(m) ==>
               l.event.op != Reset && l.event.op != Evict
    ensures Tripped(EntryAt(states[j].breaker, CacheKey(m)))
  {
    var key := CacheKey(m);
    BreakerReplaysLog(p, states, steps, i, j);
    TenantKeyHearsNoSuccess(p, states, steps, j, m);
    var later := Since(states[i], states[j]);
    assert forall l :: l in later ==> l in states[j].log;
    KeysAreIndependent(Step(p.config), states[i].breaker, Events(later), key);
    forall e | e in Project(Events(later), key) ensures !Closes(e.op) {
      ProjectMembers(Events(later), key, e);
      EventIsLogged(later, e);
    }
    TrippedStays(EntryAt(states[i].breaker, key), Project(Events(later), key), p.config);
  }
}
