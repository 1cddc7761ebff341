/**
 The breaker of the concurrency tests (src/runtime/loom_tests.rs) under any number of threads:
 every atomic access is one step, and steps of different threads interleave freely.
 */
module AtomicBreaker {
  import opened Integers

  /**
   One atomic access.  `record_failure` is `FetchAdd` followed, if the count it saw reached the
   threshold, by `StoreOpen` of the same thread; `record_success` is the single step `StoreZero`.
   */
  datatype Step = FetchAdd(thread: nat) | StoreOpen(thread: nat) | StoreZero(thread: nat)

  /** `mustOpen` holds the threads that have incremented the count and still have to store the flag. */
  datatype State = State(failureCount: u32, isOpen: bool, mustOpen: set<nat>)

  const INIT := State(0, false, {})

  /** The value an increment leaves; the counter wraps around. */
  function Incremented(n: u32): u32 {
    if n == U32_RANGE - 1 then 0 else n + 1
  }

  /** A thread inside `record_failure` can only go on with its own store. */
  predicate Enabled(s: State, step: Step) {
    match step
    case StoreOpen(t) => t in s.mustOpen
    case FetchAdd(t) => t !in s.mustOpen
    case StoreZero(t) => t !in s.mustOpen
  }

  function Next(s: State, step: Step, threshold: u32): State {
    match step
    case FetchAdd(t) =>
      var count := Incremented(s.failureCount);
      s.(failureCount := count, mustOpen := if count >= threshold then s.mustOpen + {t} else s.mustOpen)
    case StoreOpen(t) => s.(isOpen := true, mustOpen := s.mustOpen - {t})
    case StoreZero(t) => s.(failureCount := 0)
  }

  function Run(steps: seq<Step>, threshold: u32): State {
    if steps == [] then INIT else Next(Run(steps[..|steps| - 1], threshold), steps[|steps| - 1], threshold)
  }

  /** The breaker itself, each call running alone; `others` are threads stopped inside a call of theirs. */
  class SimpleCircuitBreaker {
    const threshold: u32
    var failureCount: u32
    var isOpen: bool

    constructor (threshold: u32)
      ensures this.threshold == threshold && View({}) == INIT
    {
      this.threshold := threshold;
      failureCount := 0;
      isOpen := false;
    }

    ghost function View(others: set<nat>): State
      reads this
    {
      State(failureCount, isOpen, others)
    }

    /** One call is the increment and, exactly if that obliges the thread to, the store: nothing is left to do. */
    method RecordFailure(ghost thread: nat, ghost others: set<nat>)
      requires thread !in others
      modifies this
      ensures
        var added := Next(old(View(others)), FetchAdd(thread), threshold);
        && Enabled(old(View(others)), FetchAdd(thread))
        && View(others) ==
             if Enabled(added, StoreOpen(thread)) then Next(added, StoreOpen(thread), threshold) else added
    {
      failureCount := Incremented(failureCount);
      if failureCount >= threshold {
        isOpen := true;
      }
      assert others + {thread} - {thread} == others;
    }

    method RecordSuccess(ghost thread: nat, ghost others: set<nat>)
      requires thread !in others
      modifies this
      ensures Enabled(old(View(others)), StoreZero(thread))
      ensures View(others) == Next(old(View(others)), StoreZero(thread), threshold)
    {
      failureCount := 0;
    }
  }

  ghost predicate Legal(steps: seq<Step>, threshold: u32) {
    forall i :: 0 <= i < |steps| ==> Enabled(Run(steps[..i], threshold), steps[i])
  }

  /** No operation is in progress. */
  predicate Quiescent(s: State) {
    s.mustOpen == {}
  }

  // ---- The same history read without a breaker ----

  /** Failures since the last success. */
  function Stretch(steps: seq<Step>): nat {
    if steps == [] then 0
    else match steps[|steps| - 1]
      case FetchAdd(_) => Stretch(steps[..|steps| - 1]) + 1
      case StoreOpen(_) => Stretch(steps[..|steps| - 1])
      case StoreZero(_) => 0
  }

  /** The longest run of failures not interrupted by a success. */
  function Peak(steps: seq<Step>): nat {
    if steps == [] then 0
    else
      var before, now := Peak(steps[..|steps| - 1]), Stretch(steps);
      if now > before then now else before
  }

  function Needed(threshold: u32): nat {
    if threshold == 0 then 1 else threshold
  }

  lemma LegalPrefix(steps: seq<Step>, threshold: u32)
    requires Legal(steps, threshold) && steps != []
    ensures Legal(steps[..|steps| - 1], threshold)
    ensures Enabled(Run(steps[..|steps| - 1], threshold), steps[|steps| - 1])
  {
    var front := steps[..|steps| - 1];
    forall i | 0 <= i < |front| ensures Enabled(Run(front[..i], threshold), front[i]) {
      assert front[..i] == steps[..i];
    }
  }

  lemma {:induction false} CountIsStretch(steps: seq<Step>, threshold: u32)
    ensures Run(steps, threshold).failureCount == Stretch(steps) % U32_RANGE
    ensures Stretch(steps) <= Peak(steps)
  {
    if steps != [] {
      CountIsStretch(steps[..|steps| - 1], threshold);
    }
  }

  /** In every reachable state: the flag is set or about to be set exactly if some stretch reached the threshold. */
  lemma {:induction false} OpeningInvariant(steps: seq<Step>, threshold: u32)
    requires Legal(steps, threshold)
    ensures
      var s := Run(steps, threshold);
      (s.isOpen || s.mustOpen != {}) <==> Peak(steps) >= Needed(threshold)
  {
    if steps != [] {
      var front, last := steps[..|steps| - 1], steps[|steps| - 1];
      LegalPrefix(steps, threshold);
      OpeningInvariant(front, threshold);
      CountIsStretch(front, threshold);
      CountIsStretch(steps, threshold);
      if last.FetchAdd? {
        var count := Run(steps, threshold).failureCount;
        assert count == Stretch(steps) % U32_RANGE <= Stretch(steps);
        if Stretch(steps) < U32_RANGE {
          assert count == Stretch(steps);
        }
        assert last.thread in Run(steps, threshold).mustOpen || count < threshold;
      }
    }
  }

  /**
   When every operation has completed, the circuit is open exactly if some stretch of failures
   between successes reached the threshold; the counter may have wrapped around meanwhile.
   */
  lemma {:induction false} OpenIffReached(steps: seq<Step>, threshold: u32)
    requires Legal(steps, threshold) && Quiescent(Run(steps, threshold))
    ensures Run(steps, threshold).isOpen <==> Peak(steps) >= Needed(threshold)
  {
    OpeningInvariant(steps, threshold);
  }

  /** What the tests assert for two threads, for any number: a count at the threshold means the circuit is open. */
  lemma {:induction false} CountAtThresholdIsOpen(steps: seq<Step>, threshold: u32)
    requires Legal(steps, threshold) && Quiescent(Run(steps, threshold))
    requires threshold >= 1 && Run(steps, threshold).failureCount >= threshold
    ensures Run(steps, threshold).isOpen
  {
    CountIsStretch(steps, threshold);
    OpenIffReached(steps, threshold);
  }

  /**
   With a threshold of zero the count is always at the threshold, and the circuit is open
   exactly after some failure.
   */
  lemma {:induction false} ThresholdZeroIff(steps: seq<Step>)
    requires Legal(steps, 0) && Quiescent(Run(steps, 0))
    ensures Run(steps, 0).isOpen <==> exists i :: 0 <= i < |steps| && steps[i].FetchAdd?
  {
    OpenIffReached(steps, 0);
    PeakPositiveIff(steps);
  }

  lemma {:induction false} PeakPositiveIff(steps: seq<Step>)
    ensures Peak(steps) >= 1 <==> exists i :: 0 <= i < |steps| && steps[i].FetchAdd?
    ensures Stretch(steps) >= 1 ==> exists i :: 0 <= i < |steps| && steps[i].FetchAdd?
  {
    if steps != [] {
      var front := steps[..|steps| - 1];
      PeakPositiveIff(front);
      if i :| 0 <= i < |front| && front[i].FetchAdd? {
        assert steps[i].FetchAdd?;
      }
      if i :| 0 <= i < |steps| && steps[i].FetchAdd? {
        if i < |front| {
          assert front[i].FetchAdd?;
        }
      }
    }
  }

  /** Once open the circuit stays open: no operation here clears the flag. */
  lemma {:induction false} OpenNeverReverts(steps: seq<Step>, threshold: u32, n: nat)
    requires n <= |steps| && Run(steps[..n], threshold).isOpen
    ensures Run(steps, threshold).isOpen
  {
    if n < |steps| {
      assert steps[..|steps| - 1][..n] == steps[..n];
      OpenNeverReverts(steps[..|steps| - 1], threshold, n);
    } else {
      assert steps[..n] == steps;
    }
  }

  /** Without wrap-around the stored count is the number of failures since the last success. */
  lemma {:induction false} CountIsExact(steps: seq<Step>, threshold: u32)
    requires Stretch(steps) < U32_RANGE
    ensures Run(steps, threshold).failureCount == Stretch(steps)
  {
    CountIsStretch(steps, threshold);
  }
}
