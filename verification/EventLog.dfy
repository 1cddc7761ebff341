/**
 The debouncer's history as a log of records and drains, and what each drain should emit, read
 off the log alone (src/daemon/watch.rs).  Two paths are the same key when `pathOf` says so,
 which stands for the comparison of `PathBuf` values.
 */
module EventLog {
  import opened Clock
  import opened Wrappers

  datatype WatchEvent =
    | ModuleChanged(path: string)
    | ModuleRemoved(path: string)
    | ConfigChanged
    | Error(message: string)

  /** What an event is debounced under; all errors share the empty path. */
  datatype Slot<P> = ConfigSlot | PathSlot(path: P)

  function SlotOf<P>(e: WatchEvent, pathOf: string -> P): Slot<P> {
    match e
    case ModuleChanged(path) => PathSlot(pathOf(path))
    case ModuleRemoved(path) => PathSlot(pathOf(path))
    case ConfigChanged => ConfigSlot
    case Error(_) => PathSlot(pathOf(""))
  }

  datatype LogEntry = Recorded(event: WatchEvent, at: nat) | Drained(at: nat)

  type Log = seq<LogEntry>

  /** Position `i` records an event of this slot. */
  predicate Records<P(==)>(log: Log, i: nat, slot: Slot<P>, pathOf: string -> P) {
    i < |log| && log[i].Recorded? && SlotOf(log[i].event, pathOf) == slot
  }

  /** The drain at `d` finds the record at `i` old enough. */
  predicate RipeAt(log: Log, i: nat, d: nat, debounce: nat)
    requires i < |log| && d < |log|
  {
    log[d].Drained? && Elapsed(log[i].at, log[d].at) >= debounce
  }

  /** No event of the same slot is recorded, and no drain finds the record ripe, strictly between `i` and `n`. */
  ghost predicate Undisturbed<P>(log: Log, i: nat, n: nat, debounce: nat, pathOf: string -> P)
    requires i < |log| && n <= |log| && log[i].Recorded?
  {
    && (forall j :: i < j < n ==> !Records(log, j, SlotOf(log[i].event, pathOf), pathOf))
    && (forall d :: i < d < n ==> !RipeAt(log, i, d, debounce))
  }

  /** The record at `i` is delivered by the drain at `d`: it is the last of its slot, ripe, and not delivered before. */
  ghost predicate EmittedAt<P>(log: Log, i: nat, d: nat, debounce: nat, pathOf: string -> P) {
    i < d < |log| && log[i].Recorded? && RipeAt(log, i, d, debounce) && Undisturbed(log, i, d, debounce, pathOf)
  }

  ghost predicate SupersededAt<P>(log: Log, i: nat, j: nat, debounce: nat, pathOf: string -> P) {
    && i < j < |log| && log[i].Recorded?
    && Records(log, j, SlotOf(log[i].event, pathOf), pathOf)
    && Undisturbed(log, i, j, debounce, pathOf)
  }

  ghost predicate PendingIn<P>(log: Log, i: nat, debounce: nat, pathOf: string -> P) {
    i < |log| && log[i].Recorded? && Undisturbed(log, i, |log|, debounce, pathOf)
  }

  // ---- The same, said of the events ----

  /** The path an event is about; errors are about the empty path, configuration changes about none. */
  function PathText(e: WatchEvent): Option<string> {
    match e
    case ModuleChanged(path) => Some(path)
    case ModuleRemoved(path) => Some(path)
    case Error(_) => Some("")
    case ConfigChanged => None
  }

  /** Both are about the configuration, or about one path. */
  predicate SameTarget<P(==)>(e: WatchEvent, e': WatchEvent, pathOf: string -> P) {
    match (PathText(e), PathText(e'))
    case (Some(path), Some(path')) => pathOf(path) == pathOf(path')
    case (None, None) => true
    case _ => false
  }

  lemma SameTargetIff<P>(e: WatchEvent, e': WatchEvent, pathOf: string -> P)
    ensures SlotOf(e, pathOf) == SlotOf(e', pathOf) <==> SameTarget(e, e', pathOf)
    ensures forall path, path' ::
              SameTarget(ModuleChanged(path), ModuleRemoved(path'), pathOf) <==> pathOf(path) == pathOf(path')
    ensures forall path, message ::
              SameTarget(Error(message), ModuleChanged(path), pathOf) <==> pathOf("") == pathOf(path)
    ensures SameTarget(ConfigChanged, e, pathOf) <==> e == ConfigChanged
  {
  }

  /**
   Nothing about the target of the record at `i` is recorded, and no drain finds it ripe,
   strictly between `i` and `n`.
   */
  ghost predicate Quiet<P>(log: Log, i: nat, n: nat, debounce: nat, pathOf: string -> P)
    requires i < |log| && n <= |log| && log[i].Recorded?
  {
    && (forall j :: i < j < n && log[j].Recorded? ==> !SameTarget(log[i].event, log[j].event, pathOf))
    && (forall d :: i < d < n && log[d].Drained? ==> Elapsed(log[i].at, log[d].at) < debounce)
  }

  lemma QuietIff<P>(log: Log, i: nat, n: nat, debounce: nat, pathOf: string -> P)
    requires i < |log| && n <= |log| && log[i].Recorded?
    ensures Undisturbed(log, i, n, debounce, pathOf) <==> Quiet(log, i, n, debounce, pathOf)
  {
    var slot := SlotOf(log[i].event, pathOf);
    forall j | i < j < n && log[j].Recorded?
      ensures Records(log, j, slot, pathOf) <==> SameTarget(log[i].event, log[j].event, pathOf)
    {
      SameTargetIff(log[i].event, log[j].event, pathOf);
    }
    if Undisturbed(log, i, n, debounce, pathOf) {
      forall d | i < d < n && log[d].Drained? ensures Elapsed(log[i].at, log[d].at) < debounce {
        assert !RipeAt(log, i, d, debounce);
      }
    }
  }

  /** A later record supersedes exactly the undelivered ones of its own target; events of other paths never do. */
  lemma SupersededIff<P>(log: Log, i: nat, j: nat, debounce: nat, pathOf: string -> P)
    requires i < j < |log| && log[i].Recorded?
    ensures SupersededAt(log, i, j, debounce, pathOf) <==>
              && log[j].Recorded? && SameTarget(log[i].event, log[j].event, pathOf)
              && Quiet(log, i, j, debounce, pathOf)
  {
    QuietIff(log, i, j, debounce, pathOf);
    if log[j].Recorded? {
      SameTargetIff(log[i].event, log[j].event, pathOf);
    }
  }

  /**
   A drain delivers exactly the records that are old enough, with nothing later about their
   target and no earlier delivery.
   */
  lemma EmittedIff<P>(log: Log, i: nat, d: nat, debounce: nat, pathOf: string -> P)
    requires i < d < |log| && log[i].Recorded?
    ensures EmittedAt(log, i, d, debounce, pathOf) <==>
              && log[d].Drained? && Elapsed(log[i].at, log[d].at) >= debounce
              && Quiet(log, i, d, debounce, pathOf)
  {
    QuietIff(log, i, d, debounce, pathOf);
  }

  // ---- Every record has exactly one fate ----

  lemma {:induction false} FirstDisturbance<P>(log: Log, i: nat, n: nat, debounce: nat, pathOf: string -> P)
    returns (k: nat)
    requires i < n <= |log| && log[i].Recorded?
    ensures i < k <= n && Undisturbed(log, i, k, debounce, pathOf)
    ensures k < n ==> Records(log, k, SlotOf(log[i].event, pathOf), pathOf) || RipeAt(log, i, k, debounce)
    decreases n
  {
    if n == i + 1 {
      k := n;
    } else {
      k := FirstDisturbance(log, i, n - 1, debounce, pathOf);
      if k == n - 1 && !Records(log, k, SlotOf(log[i].event, pathOf), pathOf) && !RipeAt(log, i, k, debounce) {
        k := n;
      }
    }
  }

  /** A recorded event is pending, superseded or emitted; never two of these, and emitted only once. */
  lemma OneFate<P>(log: Log, i: nat, debounce: nat, pathOf: string -> P)
    requires i < |log| && log[i].Recorded?
    ensures
      var pending := PendingIn(log, i, debounce, pathOf);
      var superseded := exists j: nat :: SupersededAt(log, i, j, debounce, pathOf);
      var emitted := exists d: nat :: EmittedAt(log, i, d, debounce, pathOf);
      && (pending || superseded || emitted)
      && !(pending && superseded) && !(pending && emitted) && !(superseded && emitted)
    ensures forall d: nat, d': nat ::
      EmittedAt(log, i, d, debounce, pathOf) && EmittedAt(log, i, d', debounce, pathOf) ==> d == d'
  {
    var k := FirstDisturbance(log, i, |log|, debounce, pathOf);
    if k < |log| {
      if RipeAt(log, i, k, debounce) {
        assert EmittedAt(log, i, k, debounce, pathOf);
      } else {
        assert SupersededAt(log, i, k, debounce, pathOf);
      }
    }
  }

  /** One drain never emits two events of one slot. */
  lemma OneEmissionPerSlot<P>(log: Log, i: nat, j: nat, d: nat, debounce: nat, pathOf: string -> P)
    requires EmittedAt(log, i, d, debounce, pathOf) && EmittedAt(log, j, d, debounce, pathOf)
    requires SlotOf(log[i].event, pathOf) == SlotOf(log[j].event, pathOf)
    ensures i == j
  {
    assert Records(log, j, SlotOf(log[i].event, pathOf), pathOf);
    assert Records(log, i, SlotOf(log[j].event, pathOf), pathOf);
  }

  /**
   Errors are debounced too, and as one key: a second error that comes before a drain finds the
   first one ripe replaces it for good.
   */
  lemma SecondErrorReplacesFirst<P>(log: Log, i: nat, j: nat, debounce: nat, pathOf: string -> P)
    requires i < j < |log| && log[i].Recorded? && log[i].event.Error? && log[j].Recorded? && log[j].event.Error?
    requires forall d: nat :: i < d < j ==> !RipeAt(log, i, d, debounce)
    ensures exists k: nat :: k <= j && SupersededAt(log, i, k, debounce, pathOf)
    ensures forall d: nat :: !EmittedAt(log, i, d, debounce, pathOf)
  {
    assert Records(log, j, SlotOf(log[i].event, pathOf), pathOf);
    var k := FirstDisturbance(log, i, j, debounce, pathOf);
    assert SupersededAt(log, i, k, debounce, pathOf);
    OneFate(log, i, debounce, pathOf);
  }

  /** The next drain emits an error exactly if it is old enough and no other event of the empty path has come since. */
  lemma ErrorEmittedIff<P>(log: Log, i: nat, d: nat, debounce: nat, pathOf: string -> P)
    requires i < d < |log| && log[i].Recorded? && log[i].event.Error?
    requires log[d].Drained? && forall k :: i < k < d ==> log[k].Recorded?
    ensures EmittedAt(log, i, d, debounce, pathOf) <==>
              && Elapsed(log[i].at, log[d].at) >= debounce
              && forall k :: i < k < d ==> !Records(log, k, PathSlot(pathOf("")), pathOf)
  {
    assert SlotOf(log[i].event, pathOf) == PathSlot(pathOf(""));
    assert forall k :: i < k < d ==> !RipeAt(log, i, k, debounce);
  }

  // ---- Delivery in time ----

  ghost predicate TimesOrdered(log: Log) {
    forall i, j :: 0 <= i < j < |log| ==> log[i].at <= log[j].at
  }

  /** The drain before `d`, or the start of the log. */
  function PreviousPoll(log: Log, d: nat): (c: nat)
    requires d < |log|
    ensures c <= d && (d > 0 ==> c < d)
    ensures c == 0 || log[c].Drained?
    ensures forall k :: c < k < d ==> !log[k].Drained?
  {
    if d == 0 then 0 else if log[d - 1].Drained? then d - 1 else PreviousPoll(log, d - 1)
  }

  ghost predicate PollsSpaced(log: Log, period: nat) {
    forall d :: 0 <= d < |log| && log[d].Drained? ==> log[d].at <= log[PreviousPoll(log, d)].at + period
  }

  lemma {:induction false} FirstRipe(log: Log, i: nat, n: nat, debounce: nat) returns (d: nat)
    requires i < n < |log| && RipeAt(log, i, n, debounce)
    ensures i < d <= n && RipeAt(log, i, d, debounce)
    ensures forall k :: i < k < d ==> !RipeAt(log, i, k, debounce)
    decreases n
  {
    if k :| i < k < n && RipeAt(log, i, k, debounce) {
      d := FirstRipe(log, i, k, debounce);
    } else {
      d := n;
    }
  }

  /**
   With polls at most `period` apart, the last record of a slot is delivered no earlier than the
   debounce time after it and no later than one period after that, once some poll comes late enough.
   */
  lemma DeliveredInTime<P>(log: Log, i: nat, late: nat, debounce: nat, period: nat, pathOf: string -> P)
    returns (d: nat)
    requires TimesOrdered(log) && PollsSpaced(log, period)
    requires i < |log| && log[i].Recorded?
    requires forall j :: i < j < |log| && log[j].Recorded? ==> !SameTarget(log[i].event, log[j].event, pathOf)
    requires i < late < |log| && log[late].Drained? && log[late].at >= log[i].at + debounce
    ensures EmittedAt(log, i, d, debounce, pathOf)
    ensures log[i].at + debounce <= log[d].at <= log[i].at + debounce + period
  {
    d := FirstRipe(log, i, late, debounce);
    forall k | i < k < d && log[k].Drained? ensures Elapsed(log[i].at, log[k].at) < debounce {
      assert !RipeAt(log, i, k, debounce);
    }
    EmittedIff(log, i, d, debounce, pathOf);
    FirstRipeInTime(log, i, d, debounce, period);
  }

  lemma FirstRipeInTime(log: Log, i: nat, d: nat, debounce: nat, period: nat)
    requires TimesOrdered(log) && PollsSpaced(log, period)
    requires i < d < |log| && RipeAt(log, i, d, debounce)
    requires forall k :: i < k < d ==> !RipeAt(log, i, k, debounce)
    ensures log[i].at + debounce <= log[d].at <= log[i].at + debounce + period
  {
    var c := PreviousPoll(log, d);
    assert log[i].at <= log[d].at;
    if c < i {
      assert log[c].at <= log[i].at;
    } else if i < c {
      assert log[i].at <= log[c].at;
      assert !RipeAt(log, i, c, debounce);
    }
  }

  // ---- What the debouncer has to remember ----

  /** The last record of a slot. */
  function LastOf<P(==)>(log: Log, slot: Slot<P>, pathOf: string -> P): (r: Option<nat>)
    ensures r.Some? ==> Records(log, r.value, slot, pathOf)
    ensures r.Some? ==> forall j :: r.value < j < |log| ==> !Records(log, j, slot, pathOf)
    ensures r.None? ==> forall j :: 0 <= j < |log| ==> !Records(log, j, slot, pathOf)
  {
    if log == [] then None
    else if Records(log, |log| - 1, slot, pathOf) then Some(|log| - 1)
    else
      var front := log[..|log| - 1];
      assert forall j :: 0 <= j < |front| ==> front[j] == log[j];
      var r := LastOf(front, slot, pathOf);
      assert forall j :: 0 <= j < |front| ==> (Records(front, j, slot, pathOf) <==> Records(log, j, slot, pathOf));
      r
  }

  /** The undelivered event of a slot with its time, if there is one. */
  ghost function Remembered<P>(log: Log, slot: Slot<P>, debounce: nat, pathOf: string -> P): Option<(WatchEvent, nat)> {
    match LastOf(log, slot, pathOf)
    case None => None
    case Some(i) =>
      if Undisturbed(log, i, |log|, debounce, pathOf) then Some((log[i].event, log[i].at)) else None
  }

  lemma UndisturbedExtends<P>(log: Log, entry: LogEntry, i: nat, n: nat, debounce: nat, pathOf: string -> P)
    requires i < |log| && n <= |log| && log[i].Recorded?
    ensures Undisturbed(log + [entry], i, n, debounce, pathOf) <==> Undisturbed(log, i, n, debounce, pathOf)
  {
    var longer := log + [entry];
    var slot := SlotOf(log[i].event, pathOf);
    assert forall j :: 0 <= j < |log| ==> longer[j] == log[j];
    assert forall j :: i < j < n ==> (Records(longer, j, slot, pathOf) <==> Records(log, j, slot, pathOf));
    assert forall d :: i < d < n ==> (RipeAt(longer, i, d, debounce) <==> RipeAt(log, i, d, debounce));
  }

  lemma LastOfExtended<P>(log: Log, entry: LogEntry, slot: Slot<P>, pathOf: string -> P)
    ensures
      LastOf(log + [entry], slot, pathOf) ==
        if entry.Recorded? && SlotOf(entry.event, pathOf) == slot then Some(|log|) else LastOf(log, slot, pathOf)
  {
    assert (log + [entry])[..|log|] == log;
  }

  lemma RememberedAfterRecord<P>(log: Log, e: WatchEvent, at: nat, slot: Slot<P>, debounce: nat, pathOf: string -> P)
    ensures
      Remembered(log + [Recorded(e, at)], slot, debounce, pathOf) ==
        if SlotOf(e, pathOf) == slot then Some((e, at)) else Remembered(log, slot, debounce, pathOf)
  {
    var longer := log + [Recorded(e, at)];
    LastOfExtended(log, Recorded(e, at), slot, pathOf);
    match LastOf(log, slot, pathOf) {
      case None =>
      case Some(i) =>
        UndisturbedExtends(log, Recorded(e, at), i, |log|, debounce, pathOf);
        if SlotOf(e, pathOf) != slot {
          assert !RipeAt(longer, i, |log|, debounce);
          assert Undisturbed(longer, i, |longer|, debounce, pathOf) <==>
              Undisturbed(longer, i, |log|, debounce, pathOf);
        }
    }
  }

  lemma RememberedAfterDrain<P>(log: Log, at: nat, slot: Slot<P>, debounce: nat, pathOf: string -> P)
    ensures
      var before := Remembered(log, slot, debounce, pathOf);
      Remembered(log + [Drained(at)], slot, debounce, pathOf) ==
        if before.Some? && Elapsed(before.value.1, at) >= debounce then None else before
  {
    var longer := log + [Drained(at)];
    LastOfExtended(log, Drained(at), slot, pathOf);
    match LastOf(log, slot, pathOf) {
      case None =>
      case Some(i) =>
        UndisturbedExtends(log, Drained(at), i, |log|, debounce, pathOf);
        assert Undisturbed(longer, i, |longer|, debounce, pathOf) <==>
          Undisturbed(longer, i, |log|, debounce, pathOf) && !RipeAt(longer, i, |log|, debounce);
    }
  }

  /** What a drain emits now is exactly what is remembered and ripe. */
  lemma EmissionIsRemembered<P>(log: Log, at: nat, i: nat, debounce: nat, pathOf: string -> P)
    requires i < |log| && log[i].Recorded?
    ensures
      var slot := SlotOf(log[i].event, pathOf);
      EmittedAt(log + [Drained(at)], i, |log|, debounce, pathOf) <==>
        && LastOf(log, slot, pathOf) == Some(i)
        && Remembered(log, slot, debounce, pathOf).Some?
        && Elapsed(log[i].at, at) >= debounce
  {
    var longer := log + [Drained(at)];
    var slot := SlotOf(log[i].event, pathOf);
    assert longer[i] == log[i] && Records(log, i, slot, pathOf);
    UndisturbedExtends(log, Drained(at), i, |log|, debounce, pathOf);
  }
}
