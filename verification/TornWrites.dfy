/**
 The same protocol with the write of a temp file taken apart, as the file system does it: opening
 truncates whatever file has the temp name, the bytes follow in pieces, and an open file stays
 the same file when it is renamed.  Whole artifacts then depend on no two puts of one key
 running at once.
 */
module TornWrites {
  import opened Directory
  import opened Putters
  import opened FileSystem

  /** `Writing` holds the open file and how many bytes have been written to it. */
  datatype Phase = Ready | Writing(inode: nat, written: nat) | Finished(ok: bool) | Crashed

  datatype State = State(fs: Fs, putters: map<nat, Putter<Phase>>, stored: set<(string, Bytes)>)

  const INITIAL := State(EMPTY_FS, map[], {})

  datatype Step =
    | Begin(p: nat, key: string, compiled: Bytes)
    | Open(p: nat, newInode: nat)
    | Write(p: nat, upTo: nat)
    | Rename(p: nat)
    | Crash(p: nat)
    | Delete(name: string)

  predicate Enabled(s: State, step: Step) {
    match step
    case Begin(p, _, _) => p !in s.putters
    case Open(p, newInode) => p in s.putters && s.putters[p].phase == Ready && newInode !in s.fs.data
    case Write(p, upTo) =>
      && p in s.putters && s.putters[p].phase.Writing? && s.putters[p].phase.inode in s.fs.data
      && s.putters[p].phase.written < upTo <= |s.putters[p].compiled|
    case Rename(p) =>
      p in s.putters && s.putters[p].phase.Writing? && s.putters[p].phase.written == |s.putters[p].compiled|
    case Crash(p) => p in s.putters
    case Delete(name) => IsArtifact(name)
  }

  function Next(s: State, step: Step): State
    requires Enabled(s, step)
  {
    match step
    case Begin(p, key, compiled) =>
      s.(putters := s.putters[p := Putter(key, compiled, Ready)], stored := s.stored + {(key, compiled)})
    case Open(p, newInode) =>
      var temp := TempName(s.putters[p].key);
      var inode := OpenedInode(s.fs, temp, newInode);
      s.(fs := Truncated(s.fs, temp, newInode), putters := Moved(s.putters, p, Writing(inode, 0)))
    case Write(p, upTo) =>
      var putter := s.putters[p];
      var inode, written := putter.phase.inode, putter.phase.written;
      s.(fs := Written(s.fs, inode, written, putter.compiled[written..upTo]),
         putters := Moved(s.putters, p, Writing(inode, upTo)))
    case Rename(p) =>
      var temp, artifact := TempName(s.putters[p].key), ArtifactName(s.putters[p].key);
      if temp in s.fs.names
      then s.(fs := Renamed(s.fs, temp, artifact), putters := Moved(s.putters, p, Finished(true)))
      else s.(putters := Moved(s.putters, p, Finished(false)))
    case Crash(p) => s.(putters := Moved(s.putters, p, Crashed))
    case Delete(name) => s.(fs := Unlinked(s.fs, name))
  }

  /** Putters may crash and artifacts may be deleted, at any moment, and a deleted name is gone. */
  lemma FaultsHappen(s: State, p: nat, name: string)
    ensures p in s.putters ==> Enabled(s, Crash(p))
    ensures IsArtifact(name) ==> Enabled(s, Delete(name)) && Next(s, Delete(name)).fs.names == s.fs.names - {name}
  {
  }

  ghost predicate WholeArtifacts(s: State) {
    forall key: string :: ArtifactName(key) in s.fs.names ==>
      s.fs.names[ArtifactName(key)] in s.fs.data && (key, s.fs.data[s.fs.names[ArtifactName(key)]]) in s.stored
  }

  predicate InProgress(s: State, p: nat) {
    p in s.putters && s.putters[p].phase.Writing?
  }

  /** No two puts of one key have their file open at once. */
  ghost predicate Exclusive(s: State) {
    forall p, q :: InProgress(s, p) && InProgress(s, q) && p != q ==> s.putters[p].key != s.putters[q].key
  }

  /** A put in progress owns the file under its temp name, which holds what it has written so far. */
  ghost predicate OwnsTemp(s: State, putter: Putter<Phase>) {
    putter.phase.Writing? ==>
      && TempName(putter.key) in s.fs.names && s.fs.names[TempName(putter.key)] == putter.phase.inode
      && putter.phase.inode in s.fs.data
      && putter.phase.written <= |putter.compiled|
      && s.fs.data[putter.phase.inode] == putter.compiled[..putter.phase.written]
  }

  ghost predicate Inv(s: State) {
    && WholeArtifacts(s)
    && (forall n :: n in s.fs.names ==> s.fs.names[n] in s.fs.data)
    && (forall n, n' :: n in s.fs.names && n' in s.fs.names && n != n' ==> s.fs.names[n] != s.fs.names[n'])
    && (forall p :: p in s.putters ==> OwnsTemp(s, s.putters[p]))
    && (forall p :: p in s.putters ==> (s.putters[p].key, s.putters[p].compiled) in s.stored)
  }

  lemma NamesApart(key: string, key': string)
    ensures ArtifactName(key) != TempName(key')
    ensures TempName(key) == TempName(key') ==> key == key'
    ensures ArtifactName(key) == ArtifactName(key') ==> key == key'
  {
    ArtifactNames(key, key');
    if TempName(key) == TempName(key') {
      TempNameInjective(key, key');
    }
  }

  lemma OpenKeeps(s: State, p: nat, newInode: nat)
    requires Inv(s) && Enabled(s, Open(p, newInode)) && Exclusive(Next(s, Open(p, newInode)))
    ensures Inv(Next(s, Open(p, newInode)))
  {
    var s' := Next(s, Open(p, newInode));
    var k := s.putters[p].key;
    var inode := s'.fs.names[TempName(k)];
    forall key: string { NamesApart(key, k); }
    assert forall n :: n in s.fs.names && n != TempName(k) ==> s.fs.names[n] != inode;
    forall q | q in s'.putters ensures OwnsTemp(s', s'.putters[q]) {
      if q != p && s'.putters[q].phase.Writing? {
        assert InProgress(s', p) && InProgress(s', q);
        NamesApart(s'.putters[q].key, k);
        assert OwnsTemp(s, s.putters[q]);
      }
    }
  }

  lemma WriteKeeps(s: State, p: nat, upTo: nat)
    requires Inv(s) && Enabled(s, Write(p, upTo)) && Exclusive(s)
    ensures Inv(Next(s, Write(p, upTo)))
  {
    var s' := Next(s, Write(p, upTo));
    var putter := s.putters[p];
    var inode, written := putter.phase.inode, putter.phase.written;
    assert OwnsTemp(s, putter);
    assert putter.compiled[..written] + putter.compiled[written..upTo] == putter.compiled[..upTo];
    assert s'.fs.data[inode] == putter.compiled[..upTo];
    forall key: string { NamesApart(key, putter.key); }
    forall q | q in s'.putters ensures OwnsTemp(s', s'.putters[q]) {
      if q != p && s'.putters[q].phase.Writing? {
        assert OwnsTemp(s, s.putters[q]) && InProgress(s, p) && InProgress(s, q);
        NamesApart(s.putters[q].key, putter.key);
      }
    }
  }

  lemma RenameKeeps(s: State, p: nat)
    requires Inv(s) && Enabled(s, Rename(p)) && Exclusive(s)
    ensures Inv(Next(s, Rename(p)))
  {
    var s' := Next(s, Rename(p));
    var putter := s.putters[p];
    assert OwnsTemp(s, putter);
    assert putter.compiled[..|putter.compiled|] == putter.compiled;
    forall key: string
      ensures ArtifactName(key) in s'.fs.names ==>
        s'.fs.names[ArtifactName(key)] in s'.fs.data && (key, s'.fs.data[s'.fs.names[ArtifactName(key)]]) in s'.stored
    {
      NamesApart(key, putter.key);
    }
    forall q | q in s'.putters ensures OwnsTemp(s', s'.putters[q]) {
      if q != p && s'.putters[q].phase.Writing? {
        assert OwnsTemp(s, s.putters[q]) && InProgress(s, p) && InProgress(s, q);
        NamesApart(s.putters[q].key, putter.key);
        NamesApart(putter.key, s.putters[q].key);
      }
    }
  }

  lemma DeleteKeeps(s: State, name: string)
    requires Inv(s) && IsArtifact(name)
    ensures Inv(Next(s, Delete(name)))
  {
    var s' := Next(s, Delete(name));
    forall q | q in s'.putters ensures OwnsTemp(s', s'.putters[q]) {
      assert OwnsTemp(s, s.putters[q]);
      ArtifactNames(s.putters[q].key, s.putters[q].key);
    }
  }

  lemma StepKeepsWhole(s: State, step: Step)
    requires Inv(s) && Enabled(s, step) && Exclusive(s) && Exclusive(Next(s, step))
    ensures Inv(Next(s, step))
  {
    match step
    case Begin(p, key, compiled) =>
      assert forall q :: q in s.putters ==> OwnsTemp(s, s.putters[q]);
    case Open(p, newInode) => OpenKeeps(s, p, newInode);
    case Write(p, upTo) => WriteKeeps(s, p, upTo);
    case Rename(p) => RenameKeeps(s, p);
    case Crash(p) =>
      assert forall q :: q in s.putters ==> OwnsTemp(s, s.putters[q]);
    case Delete(name) => DeleteKeeps(s, name);
  }

  ghost predicate IsRun(states: seq<State>, steps: seq<Step>) {
    && |states| == |steps| + 1
    && forall i :: 0 <= i < |steps| ==> Enabled(states[i], steps[i]) && states[i + 1] == Next(states[i], steps[i])
  }

  /**
   With at most one put per key in progress, readers see whole artifacts at every moment of
   every run, crashes included.
   */
  lemma {:induction false} ExclusivePutsAreWhole(states: seq<State>, steps: seq<Step>, i: nat)
    requires IsRun(states, steps) && Inv(states[0]) && i < |states|
    requires forall j :: 0 <= j < |states| ==> Exclusive(states[j])
    ensures Inv(states[i]) && WholeArtifacts(states[i])
  {
    if i > 0 {
      ExclusivePutsAreWhole(states, steps, i - 1);
      assert states[i] == Next(states[i - 1], steps[i - 1]);
      StepKeepsWhole(states[i - 1], steps[i - 1]);
    }
  }

  // ---- Exactly when ----

  ghost predicate OnlyPutsOf(s: State, key: string, compiled: Bytes) {
    forall p :: p in s.putters ==> s.putters[p].key == key && s.putters[p].compiled == compiled
  }

  /** The puts that have their file open. */
  function Running(s: State): set<nat> {
    set p | p in s.putters && s.putters[p].phase.Writing?
  }

  /** A run from the empty store in which only this artifact is put, never more than `n` times at once. */
  ghost predicate PutsAtOnce(states: seq<State>, steps: seq<Step>, key: string, compiled: Bytes, n: nat) {
    && IsRun(states, steps) && states[0] == INITIAL
    && forall j :: 0 <= j < |states| ==> OnlyPutsOf(states[j], key, compiled) && |Running(states[j])| <= n
  }

  /**
   The states of a run in which the second put truncates the temp file that the first has
   filled, and the first renames it.
   */
  function TearingState(key: string, compiled: Bytes, i: nat): State {
    if i == 0 then INITIAL
    else
      var first, second := Putter(key, compiled, Ready), Putter(key, compiled, Ready);
      var temp := map[TempName(key) := 0];
      var (fs, putters) :=
        if i == 1 then (EMPTY_FS, map[0 := first])
        else if i == 2 then (EMPTY_FS, map[0 := first, 1 := second])
        else if i == 3 then (Fs(temp, map[0 := []]), map[0 := first.(phase := Writing(0, 0)), 1 := second])
        else
          var filled := first.(phase := Writing(0, |compiled|));
          if i == 4 then (Fs(temp, map[0 := compiled]), map[0 := filled, 1 := second])
          else if i == 5 then (Fs(temp, map[0 := []]), map[0 := filled, 1 := second.(phase := Writing(0, 0))])
          else (Fs(map[ArtifactName(key) := 0], map[0 := []]),
                map[0 := first.(phase := Finished(true)), 1 := second.(phase := Writing(0, 0))]);
      State(fs, putters, {(key, compiled)})
  }

  function TearingStep(key: string, compiled: Bytes, i: nat): Step {
    if i == 0 then Begin(0, key, compiled)
    else if i == 1 then Begin(1, key, compiled)
    else if i == 2 then Open(0, 0)
    else if i == 3 then Write(0, |compiled|)
    else if i == 4 then Open(1, 1)
    else Rename(0)
  }

  lemma TearingStepRuns(key: string, compiled: Bytes, i: nat)
    requires compiled != [] && i < 6
    ensures Enabled(TearingState(key, compiled, i), TearingStep(key, compiled, i))
    ensures TearingState(key, compiled, i + 1) == Next(TearingState(key, compiled, i), TearingStep(key, compiled, i))
  {
    NamesApart(key, key);
    assert compiled[0..|compiled|] == compiled;
    assert i == 3 ==> Overlay([], 0, compiled) == compiled;
  }

  lemma TearingRun(key: string, compiled: Bytes) returns (states: seq<State>, steps: seq<Step>)
    requires compiled != []
    ensures IsRun(states, steps) && states[0] == INITIAL && |steps| == 6
    ensures forall j :: 0 <= j < |states| ==> states[j] == TearingState(key, compiled, j)
  {
    states := seq(7, (i: nat) => TearingState(key, compiled, i));
    steps := seq(6, (i: nat) => TearingStep(key, compiled, i));
    forall i | 0 <= i < |steps|
      ensures Enabled(states[i], steps[i]) && states[i + 1] == Next(states[i], steps[i])
    {
      TearingStepRuns(key, compiled, i);
    }
  }

  lemma TearingStateHasTwo(key: string, compiled: Bytes, i: nat)
    requires i <= 6
    ensures OnlyPutsOf(TearingState(key, compiled, i), key, compiled)
    ensures |Running(TearingState(key, compiled, i))| <= 2
  {
    AtMostTwo(Running(TearingState(key, compiled, i)), 0, 1);
  }

  /**
   Without the condition a reader can see a torn artifact, with no more than two puts of one
   artifact at once.
   */
  lemma OverlappingPutsTear(key: string, compiled: Bytes) returns (states: seq<State>, steps: seq<Step>)
    requires compiled != []
    ensures PutsAtOnce(states, steps, key, compiled, 2)
    ensures forall b :: (key, b) in states[|steps|].stored ==> b == compiled
    ensures !WholeArtifacts(states[|steps|])
  {
    states, steps := TearingRun(key, compiled);
    forall j | 0 <= j < |states| ensures OnlyPutsOf(states[j], key, compiled) && |Running(states[j])| <= 2 {
      TearingStateHasTwo(key, compiled, j);
    }
    assert states[6].fs.data[states[6].fs.names[ArtifactName(key)]] == [];
  }

  lemma AtMostTwo(a: set<nat>, x: nat, y: nat)
    requires a <= {x, y}
    ensures |a| <= 2
  {
    assert a == {} || a == {x} || a == {y} || a == {x, y};
  }

  lemma AtLeastTwo(a: set<nat>, x: nat, y: nat)
    requires x in a && y in a && x != y
    ensures |a| >= 2
  {
    assert a == a - {x, y} + {x, y};
  }

  lemma OneAtOnceIsExclusive(s: State)
    requires |Running(s)| <= 1
    ensures Exclusive(s)
  {
    if p, q :| InProgress(s, p) && InProgress(s, q) && p != q {
      AtLeastTwo(Running(s), p, q);
      assert false;
    }
  }

  /** While only the empty artifact is put, every file is empty. */
  ghost predicate AllEmpty(s: State, key: string) {
    && (forall n :: n in s.fs.names ==> n in {TempName(key), ArtifactName(key)} && s.fs.names[n] in s.fs.data)
    && (forall i :: i in s.fs.data ==> s.fs.data[i] == [])
    && (s.fs.names != map[] || s.putters != map[] ==> (key, []) in s.stored)
  }

  lemma StepKeepsEmpty(s: State, step: Step, key: string)
    requires AllEmpty(s, key) && Enabled(s, step) && OnlyPutsOf(s, key, []) && OnlyPutsOf(Next(s, step), key, [])
    ensures AllEmpty(Next(s, step), key)
  {
    if step.Begin? {
      assert step.p in Next(s, step).putters;
    }
  }

  lemma {:induction false} EmptyPutsAreWhole(states: seq<State>, steps: seq<Step>, key: string, n: nat, i: nat)
    requires PutsAtOnce(states, steps, key, [], n) && i < |states|
    ensures AllEmpty(states[i], key) && WholeArtifacts(states[i])
  {
    if i > 0 {
      EmptyPutsAreWhole(states, steps, key, n, i - 1);
      assert states[i] == Next(states[i - 1], steps[i - 1]);
      StepKeepsEmpty(states[i - 1], steps[i - 1], key);
    }
    forall k: string | ArtifactName(k) in states[i].fs.names ensures k == key {
      NamesApart(k, key);
    }
  }

  /**
   Readers see whole artifacts in all runs exactly if puts of the key come one at a time, or
   there is nothing to tear.
   */
  lemma {:induction false} WholeIff(key: string, compiled: Bytes, n: nat)
    ensures
      (forall states, steps, i: nat :: PutsAtOnce(states, steps, key, compiled, n) && i < |states| ==>
          WholeArtifacts(states[i]))
      <==> n <= 1 || compiled == []
  {
    if n <= 1 || compiled == [] {
      forall states, steps, i: nat | PutsAtOnce(states, steps, key, compiled, n) && i < |states|
        ensures WholeArtifacts(states[i])
      {
        if compiled == [] {
          EmptyPutsAreWhole(states, steps, key, n, i);
        } else {
          forall j | 0 <= j < |states| ensures Exclusive(states[j]) {
            OneAtOnceIsExclusive(states[j]);
          }
          ExclusivePutsAreWhole(states, steps, i);
        }
      }
    } else {
      var states, steps := OverlappingPutsTear(key, compiled);
      assert PutsAtOnce(states, steps, key, compiled, n);
      assert |steps| < |states|;
    }
  }
}
