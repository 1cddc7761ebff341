/**
 Concurrent `put` calls on one cache directory (src/runtime/aot_cache.rs): any number of putters,
 each writing its temp file and then renaming it, with crashes in between, while others delete
 artifacts.  Here the write of a temp file is one step; all putters of a key share one temp name.
 */
module PutProtocol {
  import opened Directory
  import opened Putters

  datatype Phase = Ready | Written | Finished(ok: bool) | Crashed

  /** `stored` remembers every artifact ever handed to a put, and those found at the start. */
  datatype State = State(files: map<string, Bytes>, putters: map<nat, Putter<Phase>>, stored: set<(string, Bytes)>)

  datatype Step =
    | Begin(p: nat, key: string, compiled: Bytes)
    | WriteTemp(p: nat)
    | WriteFails(p: nat)
    | Rename(p: nat)
    | Crash(p: nat)
    | Delete(name: string)

  /** Removal, cleanup and clearing delete artifacts only. */
  predicate Enabled(s: State, step: Step) {
    match step
    case Begin(p, _, _) => p !in s.putters
    case WriteTemp(p) => p in s.putters && s.putters[p].phase == Ready
    case WriteFails(p) => p in s.putters && s.putters[p].phase == Ready
    case Rename(p) => p in s.putters && s.putters[p].phase == Written
    case Crash(p) => p in s.putters
    case Delete(name) => IsArtifact(name)
  }

  function Next(s: State, step: Step): State
    requires Enabled(s, step)
  {
    match step
    case Begin(p, key, compiled) =>
      s.(putters := s.putters[p := Putter(key, compiled, Ready)], stored := s.stored + {(key, compiled)})
    case WriteTemp(p) =>
      s.(files := s.files[TempName(s.putters[p].key) := s.putters[p].compiled], putters := Moved(s.putters, p, Written))
    case WriteFails(p) => s.(putters := Moved(s.putters, p, Finished(false)))
    case Rename(p) =>
      var temp, artifact := TempName(s.putters[p].key), ArtifactName(s.putters[p].key);
      if temp in s.files
      then s.(files := (s.files - {temp})[artifact := s.files[temp]], putters := Moved(s.putters, p, Finished(true)))
      else s.(putters := Moved(s.putters, p, Finished(false)))
    case Crash(p) => s.(putters := Moved(s.putters, p, Crashed))
    case Delete(name) => s.(files := s.files - {name})
  }

  /** Writes may fail, putters may crash and artifacts may be deleted, at any moment, and a deleted file is gone. */
  lemma FaultsHappen(s: State, p: nat, name: string)
    ensures p in s.putters ==> Enabled(s, Crash(p))
    ensures p in s.putters && s.putters[p].phase == Ready ==> Enabled(s, WriteFails(p))
    ensures IsArtifact(name) ==> Enabled(s, Delete(name)) && Next(s, Delete(name)).files == s.files - {name}
  {
  }

  /** What readers of the store rely on: a visible artifact is a whole artifact stored for its key. */
  ghost predicate WholeArtifacts(s: State) {
    forall key: string :: ArtifactName(key) in s.files ==> (key, s.files[ArtifactName(key)]) in s.stored
  }

  ghost predicate WholeTemps(s: State) {
    forall key: string :: TempName(key) in s.files ==> (key, s.files[TempName(key)]) in s.stored
  }

  ghost predicate Inv(s: State) {
    && WholeArtifacts(s) && WholeTemps(s)
    && forall p :: p in s.putters ==> (s.putters[p].key, s.putters[p].compiled) in s.stored
  }

  lemma StepKeepsWhole(s: State, step: Step)
    requires Inv(s) && Enabled(s, step)
    ensures Inv(Next(s, step))
  {
    var s' := Next(s, step);
    if step.WriteTemp? || step.Rename? {
      var k := s.putters[step.p].key;
      forall key: string
        ensures TempName(key) in s'.files ==> (key, s'.files[TempName(key)]) in s'.stored
        ensures ArtifactName(key) in s'.files ==> (key, s'.files[ArtifactName(key)]) in s'.stored
      {
        ArtifactNames(key, k);
        ArtifactNames(k, key);
        if TempName(key) == TempName(k) {
          TempNameInjective(key, k);
        }
      }
    }
  }

  /** A run: consecutive states are one enabled step apart. */
  ghost predicate IsRun(states: seq<State>, steps: seq<Step>) {
    && |states| == |steps| + 1
    && forall i :: 0 <= i < |steps| ==> Enabled(states[i], steps[i]) && states[i + 1] == Next(states[i], steps[i])
  }

  /** However putters, crashes and deletions interleave, readers only ever see whole artifacts. */
  lemma {:induction false} ReadersSeeWholeArtifacts(states: seq<State>, steps: seq<Step>, i: nat)
    requires IsRun(states, steps) && Inv(states[0]) && i < |states|
    ensures Inv(states[i]) && WholeArtifacts(states[i])
  {
    if i > 0 {
      ReadersSeeWholeArtifacts(states, steps, i - 1);
      StepKeepsWhole(states[i - 1], steps[i - 1]);
    }
  }

  /** One put on its own: written, renamed and visible, with its temp file gone. */
  lemma LonePutPublishes(s: State, p: nat)
    requires p in s.putters && s.putters[p].phase == Ready
    ensures
      var key := s.putters[p].key;
      var s' := Next(Next(s, WriteTemp(p)), Rename(p));
      && ArtifactName(key) in s'.files && s'.files[ArtifactName(key)] == s.putters[p].compiled
      && TempName(key) !in s'.files && s'.putters[p].phase == Finished(true)
  {
    ArtifactNames(s.putters[p].key, s.putters[p].key);
  }
}
