/**
 Any number of concurrent module lookups (`get_or_load` and `get_or_load_module_path` in
 src/runtime/cache.rs), taken apart into the steps between which others can run, down to the
 opening, writing and renaming of temp files inside `put`, together with evictions from memory
 and deletions from disk at any moment.
 */
module LookupProtocol {
  import opened Wrappers
  import opened Directory
  import opened FileSystem
  import opened ModulePath
  import opened Loading

  /** `Writing` is inside `put`: the open file and how many bytes of the artifact have gone to it. */
  datatype Phase<C> =
    | Start
    | Missed
    | HasBytes(wasm: Bytes)
    | FoundArtifact(wasm: Bytes)
    | BrokenArtifact(wasm: Bytes)
    | MustCompile(wasm: Bytes)
    | Compiled(wasm: Bytes, component: C)
    | Writing(wasm: Bytes, component: C, inode: nat, written: nat)
    | Loaded(component: C)
    | Done(result: Result<C, LoadError>)

  /** A platform lookup by name is the lookup of `Platform(name)`. */
  datatype Lookup<C> = Lookup(m: ModulePath, phase: Phase<C>)

  /** `owner` records which module bytes each file was created for; no step looks at it. */
  datatype State<C> = State(
    memory: map<string, C>,
    fs: Fs,
    owner: map<nat, Bytes>,
    lookups: map<nat, Lookup<C>>)

  /**
   The flags are outcomes decided outside: I/O errors and refused artifacts.  `GiveUpStore` is a
   store that fails or is skipped, at any point.
   */
  datatype Step =
    | Begin(id: nat, m: ModulePath)
    | CheckMemory(id: nat)
    | ReadFile(id: nat, fails: bool)
    | LookOnDisk(id: nat)
    | Deserialize(id: nat, fails: bool)
    | RemoveBroken(id: nat, fails: bool)
    | Compile(id: nat)
    | OpenTemp(id: nat, newInode: nat)
    | WriteTemp(id: nat, upTo: nat)
    | RenameTemp(id: nat)
    | GiveUpStore(id: nat)
    | Insert(id: nat)
    | EvictFromMemory(key: string)
    | DeleteFromDisk(name: string)

  function Initial<C>(): State<C> {
    State(map[], EMPTY_FS, map[], map[])
  }

  predicate IsLookupStep(step: Step) {
    !step.EvictFromMemory? && !step.DeleteFromDisk?
  }

  /** With `bypass` nothing is stored.  Cleanup, clearing and removal delete artifacts only. */
  predicate Enabled<C>(env: Env<C>, bypass: bool, s: State<C>, step: Step) {
    match step
    case Begin(id, _) => id !in s.lookups
    case EvictFromMemory(_) => true
    case DeleteFromDisk(name) => IsArtifact(name)
    case _ => step.id in s.lookups && EnabledIn(env, bypass, s.fs, s.lookups[step.id].phase, step)
  }

  /** The steps of a lookup in its phase. */
  predicate EnabledIn<C>(env: Env<C>, bypass: bool, fs: Fs, phase: Phase<C>, step: Step)
    requires IsLookupStep(step)
  {
    match step
    case Begin(_, _) => false
    case CheckMemory(_) => phase.Start?
    case ReadFile(_, _) => phase.Missed?
    case LookOnDisk(_) => phase.HasBytes?
    case Deserialize(_, _) => phase.FoundArtifact?
    case RemoveBroken(_, _) => phase.BrokenArtifact?
    case Compile(_) => phase.MustCompile?
    case OpenTemp(_, newInode) => phase.Compiled? && !bypass && newInode !in fs.data
    case WriteTemp(_, upTo) =>
      && phase.Writing? && phase.inode in fs.data
      && phase.written < upTo <= |env.serialize(phase.component)|
    case RenameTemp(_) => phase.Writing? && phase.written == |env.serialize(phase.component)|
    case GiveUpStore(_) => phase.Compiled? || phase.Writing?
    case Insert(_) => phase.Loaded?
  }

  function ArtifactOf<C>(env: Env<C>, wasm: Bytes): string {
    ArtifactName(env.hash(wasm))
  }

  function TempOf<C>(env: Env<C>, wasm: Bytes): string {
    TempName(env.hash(wasm))
  }

  /** What reading the artifact of this module gives. */
  function ReadArtifact<C>(env: Env<C>, fs: Fs, wasm: Bytes): Option<C> {
    var name := ArtifactOf(env, wasm);
    if name in fs.names && fs.names[name] in fs.data then env.deserialize(fs.data[fs.names[name]]) else None
  }

  /** Where a step takes its lookup. */
  function PhaseAfter<C>(env: Env<C>, bypass: bool, s: State<C>, step: Step): Phase<C>
    requires IsLookupStep(step) && Enabled(env, bypass, s, step)
  {
    if step.Begin? then Start
    else
      var Lookup(m, phase) := s.lookups[step.id];
      match step
      case CheckMemory(_) =>
        if !Sanitary(m) then Done(Err(InvalidRequest))
        else if CacheKey(m) in s.memory then Done(Ok(s.memory[CacheKey(m)]))
        else Missed
      case ReadFile(_, fails) =>
        (match ModuleFile(env, m)
         case Err(e) => Done(Err(e))
         case Ok(wasm) => if fails then Done(Err(ReadFailed)) else HasBytes(wasm))
      case LookOnDisk(_) =>
        if !bypass && ArtifactOf(env, phase.wasm) in s.fs.names then FoundArtifact(phase.wasm)
        else MustCompile(phase.wasm)
      case Deserialize(_, fails) =>
        (match ReadArtifact(env, s.fs, phase.wasm)
         case None => BrokenArtifact(phase.wasm)
         case Some(c) => if fails then BrokenArtifact(phase.wasm) else Loaded(c))
      case RemoveBroken(_, _) => MustCompile(phase.wasm)
      case Compile(_) =>
        (match env.compile(phase.wasm)
         case None => Done(Err(CompileFailed))
         case Some(c) => Compiled(phase.wasm, c))
      case OpenTemp(_, newInode) =>
        Writing(phase.wasm, phase.component, OpenedInode(s.fs, TempOf(env, phase.wasm), newInode), 0)
      case WriteTemp(_, upTo) => phase.(written := upTo)
      case RenameTemp(_) => Loaded(phase.component)
      case GiveUpStore(_) => Loaded(phase.component)
      case Insert(_) => Done(Ok(phase.component))
  }

  /** What a step does to the files. */
  function FsAfter<C>(env: Env<C>, bypass: bool, s: State<C>, step: Step): Fs
    requires Enabled(env, bypass, s, step)
  {
    match step
    case RemoveBroken(id, fails) =>
      if fails then s.fs else Unlinked(s.fs, ArtifactOf(env, s.lookups[id].phase.wasm))
    case OpenTemp(id, newInode) => Truncated(s.fs, TempOf(env, s.lookups[id].phase.wasm), newInode)
    case WriteTemp(id, upTo) =>
      var Writing(_, component, inode, written) := s.lookups[id].phase;
      Written(s.fs, inode, written, env.serialize(component)[written..upTo])
    case RenameTemp(id) =>
      var wasm := s.lookups[id].phase.wasm;
      if TempOf(env, wasm) in s.fs.names then Renamed(s.fs, TempOf(env, wasm), ArtifactOf(env, wasm)) else s.fs
    case DeleteFromDisk(name) => Unlinked(s.fs, name)
    case _ => s.fs
  }

  function OwnerAfter<C>(env: Env<C>, bypass: bool, s: State<C>, step: Step): map<nat, Bytes>
    requires Enabled(env, bypass, s, step)
  {
    if step.OpenTemp? then
      var wasm := s.lookups[step.id].phase.wasm;
      s.owner[OpenedInode(s.fs, TempOf(env, wasm), step.newInode) := wasm]
    else s.owner
  }

  function MemoryAfter<C>(env: Env<C>, bypass: bool, s: State<C>, step: Step): map<string, C>
    requires Enabled(env, bypass, s, step)
  {
    match step
    case Insert(id) => s.memory[CacheKey(s.lookups[id].m) := s.lookups[id].phase.component]
    case EvictFromMemory(key) => s.memory - {key}
    case _ => s.memory
  }

  function LookupsAfter<C>(env: Env<C>, bypass: bool, s: State<C>, step: Step): map<nat, Lookup<C>>
    requires Enabled(env, bypass, s, step)
  {
    if !IsLookupStep(step) then s.lookups
    else
      var m := if step.Begin? then step.m else s.lookups[step.id].m;
      s.lookups[step.id := Lookup(m, PhaseAfter(env, bypass, s, step))]
  }

  function Next<C>(env: Env<C>, bypass: bool, s: State<C>, step: Step): State<C>
    requires Enabled(env, bypass, s, step)
  {
    State(MemoryAfter(env, bypass, s, step), FsAfter(env, bypass, s, step), OwnerAfter(env, bypass, s, step),
          LookupsAfter(env, bypass, s, step))
  }

  ghost predicate IsRun<C>(env: Env<C>, bypass: bool, states: seq<State<C>>, steps: seq<Step>) {
    && |states| == |steps| + 1
    && forall i {:trigger steps[i]} :: 0 <= i < |steps| ==>
         Enabled(env, bypass, states[i], steps[i]) && states[i + 1] == Next(env, bypass, states[i], steps[i])
  }

  /**
   The losses that lookups are proved against do happen: what is evicted, deleted or removed is
   gone, and nothing else.
   */
  lemma LossesHappen<C>(env: Env<C>, bypass: bool, s: State<C>, step: Step)
    requires Enabled(env, bypass, s, step)
    ensures
      var s' := Next(env, bypass, s, step);
      match step
      case EvictFromMemory(key) => s'.memory == s.memory - {key} && s'.fs == s.fs && s'.lookups == s.lookups
      case DeleteFromDisk(name) =>
        s'.fs == Fs(s.fs.names - {name}, s.fs.data) && s'.memory == s.memory && s'.lookups == s.lookups
      case RemoveBroken(id, false) =>
        var name := ArtifactName(env.hash(s.lookups[id].phase.wasm));
        s'.fs == Fs(s.fs.names - {name}, s.fs.data) && s'.memory == s.memory
      case _ => true
  {
  }

  /** And nothing keeps them from happening at any moment, nor a read or a store from failing. */
  lemma NothingIsRuledOut<C>(env: Env<C>, bypass: bool, s: State<C>, id: nat, name: string, fails: bool)
    ensures Enabled(env, bypass, s, EvictFromMemory(name))
    ensures IsArtifact(name) ==> Enabled(env, bypass, s, DeleteFromDisk(name))
    ensures id in s.lookups ==>
      var phase := s.lookups[id].phase;
      && (phase.Missed? ==> Enabled(env, bypass, s, ReadFile(id, fails)))
      && (phase.FoundArtifact? ==> Enabled(env, bypass, s, Deserialize(id, fails)))
      && (phase.BrokenArtifact? ==> Enabled(env, bypass, s, RemoveBroken(id, fails)))
      && (phase.Compiled? || phase.Writing? ==> Enabled(env, bypass, s, GiveUpStore(id)))
      && (phase.Loaded? ==> Enabled(env, bypass, s, Insert(id)))
  {
  }

  // ---- What the files hold, whatever the artifacts are worth ----

  /** A torn form of the artifact of this module. */
  predicate TornArtifact<C>(env: Env<C>, wasm: Bytes, content: Bytes) {
    env.compile(wasm).Some? && Torn(content, env.serialize(env.compile(wasm).value))
  }

  predicate FileFor(fs: Fs, owner: map<nat, Bytes>, inode: nat, wasm: Bytes) {
    inode in fs.data && inode in owner && owner[inode] == wasm
  }

  ghost predicate FilesInv<C>(env: Env<C>, fs: Fs, owner: map<nat, Bytes>) {
    && (forall i :: i in fs.data ==> i in owner && TornArtifact(env, owner[i], fs.data[i]))
    && (forall wasm :: wasm in env.files.Values ==>
          && (ArtifactOf(env, wasm) in fs.names ==> FileFor(fs, owner, fs.names[ArtifactOf(env, wasm)], wasm))
          && (TempOf(env, wasm) in fs.names ==> FileFor(fs, owner, fs.names[TempOf(env, wasm)], wasm)))
  }

  /** What a lookup knows on its way to a component. */
  ghost predicate OnCourse<C>(env: Env<C>, fs: Fs, owner: map<nat, Bytes>, l: Lookup<C>) {
    match l.phase
    case Start => true
    case Missed => Sanitary(l.m)
    case HasBytes(wasm) => ModuleFile(env, l.m) == Ok(wasm)
    case FoundArtifact(wasm) => ModuleFile(env, l.m) == Ok(wasm)
    case BrokenArtifact(wasm) => ModuleFile(env, l.m) == Ok(wasm)
    case MustCompile(wasm) => ModuleFile(env, l.m) == Ok(wasm)
    case Compiled(wasm, c) => ModuleFile(env, l.m) == Ok(wasm) && env.compile(wasm) == Some(c)
    case Writing(wasm, c, inode, written) =>
      && ModuleFile(env, l.m) == Ok(wasm) && env.compile(wasm) == Some(c)
      && FileFor(fs, owner, inode, wasm) && written <= |env.serialize(c)|
    case Loaded(_) => Sanitary(l.m)
    case Done(_) => true
  }

  ghost predicate CourseInv<C>(env: Env<C>, s: State<C>) {
    && FilesInv(env, s.fs, s.owner)
    && forall id :: id in s.lookups ==> OnCourse(env, s.fs, s.owner, s.lookups[id])
  }

  lemma FileIsListed<C>(env: Env<C>, m: ModulePath)
    requires ModuleFile(env, m).Ok?
    ensures ModuleFile(env, m).value in env.files.Values && Sanitary(m)
  {
  }

  /** Names of different modules' files differ, and so do artifact and temp names. */
  lemma NamesApart<C(!new)>(env: Env<C>, wasm: Bytes, wasm': Bytes)
    requires Lawful(env) && wasm in env.files.Values && wasm' in env.files.Values
    ensures ArtifactOf(env, wasm) != TempOf(env, wasm')
    ensures ArtifactOf(env, wasm) == ArtifactOf(env, wasm') ==> wasm == wasm'
    ensures TempOf(env, wasm) == TempOf(env, wasm') ==> wasm == wasm'
  {
    ArtifactNames(env.hash(wasm), env.hash(wasm'));
    if TempOf(env, wasm) == TempOf(env, wasm') {
      TempNameInjective(env.hash(wasm), env.hash(wasm'));
    }
  }

  lemma OpenKeepsFiles<C(!new)>(env: Env<C>, fs: Fs, owner: map<nat, Bytes>, wasm: Bytes, newInode: nat)
    requires Lawful(env) && FilesInv(env, fs, owner)
    requires wasm in env.files.Values && env.compile(wasm).Some? && newInode !in fs.data
    ensures
      var inode := OpenedInode(fs, TempOf(env, wasm), newInode);
      var fs', owner' := Truncated(fs, TempOf(env, wasm), newInode), owner[inode := wasm];
      && FilesInv(env, fs', owner') && FileFor(fs', owner', inode, wasm)
      && forall i, w :: FileFor(fs, owner, i, w) ==> FileFor(fs', owner', i, w)
  {
    WholeIsTorn(env.serialize(env.compile(wasm).value));
    forall wasm' | wasm' in env.files.Values
      ensures ArtifactOf(env, wasm') != TempOf(env, wasm)
      ensures TempOf(env, wasm') == TempOf(env, wasm) ==> wasm' == wasm
    {
      NamesApart(env, wasm', wasm);
    }
  }

  lemma WriteKeepsFiles<C(!new)>(env: Env<C>, fs: Fs, owner: map<nat, Bytes>, wasm: Bytes, inode: nat, offset: nat,
                                 upTo: nat)
    requires FilesInv(env, fs, owner) && FileFor(fs, owner, inode, wasm) && env.compile(wasm).Some?
    requires offset < upTo <= |env.serialize(env.compile(wasm).value)|
    ensures
      var fs' := Written(fs, inode, offset, env.serialize(env.compile(wasm).value)[offset..upTo]);
      FilesInv(env, fs', owner) && fs'.data.Keys == fs.data.Keys
  {
    OverlayKeepsTorn(fs.data[inode], env.serialize(env.compile(wasm).value), offset, upTo);
  }

  lemma RenameKeepsFiles<C(!new)>(env: Env<C>, fs: Fs, owner: map<nat, Bytes>, wasm: Bytes)
    requires Lawful(env) && FilesInv(env, fs, owner) && wasm in env.files.Values && TempOf(env, wasm) in fs.names
    ensures FilesInv(env, Renamed(fs, TempOf(env, wasm), ArtifactOf(env, wasm)), owner)
  {
    forall wasm' | wasm' in env.files.Values
      ensures ArtifactOf(env, wasm') != TempOf(env, wasm) && ArtifactOf(env, wasm) != TempOf(env, wasm')
      ensures ArtifactOf(env, wasm') == ArtifactOf(env, wasm) ==> wasm' == wasm
    {
      NamesApart(env, wasm', wasm);
      NamesApart(env, wasm, wasm');
    }
  }

  lemma StepKeepsFiles<C(!new)>(env: Env<C>, bypass: bool, s: State<C>, step: Step)
    requires Lawful(env) && CourseInv(env, s) && Enabled(env, bypass, s, step)
    ensures
      var fs', owner' := FsAfter(env, bypass, s, step), OwnerAfter(env, bypass, s, step);
      && FilesInv(env, fs', owner')
      && forall i, w :: FileFor(s.fs, s.owner, i, w) ==> FileFor(fs', owner', i, w)
  {
    if step.OpenTemp? || step.WriteTemp? || step.RenameTemp? {
      var l := s.lookups[step.id];
      assert OnCourse(env, s.fs, s.owner, l);
      FileIsListed(env, l.m);
      match step
      case OpenTemp(_, newInode) => OpenKeepsFiles(env, s.fs, s.owner, l.phase.wasm, newInode);
      case WriteTemp(_, upTo) =>
        WriteKeepsFiles(env, s.fs, s.owner, l.phase.wasm, l.phase.inode, l.phase.written, upTo);
      case RenameTemp(_) =>
        if TempOf(env, l.phase.wasm) in s.fs.names {
          RenameKeepsFiles(env, s.fs, s.owner, l.phase.wasm);
        }
    }
  }

  lemma OwnStepOnCourse<C(!new)>(env: Env<C>, bypass: bool, s: State<C>, step: Step)
    requires Lawful(env) && CourseInv(env, s) && Enabled(env, bypass, s, step) && IsLookupStep(step)
    ensures OnCourse(env, FsAfter(env, bypass, s, step), OwnerAfter(env, bypass, s, step),
                     LookupsAfter(env, bypass, s, step)[step.id])
  {
    if !step.Begin? {
      var l := s.lookups[step.id];
      assert OnCourse(env, s.fs, s.owner, l);
      StepKeepsFiles(env, bypass, s, step);
      if step.OpenTemp? {
        FileIsListed(env, l.m);
        OpenKeepsFiles(env, s.fs, s.owner, l.phase.wasm, step.newInode);
      }
    }
  }

  lemma StepKeepsCourse<C(!new)>(env: Env<C>, bypass: bool, s: State<C>, step: Step)
    requires Lawful(env) && CourseInv(env, s) && Enabled(env, bypass, s, step)
    ensures CourseInv(env, Next(env, bypass, s, step))
  {
    var s' := Next(env, bypass, s, step);
    StepKeepsFiles(env, bypass, s, step);
    forall id | id in s'.lookups
      ensures OnCourse(env, s'.fs, s'.owner, s'.lookups[id])
    {
      if IsLookupStep(step) && step.id == id {
        OwnStepOnCourse(env, bypass, s, step);
      } else {
        assert OnCourse(env, s.fs, s.owner, s.lookups[id]);
      }
    }
  }

  // ---- Transparency ----

  /** Every torn form of a module's artifact is refused when read, or read as the right component. */
  ghost predicate TornFormsHarmless<C(!new)>(env: Env<C>) {
    forall m: ModulePath, t: Bytes ::
      UncachedLoad(env, m).Ok? && Torn(t, env.serialize(UncachedLoad(env, m).value)) ==>
        Harmless(env, ModuleFile(env, m).value, t)
  }

  ghost predicate Faithful<C>(env: Env<C>, l: Lookup<C>) {
    match l.phase
    case Loaded(c) => UncachedLoad(env, l.m) == Ok(c)
    case Done(r) => r == UncachedLoad(env, l.m) || r == Err(ReadFailed)
    case _ => true
  }

  ghost predicate FaithInv<C>(env: Env<C>, bypass: bool, s: State<C>) {
    && MemoryFaithful(env, s.memory)
    && (forall id :: id in s.lookups ==> Faithful(env, s.lookups[id]))
    && (bypass ==> forall id :: id in s.lookups ==> !s.lookups[id].phase.FoundArtifact?)
  }

  lemma StepKeepsMemory<C(!new)>(env: Env<C>, bypass: bool, s: State<C>, step: Step)
    requires CourseInv(env, s) && FaithInv(env, bypass, s) && Enabled(env, bypass, s, step)
    ensures MemoryFaithful(env, MemoryAfter(env, bypass, s, step))
  {
    if step.Insert? {
      var l := s.lookups[step.id];
      assert OnCourse(env, s.fs, s.owner, l) && Faithful(env, l);
      InsertKeepsMemory(env, s.memory, l.m, l.phase.component);
    }
  }

  /** Reading an artifact from these files gives nothing, or the right component. */
  lemma ReadIsHarmless<C(!new)>(env: Env<C>, fs: Fs, owner: map<nat, Bytes>, m: ModulePath)
    requires FilesInv(env, fs, owner) && TornFormsHarmless(env) && ModuleFile(env, m).Ok?
    ensures
      var read := ReadArtifact(env, fs, ModuleFile(env, m).value);
      read.None? || UncachedLoad(env, m) == Ok(read.value)
  {
    FileIsListed(env, m);
    var wasm := ModuleFile(env, m).value;
    var name := ArtifactOf(env, wasm);
    if name in fs.names {
      assert FileFor(fs, owner, fs.names[name], wasm);
      var content := fs.data[fs.names[name]];
      assert TornArtifact(env, wasm, content);
      assert Harmless(env, wasm, content);
    }
  }

  lemma OwnStepFaithful<C(!new)>(env: Env<C>, bypass: bool, s: State<C>, step: Step)
    requires CourseInv(env, s) && FaithInv(env, bypass, s) && (bypass || TornFormsHarmless(env))
    requires Enabled(env, bypass, s, step) && IsLookupStep(step)
    ensures Faithful(env, LookupsAfter(env, bypass, s, step)[step.id])
    ensures bypass ==> !LookupsAfter(env, bypass, s, step)[step.id].phase.FoundArtifact?
  {
    if !step.Begin? {
      var l := s.lookups[step.id];
      assert OnCourse(env, s.fs, s.owner, l) && Faithful(env, l);
      if step.Deserialize? {
        ReadIsHarmless(env, s.fs, s.owner, l.m);
      }
    }
  }

  lemma StepKeepsFaith<C(!new)>(env: Env<C>, bypass: bool, s: State<C>, step: Step)
    requires CourseInv(env, s) && FaithInv(env, bypass, s) && (bypass || TornFormsHarmless(env))
    requires Enabled(env, bypass, s, step)
    ensures FaithInv(env, bypass, Next(env, bypass, s, step))
  {
    var s' := Next(env, bypass, s, step);
    StepKeepsMemory(env, bypass, s, step);
    forall id | id in s'.lookups
      ensures Faithful(env, s'.lookups[id])
      ensures bypass ==> !s'.lookups[id].phase.FoundArtifact?
    {
      if IsLookupStep(step) && step.id == id {
        OwnStepFaithful(env, bypass, s, step);
      } else {
        assert Faithful(env, s.lookups[id]);
      }
    }
  }

  /** At every moment of every run, a visible artifact is a torn form of the one that belongs there, at worst. */
  lemma {:induction false} CourseInvAlways<C(!new)>(env: Env<C>, bypass: bool, states: seq<State<C>>,
                                                    steps: seq<Step>, i: nat)
    requires Lawful(env) && IsRun(env, bypass, states, steps) && CourseInv(env, states[0]) && i < |states|
    ensures CourseInv(env, states[i])
  {
    if i > 0 {
      CourseInvAlways(env, bypass, states, steps, i - 1);
      assert states[i] == Next(env, bypass, states[i - 1], steps[i - 1]);
      StepKeepsCourse(env, bypass, states[i - 1], steps[i - 1]);
    }
  }

  lemma {:induction false} FaithInvAlways<C(!new)>(env: Env<C>, bypass: bool, states: seq<State<C>>,
                                                   steps: seq<Step>, i: nat)
    requires Lawful(env) && (bypass || TornFormsHarmless(env)) && IsRun(env, bypass, states, steps) && i < |states|
    requires CourseInv(env, states[0]) && FaithInv(env, bypass, states[0])
    ensures FaithInv(env, bypass, states[i])
  {
    if i > 0 {
      CourseInvAlways(env, bypass, states, steps, i - 1);
      FaithInvAlways(env, bypass, states, steps, i - 1);
      assert states[i] == Next(env, bypass, states[i - 1], steps[i - 1]);
      StepKeepsFaith(env, bypass, states[i - 1], steps[i - 1]);
    }
  }

  /** A finished lookup has returned what a loader without caches returns, unless reading the file failed. */
  ghost predicate Transparent<C>(env: Env<C>, l: Lookup<C>) {
    l.phase.Done? ==> l.phase.result == UncachedLoad(env, l.m) || l.phase.result == Err(ReadFailed)
  }

  /** If torn artifacts are harmless, or the disk is bypassed, every lookup of every run is transparent. */
  lemma LookupsAreTransparent<C(!new)>(env: Env<C>, bypass: bool, states: seq<State<C>>, steps: seq<Step>, i: nat,
                                       id: nat)
    requires Lawful(env) && (bypass || TornFormsHarmless(env)) && IsRun(env, bypass, states, steps) && i < |states|
    requires CourseInv(env, states[0]) && FaithInv(env, bypass, states[0])
    requires id in states[i].lookups
    ensures Transparent(env, states[i].lookups[id])
  {
    FaithInvAlways(env, bypass, states, steps, i);
    assert Faithful(env, states[i].lookups[id]);
  }
}
