/**
 When exactly the lookups of src/runtime/cache.rs are transparent: for every torn form of an
 artifact there is a run of overlapping stores that leaves it visible, so lookups can be relied
 on if and only if every torn form is refused when it is read, or read as the right component.
 */
module TornLookups {
  import opened Wrappers
  import opened Directory
  import opened FileSystem
  import opened ModulePath
  import opened Loading
  import opened LookupProtocol

  /** Some run from empty caches ends here. */
  ghost predicate Reachable<C(!new)>(env: Env<C>, bypass: bool, s: State<C>) {
    exists states: seq<State<C>>, steps: seq<Step> ::
      IsRun(env, bypass, states, steps) && states[0] == Initial() && states[|steps|] == s
  }

  lemma StartIsReachable<C(!new)>(env: Env<C>, bypass: bool)
    ensures Reachable(env, bypass, Initial())
  {
    var states: seq<State<C>>, steps: seq<Step> := [Initial()], [];
    assert IsRun(env, bypass, states, steps);
  }

  lemma Extend<C(!new)>(env: Env<C>, bypass: bool, s: State<C>, step: Step)
    requires Reachable(env, bypass, s) && Enabled(env, bypass, s, step)
    ensures Reachable(env, bypass, Next(env, bypass, s, step))
  {
    var states: seq<State<C>>, steps: seq<Step> :|
      IsRun(env, bypass, states, steps) && states[0] == Initial() && states[|steps|] == s;
    var longer, more := states + [Next(env, bypass, s, step)], steps + [step];
    assert IsRun(env, bypass, longer, more);
  }

  // ---- One lookup on its way ----

  function At<C>(s: State<C>, id: nat, m: ModulePath, phase: Phase<C>): State<C> {
    s.(lookups := s.lookups[id := Lookup(m, phase)])
  }

  lemma Advance<C(!new)>(env: Env<C>, s: State<C>, id: nat, m: ModulePath, phase: Phase<C>, step: Step,
                         phase': Phase<C>)
    requires Reachable(env, false, At(s, id, m, phase))
    requires step.CheckMemory? || step.ReadFile? || step.LookOnDisk? || step.Compile? || step.Deserialize?
    requires step.id == id && EnabledIn(env, false, s.fs, phase, step)
    requires PhaseAfter(env, false, At(s, id, m, phase), step) == phase'
    ensures Reachable(env, false, At(s, id, m, phase'))
  {
    var here := At(s, id, m, phase);
    Extend(env, false, here, step);
    assert here.lookups[id := Lookup(m, phase')] == s.lookups[id := Lookup(m, phase')];
    assert Next(env, false, here, step) == At(s, id, m, phase');
  }

  /** A lookup that misses in memory reads the bytes of its module. */
  lemma ToBytes<C(!new)>(env: Env<C>, s: State<C>, id: nat, m: ModulePath, wasm: Bytes)
    requires Reachable(env, false, s) && id !in s.lookups && CacheKey(m) !in s.memory && ModuleFile(env, m) == Ok(wasm)
    ensures Reachable(env, false, At(s, id, m, HasBytes(wasm)))
  {
    FileIsListed(env, m);
    Extend(env, false, s, Begin(id, m));
    assert Next(env, false, s, Begin(id, m)) == At(s, id, m, Start);
    Advance(env, s, id, m, Start, CheckMemory(id), Missed);
    Advance(env, s, id, m, Missed, ReadFile(id, false), HasBytes(wasm));
  }

  /** Without a visible artifact it compiles them. */
  lemma ToCompiled<C(!new)>(env: Env<C>, s: State<C>, id: nat, m: ModulePath, wasm: Bytes, c: C)
    requires Reachable(env, false, s) && id !in s.lookups && CacheKey(m) !in s.memory && ModuleFile(env, m) == Ok(wasm)
    requires ArtifactOf(env, wasm) !in s.fs.names && env.compile(wasm) == Some(c)
    ensures Reachable(env, false, At(s, id, m, Compiled(wasm, c)))
  {
    ToBytes(env, s, id, m, wasm);
    Advance(env, s, id, m, HasBytes(wasm), LookOnDisk(id), MustCompile(wasm));
    Advance(env, s, id, m, MustCompile(wasm), Compile(id), Compiled(wasm, c));
  }

  /** With a visible artifact that can be read it takes that. */
  lemma ToResult<C(!new)>(env: Env<C>, s: State<C>, id: nat, m: ModulePath, wasm: Bytes, d: C)
    requires Reachable(env, false, s) && id !in s.lookups && CacheKey(m) !in s.memory && ModuleFile(env, m) == Ok(wasm)
    requires ArtifactOf(env, wasm) in s.fs.names && ReadArtifact(env, s.fs, wasm) == Some(d)
    ensures Reachable(env, false, At(s, id, m, Done(Ok(d))).(memory := s.memory[CacheKey(m) := d]))
  {
    ToBytes(env, s, id, m, wasm);
    Advance(env, s, id, m, HasBytes(wasm), LookOnDisk(id), FoundArtifact(wasm));
    Advance(env, s, id, m, FoundArtifact(wasm), Deserialize(id, false), Loaded(d));
    var here := At(s, id, m, Loaded(d));
    Extend(env, false, here, Insert(id));
    assert here.lookups[id := Lookup(m, Done(Ok(d)))] == s.lookups[id := Lookup(m, Done(Ok(d)))];
    assert Next(env, false, here, Insert(id)) == At(s, id, m, Done(Ok(d))).(memory := s.memory[CacheKey(m) := d]);
  }

  // ---- A crew of stores of one artifact ----

  /** The module, what it compiles to, and a torn form of the artifact. */
  datatype Plot<C> = Plot(m: ModulePath, wasm: Bytes, component: C, whole: Bytes, t: Bytes)

  ghost predicate Sound<C>(env: Env<C>, p: Plot<C>) {
    && ModuleFile(env, p.m) == Ok(p.wasm) && env.compile(p.wasm) == Some(p.component)
    && p.whole == env.serialize(p.component) && Torn(p.t, p.whole)
    && ArtifactOf(env, p.wasm) != TempOf(env, p.wasm)
  }

  /**
   Writer `k` stops before byte `k`; after those of the torn form comes one that writes
   everything, and one that only opens.  In the end the first `i` writers have each gone on by
   one byte where the torn form has that byte.
   */
  function Progress<C>(p: Plot<C>, k: nat, i: nat): nat {
    if k < i && k < |p.t| && k < |p.whole| && p.t[k] == p.whole[k] then k + 1
    else if k < |p.t| then k
    else if k == |p.t| then |p.whole|
    else 0
  }

  function Crew<C>(p: Plot<C>, size: nat, i: nat): map<nat, Lookup<C>> {
    map k: nat | k < size :: Writer(p, Progress(p, k, i))
  }

  /** The writers of an artifact share one temp file. */
  function Sharing<C>(env: Env<C>, p: Plot<C>, content: Bytes, lookups: map<nat, Lookup<C>>): State<C> {
    State(map[], Fs(map[TempOf(env, p.wasm) := 0], map[0 := content]), map[0 := p.wasm], lookups)
  }

  function Scene<C>(env: Env<C>, p: Plot<C>, size: nat, i: nat, content: Bytes): State<C> {
    Sharing(env, p, content, Crew(p, size, i))
  }

  function Writer<C>(p: Plot<C>, written: nat): Lookup<C> {
    Lookup(p.m, Writing(p.wasm, p.component, 0, written))
  }

  lemma OpenShared<C(!new)>(env: Env<C>, p: Plot<C>, s: State<C>, id: nat, content: Bytes)
    requires Reachable(env, false, At(s, id, p.m, Compiled(p.wasm, p.component)))
    requires s == Initial() || s == Sharing(env, p, content, s.lookups)
    ensures Reachable(env, false, Sharing(env, p, [], s.lookups[id := Writer(p, 0)]))
  {
    var here := At(s, id, p.m, Compiled(p.wasm, p.component));
    var step := OpenTemp(id, if s == Initial() then 0 else 1);
    Extend(env, false, here, step);
    var there := Sharing(env, p, [], s.lookups[id := Writer(p, 0)]);
    assert LookupsAfter(env, false, here, step) == there.lookups;
    assert FsAfter(env, false, here, step) == there.fs;
  }

  lemma WriteShared<C(!new)>(env: Env<C>, p: Plot<C>, content: Bytes, lookups: map<nat, Lookup<C>>, id: nat,
                             offset: nat, upTo: nat)
    requires p.whole == env.serialize(p.component) && offset < upTo <= |p.whole|
    requires id in lookups && lookups[id] == Writer(p, offset)
    requires Reachable(env, false, Sharing(env, p, content, lookups))
    ensures
      var written := Overlay(content, offset, p.whole[offset..upTo]);
      Reachable(env, false, Sharing(env, p, written, lookups[id := Writer(p, upTo)]))
  {
    var here := Sharing(env, p, content, lookups);
    var step := WriteTemp(id, upTo);
    Extend(env, false, here, step);
    var there := Sharing(env, p, Overlay(content, offset, p.whole[offset..upTo]), lookups[id := Writer(p, upTo)]);
    assert LookupsAfter(env, false, here, step) == there.lookups;
    assert FsAfter(env, false, here, step) == there.fs;
  }

  lemma OpenAndWrite<C(!new)>(env: Env<C>, p: Plot<C>, s: State<C>, id: nat, content: Bytes, upTo: nat)
    requires p.whole == env.serialize(p.component) && upTo <= |p.whole|
    requires Reachable(env, false, At(s, id, p.m, Compiled(p.wasm, p.component)))
    requires s == Initial() || s == Sharing(env, p, content, s.lookups)
    ensures Reachable(env, false, Sharing(env, p, p.whole[..upTo], s.lookups[id := Writer(p, upTo)]))
  {
    OpenShared(env, p, s, id, content);
    assert p.whole[..0] == [];
    if upTo > 0 {
      var lookups := s.lookups[id := Writer(p, 0)];
      WriteShared(env, p, [], lookups, id, 0, upTo);
      assert lookups[id := Writer(p, upTo)] == s.lookups[id := Writer(p, upTo)];
      assert Overlay([], 0, p.whole[0..upTo]) == p.whole[..upTo];
    }
  }

  lemma CrewGrows<C>(p: Plot<C>, size: nat)
    ensures Crew(p, size + 1, 0) == Crew(p, size, 0)[size := Writer(p, Progress(p, size, 0))]
  {
  }

  /** Any number of the crew can be at their places, the last one's bytes in the file. */
  lemma {:induction false} CrewGathers<C(!new)>(env: Env<C>, p: Plot<C>, size: nat)
    requires Sound(env, p)
    ensures Reachable(env, false, Scene(env, p, size + 1, 0, p.whole[..Progress(p, size, 0)]))
    decreases size
  {
    var s: State<C> := Initial();
    if size == 0 {
      StartIsReachable(env, false);
      assert Crew(p, 0, 0) == map[];
    } else {
      CrewGathers(env, p, size - 1);
      s := Scene(env, p, size, 0, p.whole[..Progress(p, size - 1, 0)]);
    }
    assert s.lookups == Crew(p, size, 0);
    ToCompiled(env, s, size, p.m, p.wasm, p.component);
    var content := if size == 0 then [] else p.whole[..Progress(p, size - 1, 0)];
    OpenAndWrite(env, p, s, size, content, Progress(p, size, 0));
    CrewGrows(p, size);
  }

  // ---- Painting the torn form ----

  /** How many bytes the file has after the first `i` have been considered. */
  function PaintedTo(t: Bytes, whole: Bytes, i: nat): nat
    requires i <= |t| <= |whole|
  {
    if i == 0 then 0 else if t[i - 1] == whole[i - 1] then i else PaintedTo(t, whole, i - 1)
  }

  lemma {:induction false} UnpaintedIsBlank(t: Bytes, whole: Bytes, i: nat)
    requires i <= |t| <= |whole|
    ensures PaintedTo(t, whole, i) <= i
    ensures forall k :: PaintedTo(t, whole, i) <= k < i ==> t[k] != whole[k]
  {
    if i > 0 && t[i - 1] != whole[i - 1] {
      UnpaintedIsBlank(t, whole, i - 1);
    }
  }

  function Painted(t: Bytes, whole: Bytes, i: nat): Bytes
    requires i <= |t| <= |whole|
  {
    var n := PaintedTo(t, whole, i);
    if n <= |t| then t[..n] else t
  }

  lemma OneMoreByte(t: Bytes, whole: Bytes, i: nat)
    requires Torn(t, whole) && i < |t| && t[i] == whole[i]
    ensures Overlay(Painted(t, whole, i), i, whole[i..i + 1]) == t[..i + 1]
  {
    UnpaintedIsBlank(t, whole, i);
  }

  /** The crew can have painted the first `i` bytes. */
  ghost predicate CanPaint<C(!new)>(env: Env<C>, p: Plot<C>, i: nat)
    requires i <= |p.t| <= |p.whole|
  {
    Reachable(env, false, Scene(env, p, |p.t| + 2, i, Painted(p.t, p.whole, i)))
  }

  lemma PaintOne<C(!new)>(env: Env<C>, p: Plot<C>, k: nat)
    requires Sound(env, p) && k < |p.t|
    requires CanPaint(env, p, k)
    ensures CanPaint(env, p, k + 1)
  {
    var size, before := |p.t| + 2, Painted(p.t, p.whole, k);
    if p.t[k] == p.whole[k] {
      OneMoreByte(p.t, p.whole, k);
      CrewPaintsOne(p, size, k);
      WriteShared(env, p, before, Crew(p, size, k), k, k, k + 1);
    } else {
      CrewSkipsOne(p, size, k);
    }
  }

  lemma CrewStarts<C(!new)>(env: Env<C>, p: Plot<C>)
    requires Sound(env, p)
    ensures CanPaint(env, p, 0)
  {
    CrewGathers(env, p, |p.t| + 1);
    assert Progress(p, |p.t| + 1, 0) == 0 && p.whole[..0] == [];
  }

  lemma {:induction false} CrewPaints<C(!new)>(env: Env<C>, p: Plot<C>, i: nat)
    requires Sound(env, p) && i <= |p.t|
    ensures CanPaint(env, p, i)
  {
    if i == 0 {
      CrewStarts(env, p);
    } else {
      CrewPaints(env, p, i - 1);
      PaintOne(env, p, i - 1);
    }
  }

  lemma CrewSkipsOne<C>(p: Plot<C>, size: nat, k: nat)
    requires k < |p.t| <= |p.whole| && p.t[k] != p.whole[k]
    ensures Crew(p, size, k + 1) == Crew(p, size, k)
  {
  }

  lemma CrewPaintsOne<C>(p: Plot<C>, size: nat, k: nat)
    requires k < |p.t| <= |p.whole| && k < size && p.t[k] == p.whole[k]
    ensures Crew(p, size, k + 1) == Crew(p, size, k)[k := Writer(p, k + 1)]
  {
  }

  /** Every torn form of an artifact can become visible, with one lookup for each of its bytes and two more. */
  lemma TornFormGetsVisible<C(!new)>(env: Env<C>, p: Plot<C>) returns (s: State<C>)
    requires Sound(env, p)
    ensures Reachable(env, false, s) && s.memory == map[]
    ensures forall id: nat :: id in s.lookups <==> id < |p.t| + 2
    ensures s.fs == Fs(map[ArtifactOf(env, p.wasm) := 0], map[0 := p.t])
  {
    CrewPaints(env, p, |p.t|);
    UnpaintedIsBlank(p.t, p.whole, |p.t|);
    assert Painted(p.t, p.whole, |p.t|) == p.t;
    var scene := Scene(env, p, |p.t| + 2, |p.t|, p.t);
    var finisher := |p.t|;
    assert scene.lookups[finisher] == Writer(p, |p.whole|);
    Extend(env, false, scene, RenameTemp(finisher));
    s := Next(env, false, scene, RenameTemp(finisher));
  }

  lemma HarmfulFormIsReturned<C(!new)>(env: Env<C>, m: ModulePath, t: Bytes) returns (s: State<C>, id: nat)
    requires Lawful(env) && UncachedLoad(env, m).Ok? && Torn(t, env.serialize(UncachedLoad(env, m).value))
    requires !Harmless(env, ModuleFile(env, m).value, t)
    ensures Reachable(env, false, s) && id in s.lookups && !Transparent(env, s.lookups[id])
  {
    FileIsListed(env, m);
    var wasm, c := ModuleFile(env, m).value, UncachedLoad(env, m).value;
    NamesApart(env, wasm, wasm);
    var torn := TornFormGetsVisible(env, Plot(m, wasm, c, env.serialize(c), t));
    id := |t| + 2;
    var d := env.deserialize(t).value;
    ToResult(env, torn, id, m, wasm, d);
    s := At(torn, id, m, Done(Ok(d))).(memory := torn.memory[CacheKey(m) := d]);
  }

  /**
   From empty caches, every lookup in every run returns what an uncached loader returns (or a
   failed read of the file), exactly if the disk is bypassed or every torn form of every
   artifact is refused or read as the right component.
   */
  lemma TransparentIff<C(!new)>(env: Env<C>, bypass: bool)
    requires Lawful(env)
    ensures
      (forall s: State<C>, id :: Reachable(env, bypass, s) && id in s.lookups ==> Transparent(env, s.lookups[id]))
      <==> bypass || TornFormsHarmless(env)
  {
    if bypass || TornFormsHarmless(env) {
      forall s: State<C>, id | Reachable(env, bypass, s) && id in s.lookups
        ensures Transparent(env, s.lookups[id])
      {
        var states: seq<State<C>>, steps: seq<Step> :|
          IsRun(env, bypass, states, steps) && states[0] == Initial() && states[|steps|] == s;
        LookupsAreTransparent(env, bypass, states, steps, |steps|, id);
      }
    } else {
      var m: ModulePath, t: Bytes :|
        UncachedLoad(env, m).Ok? && Torn(t, env.serialize(UncachedLoad(env, m).value))
        && !Harmless(env, ModuleFile(env, m).value, t);
      var s, id := HarmfulFormIsReturned(env, m, t);
    }
  }
}
