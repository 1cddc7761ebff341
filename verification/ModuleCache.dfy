/**
 The two lookups over the memory cache and the artifact store (`get_or_load` and
 `get_or_load_module_path` in src/runtime/cache.rs), one call at a time.
 */
module ModuleCache {
  import opened Wrappers
  import opened Directory
  import opened ModulePath
  import opened AotCache
  import opened Loading

  /** What may go wrong during one lookup, and how the artifact directory is listed meanwhile. */
  datatype LoadConditions = LoadConditions(
    now: nat,
    readFails: bool,
    deserializeFails: bool,
    removable: bool,
    serializeFails: bool,
    write: WriteFault,
    statsScan: Dir -> Scan,
    scan: Dir -> Scan)

  ghost predicate ListsAnything(scan: Dir -> Scan) {
    forall d: Dir :: Lists(scan(d), d)
  }

  function Contents(dir: Dir): map<string, Bytes> {
    map n | n in dir :: dir[n].content
  }

  // ---- What a lookup does to the artifact directory ----

  /** After storing an artifact, however that goes. */
  ghost function StoredDir(dir: Dir, key: string, artifact: Bytes, k: LoadConditions, limit: nat): Dir
    requires ListsAnything(k.statsScan) && ListsAnything(k.scan)
  {
    if k.serializeFails then dir
    else match k.write
      case WriteFails(None) => dir
      case WriteFails(Some(part)) => dir[TempName(key) := File(part, k.now)]
      case RenameFails => dir[TempName(key) := File(artifact, k.now)]
      case NoFault =>
        var published := Published(dir, key, artifact, k.now);
        MaybeCleaned(published, k.statsScan(published), k.scan(published), limit)
  }

  /** The artifact of these bytes is there, and reading it succeeds. */
  predicate Served<C(==)>(env: Env<C>, bypass: bool, dir: Dir, wasm: Bytes, k: LoadConditions) {
    var name := ArtifactName(env.hash(wasm));
    !bypass && name in dir && !k.deserializeFails && env.deserialize(dir[name].content) != None
  }

  /** Without the broken artifact of these bytes, if it can be removed. */
  ghost function Unbroken<C>(env: Env<C>, bypass: bool, dir: Dir, wasm: Bytes, k: LoadConditions): Dir {
    if bypass || !k.removable then dir else dir - {ArtifactName(env.hash(wasm))}
  }

  /** After a load of these bytes: a broken artifact is removed, and a new one stored. */
  ghost function LoadedDir<C>(env: Env<C>, bypass: bool, dir: Dir, wasm: Bytes, k: LoadConditions, limit: nat): Dir
    requires ListsAnything(k.statsScan) && ListsAnything(k.scan)
  {
    if Served(env, bypass, dir, wasm, k) then dir
    else
      var left := Unbroken(env, bypass, dir, wasm, k);
      match env.compile(wasm)
      case None => left
      case Some(c) => if bypass then dir else StoredDir(left, env.hash(wasm), env.serialize(c), k, limit)
  }

  /**
   A cold load without faults, when the store stays within its limit, leaves the serialised
   component on disk, and every other artifact as it was; with bypass it leaves nothing.
   */
  lemma ColdLoadStores<C>(env: Env<C>, dir: Dir, wasm: Bytes, c: C, k: LoadConditions, limit: nat, other: string)
    requires ListsAnything(k.statsScan) && ListsAnything(k.scan)
    requires env.compile(wasm) == Some(c) && !k.serializeFails && k.write == NoFault
    requires
      var name := ArtifactName(env.hash(wasm));
      name !in dir || k.deserializeFails || env.deserialize(dir[name].content) == None
    requires
      var published := Published(dir, env.hash(wasm), env.serialize(c), k.now);
      VisibleSize(published, k.statsScan(published).unreadable) <= limit
    ensures
      var name, after := ArtifactName(env.hash(wasm)), LoadedDir(env, false, dir, wasm, k, limit);
      && name in after && after[name] == File(env.serialize(c), k.now)
      && (other != name && other != TempName(env.hash(wasm)) ==>
            (other in after <==> other in dir) && (other in dir ==> after[other] == dir[other]))
    ensures LoadedDir(env, true, dir, wasm, k, limit) == dir
  {
    var key := env.hash(wasm);
    var left := if k.removable then dir - {ArtifactName(key)} else dir;
    assert Published(left, key, env.serialize(c), k.now) == Published(dir, key, env.serialize(c), k.now);
    PublishedMeaning(dir, key, env.serialize(c), k.now, other);
  }

  /**
   A broken artifact that can be removed is gone, unless a new one has taken its place; one that
   can be read stays.
   */
  lemma BrokenArtifactGoes<C>(env: Env<C>, dir: Dir, wasm: Bytes, k: LoadConditions, limit: nat)
    requires ListsAnything(k.statsScan) && ListsAnything(k.scan)
    requires ArtifactName(env.hash(wasm)) in dir && k.removable
    ensures
      var name := ArtifactName(env.hash(wasm));
      var after := LoadedDir(env, false, dir, wasm, k, limit);
      if !k.deserializeFails && env.deserialize(dir[name].content) != None then after == dir
      else if env.compile(wasm) == None || k.serializeFails || k.write != NoFault then name !in after
      else name in after ==> after[name] == File(env.serialize(env.compile(wasm).value), k.now)
  {
    var name := ArtifactName(env.hash(wasm));
    ArtifactNames(env.hash(wasm), env.hash(wasm));
    if env.compile(wasm).Some? {
      PublishedMeaning(dir - {name}, env.hash(wasm), env.serialize(env.compile(wasm).value), k.now, name);
    }
  }

  class ModuleCache<C(==,!new)> {
    const env: Env<C>
    const aotCache: AotCache
    /** Components in memory; any of them may be evicted at any time. */
    var cache: map<string, C>

    constructor (env: Env<C>, aotCache: AotCache)
      requires Lawful(env) && aotCache.computeKey == env.hash
      requires forall wasm :: wasm in env.files.Values ==> env.hash(wasm) != ""
      requires DiskHarmless(env, Contents(aotCache.dir))
      ensures this.env == env && this.aotCache == aotCache && cache == map[] && Valid()
    {
      this.env := env;
      this.aotCache := aotCache;
      cache := map[];
    }

    ghost predicate Valid()
      reads this, aotCache
    {
      && Lawful(env) && aotCache.computeKey == env.hash
      && (forall wasm :: wasm in env.files.Values ==> env.hash(wasm) != "")
      && MemoryFaithful(env, cache)
      && DiskHarmless(env, Contents(aotCache.dir))
    }

    /** What a lookup of this module returns now. */
    ghost function Promised(m: ModulePath, readFails: bool): Result<C, LoadError>
      reads this
    {
      LookupResult(env, m, Sanitary(m) && CacheKey(m) in cache, readFails)
    }

    /** The artifact directory after such a lookup: untouched unless the module's file is read. */
    ghost function DirAfter(m: ModulePath, k: LoadConditions): Dir
      requires ListsAnything(k.statsScan) && ListsAnything(k.scan)
      reads this, aotCache
    {
      if CacheKey(m) in cache || k.readFails || ModuleFile(env, m).Err? then aotCache.dir
      else LoadedDir(env, aotCache.bypass, aotCache.dir, ModuleFile(env, m).value, k, aotCache.maxSizeBytes)
    }

    /** Eviction from memory by size or idleness. */
    method Evict(key: string)
      requires Valid()
      modifies this
      ensures Valid() && cache == old(cache) - {key}
    {
      cache := cache - {key};
    }

    /** Store a compiled component, if it can be serialised; failures are only logged. */
    method StoreArtifact(wasm: Bytes, component: C, k: LoadConditions)
      requires Valid() && !aotCache.bypass && ListsAnything(k.statsScan) && ListsAnything(k.scan)
      requires wasm in env.files.Values && env.compile(wasm) == Some(component)
      modifies aotCache
      ensures Valid()
      ensures aotCache.dir ==
                StoredDir(old(aotCache.dir), env.hash(wasm), env.serialize(component), k, aotCache.maxSizeBytes)
    {
      if k.serializeFails {
        return;
      }
      var serialized := env.serialize(component);
      var key := aotCache.computeKey(wasm);
      ghost var before := aotCache.dir;
      var published := Published(aotCache.dir, key, serialized, k.now);
      ArtifactNames(key, key);
      StoreKeepsDiskIff(env, Contents(before), wasm, serialized);
      var stored := aotCache.Put(wasm, serialized, k.now, k.write, k.statsScan(published), k.scan(published));
      ghost var disk := if stored.Ok? then Contents(before)[ArtifactName(key) := serialized] else Contents(before);
      SubsetKeeps(env, disk, Contents(aotCache.dir));
    }

    /** The artifact on disk, if it can be read; one that cannot is removed. */
    method TryArtifact(wasm: Bytes, k: LoadConditions) returns (r: Option<C>)
      requires Valid() && wasm in env.files.Values
      modifies aotCache
      ensures Valid()
      ensures r.Some? <==> Served(env, aotCache.bypass, old(aotCache.dir), wasm, k)
      ensures r.Some? ==> r == env.compile(wasm) && aotCache.dir == old(aotCache.dir)
      ensures r.None? ==> aotCache.dir == Unbroken(env, aotCache.bypass, old(aotCache.dir), wasm, k)
    {
      ghost var before := aotCache.dir;
      var cachedPath := aotCache.Get(wasm);
      if cachedPath.None? {
        assert aotCache.bypass || before - {ArtifactName(env.hash(wasm))} == before;
        return None;
      }
      assert Harmless(env, wasm, Contents(aotCache.dir)[cachedPath.value]);
      var component := env.deserialize(aotCache.dir[cachedPath.value].content);
      if !k.deserializeFails && component.Some? {
        return component;
      }
      var _ := aotCache.Remove(wasm, k.removable);
      SubsetKeeps(env, Contents(before), Contents(aotCache.dir));
      return None;
    }

    /** Artifact from disk if there is a readable one, else compile and store. */
    method LoadThroughDisk(wasm: Bytes, k: LoadConditions) returns (r: Option<C>)
      requires Valid() && ListsAnything(k.statsScan) && ListsAnything(k.scan)
      requires wasm in env.files.Values
      modifies aotCache
      ensures Valid()
      ensures r == env.compile(wasm)
      ensures aotCache.dir == LoadedDir(env, aotCache.bypass, old(aotCache.dir), wasm, k, aotCache.maxSizeBytes)
    {
      r := TryArtifact(wasm, k);
      if r.Some? {
        return;
      }
      r := env.compile(wasm);
      if r.Some? && !aotCache.bypass {
        StoreArtifact(wasm, r.value, k);
      }
    }

    /** Lookup of a platform module by name. */
    method GetOrLoad(name: string, k: LoadConditions) returns (r: Result<C, LoadError>)
      requires Valid() && ListsAnything(k.statsScan) && ListsAnything(k.scan)
      modifies this, aotCache
      ensures Valid()
      ensures r == old(Promised(Platform(name), k.readFails))
      ensures Sanitary(Platform(name)) && name in old(cache) ==> r == Ok(old(cache)[name])
      ensures cache == if r.Ok? then old(cache)[name := r.value] else old(cache)
      ensures aotCache.dir == old(DirAfter(Platform(name), k))
    {
      var sanitized := SanitizeModuleName(name);
      if sanitized.Err? {
        return Err(InvalidRequest);
      }
      var sanitizedName := sanitized.value;
      assert Sanitary(Platform(name)) && CacheKey(Platform(name)) == name == sanitizedName;
      if sanitizedName in cache {
        return Ok(cache[sanitizedName]);
      }
      var path := env.modulesDir + [sanitizedName + ".wasm"];
      if path !in env.files {
        return Err(ModuleNotFound);
      }
      if k.readFails {
        return Err(ReadFailed);
      }
      var component := LoadThroughDisk(env.files[path], k);
      if component.None? {
        return Err(CompileFailed);
      }
      InsertKeepsMemory(env, cache, Platform(name), component.value);
      cache := cache[sanitizedName := component.value];
      return Ok(component.value);
    }

    /** Lookup of a platform or tenant module. */
    method GetOrLoadModulePath(m: ModulePath, k: LoadConditions) returns (r: Result<C, LoadError>)
      requires Valid() && ListsAnything(k.statsScan) && ListsAnything(k.scan)
      modifies this, aotCache
      ensures Valid()
      ensures r == old(Promised(m, k.readFails))
      ensures Sanitary(m) && CacheKey(m) in old(cache) ==> r == Ok(old(cache)[CacheKey(m)])
      ensures cache == if r.Ok? then old(cache)[CacheKey(m) := r.value] else old(cache)
      ensures aotCache.dir == old(DirAfter(m, k))
    {
      if SanitizeModuleName(m.name).Err? {
        return Err(InvalidRequest);
      }
      if m.Tenant? && SanitizeModuleName(m.tenantId).Err? {
        return Err(InvalidRequest);
      }
      var cacheKey := CacheKey(m);
      if cacheKey in cache {
        return Ok(cache[cacheKey]);
      }
      var wasmPath := WasmPath(m, env.modulesDir, env.userModulesDir);
      if wasmPath.None? {
        return Err(InvalidRequest);
      }
      if wasmPath.value !in env.files {
        return Err(ModuleNotFound);
      }
      if k.readFails {
        return Err(ReadFailed);
      }
      var component := LoadThroughDisk(env.files[wasmPath.value], k);
      if component.None? {
        return Err(CompileFailed);
      }
      InsertKeepsMemory(env, cache, m, component.value);
      cache := cache[cacheKey := component.value];
      return Ok(component.value);
    }
  }
}
