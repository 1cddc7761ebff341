/**
 What both caches must not change: the component that compiling a module's file gives.  The
 compiler, its serialised form and the content hash are uninterpreted functions; the module
 files do not change.
 */
module Loading {
  import opened Wrappers
  import opened Directory
  import opened ModulePath

  datatype LoadError = InvalidRequest | ModuleNotFound | ReadFailed | CompileFailed

  datatype Env<!C> = Env(
    compile: Bytes -> Option<C>,
    serialize: C -> Bytes,
    deserialize: Bytes -> Option<C>,
    hash: Bytes -> string,
    files: map<Path, Bytes>,
    modulesDir: Path,
    userModulesDir: Option<Path>)

  /** Serialised components come back as they were, and the hash tells the module files apart. */
  ghost predicate Lawful<C(!new)>(env: Env<C>) {
    && (forall c: C :: env.deserialize(env.serialize(c)) == Some(c))
    && (forall b, b' :: b in env.files.Values && b' in env.files.Values && env.hash(b) == env.hash(b') ==> b == b')
  }

  /** The file of a module, if the request is acceptable and the file exists. */
  function ModuleFile<C>(env: Env<C>, m: ModulePath): Result<Bytes, LoadError> {
    if !Sanitary(m) then Err(InvalidRequest)
    else match WasmPath(m, env.modulesDir, env.userModulesDir)
      case None => Err(InvalidRequest)
      case Some(path) => if path in env.files then Ok(env.files[path]) else Err(ModuleNotFound)
  }

  /** A loader without any cache. */
  function UncachedLoad<C>(env: Env<C>, m: ModulePath): Result<C, LoadError> {
    match ModuleFile(env, m)
    case Err(e) => Err(e)
    case Ok(wasm) =>
      match env.compile(wasm)
      case None => Err(CompileFailed)
      case Some(c) => Ok(c)
  }

  /** One lookup: what is in memory needs no file, and a file that is there may fail to be read. */
  function LookupResult<C>(env: Env<C>, m: ModulePath, inMemory: bool, readFails: bool): Result<C, LoadError> {
    if !inMemory && readFails && ModuleFile(env, m).Ok? then Err(ReadFailed) else UncachedLoad(env, m)
  }

  // ---- Which file decides ----

  /**
   A tenant module is what the file under its tenant's directory and its own name compiles to,
   and needs a user directory.
   */
  lemma TenantLookup<C>(env: Env<C>, tenantId: string, name: string, inMemory: bool, readFails: bool)
    requires Sanitary(Tenant(tenantId, name))
    ensures
      var r := LookupResult(env, Tenant(tenantId, name), inMemory, readFails);
      if env.userModulesDir.None? then r == Err(InvalidRequest)
      else
        var path := env.userModulesDir.value + [tenantId, name + ".wasm"];
        if path !in env.files then r == Err(ModuleNotFound)
        else if readFails && !inMemory then r == Err(ReadFailed)
        else r == match env.compile(env.files[path])
                  case None => Err(CompileFailed)
                  case Some(c) => Ok(c)
  {
  }

  /** A platform module is what the file under the modules directory and its name compiles to. */
  lemma PlatformLookup<C>(env: Env<C>, name: string, inMemory: bool, readFails: bool)
    requires Sanitary(Platform(name))
    ensures
      var r := LookupResult(env, Platform(name), inMemory, readFails);
      var path := env.modulesDir + [name + ".wasm"];
      if path !in env.files then r == Err(ModuleNotFound)
      else if readFails && !inMemory then r == Err(ReadFailed)
      else r == match env.compile(env.files[path])
                case None => Err(CompileFailed)
                case Some(c) => Ok(c)
  {
  }

  /** Nothing but a module's own file makes a difference to it; a name that fails the check has no file. */
  lemma OtherFilesDoNotMatter<C(!new)>(env: Env<C>, files: map<Path, Bytes>, m: ModulePath, inMemory: bool,
                                       readFails: bool)
    requires
      forall path: Path ::
        (match m
         case Platform(name) => path == env.modulesDir + [name + ".wasm"]
         case Tenant(tenantId, name) =>
           env.userModulesDir.Some? && path == env.userModulesDir.value + [tenantId, name + ".wasm"]) ==>
          (path in env.files <==> path in files) && (path in files ==> env.files[path] == files[path])
    ensures LookupResult(env.(files := files), m, inMemory, readFails) == LookupResult(env, m, inMemory, readFails)
    ensures !Sanitary(m) ==> LookupResult(env, m, inMemory, readFails) == Err(InvalidRequest)
  {
    if Sanitary(m) {
      match m
      case Platform(name) =>
        PlatformLookup(env, name, inMemory, readFails);
        PlatformLookup(env.(files := files), name, inMemory, readFails);
      case Tenant(tenantId, name) =>
        TenantLookup(env, tenantId, name, inMemory, readFails);
        TenantLookup(env.(files := files), tenantId, name, inMemory, readFails);
    }
  }

  /** Whatever a lookup may find in memory under the key of a module is that module's component. */
  ghost predicate MemoryFaithful<C>(env: Env<C>, memory: map<string, C>) {
    forall m: ModulePath :: Sanitary(m) && CacheKey(m) in memory ==>
      UncachedLoad(env, m) == Ok(memory[CacheKey(m)])
  }

  /** Reading this artifact fails, or gives what compiling the module file gives. */
  predicate Harmless<C(==)>(env: Env<C>, wasm: Bytes, artifact: Bytes) {
    env.deserialize(artifact) == None || env.deserialize(artifact) == env.compile(wasm)
  }

  /** Whatever a lookup may find on disk under the hash of a module file is harmless. */
  ghost predicate DiskHarmless<C>(env: Env<C>, disk: map<string, Bytes>) {
    forall wasm :: wasm in env.files.Values && ArtifactName(env.hash(wasm)) in disk ==>
      Harmless(env, wasm, disk[ArtifactName(env.hash(wasm))])
  }

  /** Inserting a component under the key of its module is harmless, because no other module has that key. */
  lemma InsertKeepsMemory<C(!new)>(env: Env<C>, memory: map<string, C>, m: ModulePath, c: C)
    requires MemoryFaithful(env, memory) && Sanitary(m) && UncachedLoad(env, m) == Ok(c)
    ensures MemoryFaithful(env, memory[CacheKey(m) := c])
  {
    forall m': ModulePath | Sanitary(m') && CacheKey(m') == CacheKey(m) ensures m' == m {
      CacheKeyInjective(m, m');
    }
  }

  /** Storing anything under the hash of a file concerns that file only, because no other file has that hash. */
  lemma StoreKeepsDiskIff<C(!new)>(env: Env<C>, disk: map<string, Bytes>, wasm: Bytes, artifact: Bytes)
    requires Lawful(env) && DiskHarmless(env, disk) && wasm in env.files.Values
    ensures DiskHarmless(env, disk[ArtifactName(env.hash(wasm)) := artifact]) <==> Harmless(env, wasm, artifact)
  {
    var after := disk[ArtifactName(env.hash(wasm)) := artifact];
    forall wasm' | wasm' in env.files.Values && ArtifactName(env.hash(wasm')) == ArtifactName(env.hash(wasm))
      ensures wasm' == wasm
    {
      ArtifactNames(env.hash(wasm), env.hash(wasm'));
    }
    assert ArtifactName(env.hash(wasm)) in after;
  }

  /** Losing entries is harmless. */
  lemma SubsetKeeps<C(!new)>(env: Env<C>, disk: map<string, Bytes>, disk': map<string, Bytes>)
    requires DiskHarmless(env, disk)
    requires forall k :: k in disk' && IsArtifact(k) ==> k in disk && disk'[k] == disk[k]
    requires forall wasm :: wasm in env.files.Values ==> env.hash(wasm) != ""
    ensures DiskHarmless(env, disk')
  {
    forall wasm | wasm in env.files.Values && ArtifactName(env.hash(wasm)) in disk'
      ensures Harmless(env, wasm, disk'[ArtifactName(env.hash(wasm))])
    {
      ArtifactNames(env.hash(wasm), env.hash(wasm));
    }
  }
}
