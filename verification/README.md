# Verified model of the mik runtime core

A Dafny model of the stateful core of the mik runtime: the two-level module cache, the
admission of requests through circuit breaker and per-module semaphores, the debouncer of the
file watcher, bounded retry, and the parsers for names, routes and references.

- **Artifact store** (`Directory`, `Entries`, `AotCache`, `CleanupLaws`, `PutProtocol`,
  `Putters`, `FileSystem`, `TornWrites`). A directory is a map from file name to contents and access time. What the
  operating system decides is a parameter: listing order, where a listing breaks off, which files
  cannot be examined or deleted. The class does what the source does, cleanup loop included;
  the laws about LRU order, minimality and survival are stated on directories. The steps of a
  `put` interleave with any number of other putters, crashes and deletions.
- **Lookups** (`Loading`, `ModuleCache`, `LookupProtocol`, `TornLookups`). Compiler, serialised form and content
  hash are uninterpreted functions, the hash injective on the module files. The class runs one
  lookup over both caches; the protocol interleaves any number of them, with the steps inside their
  stores, so that lookups of one module may tear each other's artifact.
- **Admission** (`KeyedRuns`, `CircuitBreaker`, `Semaphores`, `RequestHandler`, `Admission`,
  `RecoveryRuns`).
  `RequestHandler` runs one request from breaker check to reply on the real objects. `Admission`
  takes the same request apart into the steps between which others can run.
- **Other breakers** (`BenchBreaker`, `AtomicBreaker`): the minimal one of the benchmarks and the
  atomic one of the concurrency tests, the latter for any number of threads.
- **Debouncer** (`EventLog`, `Debouncer`): the class is tied to a log of everything recorded and
  drained; what each drain has to emit is read off that log alone.
- **Parsers and retry** (`Strings`, `HostAllow`, `OciReference`, `ModulePath`, `Routes`, `Retry`).

`Wrappers`, `Integers`, `Clock` and `Strings` hold what the others share. `dafny verify dfyconfig.toml` checks
the whole project.

## Where the code and its documentation differ

The model follows the code.

- `put` is documented as safe against corruption by renaming a temp file into place. All puts of
  one key share one temp name, so that holds while puts of one key do not overlap
  (`TornWrites.WholeIff`). Lookups of one module may overlap: two are enough for a torn
  artifact, and for every torn form of `n` bytes there is a run of `n` + 2 lookups at once that leaves it
  visible. So lookups, in any number, rely on the compiled format refusing every torn form, or reading
  it as the right component (`TornLookups.TransparentIff`).
- A half-open circuit is documented to close when its probe succeeds. Tenant requests are checked
  under the cache key but their execution is recorded under the handler name, so a tenant circuit
  never closes that way (`RecoveryRuns.OwnProbeClosesIff`, `RecoveryRuns.CanRecoverIff`). And the success
  of a request admitted before the circuit opened closes a half-open one as well (`RecoveryRuns.OldSuccessCloses`).
- `is_blocking` is described as an inspection but is a check: it may take the probe slot
  (`CircuitBreaker.IsBlockingIsPureIff`, `CircuitBreaker.InspectionTakesProbe`).
- `clear` reports a current size of zero even if files resisted (`CleanupLaws.ClearReportIsTrueIff`).
- An explicit tag that holds `/` or `:` is put into the reference as it is; parsing that again may
  give another name or reference (`OciReference.CanonicalIff`).
- The delay cap of retry is not applied to the first sleep (`Retry.DelaysWithinMaxIff`), and for factors below one the capped
  power is not what the loop computes once the cap was met (`Retry.CappedPowerLawIff`).
- A comment says that errors are not debounced; they are, under the empty path they all
  share (`EventLog.ErrorEmittedIff`, `EventLog.SecondErrorReplacesFirst`).

## Model

| member | source | states |
|---|---|---|
| `AotCache.AotCache.Get` | src/runtime/aot_cache.rs:103-116 | A hit is the artifact named by the content hash, if it exists and the cache is not bypassed; nothing changes. |
| `AotCache.AotCache.Put` | src/runtime/aot_cache.rs:122-142 | The exact directory after each way a store can go: bypass, failed or partial temp write, failed rename, success followed by the guarded cleanup, whose own failure is ignored. |
| `AotCache.AotCache.Remove` | src/runtime/aot_cache.rs:145-159 | Only this artifact goes; the answer says whether something was removed, could not be, or was not there. |
| `AotCache.AotCache.Stats` | src/runtime/aot_cache.rs:162-188 | Number and total size of the visible artifacts, or an error if the listing breaks off; zeros under bypass. |
| `AotCache.AotCache.Cleanup` | src/runtime/aot_cache.rs:193-248 | The directory loses exactly the LRU set computed from the directory before, with any deletions failing; the reported count, freed size and current size are those of the files gone and left, and freed plus current is the size found. |
| `AotCache.AotCache.EvictOldest` | src/runtime/aot_cache.rs:224-241 | The loop ends, never subtracts more than it has, tries each entry once in order, and stops exactly at the first point under the limit or at the end. |
| `AotCache.AotCache.Clear` | src/runtime/aot_cache.rs:251-277 | Every visible deletable file listed before an I/O error is gone, and count and freed size are theirs; the current size is reported as zero. |
| `AotCache.AotCache.MaybeCleanup` | src/runtime/aot_cache.rs:280-293 | Cleans up exactly if the size can be read and exceeds the limit; fails exactly if the size cannot be read, or the cleanup it needs cannot list the files. |
| `Directory.ArtifactNames` | src/runtime/aot_cache.rs:128-134 | Artifacts have the extension every scan looks for, temp files do not, the two never share a name, and the artifact name determines the key. |
| `Entries.SortIsStable` | src/runtime/aot_cache.rs:217-218 | The sort keeps all entries, puts older accesses first and keeps the listing order among equals. |
| `Entries.CollectDescribes` | src/runtime/aot_cache.rs:201-215 | A pass collects one true entry for exactly the listed files that count. |
| `AotCache.StopFrom` | src/runtime/aot_cache.rs:232-241 | The stopping point is the first one where the limit is met, or the end. |
| `AotCache.CleanedVisible` | src/runtime/aot_cache.rs:232-248 | What a later pass sees is what the earlier pass saw less the removed files, and its size is what the loop was left with. |
| `Directory.ExtensionOf` | src/runtime/aot_cache.rs:205 | Only a dot with something before it begins an extension, and the last such dot does. |
| `AotCache.PublishedMeaning` | src/runtime/aot_cache.rs:131-133 | Publishing puts the artifact under its key with its time, takes the temp file away, and leaves every other file alone. |
| `CleanupLaws.CleanupReachesLimit` | src/runtime/aot_cache.rs:232-248 | After cleanup the size is within the limit or only undeletable files are left; within the limit if everything can be deleted. |
| `CleanupLaws.CleanupIsLru` | src/runtime/aot_cache.rs:217-241 | With any deletions failing, no deletable survivor was used less recently than a removed file, ties broken by listing order. |
| `CleanupLaws.CleanupIsMinimal` | src/runtime/aot_cache.rs:232-241 | With any deletions failing, putting back the most recent removed file exceeds the limit. |
| `CleanupLaws.FreshSurvivesIff` | src/runtime/aot_cache.rs:193-248 | The most recently used file survives exactly if it cannot be deleted or fits beside the other files that cannot be. |
| `CleanupLaws.GuardIsHarmless` | src/runtime/aot_cache.rs:280-293 | Testing the size before cleaning gives the same directory as always cleaning. |
| `CleanupLaws.CleanupIsIdempotent` | src/runtime/aot_cache.rs:193-248 | A second cleanup removes nothing, in whatever order it lists the files. |
| `CleanupLaws.PutKeepsLimit` | src/runtime/aot_cache.rs:122-142 | After a successful store the total is within the limit if all files can be read and deleted. |
| `CleanupLaws.PutKeepsFresh` | src/runtime/aot_cache.rs:122-142 | A store strictly newer than every other artifact survives its own cleanup, with its contents, exactly if it fits beside what cannot be deleted; in particular if it is no larger than the limit and all can be. |
| `CleanupLaws.CleanupSparesOthers` | src/runtime/aot_cache.rs:201-205 | Files without the artifact extension are untouched by cleanup. |
| `CleanupLaws.TempFilesAreInvisible` | src/runtime/aot_cache.rs:128-134 | A temp file changes no count, no size and no lookup. |
| `CleanupLaws.ClearReportIsTrueIff` | src/runtime/aot_cache.rs:272-276 | The reported current size, zero, is true exactly if the visible files that resisted deletion are empty. |
| `CleanupLaws.ClearedIff` | src/runtime/aot_cache.rs:259-270 | Clearing deletes exactly the artifacts it reaches, can examine and can delete, and no other file. |
| `PutProtocol.ReadersSeeWholeArtifacts` | src/runtime/aot_cache.rs:122-142 | Any number of putters, crashes and deletions, with write and rename as atomic steps: at every moment a visible artifact is a whole artifact stored for its key. |
| `PutProtocol.LonePutPublishes` | src/runtime/aot_cache.rs:122-142 | An undisturbed put makes its artifact visible and leaves no temp file. |
| `TornWrites.ExclusivePutsAreWhole` | src/runtime/aot_cache.rs:128-134 | With the write taken apart into truncation and pieces: whole artifacts at every moment if no two puts of one key overlap. |
| `TornWrites.OverlappingPutsTear` | src/runtime/aot_cache.rs:128-134 | For every key and non-empty artifact, a run from the empty store with no more than two puts of that one artifact at once, in which a torn file becomes visible. |
| `TornWrites.WholeIff` | src/runtime/aot_cache.rs:128-134 | For every key, artifact and bound on simultaneous puts: all visible artifacts of all runs are whole exactly if the bound is at most one or the artifact is empty. |
| `FileSystem.OverlayKeepsTorn` | src/runtime/aot_cache.rs:131 | Whatever pieces overlapping writers put into a file, and wherever, it holds pieces of the whole at their places, zeros in the gaps before the last piece, and nothing after it. |
| `Loading.TenantLookup` | src/runtime/module_path.rs:96-98 | A tenant lookup is decided by the file at user directory, tenant id and name with the wasm suffix: missing, unreadable, not compilable, or what it compiles to; without a user directory it is an invalid request. |
| `Loading.PlatformLookup` | src/runtime/module_path.rs:95 | A platform lookup is decided in the same way by the file at modules directory and name. |
| `Loading.OtherFilesDoNotMatter` | src/runtime/cache.rs:187-210 | Two sets of files that agree on the module's own path give the same result; a name that fails the check is an invalid request. |
| `ModulePath.SameFileIff` | src/runtime/module_path.rs:89-100 | Distinct modules have distinct files, except that a tenant shares with the platform when the modules directory is that tenant's directory. |
| `Loading.InsertKeepsMemory` | src/runtime/cache.rs:142 | Inserting a component under its module's key leaves every other module's lookup right. |
| `Loading.StoreKeepsDiskIff` | src/runtime/cache.rs:109-119 | Storing any bytes under the hash of a module file keeps the disk harmless exactly if reading them fails or gives what compiling that file gives; every other file is unaffected. |
| `ModuleCache.ModuleCache.LoadThroughDisk` | src/runtime/cache.rs:91-130 | Artifact hit, broken artifact, recompilation and failed store all give what compiling the bytes gives; the artifact directory afterwards is told for each of them, and both caches stay faithful. |
| `ModuleCache.ColdLoadStores` | src/runtime/cache.rs:109-119 | A cold load without faults within the limit leaves the serialised component on disk and every other artifact as it was; with bypass it leaves nothing. |
| `ModuleCache.BrokenArtifactGoes` | src/runtime/cache.rs:100-106 | A broken artifact that can be removed is gone after the load, unless a new one has taken its place; one that can be read stays. |
| `ModuleCache.ModuleCache.GetOrLoad` | src/runtime/cache.rs:56-151 | A platform lookup returns exactly what a loader without caches returns, error kinds included, or a failed read if the module is not in memory and its file is there; a module in memory is returned as it is; only a success is inserted, under the module's key. |
| `ModuleCache.ModuleCache.GetOrLoadModulePath` | src/runtime/cache.rs:159-285 | The same for platform and tenant paths. |
| `LookupProtocol.LossesHappen` | src/runtime/cache.rs:100-106 | Evicted components, deleted and removed artifacts are gone, and nothing else changes with them. |
| `LookupProtocol.NothingIsRuledOut` | src/runtime/cache.rs:56-285 | Evictions, deletions, failed reads and failed stores are possible at any moment. |
| `LookupProtocol.StepKeepsCourse` | src/runtime/cache.rs:56-285 | Every step of every interleaved lookup, down to truncating, writing and renaming the shared temp file inside `put`, keeps every visible artifact a torn form of the right one at worst, and every lookup on course. |
| `LookupProtocol.StepKeepsFaith` | src/runtime/cache.rs:56-285 | If torn forms are harmless or the disk is bypassed, every such step, memory eviction, disk deletion, failed deserialisation, failed removal and failed store keeps the memory and all results right. |
| `LookupProtocol.LookupsAreTransparent` | src/runtime/cache.rs:56-285 | Under that condition, at every moment of every run, with overlapping stores of one module included, a finished lookup has returned what an uncached loader returns, or a failed read. |
| `TornLookups.TornFormGetsVisible` | src/runtime/cache.rs:109-119 | Every torn form of a module's artifact is what some run of overlapping stores leaves visible, with one lookup for each byte of the form and two more. |
| `TornLookups.TransparentIff` | src/runtime/cache.rs:56-285 | From empty caches, all lookups of all runs are transparent exactly if the disk is bypassed or every torn form of every module's artifact is refused when read, or read as the right component. |
| `Semaphores.ModuleSemaphores.LockedGetOrInsert` | src/runtime/cache.rs:39-51 | Under the lock: an existing semaphore is returned unchanged, a missing one is created with the full limit, no other entry changes and no two modules share one. |
| `Semaphores.ModuleSemaphores.GetModuleSemaphore` | src/runtime/cache.rs:31-52 | With other callers creating semaphores, also for this module, between the two lock sections: the result is the one in the table, and no earlier entry is replaced. |
| `Semaphores.AllEnsuredMeaning` | src/runtime/cache.rs:39-51 | Creating semaphores in any order leaves existing permits alone and gives new modules the full limit. |
| `RequestHandler.SharedState.Admit` | src/runtime/request_handler.rs:419-456 | The entry test: refused as blocked exactly by the breaker, as overloaded exactly without a free permit; otherwise one permit of this key is taken. The check is always recorded. |
| `RequestHandler.SharedState.ResolveMultiModule` | src/runtime/request_handler.rs:414-474 | The outcome of resolving a platform module, the breaker operations made, and the permits: one held on success, none otherwise. |
| `RequestHandler.SharedState.ResolveMultiModulePath` | src/runtime/request_handler.rs:481-544 | The same for module paths: checked and blamed under the cache key, named by the handler name. |
| `RequestHandler.SharedState.HandleRequest` | src/runtime/request_handler.rs:674-705 | A whole request, told by its conditions: each reply holds exactly under its own condition; after the check the breaker hears a success under the handler name exactly if the execution succeeded, a failure exactly if it failed, a failure under the cache key exactly if the load failed, and else nothing; every permit is back on every exit; memory and disk are those of the lookup. |
| `Admission.StepKeepsPermits` | src/runtime/cache.rs:31-52 | Every step of every interleaving of requests keeps free permits plus holders at the limit, for every semaphore. |
| `Admission.OneKeyOneSemaphore` | src/runtime/cache.rs:31-52 | In any run, requests at any two moments use one semaphore exactly if they are for one key, despite the unlocked gap. |
| `Admission.PermitsAndRunningAddUp` | src/runtime/request_handler.rs:434-473 | At every moment of every run and for every key: free permits plus running requests equal the limit, which is never exceeded. |
| `Admission.OverloadedIffFull` | src/runtime/request_handler.rs:436-456 | A request is turned away as overloaded exactly if the limit of requests for its key is running. |
| `Admission.RequestsNeverStick` | src/runtime/request_handler.rs:674-705 | A request that has not ended can always take a step, its steps lead to the end, where it holds nothing, and no other request undoes them: so every exit returns the permit. |
| `Admission.NothingIsRuledOut` | src/runtime/request_handler.rs:674-705 | Loads and executions may end either way, waiting requests may vanish, keys may be reset or evicted, in any state. |
| `Admission.OneOutcomeAfterOwnCheck` | src/runtime/request_handler.rs:699-705 | In any run a request makes one check under its cache key and then at most one outcome, only if the check passed; on the platform route under the checked key; a tenant's success is never under it. |
| `Admission.OutcomeTellsExecution` | src/runtime/request_handler.rs:699-705 | In any run, however many steps of others lie between, a request whose execution succeeded records a success and one whose execution failed a failure, under its handler name. |
| `Admission.BreakerReplaysLog` | src/runtime/request_handler.rs:414-544 | Between any two moments of a run the breaker has done exactly the logged operations in order. |
| `Admission.OpenCircuitAdmitsNobody` | src/runtime/request_handler.rs:419-432 | However requests interleave, none gets past the check of an open circuit before the timeout, without a reset or eviction. |
| `Admission.TenantKeyHearsNoSuccess` | src/runtime/request_handler.rs:486-532 | In any run, no success is recorded under the cache key of a tenant module, unless the tenant whose id is that id behind `tenant:` is requested under the same module name. |
| `Admission.TenantCircuitNeverRecovers` | src/runtime/request_handler.rs:486-532 | Hence an open tenant circuit stays open or half-open over any run, whatever its probes do, until reset or eviction (same condition). |
| `Admission.CircuitClosesIff` | src/runtime/request_handler.rs:699-705 | In any run, a tripped circuit of a module that passes the name check closes in a step exactly if the step is its reset or eviction, or the circuit is half-open and the step records a success of the module itself (platform) or of its namesake (tenant), whenever that request was admitted. |
| `Admission.ForeignRequestsOnlyFail` | src/runtime/request_handler.rs:419-471 | A request for another path with the key of an acceptable module never executes, and all it can record under that key is a failed load. |
| `RecoveryRuns.OwnProbeClosesIff` | src/runtime/request_handler.rs:486-532 | For every acceptable module a run from the start, times never decreasing: failed loads open its circuit, its probe executes with success, and recording that closes the circuit exactly if it is a platform module; a tenant's stays half-open. |
| `RecoveryRuns.HealerCloses` | src/runtime/request_handler.rs:699-705 | A run, times never decreasing, in which a tenant's half-open circuit is closed by its namesake's success. |
| `RecoveryRuns.CanRecoverIff` | src/runtime/request_handler.rs:486-532 | Some run whose times never decrease closes the circuit of an acceptable module without reset or eviction exactly if it is a platform module, or its namesake passes the name check. |
| `RecoveryRuns.OldSuccessCloses` | src/runtime/request_handler.rs:699-705 | A run, times never decreasing, in which a request admitted before the circuit tripped closes it while the probe is still loading. |
| `KeyedRuns.KeysAreIndependent` | src/reliability/circuit_breaker/mod.rs:92-141 | What a run does to one key depends only on the operations for that key. |
| `CircuitBreaker.CircuitBreaker.CheckRequest` | src/reliability/circuit_breaker/mod.rs:87-155 | The new table, the decision and the error with its count and reason, in every state. |
| `CircuitBreaker.CircuitBreaker.RecordSuccess` | src/reliability/circuit_breaker/mod.rs:178-211 | The new table after a success. |
| `CircuitBreaker.CircuitBreaker.RecordFailure` | src/reliability/circuit_breaker/mod.rs:219-282 | The new table after a failure, with the saturating count. |
| `CircuitBreaker.CircuitBreaker.ResetKey` | src/reliability/circuit_breaker/mod.rs:303-315 | The new table after a reset: only a tracked key is closed. |
| `CircuitBreaker.CircuitBreaker.IsBlocking` | src/reliability/circuit_breaker/mod.rs:162-164 | Answers whether a check would be refused, and makes that check. |
| `CircuitBreaker.ClosedCountsFailures` | src/reliability/circuit_breaker/mod.rs:219-282 | Over any run a closed circuit's count is the number of failures since the last success, reset or eviction and is below the threshold; a stretch that reaches the threshold leaves the circuit tripped. |
| `CircuitBreaker.FailuresInARowTripIff` | src/reliability/circuit_breaker/mod.rs:219-282 | Failures in a row open an untracked circuit exactly if there are as many as the threshold says, and at least one. |
| `CircuitBreaker.TrippedOnlyAtThreshold` | src/reliability/circuit_breaker/mod.rs:219-282 | A tripped circuit has seen a stretch that reached the threshold. |
| `CircuitBreaker.OpenBlocksInTable` | src/reliability/circuit_breaker/mod.rs:104-121 | After opening, nothing passes for that key before the timeout, whatever happens to other keys, unless it is reset or evicted. |
| `CircuitBreaker.FailureBlocks` | src/reliability/circuit_breaker/mod.rs:260-276 | A failure that trips the circuit, or meets it open or half-open, blocks the key for the timeout from that moment, over any run without reset or eviction. |
| `CircuitBreaker.QuietFailureAdmitsIff` | src/reliability/circuit_breaker/mod.rs:104-121 | If nothing else happens to the key, it lets a request through exactly once that timeout is over. |
| `CircuitBreaker.LostProbeAdmitsIff` | src/reliability/circuit_breaker/mod.rs:123-139 | A probe that is never heard of again gives way to the next exactly once the probe timeout is over. |
| `CircuitBreaker.HealthyCircuitAdmits` | src/reliability/circuit_breaker/mod.rs:99-102 | As long as no stretch of failures has reached the threshold, every request passes. |
| `CircuitBreaker.OpenCountsFailures` | src/reliability/circuit_breaker/mod.rs:219-282 | The stored count, which a blocked request is told, is the number of failures since the circuit last closed, vanished or let a probe through, as far as 32 bits hold it. |
| `CircuitBreaker.ProbesAreSpaced` | src/reliability/circuit_breaker/mod.rs:104-139 | Without a success, reset or eviction, the requests let through, times the smaller timeout, fit into the time since the circuit tripped. |
| `CircuitBreaker.ProbeIsExclusive` | src/reliability/circuit_breaker/mod.rs:123-139 | While a probe is in flight no second request passes. |
| `CircuitBreaker.RecoveryNeedsProbe` | src/reliability/circuit_breaker/mod.rs:178-211 | A circuit that let nobody through is still open, whatever was recorded. |
| `CircuitBreaker.IsBlockingIsPureIff` | src/reliability/circuit_breaker/mod.rs:157-164 | When the inspection changes the state, and that it then blocks the request it announced could pass. |
| `CircuitBreaker.InspectionTakesProbe` | src/reliability/circuit_breaker/mod.rs:157-164 | What the inspection costs over a run: once it finds that a tripped circuit would let a request through, none passes for the probe spacing without a success, reset or eviction. |
| `BenchBreaker.CircuitBreaker.CheckRequest` | benches/runtime_benchmarks.rs:66-92 | Table and decision of the benchmark breaker. |
| `BenchBreaker.CircuitBreaker.RecordSuccess` | benches/runtime_benchmarks.rs:95-103 | Closes a tracked key, from any state. |
| `BenchBreaker.CircuitBreaker.RecordFailure` | benches/runtime_benchmarks.rs:106-113 | Opens the key. |
| `BenchBreaker.ProbeIsExclusive` | benches/runtime_benchmarks.rs:66-92 | After the step to half-open no request for the key passes until a record or eviction for it, over any run. |
| `BenchBreaker.FailureBlocks` | benches/runtime_benchmarks.rs:66-113 | After a failure none passes before the timeout, unless a success or eviction comes in between, over any run. |
| `BenchBreaker.QuietFailureAdmitsIff` | benches/runtime_benchmarks.rs:66-92 | If nothing else happens to a failed key, it lets a request through exactly once the timeout is over. |
| `BenchBreaker.SuccessHeals` | benches/runtime_benchmarks.rs:95-103 | After a success every request for the key passes, over any run, until the key fails again. |
| `AtomicBreaker.SimpleCircuitBreaker.RecordFailure` | src/runtime/loom_tests.rs:118-123 | One call is the atomic increment and, exactly when that obliges the thread, the store of the flag. |
| `AtomicBreaker.SimpleCircuitBreaker.RecordSuccess` | src/runtime/loom_tests.rs:125-128 | One call is the atomic store of zero. |
| `AtomicBreaker.OpeningInvariant` | src/runtime/loom_tests.rs:118-128 | For any number of threads, in every reachable state: open or about to be opened, exactly if some stretch of failures reached the threshold. |
| `AtomicBreaker.OpenIffReached` | src/runtime/loom_tests.rs:118-128 | When all calls have ended: open exactly if some stretch between successes reached the threshold, wrap-around included. |
| `AtomicBreaker.CountAtThresholdIsOpen` | src/runtime/loom_tests.rs:144-204 | The property asserted for two threads, for any number: count at the threshold implies open. |
| `AtomicBreaker.ThresholdZeroIff` | src/runtime/loom_tests.rs:118-123 | The threshold of zero, where that fails: open exactly after some failure. |
| `AtomicBreaker.OpenNeverReverts` | src/runtime/loom_tests.rs:125-128 | The flag, once set, stays set. |
| `AtomicBreaker.CountIsStretch` | src/runtime/loom_tests.rs:118-128 | The stored count is the failures since the last success, modulo the counter's range. |
| `AtomicBreaker.CountIsExact` | src/runtime/loom_tests.rs:118-128 | It is that number itself as long as the counter does not wrap around. |
| `Debouncer.DebouncedEvents.Record` | src/daemon/watch.rs:197-211 | The fields hold what the extended event log says is undelivered. |
| `Debouncer.DebouncedEvents.DrainReady` | src/daemon/watch.rs:214-241 | Emits, each once, exactly the records the log says this drain has to emit, the configuration event first, and keeps the fields in step with the log. |
| `Debouncer.DebouncedEvents.HasPending` | src/daemon/watch.rs:245-247 | True exactly if the log holds a pending record. |
| `Debouncer.DebouncedEvents.Poll` | src/daemon/watch.rs:300-332 | A turn of the loop: records what arrived in order, then drains, with the same exactness. |
| `EventLog.SupersededIff` | src/daemon/watch.rs:197-211 | A record supersedes exactly the undelivered ones about the same path, or both about the configuration; errors are about the empty path. |
| `EventLog.EmittedIff` | src/daemon/watch.rs:214-241 | A drain emits exactly the records that are old enough, with nothing later about the same path or configuration and no earlier delivery. |
| `EventLog.OneFate` | src/daemon/watch.rs:197-241 | Every recorded event is pending, superseded or emitted, exactly one of these, and emitted at most once. |
| `EventLog.SecondErrorReplacesFirst` | src/daemon/watch.rs:206-209 | An error followed by another before a drain finds the first one ripe is superseded and never emitted. |
| `EventLog.ErrorEmittedIff` | src/daemon/watch.rs:206-222 | The next drain after an error emits it exactly if it is old enough by then and no event of the empty path, such as another error, was recorded in between. |
| `EventLog.OneEmissionPerSlot` | src/daemon/watch.rs:214-241 | One drain never emits two events of one key. |
| `EventLog.EmissionIsRemembered` | src/daemon/watch.rs:214-241 | What a drain emits is exactly the last record of its key, undelivered and old enough. |
| `EventLog.RememberedAfterRecord` | src/daemon/watch.rs:197-211 | A record replaces what is remembered for its key and nothing else. |
| `EventLog.RememberedAfterDrain` | src/daemon/watch.rs:214-241 | A drain forgets exactly what is ripe. |
| `EventLog.DeliveredInTime` | src/daemon/watch.rs:295-333 | With polls at most a period apart, a record with nothing later about the same path or configuration is emitted no earlier than the debounce time after it and no later than one period after that. |
| `HostAllow.PatternMatchesMeaning` | src/reliability/security.rs:55-74 | One pattern: the character tests decide exactly the label-sequence reading. |
| `HostAllow.WildcardIsLabelSuffix` | src/reliability/security.rs:62-67 | The suffix test and the equality test are together: the labels of the pattern are a suffix of the host's labels. |
| `HostAllow.AllowedIffAdmitted` | src/reliability/security.rs:49-77 | A host is allowed exactly if some pattern admits it, read label by label. |
| `HostAllow.LowerEqIff` | src/reliability/security.rs:55-63 | Folding makes two texts equal exactly if they have one length and differ at most in the case of ASCII letters. |
| `HostAllow.CaseInvariant` | src/reliability/security.rs:49-77 | Hosts and patterns that differ only in the case of ASCII letters, character by character, get the same answer. |
| `HostAllow.MonotoneInPatterns` | src/reliability/security.rs:49-77 | More patterns never forbid a host; order and repetition do not matter. |
| `OciReference.SplitTagLossless` | src/commands/add.rs:176-187 | Nothing is lost, the tag holds neither `/` nor `:`, and without a tag the last segment has no colon. |
| `OciReference.SplitTagOfTagged` | src/commands/add.rs:176-187 | Any text with a plain tag attached splits exactly there. |
| `OciReference.LocateSucceeds` | src/commands/add.rs:137-173 | The missing-separator error never occurs, and a full reference is registry, slash and path again. |
| `OciReference.FullReferenceIff` | src/commands/add.rs:139-141 | A reference counts as full exactly if there is a dot before its first slash. |
| `OciReference.ReferenceShape` | src/commands/add.rs:137-173 | The produced reference is registry, base and tag: the default registry in front of a short spec, and the explicit tag before the parsed one before the default one; the name is the last segment of the base. |
| `OciReference.Defaults` | src/commands/add.rs:158-162 | The default registry and the default tag are the ones of the source. |
| `OciReference.LastSegmentIs` | src/commands/add.rs:163-166 | The last segment is what stands after the last slash. |
| `OciReference.CanonicalInOnePass` | src/commands/add.rs:137-173 | Without an explicit tag, parsing the produced reference gives the same name and reference, for every input. |
| `OciReference.CanonicalIff` | src/commands/add.rs:137-173 | With an explicit tag that holds exactly for stable tags: no colon and no slash, or a slash whose last segment is the component name with a tag of its own. |
| `OciReference.SlashTagIsNotCanonical` | src/commands/add.rs:166-172 | A family of explicit tags for which one pass is not enough. |
| `ModulePath.AcceptedIff` | src/runtime/security/module.rs:44-106 | A name passes the check exactly if it is not empty, not a dot or two, at most 255 bytes long, and made of characters that are neither control characters nor path separators; it comes back unchanged, as the fuzz target expects. |
| `ModulePath.Utf8LengthCounts` | src/runtime/security/module.rs:84 | The length that the limit counts is one byte for each character and one more for each of the three bounds that its code point reaches. |
| `ModulePath.DisplayOfParsed` | src/runtime/module_path.rs:27-41 | A parsed segment prints as itself. |
| `ModulePath.ParseOfDisplayIff` | src/runtime/module_path.rs:139-146 | Printing then parsing is the identity exactly for names that print unambiguously; all non-empty slash-free names do. |
| `ModulePath.CacheKeyInjective` | src/runtime/module_path.rs:47-52 | Two modules that pass the name check and share a cache key are one module; no platform key is a tenant key. |
| `ModulePath.SharedKeyIff` | src/runtime/module_path.rs:47-52 | Another path has the key of an acceptable module only if it fails the name check itself, and such a path exists exactly for tenant modules. |
| `ModulePath.OwnHandlerNameIff` | src/runtime/module_path.rs:131-136 | Handler name and cache key agree exactly for platform modules. |
| `ModulePath.HandlerNameMeetsCacheKeyIff` | src/runtime/module_path.rs:131-136 | When one module's handler name is another's cache key: only for the tenant id behind `tenant:`. |
| `Routes.PlatformRouteRecovered` | src/runtime/request_handler.rs:228-262 | The module is the text before the first slash and the handler path the rest, each decoded exactly if it holds a percent sign. |
| `Routes.SegmentsOfRoute` | src/runtime/request_handler.rs:276 | However many slashes separate them, the segments are found again. |
| `Routes.TenantRouteRecovered` | src/runtime/request_handler.rs:270-316 | Tenant, module and handler path are recovered from any route built of them, with any number of extra slashes. |
| `Routes.HandlerPathKeepsSegments` | src/runtime/request_handler.rs:270-316 | For every path of two segments or more, whatever its slashes: the first two name the tenant module, and reading the handler path again gives exactly the other ones. |
| `Routes.ShortRoutes` | src/runtime/request_handler.rs:270-316 | One segment is a platform module, slashes alone are none. |
| `Retry.RetrySync` | src/reliability/retry.rs:297-361 | At most `max_retries` + 1 attempts; the result is that of the last attempt; all earlier ones failed transiently; the loop stops only on success, a permanent error or the last attempt; the sleeps are the delays of the recurrence. |
| `Retry.GeometricIsPower` | src/reliability/retry.rs:354-357 | The repeated backoff step multiplies the initial delay by a power of the factor. |
| `Retry.CappedPowerLawIff` | src/reliability/retry.rs:351-356 | Every delay after the zeroth is min(initial * factor^k, max) exactly if the factor is at least one, the first step stays under the cap, or the cap is zero. |
| `Retry.DelaysWithinMaxIff` | src/reliability/retry.rs:29 | All of the first sleeps, any number from one on, keep to the maximum delay exactly if the initial delay does. |
| `Retry.ShrinkingClosedForm` | src/reliability/retry.rs:351-356 | The closed form for the other case, a shrinking factor. |
| `Retry.TotalDelayBound` | src/reliability/retry.rs:24-36 | All sleeps together are at most the initial delay plus the maximum for each further one. |

## Left out

- Wasm compilation, serialisation, hashing, the in-memory cache, semaphores' wait queues: library
  code. Compile, serialise, deserialise and hash are uninterpreted; eviction is an arbitrary step.
- Percent-decoding: a library call, an arbitrary function here, applied where the source applies it;
  round trips are stated for text without `%`.
- Error classification in retry: an arbitrary predicate. Rounding and overflow of durations,
  `f32` factors and jitter: exact non-negative reals instead.
- Size sums as 64-bit numbers: unbounded here, so overflow of a total above 2^64 bytes is not modelled.
- The overflow panic of the debug build in the atomic breaker's `count + 1`: the wrap-around of the
  release build is modelled.
- Failures of creating the cache directory and of reading a single directory entry's type: a
  listing breaks off or a file is unreadable, nothing finer.
- Changes to the directory by others during one scan: between scans only. Concurrency of puts,
  deletions and lookups is in `PutProtocol`, `TornWrites` and `LookupProtocol`.
- Access times set by readers: `Get` does not touch them; they are data of the directory.
- Module files that change while the server runs (hot reload): the files are fixed.
- Memory entries' sizes: eviction does not depend on them here, it may take any entry at any time.
- Comparison of paths in the watcher: an arbitrary function from text to key.
- Filtering of raw file system events before they reach the debouncer, and the printing and
  callback after it.
- Single-component mode, static files, gateway, schema and script requests, metrics, headers and
  response bodies: replies are named, not rendered. Scripts follow the platform route's protocol.
- The library route in `src/runtime/mod.rs` and `src/runtime/module_loader.rs`: they repeat the
  cache and admission logic.
- Fairness of scheduling: that a request which can step does step is not modelled; only that it can
  and that its steps are few.
- The positions in texts are characters, not bytes; the name length limit counts UTF-8 bytes.
- The cap of the breaker's table and its idle time: a key may be evicted at any time.
- RequestHandler.SharedState.HandleRequest: one request alone; the interleavings are in `Admission`, whose steps do not run the cache (`LookupProtocol` does).
- LookupProtocol.LookupsAreTransparent: does not say when a file read fails, which is decided outside; reading an artifact is one step, so a read that itself spans several writes is not modelled.
