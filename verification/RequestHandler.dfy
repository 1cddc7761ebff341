/**
 One request to a module from breaker check to reply (`resolve_multi_module`,
 `resolve_multi_module_path` and the end of `handle_request_inner` in
 src/runtime/request_handler.rs), running alone.  Admission.dfy interleaves many.
 */
module RequestHandler {
  import opened Wrappers
  import opened ModulePath
  import opened Loading
  import opened KeyedRuns
  import opened CircuitBreaker
  import opened Semaphores
  import opened ModuleCache

  datatype Reply =
    | Blocked | Overloaded | LoadFailure
    | BadPath | BodyTooLarge | BodyUnreadable
    | Answered | ExecutionFailed

  datatype ModuleResolution<C> =
    | Resolved(component: C, moduleName: string, permit: Semaphore)
    | Response(reply: Reply)

  datatype BodyFate = Collected | OverLimit | Broken

  /** What is decided outside during one request. */
  datatype Conditions<!C> = Conditions(
    checkedAt: nat,
    recordedAt: nat,
    loading: LoadConditions,
    rewriteFails: bool,
    body: BodyFate,
    execute: C -> bool)

  /** The breaker operations of a request with this reply. */
  function Operations(m: ModulePath, reply: Reply, checkedAt: nat, recordedAt: nat): seq<Event> {
    [Event(CacheKey(m), Check, checkedAt)] +
    match reply
    case LoadFailure => [Event(CacheKey(m), Failure, recordedAt)]
    case Answered => [Event(HandlerName(m), Success, recordedAt)]
    case ExecutionFailed => [Event(HandlerName(m), Failure, recordedAt)]
    case _ => []
  }

  /** What requests share besides the cache: the breaker's table and the free permits of each module. */
  datatype View = View(states: map<string, CircuitState>, permits: map<string, nat>)

  /** Why a request is turned away before its module is loaded, if it is. */
  function Refusal(key: string, before: View, limit: nat, now: nat, c: Config): Option<Reply> {
    if !Admits(EntryAt(before.states, key), now, c) then Some(Blocked)
    else if Ensured(before.permits, key, limit)[key] == 0 then Some(Overloaded)
    else None
  }

  /** The outcome of resolving a module, and what it leaves behind. */
  ghost predicate ResolvesTo<C>(m: ModulePath, k: Conditions<C>, load: Result<C, LoadError>, limit: nat, c: Config,
                                before: View, r: ModuleResolution<C>, after: View)
  {
    var key := CacheKey(m);
    var ensured := Ensured(before.permits, key, limit);
    match r
    case Resolved(component, moduleName, _) =>
      && Refusal(key, before, limit, k.checkedAt, c).None?
      && load == Ok(component) && moduleName == HandlerName(m)
      && after == View(Apply(Step(c), before.states, Event(key, Check, k.checkedAt)), ensured[key := ensured[key] - 1])
    case Response(reply) =>
      && (if reply == LoadFailure
          then Refusal(key, before, limit, k.checkedAt, c).None? && load.Err?
          else Refusal(key, before, limit, k.checkedAt, c) == Some(reply))
      && after == View(Run(Step(c), before.states, Operations(m, reply, k.checkedAt, k.recordedAt)),
                       if reply == Blocked then before.permits else ensured)
  }

  lemma RunOfOne(step: KeyStep<CircuitState>, states: map<string, CircuitState>, e: Event)
    ensures Run(step, states, [e]) == Apply(step, states, e)
  {
    assert [e][..0] == [];
  }

  lemma RunOfTwo(step: KeyStep<CircuitState>, states: map<string, CircuitState>, e: Event, e': Event)
    ensures Run(step, states, [e] + [e']) == Apply(step, Apply(step, states, e), e')
  {
    RunOfOne(step, states, e);
    assert ([e] + [e'])[..1] == [e];
  }

  /** The view once a request for `key` has been admitted. */
  function AfterAdmission(key: string, v: View, limit: nat, now: nat, c: Config): View {
    var ensured := Ensured(v.permits, key, limit);
    View(Apply(Step(c), v.states, Event(key, Check, now)),
         if Refusal(key, v, limit, now, c).None? then ensured[key := ensured[key] - 1]
         else if Refusal(key, v, limit, now, c) == Some(Blocked) then v.permits
         else ensured)
  }

  lemma Refused<C>(m: ModulePath, k: Conditions<C>, load: Result<C, LoadError>, limit: nat, c: Config, before: View)
    requires Refusal(CacheKey(m), before, limit, k.checkedAt, c).Some?
    ensures
      var reply := Refusal(CacheKey(m), before, limit, k.checkedAt, c).value;
      ResolvesTo(m, k, load, limit, c, before, Response(reply),
                 AfterAdmission(CacheKey(m), before, limit, k.checkedAt, c))
  {
    var reply := Refusal(CacheKey(m), before, limit, k.checkedAt, c).value;
    var check := Event(CacheKey(m), Check, k.checkedAt);
    RunOfOne(Step(c), before.states, check);
    assert Operations(m, reply, k.checkedAt, k.recordedAt) == [check];
  }

  /** The view once an admitted request has blamed its key and dropped its permit. */
  function AfterFailedLoad(key: string, v: View, now: nat, c: Config): View
    requires key in v.permits
  {
    View(Apply(Step(c), v.states, Event(key, Failure, now)), v.permits[key := v.permits[key] + 1])
  }

  lemma LoadFails<C>(m: ModulePath, k: Conditions<C>, load: Result<C, LoadError>, limit: nat, c: Config, before: View)
    requires Refusal(CacheKey(m), before, limit, k.checkedAt, c).None? && load.Err?
    ensures
      var key := CacheKey(m);
      var admitted := AfterAdmission(key, before, limit, k.checkedAt, c);
      && key in admitted.permits
      && ResolvesTo(m, k, load, limit, c, before, Response(LoadFailure),
                    AfterFailedLoad(key, admitted, k.recordedAt, c))
  {
    RunOfTwo(Step(c), before.states, Event(CacheKey(m), Check, k.checkedAt), Event(CacheKey(m), Failure, k.recordedAt));
  }

  lemma Succeeds<C>(m: ModulePath, k: Conditions<C>, component: C, permit: Semaphore, limit: nat, c: Config,
                    before: View)
    requires Refusal(CacheKey(m), before, limit, k.checkedAt, c).None?
    ensures ResolvesTo(m, k, Ok(component), limit, c, before, Resolved(component, HandlerName(m), permit),
                       AfterAdmission(CacheKey(m), before, limit, k.checkedAt, c))
  {
  }

  /** How a request ends once its module is loaded. */
  function ReplyAfterLoad<C>(k: Conditions<C>, component: C): Reply {
    if k.rewriteFails then BadPath
    else match k.body
      case OverLimit => BodyTooLarge
      case Broken => BodyUnreadable
      case Collected => if k.execute(component) then Answered else ExecutionFailed
  }

  /** The one right reply: refused, or not loadable, or run on what the lookup returns. */
  function RightReply<C>(k: Conditions<C>, refusal: Option<Reply>, load: Result<C, LoadError>): Reply {
    match refusal
    case Some(why) => why
    case None => if load.Err? then LoadFailure else ReplyAfterLoad(k, load.value)
  }

  /** What a finished request leaves behind: its breaker operations, and every permit it took. */
  function AfterRequest(m: ModulePath, reply: Reply, v: View, limit: nat, checkedAt: nat, recordedAt: nat,
                        c: Config): View {
    View(Run(Step(c), v.states, Operations(m, reply, checkedAt, recordedAt)),
         if reply == Blocked then v.permits else Ensured(v.permits, CacheKey(m), limit))
  }

  /** Which reply a request gets, from the conditions it meets. */
  predicate RepliedAsMet<C>(k: Conditions<C>, passed: bool, free: nat, load: Result<C, LoadError>, reply: Reply) {
    && (reply == Blocked <==> !passed)
    && (reply == Overloaded <==> passed && free == 0)
    && (reply == LoadFailure <==> passed && free > 0 && load.Err?)
    && (passed && free > 0 && load.Ok? ==>
         && (reply == BadPath <==> k.rewriteFails)
         && (reply == BodyTooLarge <==> !k.rewriteFails && k.body == OverLimit)
         && (reply == BodyUnreadable <==> !k.rewriteFails && k.body == Broken)
         && (reply == Answered <==> !k.rewriteFails && k.body == Collected && k.execute(load.value))
         && (reply == ExecutionFailed <==> !k.rewriteFails && k.body == Collected && !k.execute(load.value)))
  }

  /** What the breaker hears after the check: how the execution ended, or that there was no module, or nothing. */
  ghost predicate RecordedAsReplied(m: ModulePath, reply: Reply, checked: map<string, CircuitState>,
                                    after: map<string, CircuitState>, recordedAt: nat, c: Config)
  {
    after ==
      if reply == Answered then Apply(Step(c), checked, Event(HandlerName(m), Success, recordedAt))
      else if reply == ExecutionFailed then Apply(Step(c), checked, Event(HandlerName(m), Failure, recordedAt))
      else if reply == LoadFailure then Apply(Step(c), checked, Event(CacheKey(m), Failure, recordedAt))
      else checked
  }

  lemma ReplyMeaning<C>(m: ModulePath, k: Conditions<C>, load: Result<C, LoadError>, limit: nat, c: Config, v: View)
    ensures
      var key := CacheKey(m);
      RepliedAsMet(k, Admits(EntryAt(v.states, key), k.checkedAt, c),
                   if key in v.permits then v.permits[key] else limit, load,
                   RightReply(k, Refusal(key, v, limit, k.checkedAt, c), load))
  {
  }

  lemma RecordMeaning(m: ModulePath, reply: Reply, states: map<string, CircuitState>, checkedAt: nat, recordedAt: nat,
                      c: Config)
    ensures RecordedAsReplied(m, reply, Apply(Step(c), states, Event(CacheKey(m), Check, checkedAt)),
                              Run(Step(c), states, Operations(m, reply, checkedAt, recordedAt)), recordedAt, c)
  {
    var check := Event(CacheKey(m), Check, checkedAt);
    if reply == Answered {
      RunOfTwo(Step(c), states, check, Event(HandlerName(m), Success, recordedAt));
    } else if reply == ExecutionFailed {
      RunOfTwo(Step(c), states, check, Event(HandlerName(m), Failure, recordedAt));
    } else if reply == LoadFailure {
      RunOfTwo(Step(c), states, check, Event(CacheKey(m), Failure, recordedAt));
    } else {
      RunOfOne(Step(c), states, check);
      assert [check] + [] == [check];
    }
  }

  /** The reply and the aftermath of a request, in these terms. */
  lemma RequestMeaning<C>(m: ModulePath, k: Conditions<C>, load: Result<C, LoadError>, limit: nat, c: Config, v: View)
    ensures
      var key, reply := CacheKey(m), RightReply(k, Refusal(CacheKey(m), v, limit, k.checkedAt, c), load);
      var after := AfterRequest(m, reply, v, limit, k.checkedAt, k.recordedAt, c);
      var passed := Admits(EntryAt(v.states, key), k.checkedAt, c);
      && RepliedAsMet(k, passed, if key in v.permits then v.permits[key] else limit, load, reply)
      && RecordedAsReplied(m, reply, Apply(Step(c), v.states, Event(key, Check, k.checkedAt)), after.states,
                           k.recordedAt, c)
      && after.permits == if !passed || key in v.permits then v.permits else v.permits[key := limit]
  {
    ReplyMeaning(m, k, load, limit, c, v);
    var reply := RightReply(k, Refusal(CacheKey(m), v, limit, k.checkedAt, c), load);
    RecordMeaning(m, reply, v.states, k.checkedAt, k.recordedAt, c);
  }

  lemma FinishedAsPromised<C>(m: ModulePath, k: Conditions<C>, reply: Reply, limit: nat, c: Config, before: View,
                              resolved: View, after: View)
    requires Refusal(CacheKey(m), before, limit, k.checkedAt, c).None?
    requires resolved == AfterAdmission(CacheKey(m), before, limit, k.checkedAt, c)
    requires reply in {BadPath, BodyTooLarge, BodyUnreadable, Answered, ExecutionFailed}
    requires CacheKey(m) in resolved.permits
    requires after.permits == resolved.permits[CacheKey(m) := resolved.permits[CacheKey(m)] + 1]
    requires after.states ==
      match reply
      case Answered => Apply(Step(c), resolved.states, Event(HandlerName(m), Success, k.recordedAt))
      case ExecutionFailed => Apply(Step(c), resolved.states, Event(HandlerName(m), Failure, k.recordedAt))
      case _ => resolved.states
    ensures after == AfterRequest(m, reply, before, limit, k.checkedAt, k.recordedAt, c)
  {
    var check := Event(CacheKey(m), Check, k.checkedAt);
    RunOfOne(Step(c), before.states, check);
    assert [check] + [] == [check];
    RunOfTwo(Step(c), before.states, check, Event(HandlerName(m), Success, k.recordedAt));
    RunOfTwo(Step(c), before.states, check, Event(HandlerName(m), Failure, k.recordedAt));
  }

  class SharedState<C(==,!new)> {
    const cache: ModuleCache<C>
    const circuitBreaker: CircuitBreaker
    const semaphores: ModuleSemaphores

    constructor (cache: ModuleCache<C>, circuitBreaker: CircuitBreaker, semaphores: ModuleSemaphores)
      ensures this.cache == cache && this.circuitBreaker == circuitBreaker && this.semaphores == semaphores
    {
      this.cache := cache;
      this.circuitBreaker := circuitBreaker;
      this.semaphores := semaphores;
    }

    ghost predicate Valid()
      reads cache, cache.aotCache, semaphores
    {
      cache.Valid() && semaphores.Valid()
    }

    /** The entry test of every request: the circuit breaker, then a permit. */
    method Admit(key: string, now: nat) returns (r: Result<Semaphore, Reply>)
      requires semaphores.Valid()
      modifies circuitBreaker, semaphores, semaphores.table.Values
      ensures semaphores.Valid() && (r.Ok? ==> semaphores.Holds(key, r.value))
      ensures r.Ok? ==> r.value in old(semaphores.table.Values) || fresh(r.value)
      ensures
        var refusal := Refusal(key, old(Now()), semaphores.maxPerModuleRequests, now, circuitBreaker.config);
        if refusal.Some? then r == Err(refusal.value) else r.Ok?
      ensures Now() == AfterAdmission(key, old(Now()), semaphores.maxPerModuleRequests, now, circuitBreaker.config)
    {
      var check := circuitBreaker.CheckRequest(key, now);
      if check.Err? {
        return Err(Blocked);
      }
      var permit := semaphores.TryAcquireFor(key);
      return if permit.Some? then Ok(permit.value) else Err(Overloaded);
    }

    /** A failed load: blame the key, drop the permit. */
    method FailLoad(key: string, permit: Semaphore, now: nat)
      requires semaphores.Valid() && semaphores.Holds(key, permit)
      modifies circuitBreaker, permit
      ensures key in old(Now()).permits
      ensures Now() == AfterFailedLoad(key, old(Now()), now, circuitBreaker.config)
    {
      circuitBreaker.RecordFailure(key, now);
      semaphores.Return(key, permit);
    }

    /** The end of resolving, once the permit is held and the load has ended. */
    method Conclude(m: ModulePath, k: Conditions<C>, loaded: Result<C, LoadError>, permit: Semaphore,
                    ghost load: Result<C, LoadError>, ghost before: View) returns (r: ModuleResolution<C>)
      requires semaphores.Valid() && semaphores.Holds(CacheKey(m), permit)
      requires
        var limit, c := semaphores.maxPerModuleRequests, circuitBreaker.config;
        && Refusal(CacheKey(m), before, limit, k.checkedAt, c).None?
        && Now() == AfterAdmission(CacheKey(m), before, limit, k.checkedAt, c)
      requires if loaded.Ok? then load == loaded else load.Err?
      modifies circuitBreaker, permit
      ensures r.Resolved? ==> r.permit == permit
      ensures ResolvesTo(m, k, load, semaphores.maxPerModuleRequests, circuitBreaker.config, before, r, Now())
    {
      ghost var limit, c := semaphores.maxPerModuleRequests, circuitBreaker.config;
      if loaded.Err? {
        LoadFails(m, k, load, limit, c, before);
        FailLoad(CacheKey(m), permit, k.recordedAt);
        return Response(LoadFailure);
      }
      Succeeds(m, k, loaded.value, permit, limit, c, before);
      return Resolved(loaded.value, HandlerName(m), permit);
    }

    ghost function RefusalNow(key: string, now: nat): Option<Reply>
      reads circuitBreaker, semaphores, semaphores.table.Values
    {
      Refusal(key, Now(), semaphores.maxPerModuleRequests, now, circuitBreaker.config)
    }

    ghost function Now(): View
      reads circuitBreaker, semaphores, semaphores.table.Values
    {
      View(circuitBreaker.states, semaphores.Permits())
    }

    method ResolveMultiModule(name: string, k: Conditions<C>) returns (r: ModuleResolution<C>)
      requires Valid() && ListsAnything(k.loading.statsScan) && ListsAnything(k.loading.scan)
      modifies cache, cache.aotCache, circuitBreaker, semaphores, semaphores.table.Values
      ensures Valid() && (r.Resolved? ==> semaphores.Holds(name, r.permit))
      ensures r.Resolved? ==> r.permit in old(semaphores.table.Values) || fresh(r.permit)
      ensures ResolvesTo(Platform(name), k, old(cache.Promised(Platform(name), k.loading.readFails)),
                         semaphores.maxPerModuleRequests, circuitBreaker.config, old(Now()), r, Now())
      ensures
        var refused := old(RefusalNow(name, k.checkedAt)).Some?;
        var load := old(cache.Promised(Platform(name), k.loading.readFails));
        && cache.cache == (if refused || load.Err? then old(cache.cache) else old(cache.cache)[name := load.value])
        && cache.aotCache.dir ==
             (if refused then old(cache.aotCache.dir) else old(cache.DirAfter(Platform(name), k.loading)))
    {
      ghost var limit, c := semaphores.maxPerModuleRequests, circuitBreaker.config;
      ghost var before, load := Now(), cache.Promised(Platform(name), k.loading.readFails);
      var permit := Admit(name, k.checkedAt);
      if permit.Err? {
        Refused(Platform(name), k, load, limit, c, before);
        return Response(permit.error);
      }
      var loaded := cache.GetOrLoad(name, k.loading);
      r := Conclude(Platform(name), k, loaded, permit.value, load, before);
    }

    method ResolveMultiModulePath(m: ModulePath, k: Conditions<C>) returns (r: ModuleResolution<C>)
      requires Valid() && ListsAnything(k.loading.statsScan) && ListsAnything(k.loading.scan)
      modifies cache, cache.aotCache, circuitBreaker, semaphores, semaphores.table.Values
      ensures Valid() && (r.Resolved? ==> semaphores.Holds(CacheKey(m), r.permit))
      ensures r.Resolved? ==> r.permit in old(semaphores.table.Values) || fresh(r.permit)
      ensures ResolvesTo(m, k, old(cache.Promised(m, k.loading.readFails)), semaphores.maxPerModuleRequests,
                         circuitBreaker.config, old(Now()), r, Now())
      ensures
        var refused := old(RefusalNow(CacheKey(m), k.checkedAt)).Some?;
        var load := old(cache.Promised(m, k.loading.readFails));
        && cache.cache ==
             (if refused || load.Err? then old(cache.cache) else old(cache.cache)[CacheKey(m) := load.value])
        && cache.aotCache.dir == (if refused then old(cache.aotCache.dir) else old(cache.DirAfter(m, k.loading)))
    {
      var cacheKey := CacheKey(m);
      ghost var limit, c := semaphores.maxPerModuleRequests, circuitBreaker.config;
      ghost var before, load := Now(), cache.Promised(m, k.loading.readFails);
      var permit := Admit(cacheKey, k.checkedAt);
      if permit.Err? {
        Refused(m, k, load, limit, c, before);
        return Response(permit.error);
      }
      var loaded := cache.GetOrLoadModulePath(m, k.loading);
      r := Conclude(m, k, loaded, permit.value, load, before);
    }

    /** Platform routes resolve by name, tenant routes by path. */
    method Resolve(m: ModulePath, k: Conditions<C>) returns (r: ModuleResolution<C>)
      requires Valid() && ListsAnything(k.loading.statsScan) && ListsAnything(k.loading.scan)
      modifies cache, cache.aotCache, circuitBreaker, semaphores, semaphores.table.Values
      ensures Valid() && (r.Resolved? ==> semaphores.Holds(CacheKey(m), r.permit))
      ensures r.Resolved? ==> r.permit in old(semaphores.table.Values) || fresh(r.permit)
      ensures ResolvesTo(m, k, old(cache.Promised(m, k.loading.readFails)), semaphores.maxPerModuleRequests,
                         circuitBreaker.config, old(Now()), r, Now())
      ensures
        var refused := old(RefusalNow(CacheKey(m), k.checkedAt)).Some?;
        var load := old(cache.Promised(m, k.loading.readFails));
        && cache.cache ==
             (if refused || load.Err? then old(cache.cache) else old(cache.cache)[CacheKey(m) := load.value])
        && cache.aotCache.dir == (if refused then old(cache.aotCache.dir) else old(cache.DirAfter(m, k.loading)))
    {
      match m
      case Platform(name) => r := ResolveMultiModule(name, k);
      case Tenant(_, _) => r := ResolveMultiModulePath(m, k);
    }

    /** After resolving: rewrite the path, collect the body, execute and record; the permit is held until the end. */
    method Serve(m: ModulePath, k: Conditions<C>, component: C, moduleName: string, permit: Semaphore,
                 ghost before: View)
      returns (reply: Reply)
      requires semaphores.Valid() && semaphores.Holds(CacheKey(m), permit) && moduleName == HandlerName(m)
      requires
        var limit, c := semaphores.maxPerModuleRequests, circuitBreaker.config;
        && Refusal(CacheKey(m), before, limit, k.checkedAt, c).None?
        && Now() == AfterAdmission(CacheKey(m), before, limit, k.checkedAt, c)
      modifies circuitBreaker, permit
      ensures reply == ReplyAfterLoad(k, component)
      ensures Now() == AfterRequest(m, reply, before, semaphores.maxPerModuleRequests, k.checkedAt, k.recordedAt,
                                    circuitBreaker.config)
    {
      ghost var limit, c, resolved := semaphores.maxPerModuleRequests, circuitBreaker.config, Now();
      if k.rewriteFails {
        reply := BadPath;
      } else if k.body == OverLimit {
        reply := BodyTooLarge;
      } else if k.body == Broken {
        reply := BodyUnreadable;
      } else if k.execute(component) {
        circuitBreaker.RecordSuccess(moduleName, k.recordedAt);
        reply := Answered;
      } else {
        circuitBreaker.RecordFailure(moduleName, k.recordedAt);
        reply := ExecutionFailed;
      }
      semaphores.Return(CacheKey(m), permit);
      FinishedAsPromised(m, k, reply, limit, c, before, resolved, Now());
    }

    /** A request from breaker check to reply. */
    method HandleRequest(m: ModulePath, k: Conditions<C>) returns (reply: Reply)
      requires Valid() && ListsAnything(k.loading.statsScan) && ListsAnything(k.loading.scan)
      modifies cache, cache.aotCache, circuitBreaker, semaphores, semaphores.table.Values
      ensures Valid()
      ensures
        var v, key, c := old(Now()), CacheKey(m), circuitBreaker.config;
        var passed := Admits(EntryAt(v.states, key), k.checkedAt, c);
        var free := if key in v.permits then v.permits[key] else semaphores.maxPerModuleRequests;
        && RepliedAsMet(k, passed, free, old(cache.Promised(m, k.loading.readFails)), reply)
        && RecordedAsReplied(m, reply, Apply(Step(c), v.states, Event(key, Check, k.checkedAt)),
                             circuitBreaker.states, k.recordedAt, c)
        && semaphores.Permits() == if !passed || key in v.permits then v.permits
                                   else v.permits[key := semaphores.maxPerModuleRequests]
      ensures
        var load := old(cache.Promised(m, k.loading.readFails));
        var loaded := reply != Blocked && reply != Overloaded;
        && cache.cache == (if loaded && load.Ok? then old(cache.cache)[CacheKey(m) := load.value] else old(cache.cache))
        && cache.aotCache.dir == (if loaded then old(cache.DirAfter(m, k.loading)) else old(cache.aotCache.dir))
    {
      RequestMeaning(m, k, cache.Promised(m, k.loading.readFails), semaphores.maxPerModuleRequests,
                     circuitBreaker.config, Now());
      reply := ResolveAndServe(m, k);
    }

    /** The same, told by the functions above. */
    method ResolveAndServe(m: ModulePath, k: Conditions<C>) returns (reply: Reply)
      requires Valid() && ListsAnything(k.loading.statsScan) && ListsAnything(k.loading.scan)
      modifies cache, cache.aotCache, circuitBreaker, semaphores, semaphores.table.Values
      ensures Valid()
      ensures reply == RightReply(k, old(RefusalNow(CacheKey(m), k.checkedAt)),
                                  old(cache.Promised(m, k.loading.readFails)))
      ensures Now() == AfterRequest(m, reply, old(Now()), semaphores.maxPerModuleRequests, k.checkedAt, k.recordedAt,
                                    circuitBreaker.config)
      ensures
        var refused := old(RefusalNow(CacheKey(m), k.checkedAt)).Some?;
        var load := old(cache.Promised(m, k.loading.readFails));
        && cache.cache ==
             (if refused || load.Err? then old(cache.cache) else old(cache.cache)[CacheKey(m) := load.value])
        && cache.aotCache.dir == (if refused then old(cache.aotCache.dir) else old(cache.DirAfter(m, k.loading)))
    {
      var r := Resolve(m, k);
      match r {
        case Response(why) => reply := why;
        case Resolved(component, moduleName, permit) =>
          reply := Serve(m, k, component, moduleName, permit, old(Now()));
      }
    }
  }
}
