/** Per-module semaphores, created on first use (`get_module_semaphore` in src/runtime/cache.rs). */
module Semaphores {
  import opened Wrappers

  class Semaphore {
    var available: nat

    constructor (permits: nat)
      ensures available == permits
    {
      available := permits;
    }

    method TryAcquire() returns (ok: bool)
      modifies this
      ensures ok <==> old(available) > 0
      ensures available == if ok then old(available) - 1 else 0
    {
      ok := available > 0;
      if ok {
        available := available - 1;
      }
    }

    method Release()
      modifies this
      ensures available == old(available) + 1
    {
      available := available + 1;
    }
  }

  /** Free permits by module, once this module has a semaphore. */
  function Ensured(permits: map<string, nat>, name: string, limit: nat): map<string, nat> {
    if name in permits then permits else permits[name := limit]
  }

  function AllEnsured(permits: map<string, nat>, names: seq<string>, limit: nat): map<string, nat> {
    if names == [] then permits
    else Ensured(AllEnsured(permits, names[..|names| - 1], limit), names[|names| - 1], limit)
  }

  /** Creating semaphores gives no permit back and takes none, and the order of creation does not matter. */
  lemma {:induction false} AllEnsuredMeaning(permits: map<string, nat>, names: seq<string>, limit: nat)
    ensures
      var after := AllEnsured(permits, names, limit);
      && (forall k :: k in after <==> k in permits || k in names)
      && (forall k :: k in after ==> after[k] == if k in permits then permits[k] else limit)
  {
    if names != [] {
      var front, last := names[..|names| - 1], names[|names| - 1];
      assert names == front + [last];
      AllEnsuredMeaning(permits, front, limit);
    }
  }

  class ModuleSemaphores {
    const maxPerModuleRequests: nat
    var table: map<string, Semaphore>

    constructor (limit: nat)
      ensures Valid() && maxPerModuleRequests == limit && table == map[]
    {
      maxPerModuleRequests := limit;
      table := map[];
    }

    /** No two modules share a semaphore. */
    ghost predicate Valid()
      reads this
    {
      forall k, k' :: k in table && k' in table && table[k] == table[k'] ==> k == k'
    }

    ghost function Permits(): map<string, nat>
      reads this, table.Values
    {
      map k | k in table :: table[k].available
    }

    method LockedGet(name: string) returns (sem: Option<Semaphore>)
      ensures sem == if name in table then Some(table[name]) else None
    {
      return if name in table then Some(table[name]) else None;
    }

    method LockedGetOrInsert(name: string) returns (sem: Semaphore)
      requires Valid()
      modifies this
      ensures Valid() && name in table && sem == table[name]
      ensures forall k :: k in old(table) ==> k in table && table[k] == old(table[k])
      ensures forall k :: k in table && k !in old(table) ==> fresh(table[k])
      ensures Permits() == Ensured(old(Permits()), name, maxPerModuleRequests)
    {
      if name in table {
        return table[name];
      }
      sem := new Semaphore(maxPerModuleRequests);
      table := table[name := sem];
    }

    /**
     Between the two lock sections other callers may create semaphores, this module's among
     them: `others` are the names they ask for.
     */
    method GetModuleSemaphore(name: string, others: seq<string>) returns (sem: Semaphore)
      requires Valid()
      modifies this
      ensures Valid() && name in table && sem == table[name]
      ensures forall k :: k in old(table) ==> k in table && table[k] == old(table[k])
      ensures forall k :: k in table && k !in old(table) ==> fresh(table[k])
      ensures Permits() == if name in old(table) then old(Permits())
                           else AllEnsured(old(Permits()), others + [name], maxPerModuleRequests)
    {
      var found := LockedGet(name);
      if found.Some? {
        return found.value;
      }
      var i := 0;
      while i < |others|
        invariant 0 <= i <= |others|
        invariant Valid()
        invariant forall k :: k in old(table) ==> k in table && table[k] == old(table[k])
        invariant forall k :: k in table && k !in old(table) ==> fresh(table[k])
        invariant Permits() == AllEnsured(old(Permits()), others[..i], maxPerModuleRequests)
      {
        var _ := LockedGetOrInsert(others[i]);
        assert others[..i + 1][..i] == others[..i];
        i := i + 1;
      }
      assert others[..i] == others && (others + [name])[..|others|] == others;
      sem := LockedGetOrInsert(name);
    }

    /** Get the semaphore of a module and try to take one of its permits. */
    method TryAcquireFor(name: string) returns (permit: Option<Semaphore>)
      requires Valid()
      modifies this, table.Values
      ensures Valid() && (permit.Some? ==> Holds(name, permit.value))
      ensures forall k :: k in table && k !in old(table) ==> fresh(table[k])
      ensures forall k :: k in old(table) ==> k in table && table[k] == old(table[k])
      ensures
        var ensured := Ensured(old(Permits()), name, maxPerModuleRequests);
        && (permit.Some? <==> ensured[name] > 0)
        && Permits() == if permit.Some? then ensured[name := ensured[name] - 1] else ensured
    {
      var sem := GetModuleSemaphore(name, []);
      assert ([] + [name])[..0] == [];
      assert Permits() == Ensured(old(Permits()), name, maxPerModuleRequests);
      var acquired := sem.TryAcquire();
      return if acquired then Some(sem) else None;
    }

    /** The permit comes from this module's semaphore. */
    predicate Holds(name: string, permit: Semaphore)
      reads this
    {
      name in table && table[name] == permit
    }

    /** Dropping a permit. */
    method Return(ghost name: string, permit: Semaphore)
      requires Valid() && Holds(name, permit)
      modifies permit
      ensures Permits() == old(Permits())[name := old(Permits())[name] + 1]
    {
      permit.Release();
    }
  }
}
