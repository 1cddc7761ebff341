/** What LRU cleanup guarantees, stated on directories (src/runtime/aot_cache.rs, `cleanup` and `maybe_cleanup`). */
module CleanupLaws {
  import opened Directory
  import opened Entries
  import opened AotCache

  ghost function StopPoint(dir: Dir, scan: Scan, limit: nat): (stop: nat)
    requires Lists(scan, dir)
    ensures stop <= |LruOrder(dir, scan)|
  {
    StopFrom(dir, LruOrder(dir, scan), scan.undeletable, limit, 0)
  }

  lemma EntryAt(s: seq<CacheEntry>, dir: Dir, n: string) returns (i: nat)
    requires Describes(s, dir) && n in Paths(s)
    ensures i < |s| && s[i].path == n && s[i] == EntryOf(dir, n)
  {
    var e :| e in s && e.path == n;
    i :| 0 <= i < |s| && s[i] == e;
  }

  /** Cleanup ends under the limit, or with nothing left but files it could not delete. */
  lemma CleanupReachesLimit(dir: Dir, scan: Scan, limit: nat)
    requires Lists(scan, dir)
    ensures
      var after := Cleaned(dir, scan, limit);
      && (VisibleSize(after, scan.unreadable) <= limit || Visible(after, scan.unreadable) <= scan.undeletable)
      && (Visible(dir, scan.unreadable) !! scan.undeletable ==> VisibleSize(after, scan.unreadable) <= limit)
  {
    CleanedVisible(dir, scan, limit);
    var s := LruOrder(dir, scan);
    var after := Cleaned(dir, scan, limit);
    if StopPoint(dir, scan, limit) == |s| {
      assert s[..|s|] == s;
      if Visible(dir, scan.unreadable) !! scan.undeletable {
        assert Visible(after, scan.unreadable) == {};
      }
    }
  }

  // ---- LRU ----

  /** `a` was used before `b`, or at the same time and is listed before it. */
  ghost predicate LessRecent(dir: Dir, order: seq<string>, a: string, b: string)
    requires a in dir && b in dir
  {
    dir[a].accessed < dir[b].accessed || (dir[a].accessed == dir[b].accessed && Before(order, a, b))
  }

  lemma {:induction false} CollectKeepsOrder(dir: Dir, order: seq<string>, unreadable: set<string>, x: CacheEntry,
                                             y: CacheEntry)
    requires forall n :: n in order ==> n in dir
    requires Before(Collect(dir, order, unreadable), x, y)
    ensures Before(order, x.path, y.path)
  {
    var entries := Collect(dir, order, unreadable);
    var a, b :| 0 <= a < b < |entries| && entries[a] == x && entries[b] == y;
    var front, n := order[..|order| - 1], order[|order| - 1];
    var rest := Collect(dir, front, unreadable);
    assert order == front + [n];
    BeforeExtends(front, x.path, y.path, n);
    if b < |rest| {
      assert rest[a] == x && rest[b] == y;
      CollectKeepsOrder(dir, front, unreadable, x, y);
    } else {
      assert x == rest[a] && x in rest;
      CollectMembers(dir, front, unreadable, x);
    }
  }

  lemma {:induction false} CollectMembers(dir: Dir, order: seq<string>, unreadable: set<string>, x: CacheEntry)
    requires forall n :: n in order ==> n in dir
    requires x in Collect(dir, order, unreadable)
    ensures x.path in order
  {
    var front, n := order[..|order| - 1], order[|order| - 1];
    assert order == front + [n];
    if x in Collect(dir, front, unreadable) {
      CollectMembers(dir, front, unreadable, x);
    }
  }

  lemma SortedLessRecent(dir: Dir, scan: Scan, i: nat, j: nat)
    requires Lists(scan, dir) && i < j < |LruOrder(dir, scan)|
    ensures
      var s := LruOrder(dir, scan);
      && s[i].path in dir && s[j].path in dir
      && LessRecent(dir, scan.order, s[i].path, s[j].path)
  {
    var s := LruOrder(dir, scan);
    var collected := Collect(dir, scan.order, scan.unreadable);
    assert s[i] in s && s[j] in s;
    assert Precedes(s[i], s[j], collected);
    if s[i].accessed == s[j].accessed {
      CollectKeepsOrder(dir, scan.order, scan.unreadable, s[i], s[j]);
    }
  }

  /** Whatever deletions fail: a removed file is less recent than every survivor that could have been deleted. */
  lemma CleanupIsLru(dir: Dir, scan: Scan, limit: nat, a: string, b: string)
    requires Lists(scan, dir)
    requires a in Removed(dir, scan, limit)
    requires b in Visible(Cleaned(dir, scan, limit), scan.unreadable) && b !in scan.undeletable
    ensures a in dir && b in dir && LessRecent(dir, scan.order, a, b)
  {
    CleanedVisible(dir, scan, limit);
    var s := LruOrder(dir, scan);
    var stop := StopPoint(dir, scan, limit);
    var i := EntryAt(s, dir, a);
    var j := EntryAt(s, dir, b);
    assert i < stop by {
      var e :| e in s[..stop] && e.path == a;
      assert e in s;
    }
    assert forall k :: 0 <= k < stop ==> s[k] in s[..stop];
    SortedLessRecent(dir, scan, i, j);
  }

  lemma EarlierIsLessRecent(dir: Dir, scan: Scan, m: nat, a: string)
    requires Lists(scan, dir) && m < |LruOrder(dir, scan)| && a in Paths(LruOrder(dir, scan)[..m])
    ensures
      var s := LruOrder(dir, scan);
      a in dir && s[m].path in dir && LessRecent(dir, scan.order, a, s[m].path)
  {
    var s := LruOrder(dir, scan);
    var e :| e in s[..m] && e.path == a;
    var i :| 0 <= i < m && s[..m][i] == e;
    SortedLessRecent(dir, scan, i, m);
  }

  /** Whatever deletions fail: keeping the most recent of the removed files would leave the limit exceeded. */
  lemma CleanupIsMinimal(dir: Dir, scan: Scan, limit: nat) returns (last: string)
    requires Lists(scan, dir) && Removed(dir, scan, limit) != {}
    ensures last in Removed(dir, scan, limit) && Removed(dir, scan, limit) <= dir.Keys
    ensures forall a :: a in Removed(dir, scan, limit) && a != last ==> LessRecent(dir, scan.order, a, last)
    ensures SizeOf(dir, Visible(Cleaned(dir, scan, limit), scan.unreadable) + {last}) > limit
  {
    CleanedVisible(dir, scan, limit);
    var s := LruOrder(dir, scan);
    var stop := StopPoint(dir, scan, limit);
    var m := LastDeleted(dir, s, scan.undeletable, stop);
    last := s[m].path;
    RemainingStep(dir, s, scan.undeletable, m);
    assert s[m] in s;
    assert Remaining(dir, s, scan.undeletable, m) > limit;
    assert Paths(s) - Deleted(s, scan.undeletable, m)
        == Visible(Cleaned(dir, scan, limit), scan.unreadable) + {last};
    forall a | a in Removed(dir, scan, limit) && a != last
      ensures LessRecent(dir, scan.order, a, last)
    {
      EarlierIsLessRecent(dir, scan, m, a);
    }
  }

  /** The last of the first `stop` entries that could be deleted: none was deleted after it. */
  lemma {:induction false} LastDeleted(dir: Dir, s: seq<CacheEntry>, undeletable: set<string>, stop: nat)
    returns (m: nat)
    requires Describes(s, dir) && stop <= |s| && Deleted(s, undeletable, stop) != {}
    ensures m < stop && s[m].path !in undeletable
    ensures Deleted(s, undeletable, stop) == Deleted(s, undeletable, m) + {s[m].path}
  {
    assert Deleted(s, undeletable, 0) == {};
    RemainingStep(dir, s, undeletable, stop - 1);
    if s[stop - 1].path in undeletable {
      m := LastDeleted(dir, s, undeletable, stop - 1);
    } else {
      m := stop - 1;
    }
  }

  // ---- Fresh artifacts ----

  lemma {:induction false} RemainingFalls(dir: Dir, s: seq<CacheEntry>, undeletable: set<string>, i: nat, j: nat)
    requires Describes(s, dir) && i <= j <= |s|
    ensures Remaining(dir, s, undeletable, j) <= Remaining(dir, s, undeletable, i)
    decreases j
  {
    if i < j {
      RemainingFalls(dir, s, undeletable, i, j - 1);
      RemainingStep(dir, s, undeletable, j - 1);
    }
  }

  lemma ButLast(s: seq<CacheEntry>, dir: Dir)
    requires Describes(s, dir) && s != []
    ensures Paths(s[..|s| - 1]) == Paths(s) - {s[|s| - 1].path}
  {
    var n := |s| - 1;
    assert s == s[..n] + [s[n]];
    assert Paths(s) == Paths(s[..n]) + {s[n].path};
    assert s[n].path !in Paths(s[..n]);
  }

  lemma LastIsMostRecent(dir: Dir, scan: Scan, x: string)
    requires Lists(scan, dir) && x in Visible(dir, scan.unreadable)
    requires forall n :: n in Visible(dir, scan.unreadable) && n != x ==> dir[n].accessed < dir[x].accessed
    ensures
      var s := LruOrder(dir, scan);
      s != [] && s[|s| - 1].path == x && Paths(s[..|s| - 1]) == Visible(dir, scan.unreadable) - {x}
  {
    var s := LruOrder(dir, scan);
    var i := EntryAt(s, dir, x);
    assert s[|s| - 1] in s && s[|s| - 1].path in Paths(s);
    if i < |s| - 1 {
      SortedLessRecent(dir, scan, i, |s| - 1);
    }
    ButLast(s, dir);
  }

  /** What is still held when only the last entry has not been tried. */
  lemma HeldBeforeLast(dir: Dir, s: seq<CacheEntry>, undeletable: set<string>, x: string)
    requires Describes(s, dir) && s != [] && Paths(s[..|s| - 1]) == Paths(s) - {x} && x in Paths(s)
    ensures Paths(s) <= dir.Keys
    ensures Remaining(dir, s, undeletable, |s| - 1) == dir[x].Size() + SizeOf(dir, (Paths(s) - {x}) * undeletable)
  {
    var stuck := (Paths(s) - {x}) * undeletable;
    assert Paths(s) - Deleted(s, undeletable, |s| - 1) == stuck + {x};
    SizeOfRemove(dir, stuck + {x}, x);
    assert stuck + {x} - {x} == stuck;
  }

  /**
   The most recently used file survives a cleanup exactly when it cannot be deleted, or fits
   under the limit together with the other files that cannot be.
   */
  lemma FreshSurvivesIff(dir: Dir, scan: Scan, limit: nat, x: string)
    requires Lists(scan, dir) && x in Visible(dir, scan.unreadable)
    requires forall n :: n in Visible(dir, scan.unreadable) && n != x ==> dir[n].accessed < dir[x].accessed
    ensures
      var stuck := (Visible(dir, scan.unreadable) - {x}) * scan.undeletable;
      x in Cleaned(dir, scan, limit) <==>
        x in scan.undeletable || dir[x].Size() + SizeOf(dir, stuck) <= limit
  {
    LastIsMostRecent(dir, scan, x);
    var s := LruOrder(dir, scan);
    var last := |s| - 1;
    var stop := StopPoint(dir, scan, limit);
    HeldBeforeLast(dir, s, scan.undeletable, x);
    assert s[last] in s;
    if stop <= last {
      RemainingFalls(dir, s, scan.undeletable, stop, last);
      assert x !in Paths(s[..stop]);
    } else {
      assert s[..stop] == s;
    }
  }

  // ---- The guard ----

  lemma NothingToClean(dir: Dir, scan: Scan, limit: nat)
    requires Lists(scan, dir) && VisibleSize(dir, scan.unreadable) <= limit
    ensures Cleaned(dir, scan, limit) == dir
  {
    var s := LruOrder(dir, scan);
    assert Deleted(s, scan.undeletable, 0) == {};
    assert Paths(s) - {} == Paths(s);
    assert StopFrom(dir, s, scan.undeletable, limit, 0) == 0;
  }

  /** Testing the size first never changes the outcome of a cleanup. */
  lemma GuardIsHarmless(dir: Dir, statsScan: Scan, scan: Scan, limit: nat)
    requires Lists(statsScan, dir) && Lists(scan, dir)
    requires statsScan.errorAt.None? && scan.errorAt.None? && statsScan.unreadable == scan.unreadable
    ensures MaybeCleaned(dir, statsScan, scan, limit) == Cleaned(dir, scan, limit)
  {
    if VisibleSize(dir, statsScan.unreadable) <= limit {
      NothingToClean(dir, scan, limit);
    }
  }

  /** A second cleanup, whatever order it lists the files in, changes nothing. */
  lemma CleanupIsIdempotent(dir: Dir, scan: Scan, again: Scan, limit: nat)
    requires Lists(scan, dir) && Lists(again, Cleaned(dir, scan, limit))
    requires again.unreadable == scan.unreadable && again.undeletable == scan.undeletable
    ensures Cleaned(Cleaned(dir, scan, limit), again, limit) == Cleaned(dir, scan, limit)
  {
    var after := Cleaned(dir, scan, limit);
    CleanupReachesLimit(dir, scan, limit);
    if VisibleSize(after, scan.unreadable) <= limit {
      NothingToClean(after, again, limit);
    } else {
      CleanedVisible(after, again, limit);
      assert Removed(after, again, limit) == {};
    }
  }

  // ---- Put and clear ----

  /** A successful put leaves the store under its limit, if every file can be read and deleted. */
  lemma PutKeepsLimit(dir: Dir, key: string, compiled: Bytes, now: nat, statsScan: Scan, scan: Scan, limit: nat)
    requires var after := Published(dir, key, compiled, now); Lists(statsScan, after) && Lists(scan, after)
    requires statsScan.errorAt.None? && scan.errorAt.None?
    requires statsScan.unreadable == scan.unreadable && scan.undeletable == {}
    ensures
      var after := MaybeCleaned(Published(dir, key, compiled, now), statsScan, scan, limit);
      VisibleSize(after, scan.unreadable) <= limit
  {
    GuardIsHarmless(Published(dir, key, compiled, now), statsScan, scan, limit);
    CleanupReachesLimit(Published(dir, key, compiled, now), scan, limit);
  }

  /**
   An artifact stored later than every other was used is there after its own put, whole,
   exactly when it fits beside what cannot be deleted; in particular when it fits and everything can be.
   */
  lemma PutKeepsFresh(dir: Dir, key: string, compiled: Bytes, now: nat, statsScan: Scan, scan: Scan, limit: nat)
    requires var after := Published(dir, key, compiled, now); Lists(statsScan, after) && Lists(scan, after)
    requires key != "" && statsScan.errorAt.None? && scan.errorAt.None?
    requires statsScan.unreadable == scan.unreadable && ArtifactName(key) !in scan.unreadable
    requires forall n :: n in dir && IsArtifact(n) && n != ArtifactName(key) ==> dir[n].accessed < now
    ensures
      var name, after := ArtifactName(key), Published(dir, key, compiled, now);
      var kept := MaybeCleaned(after, statsScan, scan, limit);
      var stuck := (Visible(after, scan.unreadable) - {name}) * scan.undeletable;
      && (name in kept <==> name in scan.undeletable || |compiled| + SizeOf(after, stuck) <= limit)
      && (name in kept ==> kept[name].content == compiled)
      && (scan.undeletable == {} && |compiled| <= limit ==> name in kept)
  {
    var after := Published(dir, key, compiled, now);
    var name := ArtifactName(key);
    ArtifactNames(key, key);
    GuardIsHarmless(after, statsScan, scan, limit);
    FreshSurvivesIff(after, scan, limit, name);
    if scan.undeletable == {} {
      assert (Visible(after, scan.unreadable) - {name}) * scan.undeletable == {};
    }
  }

  /** Cleanup touches artifacts only: temp files and foreign files stay as they are. */
  lemma CleanupSparesOthers(dir: Dir, scan: Scan, limit: nat, n: string)
    requires Lists(scan, dir) && n in dir && !IsArtifact(n)
    ensures n in Cleaned(dir, scan, limit) && Cleaned(dir, scan, limit)[n] == dir[n]
  {
    CleanedVisible(dir, scan, limit);
  }

  /** A temp file makes no difference to any count, size or lookup. */
  lemma TempFilesAreInvisible(dir: Dir, key: string, temp: File, unreadable: set<string>)
    requires TempName(key) !in dir
    ensures
      var with := dir[TempName(key) := temp];
      && Visible(with, unreadable) == Visible(dir, unreadable)
      && VisibleSize(with, unreadable) == VisibleSize(dir, unreadable)
      && forall k: string :: ArtifactName(k) in with <==> ArtifactName(k) in dir
  {
    ArtifactNames(key, key);
    forall k: string ensures ArtifactName(k) != TempName(key) { ArtifactNames(k, key); }
    SizeOfFrame(dir, dir[TempName(key) := temp], Visible(dir, unreadable));
  }

  /** Clearing deletes exactly the artifacts that it reaches, can examine and can delete, and no other file. */
  lemma ClearedIff(dir: Dir, scan: Scan, i: nat, n: string)
    requires Lists(scan, dir) && i <= |scan.order|
    ensures n in Clearable(scan, i) <==>
              n in scan.order[..i] && IsArtifact(n) && n !in scan.unreadable && n !in scan.undeletable
    ensures n in dir - Clearable(scan, |scan.order|) <==>
              n in dir && !(IsArtifact(n) && n !in scan.unreadable && n !in scan.undeletable)
  {
    assert scan.order[..|scan.order|] == scan.order;
  }

  /** The size that a full clear reports, zero, is the size left exactly when the files it failed on are empty. */
  lemma ClearReportIsTrueIff(dir: Dir, scan: Scan)
    requires Lists(scan, dir)
    ensures
      var after := dir - Clearable(scan, |scan.order|);
      VisibleSize(after, scan.unreadable) == 0 <==>
        SizeOf(dir, Visible(dir, scan.unreadable) * scan.undeletable) == 0
  {
    var after := dir - Clearable(scan, |scan.order|);
    assert scan.order[..|scan.order|] == scan.order;
    assert Visible(after, scan.unreadable) == Visible(dir, scan.unreadable) * scan.undeletable;
    SizeOfFrame(dir, after, Visible(after, scan.unreadable));
  }
}
