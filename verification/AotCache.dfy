/**
 The content-addressed store of compiled artifacts with LRU cleanup (src/runtime/aot_cache.rs).

 What the operating system decides is a parameter: the order in which a directory is listed,
 where a listing breaks off, which files cannot be examined and which cannot be deleted.
 */
module AotCache {
  import opened Wrappers
  import opened Directory
  import opened Entries

  datatype CacheStats = CacheStats(entryCount: nat, totalSizeBytes: nat, maxSizeBytes: nat)

  datatype CleanupStats = CleanupStats(entriesRemoved: nat, bytesFreed: nat, currentSizeBytes: nat)

  /** One pass over the directory: listing order, place of an I/O error, and the files that resist. */
  datatype Scan = Scan(order: seq<string>, errorAt: Option<nat>, unreadable: set<string>, undeletable: set<string>)

  /** The pass goes over the files of this directory, each once. */
  ghost predicate Lists(scan: Scan, dir: Dir) {
    && Distinct(scan.order)
    && (forall n :: n in scan.order <==> n in dir)
    && (scan.errorAt.Some? ==> scan.errorAt.value <= |scan.order|)
  }

  /** The files that a pass counts. */
  ghost function Visible(dir: Dir, unreadable: set<string>): set<string> {
    set n | n in dir && IsArtifact(n) && n !in unreadable
  }

  ghost function VisibleSize(dir: Dir, unreadable: set<string>): nat {
    SizeOf(dir, Visible(dir, unreadable))
  }

  // ---- What cleanup removes ----

  /** The visible files in LRU order. */
  ghost function LruOrder(dir: Dir, scan: Scan): (s: seq<CacheEntry>)
    requires Lists(scan, dir)
    ensures Describes(s, dir) && Paths(s) == Visible(dir, scan.unreadable)
    ensures InAccessOrder(s, Collect(dir, scan.order, scan.unreadable))
  {
    CollectDescribes(dir, scan.order, scan.unreadable);
    SortDescribes(Collect(dir, scan.order, scan.unreadable), dir);
    SortByAccess(Collect(dir, scan.order, scan.unreadable))
  }

  /** The files gone after the first `m` entries have been tried. */
  ghost function Deleted(s: seq<CacheEntry>, undeletable: set<string>, m: nat): set<string>
    requires m <= |s|
  {
    Paths(s[..m]) - undeletable
  }

  /** The size still held after the first `m` entries have been tried. */
  ghost function Remaining(dir: Dir, s: seq<CacheEntry>, undeletable: set<string>, m: nat): nat
    requires Describes(s, dir) && m <= |s|
  {
    SizeOf(dir, Paths(s) - Deleted(s, undeletable, m))
  }

  lemma RemainingStep(dir: Dir, s: seq<CacheEntry>, undeletable: set<string>, m: nat)
    requires Describes(s, dir) && m < |s|
    ensures
      var n := s[m].path;
      if n in undeletable then
        && Deleted(s, undeletable, m + 1) == Deleted(s, undeletable, m)
        && Remaining(dir, s, undeletable, m + 1) == Remaining(dir, s, undeletable, m)
      else
        && n !in Deleted(s, undeletable, m)
        && Deleted(s, undeletable, m + 1) == Deleted(s, undeletable, m) + {n}
        && Remaining(dir, s, undeletable, m) == s[m].size + Remaining(dir, s, undeletable, m + 1)
  {
    var n := s[m].path;
    assert s[..m + 1] == s[..m] + [s[m]];
    assert Paths(s[..m + 1]) == Paths(s[..m]) + {n};
    assert n !in Paths(s[..m]);
    assert s[m] in s && n in Paths(s);
    if n !in undeletable {
      var held := Paths(s) - Deleted(s, undeletable, m);
      SizeOfRemove(dir, held, n);
      assert held - {n} == Paths(s) - Deleted(s, undeletable, m + 1);
    }
  }

  lemma OneMoreGone(dir: Dir, gone: set<string>, n: string)
    requires gone <= dir.Keys && n in dir && n !in gone
    ensures n in dir - gone
    ensures dir - (gone + {n}) == dir - gone - {n}
    ensures |gone + {n}| == |gone| + 1
    ensures SizeOf(dir, gone + {n}) == SizeOf(dir, gone) + dir[n].Size()
  {
    SizeOfRemove(dir, gone + {n}, n);
    assert gone + {n} - {n} == gone;
  }

  /** The bookkeeping of one deletion. */
  lemma DeletionStep(dir: Dir, s: seq<CacheEntry>, undeletable: set<string>, m: nat)
    requires Describes(s, dir) && m < |s| && s[m].path !in undeletable
    ensures Paths(s) <= dir.Keys
    ensures
      var n, before, after := s[m].path, Deleted(s, undeletable, m), Deleted(s, undeletable, m + 1);
      && before <= Paths(s) && after <= Paths(s)
      && n in dir - before
      && dir - after == dir - before - {n}
      && |after| == |before| + 1
      && SizeOf(dir, after) == SizeOf(dir, before) + s[m].size
  {
    RemainingStep(dir, s, undeletable, m);
    TotalSizeIsSizeOf(s, dir);
    assert s[m] in s && s[m].path in Paths(s);
    assert forall e :: e in s[..m] ==> e in s;
    OneMoreGone(dir, Deleted(s, undeletable, m), s[m].path);
  }

  /** The three figures are true: files deleted, their size, and the size still held. */
  ghost predicate Accounts(dir: Dir, s: seq<CacheEntry>, undeletable: set<string>, m: nat, stats: CleanupStats)
    requires Describes(s, dir) && m <= |s|
  {
    var gone := Deleted(s, undeletable, m);
    && gone <= dir.Keys
    && stats.entriesRemoved == |gone|
    && stats.bytesFreed == SizeOf(dir, gone)
    && stats.currentSizeBytes == Remaining(dir, s, undeletable, m)
    && stats.bytesFreed + stats.currentSizeBytes == TotalSize(s)
  }

  lemma NothingTried(dir: Dir, s: seq<CacheEntry>, undeletable: set<string>)
    requires Describes(s, dir)
    ensures dir - Deleted(s, undeletable, 0) == dir
    ensures Accounts(dir, s, undeletable, 0, CleanupStats(0, 0, TotalSize(s)))
  {
    TotalSizeIsSizeOf(s, dir);
    assert Deleted(s, undeletable, 0) == {};
    assert Paths(s) - {} == Paths(s);
  }

  /** One round of the loop, whether the file goes or stays. */
  lemma TryStep(dir: Dir, s: seq<CacheEntry>, undeletable: set<string>, m: nat, stats: CleanupStats)
    requires Describes(s, dir) && m < |s| && Accounts(dir, s, undeletable, m, stats)
    ensures
      var e, now := s[m], dir - Deleted(s, undeletable, m);
      if e.path in now && e.path !in undeletable then
        && e.size <= stats.currentSizeBytes
        && dir - Deleted(s, undeletable, m + 1) == now - {e.path}
        && Accounts(dir, s, undeletable, m + 1, CleanupStats(stats.entriesRemoved + 1,
             stats.bytesFreed + e.size, stats.currentSizeBytes - e.size))
      else
        && dir - Deleted(s, undeletable, m + 1) == now
        && Accounts(dir, s, undeletable, m + 1, stats)
  {
    RemainingStep(dir, s, undeletable, m);
    assert s[m] in s;
    if s[m].path !in undeletable {
      DeletionStep(dir, s, undeletable, m);
    }
  }

  /** What clearing deletes while it goes over the first `i` files. */
  ghost function Clearable(scan: Scan, i: nat): set<string>
    requires i <= |scan.order|
  {
    set n | n in scan.order[..i] && Counted(n, scan.unreadable) && n !in scan.undeletable
  }

  lemma ClearStep(dir: Dir, scan: Scan, i: nat)
    requires Lists(scan, dir) && i < |scan.order|
    ensures
      var n, before, after := scan.order[i], Clearable(scan, i), Clearable(scan, i + 1);
      && before <= dir.Keys && after <= dir.Keys
      && n in dir - before
      && if Counted(n, scan.unreadable) && n !in scan.undeletable
         then dir - after == dir - before - {n} && |after| == |before| + 1
              && SizeOf(dir, after) == SizeOf(dir, before) + dir[n].Size()
         else after == before
  {
    var n, before, after := scan.order[i], Clearable(scan, i), Clearable(scan, i + 1);
    assert scan.order[..i + 1] == scan.order[..i] + [n];
    assert n in scan.order && n !in scan.order[..i];
    assert forall k :: k in scan.order[..i] ==> k in scan.order;
    assert before <= dir.Keys;
    if Counted(n, scan.unreadable) && n !in scan.undeletable {
      assert after == before + {n};
      OneMoreGone(dir, before, n);
    } else {
      assert after == before;
    }
  }

  ghost predicate ClearedTo(dir: Dir, scan: Scan, i: nat, now: Dir, removed: nat, freed: nat)
    requires i <= |scan.order|
  {
    var gone := Clearable(scan, i);
    gone <= dir.Keys && now == dir - gone && removed == |gone| && freed == SizeOf(dir, gone)
  }

  lemma ClearedOneMore(dir: Dir, scan: Scan, i: nat, now: Dir, removed: nat, freed: nat)
    requires Lists(scan, dir) && i < |scan.order| && ClearedTo(dir, scan, i, now, removed, freed)
    ensures
      var n := scan.order[i];
      && n in now
      && if Counted(n, scan.unreadable) && n !in scan.undeletable
         then ClearedTo(dir, scan, i + 1, now - {n}, removed + 1, freed + now[n].Size())
         else ClearedTo(dir, scan, i + 1, now, removed, freed)
  {
    ClearStep(dir, scan, i);
  }

  /** The first place, at or after `m`, where the limit is met or nothing is left to try. */
  ghost function StopFrom(dir: Dir, s: seq<CacheEntry>, undeletable: set<string>, limit: nat, m: nat): (stop: nat)
    requires Describes(s, dir) && m <= |s|
    ensures m <= stop <= |s|
    ensures stop == |s| || Remaining(dir, s, undeletable, stop) <= limit
    ensures forall j :: m <= j < stop ==> Remaining(dir, s, undeletable, j) > limit
    decreases |s| - m
  {
    if m == |s| || Remaining(dir, s, undeletable, m) <= limit then m
    else StopFrom(dir, s, undeletable, limit, m + 1)
  }

  ghost function Removed(dir: Dir, scan: Scan, limit: nat): set<string>
    requires Lists(scan, dir)
  {
    var s := LruOrder(dir, scan);
    Deleted(s, scan.undeletable, StopFrom(dir, s, scan.undeletable, limit, 0))
  }

  /** The directory after a cleanup pass that can list it. */
  ghost function Cleaned(dir: Dir, scan: Scan, limit: nat): Dir
    requires Lists(scan, dir)
  {
    dir - Removed(dir, scan, limit)
  }

  /** The directory after a pass guarded by the size test. */
  ghost function MaybeCleaned(dir: Dir, statsScan: Scan, scan: Scan, limit: nat): Dir
    requires Lists(statsScan, dir) && Lists(scan, dir)
  {
    if statsScan.errorAt.None? && VisibleSize(dir, statsScan.unreadable) > limit && scan.errorAt.None?
    then Cleaned(dir, scan, limit) else dir
  }

  /** The report of a cleanup: what went, its size, and the size held now, which add up to the size found. */
  ghost predicate TrueReport(dir: Dir, scan: Scan, limit: nat, stats: CleanupStats)
    requires Lists(scan, dir)
  {
    var gone, after := Removed(dir, scan, limit), Cleaned(dir, scan, limit);
    && gone <= dir.Keys
    && stats == CleanupStats(|gone|, SizeOf(dir, gone), VisibleSize(after, scan.unreadable))
    && stats.bytesFreed + stats.currentSizeBytes == VisibleSize(dir, scan.unreadable)
  }

  /** How writing the temp file and renaming it may go. */
  datatype WriteFault = NoFault | WriteFails(partial: Option<Bytes>) | RenameFails

  function Published(dir: Dir, key: string, compiled: Bytes, now: nat): Dir {
    (dir - {TempName(key)})[ArtifactName(key) := File(compiled, now)]
  }

  /** Publishing replaces the artifact of this key, takes its temp file away, and leaves every other file alone. */
  lemma PublishedMeaning(dir: Dir, key: string, compiled: Bytes, now: nat, n: string)
    ensures
      var after := Published(dir, key, compiled, now);
      && TempName(key) !in after
      && ArtifactName(key) in after && after[ArtifactName(key)] == File(compiled, now)
      && (n != TempName(key) && n != ArtifactName(key) ==>
            (n in after <==> n in dir) && (n in dir ==> after[n] == dir[n]))
  {
    ArtifactNames(key, key);
  }

  class AotCache {
    const maxSizeBytes: nat
    const bypass: bool
    /** BLAKE3 cut to 128 bits, in hex: an uninterpreted function of the module bytes. */
    const computeKey: Bytes -> string
    /** The contents of the cache directory. */
    var dir: Dir

    constructor (maxSizeBytes: nat, bypass: bool, computeKey: Bytes -> string, dir: Dir)
      ensures this.maxSizeBytes == maxSizeBytes && this.bypass == bypass
      ensures this.computeKey == computeKey && this.dir == dir
    {
      this.maxSizeBytes := maxSizeBytes;
      this.bypass := bypass;
      this.computeKey := computeKey;
      this.dir := dir;
    }

    method Get(wasm: Bytes) returns (path: Option<string>)
      ensures path == if !bypass && ArtifactName(computeKey(wasm)) in dir
                      then Some(ArtifactName(computeKey(wasm))) else None
    {
      if bypass {
        return None;
      }
      var aotPath := ArtifactName(computeKey(wasm));
      return if aotPath in dir then Some(aotPath) else None;
    }

    /** Write to a temp file, rename it into place, and clean up if the size test says so. */
    method Put(wasm: Bytes, compiled: Bytes, now: nat, fault: WriteFault, statsScan: Scan, scan: Scan)
      returns (r: Result<string, string>)
      requires var after := Published(dir, computeKey(wasm), compiled, now);
               Lists(statsScan, after) && Lists(scan, after)
      modifies this
      ensures
        var key := computeKey(wasm);
        if bypass then r.Err? && dir == old(dir)
        else match fault
          case WriteFails(None) => r.Err? && dir == old(dir)
          case WriteFails(Some(part)) => r.Err? && dir == old(dir)[TempName(key) := File(part, now)]
          case RenameFails => r.Err? && dir == old(dir)[TempName(key) := File(compiled, now)]
          case NoFault =>
            r == Ok(ArtifactName(key)) &&
            dir == MaybeCleaned(Published(old(dir), key, compiled, now), statsScan, scan, maxSizeBytes)
    {
      if bypass {
        return Err("Cannot store in cache when bypass is enabled");
      }
      var key := computeKey(wasm);
      var aotPath, tempPath := ArtifactName(key), TempName(key);
      if fault.WriteFails? {
        if fault.partial.Some? {
          dir := dir[tempPath := File(fault.partial.value, now)];
        }
        return Err("Failed to write cache temp file");
      }
      dir := dir[tempPath := File(compiled, now)];
      if fault.RenameFails? {
        return Err("Failed to rename cache file");
      }
      ArtifactNames(key, key);
      var file := dir[tempPath];
      dir := (dir - {tempPath})[aotPath := file];
      assert dir == Published(old(dir), key, compiled, now);
      var _ := MaybeCleanup(statsScan, scan);
      return Ok(aotPath);
    }

    method Remove(wasm: Bytes, deletable: bool) returns (r: Result<bool, string>)
      modifies this
      ensures
        var aotPath := ArtifactName(computeKey(wasm));
        if bypass || aotPath !in old(dir) then r == Ok(false) && dir == old(dir)
        else if deletable then r == Ok(true) && dir == old(dir) - {aotPath}
        else r.Err? && dir == old(dir)
    {
      if bypass {
        return Ok(false);
      }
      var aotPath := ArtifactName(computeKey(wasm));
      if aotPath in dir {
        if !deletable {
          return Err("Failed to remove cache file");
        }
        dir := dir - {aotPath};
        return Ok(true);
      }
      return Ok(false);
    }

    method Stats(scan: Scan) returns (r: Result<CacheStats, string>)
      requires Lists(scan, dir)
      ensures
        if bypass then r == Ok(CacheStats(0, 0, 0))
        else if scan.errorAt.Some? then r.Err?
        else r == Ok(CacheStats(|Visible(dir, scan.unreadable)|, VisibleSize(dir, scan.unreadable), maxSizeBytes))
    {
      if bypass {
        return Ok(CacheStats(0, 0, 0));
      }
      var totalSize, entryCount := 0, 0;
      ghost var entries: seq<CacheEntry> := [];
      for i := 0 to |scan.order|
        invariant scan.errorAt.Some? ==> i <= scan.errorAt.value
        invariant entries == Collect(dir, scan.order[..i], scan.unreadable)
        invariant totalSize == TotalSize(entries) && entryCount == |entries|
      {
        if scan.errorAt == Some(i) {
          return Err("Failed to read cache directory");
        }
        var path := scan.order[i];
        assert scan.order[..i + 1][..i] == scan.order[..i];
        if IsArtifact(path) && path !in scan.unreadable {
          totalSize := totalSize + dir[path].Size();
          entryCount := entryCount + 1;
          entries := entries + [EntryOf(dir, path)];
        }
      }
      assert scan.order[..|scan.order|] == scan.order;
      CollectDescribes(dir, scan.order, scan.unreadable);
      TotalSizeIsSizeOf(entries, dir);
      assert Paths(entries) == Visible(dir, scan.unreadable);
      if scan.errorAt.Some? {
        return Err("Failed to read cache directory");
      }
      return Ok(CacheStats(entryCount, totalSize, maxSizeBytes));
    }

    /** `fs::remove_file`. */
    method RemoveFile(path: string, undeletable: set<string>) returns (ok: bool)
      modifies this
      ensures ok == (path in old(dir) && path !in undeletable)
      ensures dir == if ok then old(dir) - {path} else old(dir)
    {
      ok := path in dir && path !in undeletable;
      if ok {
        dir := dir - {path};
      }
    }

    /** The scan at the start of a cleanup. */
    method ReadEntries(scan: Scan) returns (r: Result<seq<CacheEntry>, string>)
      requires Lists(scan, dir)
      ensures if scan.errorAt.Some? then r == Err("Failed to read cache directory")
              else r == Ok(Collect(dir, scan.order, scan.unreadable))
    {
      var entries: seq<CacheEntry> := [];
      for i := 0 to |scan.order|
        invariant scan.errorAt.Some? ==> i <= scan.errorAt.value
        invariant entries == Collect(dir, scan.order[..i], scan.unreadable)
      {
        if scan.errorAt == Some(i) {
          return Err("Failed to read cache directory");
        }
        var path := scan.order[i];
        assert scan.order[..i + 1][..i] == scan.order[..i];
        if IsArtifact(path) && path !in scan.unreadable {
          entries := entries + [EntryOf(dir, path)];
        }
      }
      assert scan.order[..|scan.order|] == scan.order;
      return if scan.errorAt.Some? then Err("Failed to read cache directory") else Ok(entries);
    }

    /**
     LRU cleanup.  Whatever deletions fail, each file is tried at most once, the freed and the
     current size always add up to the size found, and the reported size is the size held.
     */
    method Cleanup(scan: Scan) returns (r: Result<CleanupStats, string>)
      requires Lists(scan, dir)
      modifies this
      ensures bypass ==> r == Ok(CleanupStats(0, 0, 0)) && dir == old(dir)
      ensures !bypass && scan.errorAt.Some? ==> r.Err? && dir == old(dir)
      ensures !bypass && scan.errorAt.None? ==>
        && dir == Cleaned(old(dir), scan, maxSizeBytes)
        && r.Ok? && TrueReport(old(dir), scan, maxSizeBytes, r.value)
    {
      if bypass {
        return Ok(CleanupStats(0, 0, 0));
      }
      var found := ReadEntries(scan);
      if found.Err? {
        return Err(found.error);
      }
      var entries := SortByAccess(found.value);
      LruOrderIsSorted(dir, scan);
      var stats := EvictOldest(entries, scan.undeletable);
      CleanupAccounts(old(dir), scan, maxSizeBytes, stats);
      return Ok(stats);
    }

    /** The loop of cleanup: tries one entry after the other until the size is under the limit. */
    method EvictOldest(s: seq<CacheEntry>, undeletable: set<string>) returns (stats: CleanupStats)
      requires Describes(s, dir)
      modifies this
      ensures
        var stop := StopFrom(old(dir), s, undeletable, maxSizeBytes, 0);
        && dir == old(dir) - Deleted(s, undeletable, stop)
        && Accounts(old(dir), s, undeletable, stop, stats)
    {
      var entries := s;
      var totalSize := TotalSize(entries);
      var removed: nat, freed: nat := 0, 0;
      var currentSize: nat := totalSize;
      ghost var before, tried := dir, 0;
      NothingTried(before, s, undeletable);
      while currentSize > maxSizeBytes && entries != []
        invariant tried <= |s| && entries == s[tried..]
        invariant Accounts(before, s, undeletable, tried, CleanupStats(removed, freed, currentSize))
        invariant dir == before - Deleted(s, undeletable, tried)
        invariant StopFrom(before, s, undeletable, maxSizeBytes, 0)
               == StopFrom(before, s, undeletable, maxSizeBytes, tried)
        decreases |entries|
      {
        var entry := entries[0];
        TryStep(before, s, undeletable, tried, CleanupStats(removed, freed, currentSize));
        var ok := RemoveFile(entry.path, undeletable);
        assert dir == before - Deleted(s, undeletable, tried + 1);
        if ok {
          freed := freed + entry.size;
          currentSize := currentSize - entry.size;
          removed := removed + 1;
        }
        entries := entries[1..];
        tried := tried + 1;
      }
      return CleanupStats(removed, freed, currentSize);
    }

    /** One round of clearing. */
    method ClearOne(scan: Scan, i: nat, ghost before: Dir, removed: nat, freed: nat)
      returns (removed': nat, freed': nat)
      requires Lists(scan, before) && i < |scan.order| && ClearedTo(before, scan, i, dir, removed, freed)
      modifies this
      ensures ClearedTo(before, scan, i + 1, dir, removed', freed')
    {
      removed', freed' := removed, freed;
      var path := scan.order[i];
      ClearedOneMore(before, scan, i, dir, removed, freed);
      if IsArtifact(path) && path !in scan.unreadable {
        var size := dir[path].Size();
        var ok := RemoveFile(path, scan.undeletable);
        if ok {
          freed' := freed + size;
          removed' := removed + 1;
        }
      }
    }

    /** Delete everything that counts; the reported current size is always zero. */
    method Clear(scan: Scan) returns (r: Result<CleanupStats, string>)
      requires Lists(scan, dir)
      modifies this
      ensures bypass ==> r == Ok(CleanupStats(0, 0, 0)) && dir == old(dir)
      ensures !bypass ==>
        var reached := if scan.errorAt.Some? then scan.errorAt.value else |scan.order|;
        var gone := Clearable(scan, reached);
        && gone <= old(dir).Keys
        && dir == old(dir) - gone
        && r == if scan.errorAt.Some? then Err("Failed to read cache directory")
                else Ok(CleanupStats(|gone|, SizeOf(old(dir), gone), 0))
    {
      if bypass {
        return Ok(CleanupStats(0, 0, 0));
      }
      var removed: nat, freed: nat := 0, 0;
      ghost var before := dir;
      assert ClearedTo(before, scan, 0, dir, removed, freed);
      for i := 0 to |scan.order|
        invariant scan.errorAt.Some? ==> i <= scan.errorAt.value
        invariant ClearedTo(before, scan, i, dir, removed, freed)
      {
        if scan.errorAt == Some(i) {
          return Err("Failed to read cache directory");
        }
        removed, freed := ClearOne(scan, i, before, removed, freed);
      }
      return if scan.errorAt.Some? then Err("Failed to read cache directory")
             else Ok(CleanupStats(removed, freed, 0));
    }

    method MaybeCleanup(statsScan: Scan, scan: Scan) returns (r: Result<(), string>)
      requires !bypass && Lists(statsScan, dir) && Lists(scan, dir)
      modifies this
      ensures dir == MaybeCleaned(old(dir), statsScan, scan, maxSizeBytes)
      ensures r.Err? <==> || statsScan.errorAt.Some?
                          || (VisibleSize(old(dir), statsScan.unreadable) > maxSizeBytes && scan.errorAt.Some?)
    {
      var stats := Stats(statsScan);
      if stats.Err? {
        return Err(stats.error);
      }
      if stats.value.totalSizeBytes > maxSizeBytes {
        var cleanup := Cleanup(scan);
        if cleanup.Err? {
          return Err(cleanup.error);
        }
      }
      return Ok(());
    }
  }

  /** What a later pass sees of a cleaned directory is what cleanup left of what it saw. */
  lemma CleanedVisible(dir: Dir, scan: Scan, limit: nat)
    requires Lists(scan, dir)
    ensures
      var s := LruOrder(dir, scan);
      var stop := StopFrom(dir, s, scan.undeletable, limit, 0);
      var after := Cleaned(dir, scan, limit);
      && Removed(dir, scan, limit) <= Visible(dir, scan.unreadable)
      && Visible(after, scan.unreadable) == Visible(dir, scan.unreadable) - Removed(dir, scan, limit)
      && VisibleSize(after, scan.unreadable) == Remaining(dir, s, scan.undeletable, stop)
  {
    var s := LruOrder(dir, scan);
    var stop := StopFrom(dir, s, scan.undeletable, limit, 0);
    var after := Cleaned(dir, scan, limit);
    assert forall e :: e in s[..stop] ==> e in s;
    assert Visible(after, scan.unreadable) == Visible(dir, scan.unreadable) - Removed(dir, scan, limit);
    SizeOfFrame(dir, after, Visible(after, scan.unreadable));
  }

  lemma LruOrderIsSorted(dir: Dir, scan: Scan)
    requires Lists(scan, dir)
    ensures LruOrder(dir, scan) == SortByAccess(Collect(dir, scan.order, scan.unreadable))
  {
  }

  lemma CleanupAccounts(dir: Dir, scan: Scan, limit: nat, stats: CleanupStats)
    requires Lists(scan, dir)
    requires
      var s := LruOrder(dir, scan);
      Accounts(dir, s, scan.undeletable, StopFrom(dir, s, scan.undeletable, limit, 0), stats)
    ensures TrueReport(dir, scan, limit, stats)
  {
    CleanedVisible(dir, scan, limit);
    TotalSizeIsSizeOf(LruOrder(dir, scan), dir);
  }
}
