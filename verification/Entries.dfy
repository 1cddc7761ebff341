/**
 What one pass over the artifact directory collects, and the stable sort by access time
 that puts it in LRU order (src/runtime/aot_cache.rs).
 */
module Entries {
  import opened Directory

  datatype CacheEntry = CacheEntry(path: string, size: nat, accessed: nat)

  ghost predicate Distinct<T(!new)>(s: seq<T>) {
    forall i, j :: 0 <= i < j < |s| ==> s[i] != s[j]
  }

  /** A pass counts artifacts that it can examine. */
  predicate Counted(n: string, unreadable: set<string>) {
    IsArtifact(n) && n !in unreadable
  }

  // ---- Entries ----

  function EntryOf(dir: Dir, n: string): CacheEntry
    requires n in dir
  {
    CacheEntry(n, dir[n].Size(), dir[n].accessed)
  }

  ghost function Paths(entries: seq<CacheEntry>): set<string> {
    set e | e in entries :: e.path
  }

  ghost predicate DistinctPaths(entries: seq<CacheEntry>) {
    forall i, j :: 0 <= i < j < |entries| ==> entries[i].path != entries[j].path
  }

  /** The entries are true records of files in the directory, one for each. */
  ghost predicate Describes(entries: seq<CacheEntry>, dir: Dir) {
    && DistinctPaths(entries)
    && forall e :: e in entries ==> e.path in dir && e == EntryOf(dir, e.path)
  }

  /** The entries collected from a listing. */
  function Collect(dir: Dir, order: seq<string>, unreadable: set<string>): seq<CacheEntry>
    requires forall n :: n in order ==> n in dir
  {
    if order == [] then []
    else
      var n := order[|order| - 1];
      Collect(dir, order[..|order| - 1], unreadable) + (if Counted(n, unreadable) then [EntryOf(dir, n)] else [])
  }

  lemma {:induction false} CollectDescribes(dir: Dir, order: seq<string>, unreadable: set<string>)
    requires Distinct(order) && forall n :: n in order ==> n in dir
    ensures Describes(Collect(dir, order, unreadable), dir)
    ensures forall n :: n in Paths(Collect(dir, order, unreadable)) <==> n in order && Counted(n, unreadable)
  {
    if order != [] {
      var front, n := order[..|order| - 1], order[|order| - 1];
      CollectDescribes(dir, front, unreadable);
      var entries := Collect(dir, front, unreadable);
      assert order == front + [n];
      forall i | 0 <= i < |entries|
        ensures entries[i].path != n
      {
        assert entries[i].path in Paths(entries);
      }
      assert forall e :: e in Collect(dir, order, unreadable) ==>
          e in entries || (e == EntryOf(dir, n) && Counted(n, unreadable));
      if Counted(n, unreadable) {
        assert EntryOf(dir, n) in Collect(dir, order, unreadable);
        assert Paths(Collect(dir, order, unreadable)) == Paths(entries) + {n};
      }
    }
  }

  function TotalSize(entries: seq<CacheEntry>): nat {
    if entries == [] then 0 else TotalSize(entries[..|entries| - 1]) + entries[|entries| - 1].size
  }

  lemma {:induction false} TotalSizeIsSizeOf(entries: seq<CacheEntry>, dir: Dir)
    requires Describes(entries, dir)
    ensures Paths(entries) <= dir.Keys
    ensures TotalSize(entries) == SizeOf(dir, Paths(entries)) && |entries| == |Paths(entries)|
  {
    if entries != [] {
      var front, e := entries[..|entries| - 1], entries[|entries| - 1];
      TotalSizeIsSizeOf(front, dir);
      assert e in entries && e.path !in Paths(front);
      assert Paths(entries) == Paths(front) + {e.path};
      SizeOfRemove(dir, Paths(entries), e.path);
      assert Paths(entries) - {e.path} == Paths(front);
    }
  }

  // ---- The sort by access time ----

  function InsertByAccess(s: seq<CacheEntry>, e: CacheEntry): seq<CacheEntry> {
    if s == [] || s[|s| - 1].accessed <= e.accessed then s + [e]
    else InsertByAccess(s[..|s| - 1], e) + [s[|s| - 1]]
  }

  /** A stable sort, oldest access first. */
  function SortByAccess(s: seq<CacheEntry>): seq<CacheEntry> {
    if s == [] then [] else InsertByAccess(SortByAccess(s[..|s| - 1]), s[|s| - 1])
  }

  /** `x` stands before `y` in the sequence. */
  ghost predicate Before<T(!new)>(s: seq<T>, x: T, y: T) {
    exists a, b :: 0 <= a < b < |s| && s[a] == x && s[b] == y
  }

  /** Older, or of the same age and earlier in the original order. */
  ghost predicate Precedes(x: CacheEntry, y: CacheEntry, original: seq<CacheEntry>) {
    x.accessed < y.accessed || (x.accessed == y.accessed && Before(original, x, y))
  }

  ghost predicate InAccessOrder(s: seq<CacheEntry>, original: seq<CacheEntry>) {
    forall i, j :: 0 <= i < j < |s| ==> Precedes(s[i], s[j], original)
  }

  lemma BeforeExtends<T(!new)>(s: seq<T>, x: T, y: T, e: T)
    ensures Before(s, x, y) ==> Before(s + [e], x, y)
    ensures x in s ==> Before(s + [e], x, e)
  {
    if Before(s, x, y) {
      var a, b :| 0 <= a < b < |s| && s[a] == x && s[b] == y;
      assert (s + [e])[a] == x && (s + [e])[b] == y;
    }
    if x in s {
      var a :| 0 <= a < |s| && s[a] == x;
      assert (s + [e])[a] == x && (s + [e])[|s|] == e;
    }
  }

  lemma {:induction false} InsertKeepsAll(s: seq<CacheEntry>, e: CacheEntry)
    ensures multiset(InsertByAccess(s, e)) == multiset(s) + multiset{e}
  {
    if s != [] && e.accessed < s[|s| - 1].accessed {
      assert s == s[..|s| - 1] + [s[|s| - 1]];
      InsertKeepsAll(s[..|s| - 1], e);
    }
  }

  lemma PrecedesExtends(x: CacheEntry, y: CacheEntry, original: seq<CacheEntry>, e: CacheEntry)
    ensures Precedes(x, y, original) ==> Precedes(x, y, original + [e])
    ensures x in original && x.accessed <= e.accessed ==> Precedes(x, e, original + [e])
  {
    BeforeExtends(original, x, y, e);
  }

  lemma OrderExtends(s: seq<CacheEntry>, original: seq<CacheEntry>, e: CacheEntry)
    requires InAccessOrder(s, original)
    ensures InAccessOrder(s, original + [e])
  {
    forall i, j | 0 <= i < j < |s|
      ensures Precedes(s[i], s[j], original + [e])
    {
      PrecedesExtends(s[i], s[j], original, e);
    }
  }

  lemma {:induction false} InsertIsStable(s: seq<CacheEntry>, e: CacheEntry, original: seq<CacheEntry>)
    requires InAccessOrder(s, original) && forall x :: x in s ==> x in original
    ensures InAccessOrder(InsertByAccess(s, e), original + [e])
  {
    if s == [] {
    } else {
      var front, last := s[..|s| - 1], s[|s| - 1];
      if last.accessed <= e.accessed {
        OrderExtends(s, original, e);
        forall i | 0 <= i < |s| ensures Precedes(s[i], e, original + [e]) {
          assert s[i].accessed <= last.accessed by {
            assert i < |s| - 1 ==> Precedes(s[i], s[|s| - 1], original);
          }
          PrecedesExtends(s[i], e, original, e);
        }
      } else {
        InsertIsStable(front, e, original);
        var inner := InsertByAccess(front, e);
        forall x | x in inner ensures Precedes(x, last, original + [e]) {
          InsertKeepsAll(front, e);
          assert x in multiset(inner);
          if x != e {
            var i :| 0 <= i < |front| && front[i] == x;
            assert Precedes(s[i], s[|s| - 1], original);
            PrecedesExtends(x, last, original, e);
          }
        }
        assert InsertByAccess(s, e) == inner + [last];
      }
    }
  }

  lemma {:induction false} SortIsStable(s: seq<CacheEntry>)
    ensures multiset(SortByAccess(s)) == multiset(s)
    ensures InAccessOrder(SortByAccess(s), s)
  {
    if s != [] {
      var front, e := s[..|s| - 1], s[|s| - 1];
      assert s == front + [e];
      SortIsStable(front);
      assert forall x :: x in SortByAccess(front) ==> x in multiset(front);
      InsertKeepsAll(SortByAccess(front), e);
      InsertIsStable(SortByAccess(front), e, front);
    }
  }

  lemma {:induction false} DistinctOnce(entries: seq<CacheEntry>, e: CacheEntry)
    requires DistinctPaths(entries)
    ensures multiset(entries)[e] <= 1
  {
    if entries != [] {
      var front, last := entries[..|entries| - 1], entries[|entries| - 1];
      assert entries == front + [last];
      DistinctOnce(front, e);
      if last == e {
        assert e !in front;
      }
    }
  }

  lemma AtMostOnce(s: seq<CacheEntry>, i: int, j: int)
    requires 0 <= i < j < |s| && multiset(s)[s[i]] <= 1
    ensures s[i] != s[j]
  {
    assert s == s[..j] + s[j..];
    assert s[i] in multiset(s[..j]);
    assert s[j] in multiset(s[j..]);
  }

  lemma SortDescribes(entries: seq<CacheEntry>, dir: Dir)
    requires Describes(entries, dir)
    ensures Describes(SortByAccess(entries), dir)
    ensures Paths(SortByAccess(entries)) == Paths(entries)
    ensures InAccessOrder(SortByAccess(entries), entries)
  {
    SortIsStable(entries);
    var s := SortByAccess(entries);
    assert forall e :: e in s <==> e in multiset(s);
    assert forall e :: e in entries <==> e in multiset(entries);
    forall i, j | 0 <= i < j < |s|
      ensures s[i].path != s[j].path
    {
      DistinctOnce(entries, s[i]);
      AtMostOnce(s, i, j);
      assert s[i] in s && s[j] in s;
    }
  }
}
