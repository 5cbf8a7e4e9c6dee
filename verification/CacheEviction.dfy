/** The disk cache's purge: TTL pass, LRU pass and the bytes it accounts for. */
module CacheEviction {
  /** Nanoseconds; 0 is Go's zero time. */
  type Instant = int

  /**
   * A cached image on disk. The two stamps are what the purge gets out of the metadata file, 0 for nothing;
   * `intact` says that the file exists and parses.
   */
  datatype File = File(size: nat, modTime: Instant, createdAt: Instant, lastAccessed: Instant, intact: bool)

  /** The images by their paths. */
  type Disk = map<string, File>

  datatype Entry = Entry(path: string, size: nat, createdAt: Instant, lastAccessed: Instant)

  /** processFile on an image: the times a missing stamp falls back to. */
  function EntryOf(path: string, f: File): Entry {
    var createdAt := if f.createdAt == 0 then f.modTime else f.createdAt;
    Entry(path, f.size, createdAt, if f.lastAccessed == 0 then createdAt else f.lastAccessed)
  }

  predicate Expired(ttl: int, now: Instant, e: Entry) {
    ttl > 0 && now - e.createdAt > ttl
  }

  /** GetPath refuses an image without intact metadata, and one whose recorded creation is too old. */
  predicate Served(ttl: int, now: Instant, f: File) {
    f.intact && !(ttl > 0 && f.createdAt != 0 && now - f.createdAt > ttl)
  }

  /**
   * Where the two expiry rules disagree: an image the purge keeps is refused exactly when its metadata is not
   * intact, and one it removes is served exactly when its metadata is intact and holds no creation stamp.
   */
  lemma PurgeAndGetPathAgree(ttl: int, now: Instant, path: string, f: File)
    ensures !Expired(ttl, now, EntryOf(path, f)) ==> (Served(ttl, now, f) <==> f.intact)
    ensures Expired(ttl, now, EntryOf(path, f)) ==> (Served(ttl, now, f) <==> f.intact && f.createdAt == 0)
  {
  }

  /** A fresh image whose metadata file is missing takes up space but is never served. */
  lemma ImageWithoutMetadataIsKept()
    ensures var f := File(10, 100, 0, 0, false);
            !Expired(60, 120, EntryOf("a.img", f)) && !Served(60, 120, f)
  {
  }

  /** An old image with a zero creation stamp is served until the purge removes it. */
  lemma UnstampedImageIsServed()
    ensures var f := File(10, 100, 0, 0, true);
            Expired(60, 200, EntryOf("a.img", f)) && Served(60, 200, f)
  {
  }

  function TotalSize(items: seq<Entry>): nat {
    if items == [] then 0 else TotalSize(items[..|items| - 1]) + items[|items| - 1].size
  }

  /** The bytes of some of the images. */
  ghost function Bytes(disk: Disk, paths: set<string>): nat
    requires paths <= disk.Keys
    decreases paths
  {
    if paths == {} then 0
    else
      var p :| p in paths;
      disk[p].size + Bytes(disk, paths - {p})
  }

  lemma {:induction false} BytesWithout(disk: Disk, paths: set<string>, p: string)
    requires paths <= disk.Keys && p in paths
    ensures Bytes(disk, paths) == disk[p].size + Bytes(disk, paths - {p})
    decreases paths
  {
    var q :| q in paths && Bytes(disk, paths) == disk[q].size + Bytes(disk, paths - {q});
    if q != p {
      BytesWithout(disk, paths - {q}, p);
      BytesWithout(disk, paths - {p}, q);
      assert paths - {q} - {p} == paths - {p} - {q};
    }
  }

  lemma {:induction false} BytesUnion(disk: Disk, a: set<string>, b: set<string>)
    requires a <= disk.Keys && b <= disk.Keys && a !! b
    ensures Bytes(disk, a + b) == Bytes(disk, a) + Bytes(disk, b)
    decreases a
  {
    if a == {} {
      assert a + b == b;
    } else {
      var p :| p in a;
      BytesWithout(disk, a, p);
      BytesWithout(disk, a + b, p);
      assert a + b - {p} == (a - {p}) + b;
      BytesUnion(disk, a - {p}, b);
    }
  }

  // ----- What a scan finds -----

  function Elems(found: seq<string>): set<string> {
    set p | p in found
  }

  predicate Distinct(found: seq<string>) {
    forall i, j :: 0 <= i < j < |found| ==> found[i] != found[j]
  }

  function Flatten(batches: seq<seq<string>>): seq<string> {
    if batches == [] then [] else Flatten(batches[..|batches| - 1]) + batches[|batches| - 1]
  }

  lemma FlattenNone()
    ensures Flatten([]) == []
  {
  }

  lemma FlattenStep(batches: seq<seq<string>>, i: nat)
    requires i < |batches|
    ensures Flatten(batches[..i + 1]) == Flatten(batches[..i]) + batches[i]
  {
    assert batches[..i + 1][..i] == batches[..i];
  }

  /** The expired images among those found. */
  function Dead(ttl: int, now: Instant, disk: Disk, found: seq<string>): set<string> {
    set p | p in found && p in disk && Expired(ttl, now, EntryOf(p, disk[p]))
  }

  /** The entries of the others, in order. */
  function Live(ttl: int, now: Instant, disk: Disk, found: seq<string>): seq<Entry> {
    if found == [] then []
    else
      var p := found[|found| - 1];
      Live(ttl, now, disk, found[..|found| - 1])
      + if p !in disk || Expired(ttl, now, EntryOf(p, disk[p])) then [] else [EntryOf(p, disk[p])]
  }

  function Paths(items: seq<Entry>): set<string> {
    set e | e in items :: e.path
  }

  predicate DistinctPaths(items: seq<Entry>) {
    forall i, j :: 0 <= i < j < |items| ==> items[i].path != items[j].path
  }

  /** Entries of different images as they are on disk. */
  predicate Mirrors(disk: Disk, items: seq<Entry>) {
    (forall e :: e in items ==> e.path in disk && e == EntryOf(e.path, disk[e.path])) && DistinctPaths(items)
  }

  lemma PathsSnoc(items: seq<Entry>, e: Entry)
    ensures Paths(items + [e]) == Paths(items) + {e.path}
  {
    assert forall x :: x in items + [e] <==> x in items || x == e;
  }

  lemma {:induction false} MirroredBytes(disk: Disk, items: seq<Entry>)
    requires Mirrors(disk, items)
    ensures Paths(items) <= disk.Keys && TotalSize(items) == Bytes(disk, Paths(items))
    decreases |items|
  {
    hide Mirrors, EntryOf;
    if items == [] {
      assert Paths(items) == {};
    } else {
      var front, e := items[..|items| - 1], items[|items| - 1];
      assert items == front + [e];
      MirrorsSnoc(disk, front, e);
      MirroredBytes(disk, front);
      PathsSnoc(front, e);
      BytesWithout(disk, Paths(items), e.path);
      assert Paths(items) - {e.path} == Paths(front);
    }
  }

  lemma MirrorsSnoc(disk: Disk, front: seq<Entry>, e: Entry)
    ensures Mirrors(disk, front + [e])
            <==> Mirrors(disk, front) && e.path in disk && e == EntryOf(e.path, disk[e.path]) && e.path !in Paths(front)
    ensures Mirrors(disk, front + [e]) ==> e.size == disk[e.path].size
  {
    hide EntryOf, DistinctPaths;
    assert forall x :: x in front + [e] <==> x in front || x == e;
    DistinctSnoc(front, e);
    if e.path in disk {
      EntryIsOfPath(e.path, disk[e.path]);
    }
  }

  lemma DistinctSnoc(front: seq<Entry>, e: Entry)
    ensures DistinctPaths(front + [e]) <==> DistinctPaths(front) && e.path !in Paths(front)
  {
    var items := front + [e];
    assert items[|front|] == e && forall i :: 0 <= i < |front| ==> items[i] == front[i] && front[i] in front;
    if e.path in Paths(front) {
      var x :| x in front && x.path == e.path;
      var i :| 0 <= i < |front| && front[i] == x;
      assert items[i].path == items[|front|].path;
    }
    if DistinctPaths(items) {
      assert forall i, j :: 0 <= i < j < |front| ==> items[i].path != items[j].path;
    }
  }

  lemma {:induction false} LiveMirrors(ttl: int, now: Instant, disk: Disk, found: seq<string>)
    requires Distinct(found) && Elems(found) <= disk.Keys
    ensures Mirrors(disk, Live(ttl, now, disk, found))
    ensures Paths(Live(ttl, now, disk, found)) == Elems(found) - Dead(ttl, now, disk, found)
    decreases |found|
  {
    if found != [] {
      var front, p := found[..|found| - 1], found[|found| - 1];
      assert p in found && forall q :: q in found <==> q in front || q == p;
      assert Distinct(front) && p !in front && found == front + [p];
      hide Expired, EntryOf, Mirrors, Distinct, Live, Dead, Bytes;
      LiveMirrors(ttl, now, disk, front);
      var live := Live(ttl, now, disk, front);
      ScanStep(ttl, now, disk, front, p);
      DeadIsFound(ttl, now, disk, front);
      PathsSnoc(live, EntryOf(p, disk[p]));
      MirrorsSnoc(disk, live, EntryOf(p, disk[p]));
    }
  }

  lemma EntryIsOfPath(path: string, f: File)
    ensures EntryOf(path, f).path == path && EntryOf(path, f).size == f.size
  {
  }

  /** Expired and live bytes make up all bytes found. */
  lemma TtlAccounting(ttl: int, now: Instant, disk: Disk, found: seq<string>)
    requires Distinct(found) && Elems(found) <= disk.Keys
    ensures Dead(ttl, now, disk, found) <= Elems(found)
    ensures Bytes(disk, Dead(ttl, now, disk, found)) + TotalSize(Live(ttl, now, disk, found)) == Bytes(disk, Elems(found))
  {
    var dead := Dead(ttl, now, disk, found);
    LiveMirrors(ttl, now, disk, found);
    MirroredBytes(disk, Live(ttl, now, disk, found));
    BytesUnion(disk, dead, Elems(found) - dead);
    assert dead + (Elems(found) - dead) == Elems(found);
  }

  // ----- Eviction -----

  ghost predicate ByLastAccess(items: seq<Entry>) {
    forall i, j :: 0 <= i < j < |items| ==> items[i].lastAccessed <= items[j].lastAccessed
  }

  /** How many of the ordered items the eviction loop deletes. */
  function EvictCount(order: seq<Entry>, total: int, maxBytes: int): (k: nat)
    ensures k <= |order|
    decreases |order|
  {
    if order == [] || total <= maxBytes then 0 else 1 + EvictCount(order[1..], total - order[0].size, maxBytes)
  }

  lemma {:induction false} TotalConcat(a: seq<Entry>, b: seq<Entry>)
    ensures TotalSize(a + b) == TotalSize(a) + TotalSize(b)
    decreases |b|
  {
    if b == [] {
      assert a + b == a;
    } else {
      assert (a + b)[..|a + b| - 1] == a + b[..|b| - 1];
      TotalConcat(a, b[..|b| - 1]);
    }
  }

  lemma TotalSplit(items: seq<Entry>, k: nat)
    requires k <= |items|
    ensures TotalSize(items) == TotalSize(items[..k]) + TotalSize(items[k..])
  {
    assert items == items[..k] + items[k..];
    TotalConcat(items[..k], items[k..]);
  }

  lemma NothingTotals()
    ensures TotalSize([]) == 0
  {
  }

  lemma TotalHead(items: seq<Entry>)
    requires items != []
    ensures TotalSize(items) == items[0].size + TotalSize(items[1..])
  {
    TotalSplit(items, 1);
    assert items[..1][..0] == [];
  }

  lemma TotalWithout(items: seq<Entry>, k: nat)
    requires k < |items|
    ensures TotalSize(items) == TotalSize(items[..k] + items[k + 1..]) + items[k].size
  {
    var e := items[k];
    assert items == items[..k] + [e] + items[k + 1..];
    TotalConcat(items[..k] + [e], items[k + 1..]);
    TotalConcat(items[..k], [e]);
    TotalConcat(items[..k], items[k + 1..]);
    assert [e][..0] == [];
  }

  lemma MultisetWithout<T>(s: seq<T>, k: nat)
    requires k < |s|
    ensures multiset(s[..k] + s[k + 1..]) == multiset(s) - multiset{s[k]}
    ensures s[k] in multiset(s)
  {
    assert s == s[..k] + ([s[k]] + s[k + 1..]);
    assert multiset(s) == multiset(s[..k]) + multiset([s[k]] + s[k + 1..]);
  }

  /** The total does not depend on the order of the items. */
  lemma {:induction false} TotalByElements(a: seq<Entry>, b: seq<Entry>)
    requires multiset(a) == multiset(b)
    ensures TotalSize(a) == TotalSize(b)
    decreases |a|
  {
    if a == [] {
      assert |multiset(b)| == 0;
    } else {
      var n := |a| - 1;
      MultisetWithout(a, n);
      var k :| 0 <= k < |b| && b[k] == a[n];
      MultisetWithout(b, k);
      TotalWithout(b, k);
      assert a[..n] + a[n + 1..] == a[..n];
      TotalByElements(a[..n], b[..k] + b[k + 1..]);
    }
  }

  /** The loop stops as soon as the rest fits, and not before. */
  lemma {:induction false} EvictCountIsLeast(order: seq<Entry>, total: int, maxBytes: int)
    requires total == TotalSize(order)
    ensures var k := EvictCount(order, total, maxBytes);
            && (maxBytes >= 0 ==> TotalSize(order[k..]) <= maxBytes)
            && (k > 0 ==> TotalSize(order[k - 1..]) > maxBytes)
    decreases |order|
  {
    hide TotalSize;
    if order == [] {
      NothingTotals();
      assert order[0..] == order;
    } else if total > maxBytes {
      TotalHead(order);
      assert order[0..] == order;
      EvictCountIsLeast(order[1..], total - order[0].size, maxBytes);
      var k := EvictCount(order[1..], total - order[0].size, maxBytes);
      assert order[1..][k..] == order[k + 1..];
      if k > 0 {
        assert order[1..][k - 1..] == order[k..];
      }
    } else {
      assert order[0..] == order;
    }
  }

  /**
   * The eviction guarantees, for any order by last access: the survivors fit, evicting one item fewer would
   * not fit, nothing goes if everything fits already, no survivor is older than an evicted item, and the
   * evicted and surviving bytes make up the total.
   */
  lemma EvictionIsLeastRecentlyUsed(order: seq<Entry>, maxBytes: int)
    requires maxBytes > 0 && ByLastAccess(order)
    ensures var k := EvictCount(order, TotalSize(order), maxBytes);
            && TotalSize(order[k..]) <= maxBytes
            && (k > 0 ==> TotalSize(order[k - 1..]) > maxBytes)
            && (TotalSize(order) <= maxBytes ==> k == 0)
            && (forall i, j :: 0 <= i < k <= j < |order| ==> order[i].lastAccessed <= order[j].lastAccessed)
            && TotalSize(order[..k]) + TotalSize(order[k..]) == TotalSize(order)
  {
    EvictCountIsLeast(order, TotalSize(order), maxBytes);
    TotalSplit(order, EvictCount(order, TotalSize(order), maxBytes));
  }

  lemma InsertKeepsOrder(sorted: seq<Entry>, k: nat, e: Entry)
    requires ByLastAccess(sorted) && k <= |sorted|
    requires forall j :: k <= j < |sorted| ==> sorted[j].lastAccessed > e.lastAccessed
    requires k > 0 ==> sorted[k - 1].lastAccessed <= e.lastAccessed
    ensures ByLastAccess(sorted[..k] + [e] + sorted[k..])
  {
    var s := sorted[..k] + [e] + sorted[k..];
    forall j | 0 <= j < |s| ensures s[j] == if j < k then sorted[j] else if j == k then e else sorted[j - 1] {
    }
    forall j | 0 <= j < k ensures sorted[j].lastAccessed <= e.lastAccessed {
      if j < k - 1 {
        assert sorted[j].lastAccessed <= sorted[k - 1].lastAccessed;
      }
    }
  }

  lemma InsertKeepsItems<T>(s: seq<T>, k: nat, e: T)
    requires k <= |s|
    ensures multiset(s[..k] + [e] + s[k..]) == multiset(s) + multiset{e}
  {
    assert s == s[..k] + s[k..];
  }

  lemma InsertKeepsPaths(sorted: seq<Entry>, k: nat, e: Entry)
    requires k <= |sorted| && e.path !in Paths(sorted) && DistinctPaths(sorted)
    ensures DistinctPaths(sorted[..k] + [e] + sorted[k..])
  {
    var s := sorted[..k] + [e] + sorted[k..];
    forall j | 0 <= j < |s| ensures s[j] == if j < k then sorted[j] else if j == k then e else sorted[j - 1] {
    }
    forall j | 0 <= j < |sorted| ensures sorted[j].path != e.path {
      assert sorted[j] in sorted;
    }
  }

  lemma ScanNothing(ttl: int, now: Instant, disk: Disk)
    ensures Dead(ttl, now, disk, []) == {} && Live(ttl, now, disk, []) == [] && Bytes(disk, {}) == 0
  {
  }

  /** What one more file adds to a scan. */
  lemma ScanStep(ttl: int, now: Instant, disk: Disk, front: seq<string>, p: string)
    requires p in disk && p !in front
    ensures var e := EntryOf(p, disk[p]);
            var gone := Dead(ttl, now, disk, front);
            && p !in gone && gone <= disk.Keys && e.path == p && e.size == disk[p].size
            && if Expired(ttl, now, e)
               then && Dead(ttl, now, disk, front + [p]) == gone + {p}
                    && Live(ttl, now, disk, front + [p]) == Live(ttl, now, disk, front)
                    && Bytes(disk, gone + {p}) == Bytes(disk, gone) + disk[p].size
               else && Dead(ttl, now, disk, front + [p]) == gone
                    && Live(ttl, now, disk, front + [p]) == Live(ttl, now, disk, front) + [e]
  {
    assert (front + [p])[..|front|] == front;
    var gone := Dead(ttl, now, disk, front);
    BytesWithout(disk, gone + {p}, p);
    assert gone + {p} - {p} == gone;
  }

  lemma {:induction false} ScanConcat(ttl: int, now: Instant, disk: Disk, a: seq<string>, b: seq<string>)
    ensures Live(ttl, now, disk, a + b) == Live(ttl, now, disk, a) + Live(ttl, now, disk, b)
    ensures Dead(ttl, now, disk, a + b) == Dead(ttl, now, disk, a) + Dead(ttl, now, disk, b)
    decreases |b|
  {
    if b == [] {
      assert a + b == a;
    } else {
      assert (a + b)[..|a + b| - 1] == a + b[..|b| - 1];
      ScanConcat(ttl, now, disk, a, b[..|b| - 1]);
    }
  }

  lemma BatchApart(front: seq<string>, batch: seq<string>)
    requires Distinct(front + batch)
    ensures Distinct(front) && Distinct(batch) && Elems(front) !! Elems(batch)
  {
    var all := front + batch;
    assert forall i :: 0 <= i < |front| ==> all[i] == front[i];
    assert forall i :: 0 <= i < |batch| ==> all[|front| + i] == batch[i];
    forall p | p in front ensures p !in batch {
      var i :| 0 <= i < |front| && front[i] == p;
    }
  }

  lemma FrontDistinct(batches: seq<seq<string>>, i: nat)
    requires i <= |batches| && Distinct(Flatten(batches))
    ensures Distinct(Flatten(batches[..i])) && Elems(Flatten(batches[..i])) <= Elems(Flatten(batches))
    decreases |batches| - i
  {
    hide Flatten, Distinct;
    if i == |batches| {
      assert batches[..i] == batches;
    } else {
      FrontDistinct(batches, i + 1);
      FlattenStep(batches, i);
      BatchApart(Flatten(batches[..i]), batches[i]);
    }
  }

  class DiskCache {
    const ttl: int
    const maxBytes: int
    /** The images on disk. */
    var files: Disk

    constructor (ttl: int, maxBytes: int)
      ensures this.ttl == ttl && this.maxBytes == maxBytes && files == map[]
    {
      this.ttl, this.maxBytes := ttl, maxBytes;
      files := map[];
    }

    /** A hit records the access; `works` says whether the metadata file can be written. */
    method GetPath(path: string, now: Instant, works: bool) returns (hit: bool)
      modifies this
      ensures hit <==> path in old(files) && Served(ttl, now, old(files)[path])
      ensures hit <==>
                && path in old(files) && old(files)[path].intact
                && (ttl > 0 && old(files)[path].createdAt != 0 ==> now - old(files)[path].createdAt <= ttl)
      ensures files == if hit && works then old(files)[path := old(files)[path].(lastAccessed := now)] else old(files)
    {
      if path !in files || !files[path].intact {
        return false;
      }
      var meta := files[path];
      if ttl > 0 && meta.createdAt != 0 && now - meta.createdAt > ttl {
        return false;
      }
      if works {
        files := files[path := meta.(lastAccessed := now)];
      }
      return true;
    }

    /** os.Remove, whose error the code drops. */
    method RemoveImage(path: string, stuck: set<string>)
      modifies this
      ensures files == old(files) - ({path} - stuck)
    {
      if path !in stuck {
        files := files - {path};
      }
    }

    /** One worker's scan of its files, which removes the expired ones; `stuck` are the paths where that fails. */
    method ScanFiles(found: seq<string>, now: Instant, stuck: set<string>, ghost disk: Disk)
      returns (entries: seq<Entry>, ghost dead: set<string>, purged: nat)
      requires Distinct(found) && forall p :: p in found ==> p in files && p in disk && files[p] == disk[p]
      modifies this
      ensures dead == Dead(ttl, now, disk, found) <= disk.Keys
      ensures files == old(files) - (dead - stuck)
      ensures entries == Live(ttl, now, disk, found) && purged == Bytes(disk, dead)
    {
      entries, dead, purged := [], {}, 0;
      hide Dead, Live, EntryOf;
      ScanNothing(ttl, now, disk);
      hide Distinct, Bytes;
      for i := 0 to |found|
        invariant dead == Dead(ttl, now, disk, found[..i]) <= disk.Keys && (forall p :: p in dead ==> p in found[..i])
        invariant files == old(files) - (dead - stuck)
        invariant entries == Live(ttl, now, disk, found[..i]) && purged == Bytes(disk, dead)
      {
        var p := found[i];
        NextFound(found, i);
        assert p in files;
        ScanStep(ttl, now, disk, found[..i], p);
        var e := EntryOf(p, files[p]);
        if ttl > 0 && now - e.createdAt > ttl {
          RemovedTogether(old(files), dead, {p}, stuck);
          RemoveImage(p, stuck);
          dead := dead + {p};
          purged := purged + e.size;
        } else {
          entries := entries + [e];
        }
      }
      assert found[..|found|] == found;
    }

    /** Some sort by last access; sort.Slice promises no more. */
    method SortByLastAccess(items: seq<Entry>, ghost disk: Disk) returns (sorted: seq<Entry>)
      requires Mirrors(disk, items)
      ensures ByLastAccess(sorted) && multiset(sorted) == multiset(items) && Mirrors(disk, sorted)
    {
      hide ByLastAccess, DistinctPaths, EntryOf;
      sorted := [];
      NothingSorted();
      for i := 0 to |items|
        invariant ByLastAccess(sorted) && multiset(sorted) == multiset(items[..i]) && DistinctPaths(sorted)
      {
        assert items[..i + 1] == items[..i] + [items[i]];
        var k := |sorted|;
        while k > 0 && sorted[k - 1].lastAccessed > items[i].lastAccessed
          invariant 0 <= k <= |sorted|
          invariant forall j :: k <= j < |sorted| ==> sorted[j].lastAccessed > items[i].lastAccessed
        {
          k := k - 1;
        }
        SameElements(sorted, items[..i]);
        NotYetInserted(items, i, sorted);
        InsertKeepsOrder(sorted, k, items[i]);
        InsertKeepsItems(sorted, k, items[i]);
        InsertKeepsPaths(sorted, k, items[i]);
        sorted := sorted[..k] + [items[i]] + sorted[k..];
      }
      assert items[..|items|] == items;
      SameElements(sorted, items);
    }

    /**
     * Purges the images on disk, which the workers find as `batches`, in the order they report. Told from the
     * files: the expired ones go, and of the others the least recently used, as few as make the rest fit. A
     * removal that fails, at a path in `stuck`, is counted all the same.
     */
    method PurgeExpiredAndLRU(batches: seq<seq<string>>, now: Instant, stuck: set<string>)
      returns (totalPurged: nat, ghost dead: set<string>, ghost evicted: set<string>)
      requires Distinct(Flatten(batches)) && Elems(Flatten(batches)) == files.Keys
      modifies this
      ensures dead == set p | p in old(files)
                              && var f := old(files)[p];
                                 ttl > 0 && now - (if f.createdAt != 0 then f.createdAt else f.modTime) > ttl
      ensures evicted <= old(files).Keys - dead && files == old(files) - (dead + evicted - stuck)
      ensures forall p, q :: p in evicted && q in old(files).Keys - dead - evicted ==>
                var f, g := old(files)[p], old(files)[q];
                (if f.lastAccessed != 0 then f.lastAccessed else if f.createdAt != 0 then f.createdAt else f.modTime)
                <= if g.lastAccessed != 0 then g.lastAccessed else if g.createdAt != 0 then g.createdAt else g.modTime
      ensures maxBytes > 0 ==> Bytes(old(files), old(files).Keys - dead - evicted) <= maxBytes
      ensures evicted != {} ==>
                && maxBytes > 0
                && exists p :: p in evicted && Bytes(old(files), old(files).Keys - dead - evicted + {p}) > maxBytes
      ensures totalPurged == Bytes(old(files), dead + evicted)
      ensures totalPurged + Bytes(old(files), old(files).Keys - dead - evicted) == Bytes(old(files), old(files).Keys)
    {
      hide Dead, Live, TotalSize, Expired, EntryOf, Mirrors, Bytes, EvictCount, Flatten;
      ghost var start, all := files, Flatten(batches);
      var activeItems, scanned;
      activeItems, dead, scanned := ScanAll(batches, now, stuck);
      totalPurged := scanned;
      LiveMirrors(ttl, now, start, all);
      DeadByStamps(ttl, now, start, all);
      ghost var live := start.Keys - dead;
      var totalSize := SumSizes(activeItems);
      ghost var order, k: nat := activeItems, 0;
      evicted := {};
      assert Paths(order[..0]) == {};
      if maxBytes > 0 && totalSize > maxBytes {
        activeItems := SortByLastAccess(activeItems, start);
        TotalByElements(order, activeItems);
        SameElements(order, activeItems);
        order := activeItems;
        var n, freed := Evict(activeItems, totalSize);
        k := n;
        totalPurged := totalPurged + freed;
        RemoveFiles(activeItems[..n], stuck);
        evicted := Paths(order[..k]);
        EvictedIsLeast(start, live, order, k, maxBytes);
        EvictedIsOldest(start, live, order, k);
      }
      hide Paths;
      PurgeAccounts(start, dead, order, k);
      assert order[0..] == order;
      assert files == start - (dead + evicted - stuck);
    }

    /** The scan of all workers, merged in the order they report. */
    method ScanAll(batches: seq<seq<string>>, now: Instant, stuck: set<string>)
      returns (activeItems: seq<Entry>, ghost dead: set<string>, totalPurged: nat)
      requires Distinct(Flatten(batches)) && Elems(Flatten(batches)) <= files.Keys
      modifies this
      ensures dead == Dead(ttl, now, old(files), Flatten(batches)) <= old(files).Keys
      ensures activeItems == Live(ttl, now, old(files), Flatten(batches)) && totalPurged == Bytes(old(files), dead)
      ensures files == old(files) - (dead - stuck)
    {
      hide Dead, Live, Flatten, Bytes;
      activeItems, dead, totalPurged := [], {}, 0;
      ghost var start := files;
      FlattenNone();
      ScanNothing(ttl, now, start);
      for i := 0 to |batches|
        invariant dead == Dead(ttl, now, start, Flatten(batches[..i])) <= start.Keys
        invariant dead <= Elems(Flatten(batches[..i]))
        invariant activeItems == Live(ttl, now, start, Flatten(batches[..i])) && totalPurged == Bytes(start, dead)
        invariant files == start - (dead - stuck)
      {
        FlattenStep(batches, i);
        FrontDistinct(batches, i);
        FrontDistinct(batches, i + 1);
        BatchApart(Flatten(batches[..i]), batches[i]);
        assert forall p :: p in batches[i] ==> p in Elems(Flatten(batches[..i + 1])) && p !in dead;
        var localEntries, localDead, localPurged := ScanFiles(batches[i], now, stuck, start);
        ScanConcat(ttl, now, start, Flatten(batches[..i]), batches[i]);
        DeadIsFound(ttl, now, start, batches[i]);
        RemovedTogether(start, dead, localDead, stuck);
        BytesUnion(start, dead, localDead);
        activeItems := activeItems + localEntries;
        dead := dead + localDead;
        totalPurged := totalPurged + localPurged;
      }
      assert batches[..|batches|] == batches;
    }

    /** The deletion workers. */
    method RemoveFiles(toDelete: seq<Entry>, stuck: set<string>)
      modifies this
      ensures files == old(files) - (Paths(toDelete) - stuck)
    {
      assert Paths(toDelete[..0]) == {};
      for i := 0 to |toDelete|
        invariant files == old(files) - (Paths(toDelete[..i]) - stuck)
      {
        assert toDelete[..i + 1] == toDelete[..i] + [toDelete[i]];
        PathsSnoc(toDelete[..i], toDelete[i]);
        RemovedTogether(old(files), Paths(toDelete[..i]), {toDelete[i].path}, stuck);
        RemoveImage(toDelete[i].path, stuck);
      }
      assert toDelete[..|toDelete|] == toDelete;
    }

    method SumSizes(items: seq<Entry>) returns (totalSize: nat)
      ensures totalSize == TotalSize(items)
    {
      totalSize := 0;
      for i := 0 to |items|
        invariant totalSize == TotalSize(items[..i])
      {
        assert items[..i + 1][..i] == items[..i];
        totalSize := totalSize + items[i].size;
      }
      assert items[..|items|] == items;
    }

    /** The eviction loop over the sorted items. */
    method Evict(items: seq<Entry>, total: nat) returns (deleted: nat, freed: nat)
      requires total == TotalSize(items)
      ensures deleted == EvictCount(items, total, maxBytes)
      ensures freed == TotalSize(items[..deleted])
    {
      hide EvictCount, TotalSize;
      var totalSize: int := total;
      deleted, freed := 0, 0;
      NothingTotals();
      assert items[..0] == [];
      assert items[0..] == items;
      while deleted < |items| && totalSize > maxBytes
        invariant 0 <= deleted <= |items|
        invariant EvictCount(items, total, maxBytes) == deleted + EvictCount(items[deleted..], totalSize, maxBytes)
        invariant freed == TotalSize(items[..deleted])
      {
        EvictOneMore(items, deleted, totalSize, maxBytes);
        totalSize := totalSize - items[deleted].size;
        freed := freed + items[deleted].size;
        deleted := deleted + 1;
      }
      EvictNoMore(items[deleted..], totalSize, maxBytes);
    }
  }

  lemma EvictOneMore(items: seq<Entry>, k: nat, total: int, maxBytes: int)
    requires k < |items| && total > maxBytes
    ensures EvictCount(items[k..], total, maxBytes) == 1 + EvictCount(items[k + 1..], total - items[k].size, maxBytes)
    ensures TotalSize(items[..k + 1]) == TotalSize(items[..k]) + items[k].size
  {
    assert items[..k + 1][..k] == items[..k];
    assert items[k..][1..] == items[k + 1..];
  }

  lemma EvictNoMore(items: seq<Entry>, total: int, maxBytes: int)
    requires items == [] || total <= maxBytes
    ensures EvictCount(items, total, maxBytes) == 0
  {
  }

  lemma RemovedTogether(disk: Disk, a: set<string>, b: set<string>, stuck: set<string>)
    ensures disk - (a - stuck) - (b - stuck) == disk - (a + b - stuck)
  {
  }

  lemma NextFound(found: seq<string>, i: nat)
    requires Distinct(found) && i < |found|
    ensures found[i] in found && found[i] !in found[..i] && found[..i + 1] == found[..i] + [found[i]]
    ensures forall p :: p in found[..i] ==> p in found
  {
  }

  lemma DeadIsFound(ttl: int, now: Instant, disk: Disk, found: seq<string>)
    ensures Dead(ttl, now, disk, found) <= Elems(found)
  {
  }

  lemma NothingSorted()
    ensures ByLastAccess([]) && DistinctPaths([])
  {
  }

  lemma SameElements<T>(a: seq<T>, b: seq<T>)
    requires multiset(a) == multiset(b)
    ensures forall x :: x in a <==> x in b
  {
    forall x ensures x in a <==> x in b {
      assert x in a <==> x in multiset(a);
      assert x in b <==> x in multiset(b);
    }
  }

  lemma NotYetInserted(items: seq<Entry>, i: nat, sorted: seq<Entry>)
    requires i < |items| && DistinctPaths(items)
    requires forall x :: x in sorted <==> x in items[..i]
    ensures items[i].path !in Paths(sorted)
  {
  }

  /** Which images are expired, in the fields of the files. */
  lemma DeadByStamps(ttl: int, now: Instant, disk: Disk, found: seq<string>)
    requires Elems(found) == disk.Keys
    ensures Dead(ttl, now, disk, found)
            == set p | p in disk
                       && var f := disk[p];
                          ttl > 0 && now - (if f.createdAt != 0 then f.createdAt else f.modTime) > ttl
  {
    assert forall p :: p in found <==> p in disk;
  }

  lemma SplitPaths(disk: Disk, order: seq<Entry>, k: nat)
    requires Mirrors(disk, order) && k <= |order|
    ensures Paths(order[..k]) + Paths(order[k..]) == Paths(order) <= disk.Keys && Paths(order[..k]) !! Paths(order[k..])
    ensures TotalSize(order[..k]) == Bytes(disk, Paths(order[..k]))
    ensures TotalSize(order[k..]) == Bytes(disk, Paths(order[k..]))
  {
    var a, b := order[..k], order[k..];
    assert order == a + b;
    assert forall e :: e in order <==> e in a || e in b;
    MirrorsSplit(disk, a, b);
    hide Mirrors;
    MirroredBytes(disk, a);
    MirroredBytes(disk, b);
  }

  lemma MirrorsSplit(disk: Disk, a: seq<Entry>, b: seq<Entry>)
    requires Mirrors(disk, a + b)
    ensures Mirrors(disk, a) && Mirrors(disk, b) && Paths(a) !! Paths(b)
  {
    hide EntryOf;
    var all := a + b;
    assert forall i :: 0 <= i < |a| ==> all[i] == a[i] && a[i] in all;
    assert forall i :: 0 <= i < |b| ==> all[|a| + i] == b[i] && b[i] in all;
    forall e | e in a ensures e.path !in Paths(b) {
      var i :| 0 <= i < |a| && a[i] == e;
      assert forall j :: 0 <= j < |b| ==> b[j].path != e.path;
    }
  }

  lemma PurgeAccounts(disk: Disk, dead: set<string>, order: seq<Entry>, k: nat)
    requires Mirrors(disk, order) && dead <= disk.Keys && Paths(order) == disk.Keys - dead && k <= |order|
    ensures var evicted := Paths(order[..k]);
            && evicted <= disk.Keys - dead
            && Bytes(disk, dead) + TotalSize(order[..k]) == Bytes(disk, dead + evicted)
            && Bytes(disk, dead + evicted) + Bytes(disk, disk.Keys - dead - evicted) == Bytes(disk, disk.Keys)
            && Bytes(disk, disk.Keys - dead - evicted) == TotalSize(order[k..])
    ensures k == 0 ==> TotalSize(order[..k]) == 0
  {
    hide Mirrors, Bytes, Paths;
    SplitPaths(disk, order, k);
    var evicted, rest := Paths(order[..k]), disk.Keys - dead - Paths(order[..k]);
    BytesUnion(disk, dead, evicted);
    BytesUnion(disk, dead + evicted, rest);
    assert dead + evicted + rest == disk.Keys;
  }

  /** The rest fits, and would not with the last one evicted. */
  lemma EvictedIsLeast(disk: Disk, live: set<string>, order: seq<Entry>, k: nat, maxBytes: int)
    requires Mirrors(disk, order) && Paths(order) == live && live <= disk.Keys && maxBytes > 0 && ByLastAccess(order)
    requires k == EvictCount(order, TotalSize(order), maxBytes)
    ensures var evicted := Paths(order[..k]);
            && evicted <= live && Bytes(disk, live - evicted) <= maxBytes
            && (evicted != {} ==> exists p :: p in evicted && Bytes(disk, live - evicted + {p}) > maxBytes)
  {
    EvictionIsLeastRecentlyUsed(order, maxBytes);
    hide Mirrors, ByLastAccess, TotalSize, EvictCount, Bytes;
    SplitPaths(disk, order, k);
    var evicted := Paths(order[..k]);
    assert live - evicted == Paths(order[k..]);
    if k > 0 {
      LastEvicted(disk, order, k);
      assert order[k - 1].path in evicted;
    } else {
      assert order[..0] == [];
    }
  }

  lemma LastEvicted(disk: Disk, order: seq<Entry>, k: nat)
    requires Mirrors(disk, order) && 0 < k <= |order|
    ensures var p := order[k - 1].path;
            && p in Paths(order[..k]) && Paths(order[k..]) + {p} <= disk.Keys
            && TotalSize(order[k - 1..]) == Bytes(disk, Paths(order[k..]) + {p})
  {
    hide Mirrors, TotalSize, Bytes;
    var e := order[k - 1];
    SplitPaths(disk, order, k - 1);
    assert order[..k] == order[..k - 1] + [e];
    PathsSnoc(order[..k - 1], e);
    assert order[k - 1..] == [e] + order[k..];
    assert forall x :: x in order[k - 1..] <==> x == e || x in order[k..];
    assert Paths(order[k - 1..]) == Paths(order[k..]) + {e.path};
  }

  /** No image that stays was used before one that is evicted. */
  lemma EvictedIsOldest(disk: Disk, live: set<string>, order: seq<Entry>, k: nat)
    requires Mirrors(disk, order) && Paths(order) == live && live <= disk.Keys && ByLastAccess(order) && k <= |order|
    ensures forall p, q :: p in Paths(order[..k]) && q in live - Paths(order[..k]) ==>
              var f, g := disk[p], disk[q];
              p in disk && (if f.lastAccessed != 0 then f.lastAccessed else if f.createdAt != 0 then f.createdAt else f.modTime)
              <= if g.lastAccessed != 0 then g.lastAccessed else if g.createdAt != 0 then g.createdAt else g.modTime
  {
    hide EntryOf, DistinctPaths, ByLastAccess;
    SplitPaths(disk, order, k);
    forall p, q | p in Paths(order[..k]) && q in live - Paths(order[..k])
      ensures p in disk && q in disk && EntryOf(p, disk[p]).lastAccessed <= EntryOf(q, disk[q]).lastAccessed
    {
      var x :| x in order[..k] && x.path == p;
      var y :| y in order && y.path == q;
      var i :| 0 <= i < k && order[i] == x;
      var j :| 0 <= j < |order| && order[j] == y;
      assert forall m :: 0 <= m < k ==> order[m] in order[..k];
      OlderFirst(order, i, j);
      assert x in order;
    }
    LastUse();
  }

  lemma OlderFirst(order: seq<Entry>, i: nat, j: nat)
    requires ByLastAccess(order) && i < j < |order|
    ensures order[i].lastAccessed <= order[j].lastAccessed
  {
  }

  lemma LastUse()
    ensures forall p, f: File ::
              EntryOf(p, f).lastAccessed
              == if f.lastAccessed != 0 then f.lastAccessed else if f.createdAt != 0 then f.createdAt else f.modTime
  {
  }

  /** The image read last is evicted only when every other unexpired one is. */
  method ReadThenPurge(c: DiskCache, path: string, now: Instant, batches: seq<seq<string>>, stuck: set<string>)
    returns (hit: bool, ghost dead: set<string>, ghost evicted: set<string>)
    requires Distinct(Flatten(batches)) && Elems(Flatten(batches)) == c.files.Keys && now != 0
    requires forall p :: p in c.files ==>
               c.files[p].lastAccessed < now && c.files[p].createdAt < now && c.files[p].modTime < now
    modifies c
    ensures hit && path in evicted ==> evicted == old(c.files).Keys - dead
  {
    hit := c.GetPath(path, now, true);
    var _, dead_, evicted_ := c.PurgeExpiredAndLRU(batches, now, stuck);
    dead, evicted := dead_, evicted_;
  }
}
