/** Merging library entries: chapter directories move to the kept manga, keep and earlier sources win. */
module LibraryMerge {
  import opened Bindings
  import opened Options

  datatype Key = Key(provider: string, chapter: string)

  /** A chapter directory. */
  datatype Loc = Loc(manga: string, key: Key)

  /** The chapter directories of the library with what is in them. */
  type Tree = map<Loc, string>

  /** Directories like .cover-pending hold no chapters. */
  predicate Hidden(k: Key) {
    "." <= k.provider
  }

  /** The source's chapters that a merge moves: visible and absent from keep. */
  function Movable(t: Tree, keep: string, source: string): set<Key> {
    set loc | loc in t && loc.manga == source && !Hidden(loc.key) && Loc(keep, loc.key) !in t :: loc.key
  }

  function Move(t: Tree, keep: string, source: string, moved: set<Key>): Tree
    requires keep != source && moved <= Movable(t, keep, source)
  {
    map loc | loc in t.Keys + (set k | k in moved :: Loc(keep, k)) && !(loc.manga == source && loc.key in moved) ::
      if loc.manga == keep && loc.key in moved then t[Loc(source, loc.key)] else t[loc]
  }

  /** A merge in which every rename works. */
  function Merged(t: Tree, keep: string, source: string): Tree
    requires keep != source
  {
    Move(t, keep, source, Movable(t, keep, source))
  }

  function MergedAll(t: Tree, keep: string, sources: seq<string>): Tree
    requires keep !in sources
  {
    if sources == [] then t
    else Merged(MergedAll(t, keep, sources[..|sources| - 1]), keep, sources[|sources| - 1])
  }

  function Deleted(t: Tree, manga: string): Tree {
    map loc | loc in t && loc.manga != manga :: t[loc]
  }

  function DeletedAll(t: Tree, mangas: set<string>): Tree {
    map loc | loc in t && loc.manga !in mangas :: t[loc]
  }

  // ----- A list of sources -----

  /** The first source in the list that has the visible chapter. */
  function FirstHolder(t: Tree, sources: seq<string>, k: Key): Option<string> {
    if sources == [] || Hidden(k) then None
    else if Loc(sources[0], k) in t then Some(sources[0])
    else FirstHolder(t, sources[1..], k)
  }

  lemma {:induction false} FirstHolderSnoc(t: Tree, sources: seq<string>, last: string, k: Key)
    ensures FirstHolder(t, sources + [last], k)
            == if FirstHolder(t, sources, k).Some? then FirstHolder(t, sources, k)
               else if !Hidden(k) && Loc(last, k) in t then Some(last) else None
    decreases |sources|
  {
    if sources != [] {
      assert (sources + [last])[1..] == sources[1..] + [last];
      FirstHolderSnoc(t, sources[1..], last, k);
    }
  }

  lemma {:induction false} FirstHolderHolds(t: Tree, sources: seq<string>, k: Key)
    ensures FirstHolder(t, sources, k).Some? ==>
              FirstHolder(t, sources, k).value in sources && Loc(FirstHolder(t, sources, k).value, k) in t
    ensures FirstHolder(t, sources, k).None? && !Hidden(k) ==> forall m :: m in sources ==> Loc(m, k) !in t
    decreases |sources|
  {
    if sources != [] {
      FirstHolderHolds(t, sources[1..], k);
    }
  }

  /**
   * The first-wins union: the kept manga has its own chapters untouched, and every other visible chapter with
   * the content of the first source in the list that has it. Exactly that source has lost the chapter; all
   * else stays where it was.
   */
  lemma {:induction false} MergeIsFirstWinsUnion(t: Tree, keep: string, sources: seq<string>, loc: Loc)
    requires keep !in sources
    ensures var holder := FirstHolder(t, sources, loc.key);
            Lookup(MergedAll(t, keep, sources), loc)
            == if loc.manga == keep then
                 (if loc in t then Some(t[loc]) else if holder.Some? then Lookup(t, Loc(holder.value, loc.key)) else None)
               else if holder == Some(loc.manga) && Loc(keep, loc.key) !in t then None
               else Lookup(t, loc)
    decreases |sources|
  {
    if sources != [] {
      var front, last := sources[..|sources| - 1], sources[|sources| - 1];
      assert sources == front + [last];
      assert last in sources && forall m :: m in front ==> m in sources;
      FirstHolderSnoc(t, front, last, loc.key);
      FirstHolderHolds(t, front, loc.key);
      MergeIsFirstWinsUnion(t, keep, front, loc);
      MergeIsFirstWinsUnion(t, keep, front, Loc(keep, loc.key));
      MergeIsFirstWinsUnion(t, keep, front, Loc(last, loc.key));
      OneMerge(MergedAll(t, keep, front), keep, last, loc);
    }
  }

  /** What one failure-free merge does to one directory. */
  lemma OneMerge(t: Tree, keep: string, source: string, loc: Loc)
    requires keep != source
    ensures var moves := !Hidden(loc.key) && Loc(source, loc.key) in t && Loc(keep, loc.key) !in t;
            Lookup(Merged(t, keep, source), loc)
            == if loc.manga == keep && moves then Some(t[Loc(source, loc.key)])
               else if loc.manga == source && moves then None
               else Lookup(t, loc)
  {
    if loc.key in Movable(t, keep, source) {
      assert Loc(source, loc.key) in t;
    }
    if Loc(source, loc.key) in t && !Hidden(loc.key) && Loc(keep, loc.key) !in t {
      assert loc.key in Movable(t, keep, source);
    }
  }

  /** The union told chapter by chapter: keep's own, and of each other one the first source's in the list. */
  lemma UnionByChapter(t: Tree, keep: string, sources: seq<string>, k: Key)
    requires keep !in sources
    ensures var n := DeletedAll(MergedAll(t, keep, sources), set m | m in sources);
            var visible := k.provider == "" || k.provider[0] != '.';
            && (Loc(keep, k) in n <==> Loc(keep, k) in t || (visible && exists m :: m in sources && Loc(m, k) in t))
            && (Loc(keep, k) in t ==> n[Loc(keep, k)] == t[Loc(keep, k)])
            && (forall i :: 0 <= i < |sources| && visible && Loc(keep, k) !in t && Loc(sources[i], k) in t
                            && (forall j :: 0 <= j < i ==> Loc(sources[j], k) !in t) ==>
                  Loc(keep, k) in n && n[Loc(keep, k)] == t[Loc(sources[i], k)])
            && (forall m :: m in sources ==> Loc(m, k) !in n)
            && (forall m :: m != keep && m !in sources ==> (Loc(m, k) in n <==> Loc(m, k) in t))
            && (forall m :: m != keep && m !in sources && Loc(m, k) in t ==> n[Loc(m, k)] == t[Loc(m, k)])
  {
    hide MergedAll;
    var merged := MergedAll(t, keep, sources);
    MergeIsFirstWinsUnion(t, keep, sources, Loc(keep, k));
    FirstHolderHolds(t, sources, k);
    forall i | 0 <= i < |sources| && !Hidden(k) && Loc(sources[i], k) in t && forall j :: 0 <= j < i ==> Loc(sources[j], k) !in t
      ensures FirstHolder(t, sources, k) == Some(sources[i])
    {
      FirstHolderIsFirst(t, sources, k, i);
    }
    forall m | m != keep && m !in sources ensures Lookup(merged, Loc(m, k)) == Lookup(t, Loc(m, k)) {
      MergeIsFirstWinsUnion(t, keep, sources, Loc(m, k));
    }
  }

  lemma UnionInKeep(t: Tree, keep: string, sources: seq<string>)
    requires keep !in sources
    ensures forall k :: Loc(keep, k) in DeletedAll(MergedAll(t, keep, sources), set m | m in sources)
                        <==> || Loc(keep, k) in t
                             || ((k.provider == "" || k.provider[0] != '.') && exists m :: m in sources && Loc(m, k) in t)
  {
    forall k {
      UnionByChapter(t, keep, sources, k);
    }
  }

  lemma {:induction false} FirstHolderIsFirst(t: Tree, sources: seq<string>, k: Key, i: nat)
    requires i < |sources| && !Hidden(k) && Loc(sources[i], k) in t && forall j :: 0 <= j < i ==> Loc(sources[j], k) !in t
    ensures FirstHolder(t, sources, k) == Some(sources[i])
    decreases i
  {
    if i > 0 {
      FirstHolderIsFirst(t, sources[1..], k, i - 1);
    }
  }

  /** No chapter is lost before the sources go, and then only collisions and hidden directories are. */
  lemma NoKeyIsLost(t: Tree, keep: string, sources: seq<string>, m: string, k: Key)
    requires keep !in sources && (m == keep || m in sources) && Loc(m, k) in t && (m == keep || !Hidden(k))
    ensures Loc(keep, k) in MergedAll(t, keep, sources)
    ensures Loc(keep, k) in DeletedAll(MergedAll(t, keep, sources), set s | s in sources)
  {
    MergeIsFirstWinsUnion(t, keep, sources, Loc(keep, k));
    FirstHolderHolds(t, sources, k);
  }

  /** Each source is left with its collisions alone, apart from hidden directories. */
  lemma LeftoversCollide(t: Tree, keep: string, sources: seq<string>, source: string, k: Key)
    requires keep !in sources && source in sources && !Hidden(k)
    ensures var n := MergedAll(t, keep, sources);
            Loc(source, k) in n <==>
              Loc(source, k) in t && (Loc(keep, k) in t || FirstHolder(t, sources, k) != Some(source))
    ensures var n := MergedAll(t, keep, sources);
            Loc(source, k) in n ==> Loc(keep, k) in n
  {
    MergeIsFirstWinsUnion(t, keep, sources, Loc(source, k));
    MergeIsFirstWinsUnion(t, keep, sources, Loc(keep, k));
    FirstHolderHolds(t, sources, k);
  }

  /** The handler deletes a source even when its merge failed: then, and only then, a visible chapter is gone. */
  lemma FailedMergeLosesChapters(t: Tree, keep: string, source: string, moved: set<Key>)
    requires keep != source && moved <= Movable(t, keep, source)
    ensures var n := Deleted(Move(t, keep, source, moved), source);
            (exists k :: Loc(source, k) in t && !Hidden(k) && Loc(keep, k) !in n) <==> moved != Movable(t, keep, source)
  {
    var n := Deleted(Move(t, keep, source, moved), source);
    forall k | Loc(source, k) in t && !Hidden(k)
      ensures Loc(keep, k) in n <==> Loc(keep, k) in t || k in moved
    {
    }
    if moved != Movable(t, keep, source) {
      var k :| k in Movable(t, keep, source) && k !in moved;
      assert Loc(source, k) in t && !Hidden(k) && Loc(keep, k) !in n;
    }
  }

  /** A rename that the merge of this source needs fails. */
  ghost predicate Fails(t: Tree, keep: string, source: string, broken: set<Loc>) {
    exists k :: k in Movable(t, keep, source) && Loc(source, k) in broken
  }

  /** The source had the visible chapter and the kept manga does not have it afterwards. */
  predicate Missed(before: Tree, after: Tree, keep: string, source: string, k: Key) {
    Loc(source, k) in before && !Hidden(k) && Loc(keep, k) !in after
  }

  /** A source that can give the chapter to the kept manga. */
  ghost predicate Gives(t: Tree, sources: seq<string>, k: Key, broken: set<Loc>) {
    exists m :: m in sources && Loc(m, k) in t && Loc(m, k) !in broken
  }

  /** How the loop over the sources stands: keep only grows, nothing vanishes, and what is missed has its reason. */
  ghost predicate Progress(t: Tree, now: Tree, keep: string, done: seq<string>, broken: set<Loc>) {
    && (forall loc :: loc in now && loc.manga != keep ==> loc in t)
    && (forall loc :: loc in t && loc !in now ==> Loc(keep, loc.key) in now)
    && (forall k :: Loc(keep, k) in t ==> Loc(keep, k) in now)
    && (forall m, k :: m in done && Missed(t, now, keep, m, k) ==> Fails(t, keep, m, broken))
    && (forall k :: Loc(keep, k) in now ==> Loc(keep, k) in t || Gives(t, done, k, broken))
  }

  lemma ProgressStep(t: Tree, now: Tree, keep: string, done: seq<string>, source: string, moved: set<Key>, broken: set<Loc>)
    requires keep != source && Progress(t, now, keep, done, broken)
    requires moved <= Movable(now, keep, source) && forall k :: k in moved ==> Loc(source, k) !in broken
    requires moved != Movable(now, keep, source) ==> Fails(now, keep, source, broken)
    ensures Progress(t, Move(now, keep, source, moved), keep, done + [source], broken)
  {
    var next := Move(now, keep, source, moved);
    assert forall k :: Loc(keep, k) in next <==> Loc(keep, k) in now || k in moved;
    forall k | k in moved ensures Gives(t, done + [source], k, broken) {
      assert Loc(source, k) in now;
      assert source in done + [source] && Loc(source, k) in t;
    }
    forall k | Gives(t, done, k, broken) ensures Gives(t, done + [source], k, broken) {
      var m :| m in done && Loc(m, k) in t && Loc(m, k) !in broken;
      assert m in done + [source];
    }
    if Fails(now, keep, source, broken) {
      var k :| k in Movable(now, keep, source) && Loc(source, k) in broken;
      assert Loc(source, k) in t && k in Movable(t, keep, source);
    }
    forall m, k | m in done + [source] && Missed(t, next, keep, m, k) ensures Fails(t, keep, m, broken) {
      if m in done {
        assert Missed(t, now, keep, m, k);
      } else {
        assert Loc(source, k) in now && k in Movable(now, keep, source);
      }
    }
  }

  lemma NoProgress(t: Tree, keep: string, broken: set<Loc>)
    ensures Progress(t, t, keep, [], broken)
  {
  }

  /** Deleting the sources takes nothing from the kept manga. */
  lemma KeepStays(t: Tree, moved: Tree, after: Tree, keep: string, sources: seq<string>, broken: set<Loc>)
    requires keep !in sources && Progress(t, moved, keep, sources, broken)
    requires forall loc: Loc :: loc.manga !in sources ==> Lookup(after, loc) == Lookup(moved, loc)
    ensures forall k :: Loc(keep, k) in t ==> Loc(keep, k) in after
    ensures forall m, k :: m in sources && Missed(t, after, keep, m, k) ==> Fails(t, keep, m, broken)
    ensures forall k :: Loc(keep, k) in after ==> Loc(keep, k) in t || Gives(t, sources, k, broken)
    ensures |sources| == 1 ==> ((exists k :: Missed(t, after, keep, sources[0], k)) <==> Fails(t, keep, sources[0], broken))
  {
    hide Fails, Gives;
    forall k ensures Loc(keep, k) in after <==> Loc(keep, k) in moved {
      assert Lookup(after, Loc(keep, k)) == Lookup(moved, Loc(keep, k));
    }
    forall m, k ensures Missed(t, after, keep, m, k) <==> Missed(t, moved, keep, m, k) {}
    if |sources| == 1 {
      assert sources == [sources[0]];
      OneSourceLossIff(t, moved, keep, sources[0], broken);
    }
  }

  lemma KeepIsExact(t: Tree, after: Tree, keep: string, sources: seq<string>, listing: seq<Key>, broken: set<Loc>)
    requires keep !in sources && Lists(listing, t, keep)
    requires forall loc: Loc :: loc.manga !in sources ==>
               Lookup(after, loc) == Lookup(MergedFaulty(t, keep, sources, listing, broken), loc)
    ensures forall k :: Loc(keep, k) in after <==> Arrives(t, keep, sources, listing, broken, k)
  {
    forall k ensures Loc(keep, k) in after <==> Arrives(t, keep, sources, listing, broken, k) {
      FaultyMergeKeepsIff(t, keep, sources, listing, broken, k);
      assert Lookup(after, Loc(keep, k)) == Lookup(MergedFaulty(t, keep, sources, listing, broken), Loc(keep, k));
    }
  }

  /** For one source: a visible chapter is missed exactly when a rename that the merge needs fails. */
  lemma OneSourceLossIff(t: Tree, now: Tree, keep: string, source: string, broken: set<Loc>)
    requires keep != source && Progress(t, now, keep, [source], broken)
    ensures (exists k :: Missed(t, now, keep, source, k)) <==> Fails(t, keep, source, broken)
  {
    assert source in [source];
    if Fails(t, keep, source, broken) {
      var k :| k in Movable(t, keep, source) && Loc(source, k) in broken;
      assert Loc(source, k) in t && Missed(t, now, keep, source, k);
    }
  }

  // ----- Failing merges, exactly -----

  /** In the listing a stands at or before b. */
  predicate Before(listing: seq<Key>, a: Key, b: Key) {
    exists i, j :: 0 <= i <= j < |listing| && listing[i] == a && listing[j] == b
  }

  /** The order in which directories are read: each key once, and every visible one of mangas other than keep. */
  predicate Lists(listing: seq<Key>, t: Tree, keep: string) {
    && (forall i, j :: 0 <= i < j < |listing| ==> listing[i] != listing[j])
    && (forall loc :: loc in t && loc.manga != keep && !Hidden(loc.key) ==> loc.key in listing)
  }

  /** What a merge moves whose first failing rename ends it: what no movable chapter with a broken rename precedes. */
  ghost function Moves(t: Tree, keep: string, source: string, listing: seq<Key>, broken: set<Loc>): (moved: set<Key>)
    ensures moved <= Movable(t, keep, source)
  {
    set k | k in Movable(t, keep, source)
            && forall q :: q in Movable(t, keep, source) && Before(listing, q, k) ==> Loc(source, q) !in broken
  }

  /** All sources merged one after the other, failures or not. */
  ghost function MergedFaulty(t: Tree, keep: string, sources: seq<string>, listing: seq<Key>, broken: set<Loc>): Tree
    requires keep !in sources
  {
    if sources == [] then t
    else
      var front, last := sources[..|sources| - 1], sources[|sources| - 1];
      var n := MergedFaulty(t, keep, front, listing, broken);
      Move(n, keep, last, Moves(n, keep, last, listing, broken))
  }

  /**
   * Whether keep has the chapter in the end, read off the library before the merge: some source has it, and what
   * stands before it there with a broken rename came from an earlier source or was in keep.
   */
  ghost predicate Arrives(t: Tree, keep: string, sources: seq<string>, listing: seq<Key>, broken: set<Loc>, k: Key) {
    || Loc(keep, k) in t
    || (sources != []
        && var front, last := sources[..|sources| - 1], sources[|sources| - 1];
        || Arrives(t, keep, front, listing, broken, k)
        || (&& Loc(last, k) in t && !Hidden(k)
            && forall q :: Loc(last, q) in t && Loc(last, q) in broken && !Hidden(q) && Before(listing, q, k) ==>
                 Arrives(t, keep, front, listing, broken, q)))
  }

  /** A rename that broke stops the merge exactly when it is needed. */
  lemma MovesFailIff(t: Tree, keep: string, source: string, listing: seq<Key>, broken: set<Loc>)
    requires keep != source && Lists(listing, t, keep)
    ensures Moves(t, keep, source, listing, broken) == Movable(t, keep, source) <==> !Fails(t, keep, source, broken)
    ensures forall k :: k in Moves(t, keep, source, listing, broken) ==> Loc(source, k) !in broken
  {
    forall k | k in Movable(t, keep, source) ensures Before(listing, k, k) {
      assert Loc(source, k) in t && k in listing;
      var i :| 0 <= i < |listing| && listing[i] == k;
    }
  }

  lemma {:induction false} FaultyProgress(t: Tree, keep: string, sources: seq<string>, listing: seq<Key>, broken: set<Loc>)
    requires keep !in sources && Lists(listing, t, keep)
    ensures Progress(t, MergedFaulty(t, keep, sources, listing, broken), keep, sources, broken)
    ensures Lists(listing, MergedFaulty(t, keep, sources, listing, broken), keep)
    decreases |sources|
  {
    hide Fails, Gives, Moves, Move, Before, Hidden;
    if sources == [] {
      NoProgress(t, keep, broken);
    } else {
      var front, last := sources[..|sources| - 1], sources[|sources| - 1];
      assert sources == front + [last];
      var n := MergedFaulty(t, keep, front, listing, broken);
      FaultyProgress(t, keep, front, listing, broken);
      MovesFailIff(n, keep, last, listing, broken);
      ProgressStep(t, n, keep, front, last, Moves(n, keep, last, listing, broken), broken);
    }
  }

  /** The exact condition, for any number of sources. */
  lemma {:induction false} FaultyMergeKeepsIff(t: Tree, keep: string, sources: seq<string>, listing: seq<Key>, broken: set<Loc>, k: Key)
    requires keep !in sources && Lists(listing, t, keep)
    ensures Loc(keep, k) in MergedFaulty(t, keep, sources, listing, broken) <==> Arrives(t, keep, sources, listing, broken, k)
    decreases |sources|
  {
    if sources != [] {
      var front, last := sources[..|sources| - 1], sources[|sources| - 1];
      var n := MergedFaulty(t, keep, front, listing, broken);
      FaultyProgress(t, keep, front, listing, broken);
      forall q ensures Loc(keep, q) in n <==> Arrives(t, keep, front, listing, broken, q) {
        FaultyMergeKeepsIff(t, keep, front, listing, broken, q);
      }
      OneFaultyMerge(t, n, keep, front, last, listing, broken, k);
    }
  }

  lemma OneFaultyMerge(t: Tree, n: Tree, keep: string, done: seq<string>, last: string, listing: seq<Key>, broken: set<Loc>, k: Key)
    requires keep != last && Progress(t, n, keep, done, broken)
    ensures Loc(keep, k) in Move(n, keep, last, Moves(n, keep, last, listing, broken))
            <==> Loc(keep, k) in n
                 || (&& Loc(last, k) in t && !Hidden(k)
                     && forall q :: Loc(last, q) in t && Loc(last, q) in broken && !Hidden(q) && Before(listing, q, k) ==>
                          Loc(keep, q) in n)
  {
    hide Before, Hidden, Fails, Gives;
    var moved := Moves(n, keep, last, listing, broken);
    assert Loc(keep, k) in Move(n, keep, last, moved) <==> Loc(keep, k) in n || k in moved;
    forall q ensures q in Movable(n, keep, last) <==> Loc(last, q) in t && !Hidden(q) && Loc(keep, q) !in n {
      if Loc(last, q) in n && !Hidden(q) && Loc(keep, q) !in n {
        assert q in Movable(n, keep, last);
      }
    }
  }

  /** One chapter whose rename failed: deleting the source deletes it. */
  lemma FailedRenameLosesChapter(content: string)
    ensures var t := map[Loc("source", Key("p", "c")) := content];
            Key("p", "c") in Movable(t, "keep", "source") && Deleted(Move(t, "keep", "source", {}), "source") == map[]
  {
    var t := map[Loc("source", Key("p", "c")) := content];
    var loc := Loc("source", Key("p", "c"));
    assert !Hidden(loc.key) by {
      assert "."[0] != "p"[0];
    }
    assert loc in t && loc.key in Movable(t, "keep", "source");
  }

  // ----- The library -----

  datatype Outcome = BadRequest | NotFound | SaveError | Success

  class Library {
    var tree: Tree
    /** bindings.json per manga; the mangas that exist are its keys. */
    var bindings: map<string, File>

    constructor ()
      ensures tree == map[] && bindings == map[]
    {
      tree, bindings := map[], map[];
    }

    /** ReadDir of the source's visible provider directories and of the chapter directories in them. */
    method ListKeys(manga: string, listing: seq<Key>, ghost keep: string) returns (keys: seq<Key>)
      requires Lists(listing, tree, keep) && manga != keep
      ensures ListedFrom(listing, tree, manga, keys)
    {
      hide Before, Hidden;
      keys := [];
      for i := 0 to |listing|
        invariant forall k :: k in keys <==> k in listing[..i] && Loc(manga, k) in tree && !Hidden(k)
        invariant forall p, q :: 0 <= p < |keys| && 0 <= q < |keys| ==> (Before(listing, keys[p], keys[q]) <==> p <= q)
      {
        forall q | 0 <= q < |keys| ensures Before(listing, keys[q], listing[i]) && !Before(listing, listing[i], keys[q]) {
          assert keys[q] in keys;
          var j :| 0 <= j < i && listing[j] == keys[q];
          BeforeIff(listing, j, i);
          BeforeIff(listing, i, j);
        }
        BeforeIff(listing, i, i);
        if Loc(manga, listing[i]) in tree && !Hidden(listing[i]) {
          keys := keys + [listing[i]];
        }
      }
      forall k | Loc(manga, k) in tree && !Hidden(k) ensures k in listing[..|listing|] {
        assert Loc(manga, k).key in listing;
      }
    }

    /** mergeSingleChapter: `broken` are the directories whose rename fails. */
    method MergeSingleChapter(keep: string, source: string, k: Key, broken: set<Loc>) returns (ok: bool)
      requires keep != source && Loc(source, k) in tree && !Hidden(k)
      modifies this`tree
      ensures ok <==> Loc(keep, k) in old(tree) || Loc(source, k) !in broken
      ensures k in Movable(old(tree), keep, source) <==> Loc(keep, k) !in old(tree)
      ensures tree == if Loc(keep, k) in old(tree) || Loc(source, k) in broken then old(tree)
                      else (old(tree) - {Loc(source, k)})[Loc(keep, k) := old(tree)[Loc(source, k)]]
      ensures tree == if k in Movable(old(tree), keep, source) && Loc(source, k) !in broken
                      then Move(old(tree), keep, source, {k}) else old(tree)
    {
      if Loc(keep, k) in tree {
        return true;
      }
      if Loc(source, k) in broken {
        return false;
      }
      var content := tree[Loc(source, k)];
      tree := (tree - {Loc(source, k)})[Loc(keep, k) := content];
      ok := true;
    }

    /** The first failing rename ends it, with the chapters in `moved` gone over. */
    method MergeChapters(keep: string, source: string, listing: seq<Key>, broken: set<Loc>) returns (ok: bool, ghost moved: set<Key>)
      requires keep != source && Lists(listing, tree, keep)
      modifies this`tree
      ensures moved == Moves(old(tree), keep, source, listing, broken) && tree == Move(old(tree), keep, source, moved)
      ensures ok <==> moved == Movable(old(tree), keep, source)
      ensures ok <==> !Fails(old(tree), keep, source, broken)
    {
      hide Move, Moves, Fails, Hidden, Movable, Lists, ListedFrom;
      var keys := ListKeys(source, listing, keep);
      moved := {};
      MoveNothing(tree, keep, source);
      MovesFailIff(tree, keep, source, listing, broken);
      var i := 0;
      while i < |keys|
        invariant i <= |keys| && moved <= Movable(old(tree), keep, source)
        invariant tree == Move(old(tree), keep, source, moved)
        invariant forall k :: k in moved <==> k in keys[..i] && k in Movable(old(tree), keep, source)
        invariant forall k :: k in moved ==> Loc(source, k) !in broken
      {
        var k := keys[i];
        ListedOnce(listing, old(tree), source, keys, i);
        MovedSoFar(old(tree), keep, source, moved, k);
        var fine := MergeSingleChapter(keep, source, k, broken);
        if !fine {
          assert k in Movable(old(tree), keep, source) && k !in moved;
          MovesUpTo(old(tree), keep, source, listing, broken, keys, i, moved);
          return false, moved;
        }
        if k in Movable(old(tree), keep, source) {
          moved := moved + {k};
        }
        i := i + 1;
      }
      MovesUpTo(old(tree), keep, source, listing, broken, keys, i, moved);
      ok := true;
    }

    /** DeleteManga; one that fails leaves the directory. */
    method DeleteManga(id: string, fails: bool)
      modifies this
      ensures tree == (if fails then old(tree) else Deleted(old(tree), id))
      ensures bindings == (if fails then old(bindings) else old(bindings) - {id})
    {
      if !fails {
        tree := map loc | loc in tree && loc.manga != id :: tree[loc];
        bindings := bindings - {id};
      }
    }

    /** Step 5 of the merge: every source in request order, whether or not the one before went through. */
    method MergeAllChapters(keep: string, sources: seq<string>, listing: seq<Key>, broken: set<Loc>) returns (ghost clean: bool)
      requires keep !in sources && Lists(listing, tree, keep)
      modifies this`tree
      ensures tree == MergedFaulty(old(tree), keep, sources, listing, broken)
      ensures clean ==> tree == MergedAll(old(tree), keep, sources)
      ensures broken == {} ==> clean
      ensures Progress(old(tree), tree, keep, sources, broken)
      ensures forall loc :: loc in old(tree) && loc.manga == keep ==> loc in tree && tree[loc] == old(tree)[loc]
      ensures forall loc :: loc in old(tree) && loc.manga !in sources ==> loc in tree && tree[loc] == old(tree)[loc]
    {
      hide MergedAll, MergedFaulty, Progress, Moves, Lists;
      clean := true;
      MergeNone(tree, keep, listing, broken);
      for i := 0 to |sources|
        invariant tree == MergedFaulty(old(tree), keep, sources[..i], listing, broken)
        invariant clean ==> tree == MergedAll(old(tree), keep, sources[..i])
        invariant broken == {} ==> clean
        invariant forall loc :: loc in old(tree) && loc.manga !in sources ==> loc in tree && tree[loc] == old(tree)[loc]
      {
        assert sources[i] in sources;
        FaultyProgress(old(tree), keep, sources[..i], listing, broken);
        var ok, moved := MergeChapters(keep, sources[i], listing, broken);
        MergeSnoc(old(tree), keep, sources[..i], sources[i], listing, broken);
        assert sources[..i + 1] == sources[..i] + [sources[i]];
        clean := clean && ok;
      }
      assert sources[..|sources|] == sources;
      FaultyProgress(old(tree), keep, sources, listing, broken);
    }

    /** Steps 1, 2 and 4: what can reject the request, and the merged bindings. */
    method ResolveMerge(keep: string, sources: seq<string>, choice: Option<Ref>, order: seq<string>)
      returns (outcome: Outcome, merged: File)
      ensures outcome.BadRequest? || outcome.NotFound? || outcome.Success?
      ensures outcome.NotFound? <==> WellFormed(keep, sources, choice) && !Known(bindings, keep, sources)
      ensures outcome.Success? <==> AcceptedRequest(bindings, keep, sources, choice, order)
      ensures outcome.Success? ==> Normal(merged) == Apply(bindings[keep], MergeOp(bindings, choice, order))
    {
      merged := EMPTY;
      if keep == "" || sources == [] || keep in sources {
        return BadRequest, merged;
      }
      if choice.Some? && (choice.value.providerID == "" || choice.value.mangaID == "") {
        return BadRequest, merged;
      }
      if keep !in bindings {
        return NotFound, merged;
      }
      var i := 0;
      while i < |sources|
        invariant i <= |sources| && forall m :: m in sources[..i] ==> m in bindings
      {
        if sources[i] !in bindings {
          return NotFound, merged;
        }
        i := i + 1;
      }
      assert sources[..i] == sources;
      hide Firsts, Flatten, Bound;
      var file := bindings[keep];
      var providers := MergeProviderRefs(file.providers, ProvidersOf(bindings, order));
      var wanted := Wanted(file, choice);
      if wanted.None? {
        return BadRequest, merged;
      }
      var valid := IsListed(providers, wanted.value.providerID, wanted.value.mangaID);
      if !valid {
        return BadRequest, merged;
      }
      return Success, File(providers, wanted);
    }

    /**
     * mergeLibraryManga, steps 1, 2, 4, 5, 7 and the saved bindings of step 8. `order` is the order in which the
     * handler's map yields the sources, `listing` that of the directories; `broken` renames, `stuck` deletions and
     * the save itself can fail.
     */
    method MergeLibraryManga(keep: string, sources: seq<string>, choice: Option<Ref>, order: seq<string>,
                             listing: seq<Key>, broken: set<Loc>, stuck: set<string>, works: bool) returns (outcome: Outcome)
      requires (forall m :: m in order <==> m in sources) && Lists(listing, tree, keep)
      modifies this
      ensures outcome.NotFound? <==>
                && keep != "" && sources != [] && keep !in sources
                && (choice.Some? ==> choice.value.providerID != "" && choice.value.mangaID != "")
                && !(keep in old(bindings) && forall m :: m in sources ==> m in old(bindings))
      ensures outcome.Success? || outcome.SaveError? <==> AcceptedRequest(old(bindings), keep, sources, choice, order)
      ensures outcome.BadRequest? || outcome.NotFound? ==> tree == old(tree) && bindings == old(bindings)
      ensures outcome.Success? ==>
                && keep in bindings
                && bindings[keep] == Apply(old(bindings)[keep], MergeOp(old(bindings), choice, order))
                && (Consistent(old(bindings)[keep]) ==> Consistent(bindings[keep]))
      ensures outcome.Success? ==>
                && keep in bindings && RefsMerged(old(bindings), keep, sources, bindings[keep].providers)
                && (choice.Some? || old(bindings)[keep].content.Some?)
                && var was := if old(bindings)[keep].content.Some? then old(bindings)[keep].content.value else Source("", "", "", "", 0);
                   bindings[keep].content == Some(Source(if choice.Some? then choice.value.providerID else was.providerID,
                                                         if choice.Some? then choice.value.mangaID else was.mangaID,
                                                         "", was.readingMode, 0))
      ensures (outcome.Success? || outcome.SaveError?) && broken == {} && stuck == {} ==>
                && tree == DeletedAll(MergedAll(old(tree), keep, sources), set m | m in sources)
                && bindings - {keep} == old(bindings) - ({keep} + set m | m in sources)
                && forall k :: Loc(keep, k) in tree <==>
                     || Loc(keep, k) in old(tree)
                     || ((k.provider == "" || k.provider[0] != '.') && exists m :: m in sources && Loc(m, k) in old(tree))
      ensures outcome.Success? || outcome.SaveError? ==>
                forall k :: Loc(keep, k) in tree <==> Arrives(old(tree), keep, sources, listing, broken, k)
      ensures (outcome.Success? || outcome.SaveError?) && stuck == {} ==>
                tree == DeletedAll(MergedFaulty(old(tree), keep, sources, listing, broken), set m | m in sources)
      ensures outcome.Success? || outcome.SaveError? ==>
                && (forall k :: Loc(keep, k) in old(tree) ==> Loc(keep, k) in tree)
                && (forall m, k :: m in sources && Missed(old(tree), tree, keep, m, k) ==> Fails(old(tree), keep, m, broken))
                && (forall k :: Loc(keep, k) in tree ==> Loc(keep, k) in old(tree) || Gives(old(tree), sources, k, broken))
      ensures (outcome.Success? || outcome.SaveError?) && stuck == {} && |sources| == 1 ==>
                ((exists k :: Missed(old(tree), tree, keep, sources[0], k) && Loc(sources[0], k) !in tree)
                 <==> Fails(old(tree), keep, sources[0], broken))
    {
      hide RefsMerged, Lookup;
      hide AcceptedRequest, Apply, Consistent, MergedAll, MergedFaulty, Arrives, Lists, Firsts, Fails, Gives;
      var resolved, merged := ResolveMerge(keep, sources, choice, order);
      if !resolved.Success? {
        return resolved;
      }
      ghost var op := MergeOp(bindings, choice, order);
      AcceptedIsKnown(bindings, keep, sources, choice, order);
      MergeStaysConsistentHere(bindings[keep], op);
      ghost var clean := MergeAllChapters(keep, sources, listing, broken);
      ghost var moved := tree;
      DeleteSources(keep, sources, stuck);
      KeepStays(old(tree), moved, tree, keep, sources, broken);
      KeepIsExact(old(tree), tree, keep, sources, listing, broken);
      MergedRefs(old(bindings), keep, sources, choice, order);
      MergedContent(old(bindings), keep, sources, choice, order);
      UnionInKeep(old(tree), keep, sources);
      if !works {
        return SaveError;
      }
      var out := Normalize(merged.providers);
      bindings := bindings[keep := File(out, merged.content)];
      outcome := Success;
    }

    /** Step 7: every source directory, whether or not its chapters moved. */
    method DeleteSources(keep: string, sources: seq<string>, stuck: set<string>)
      requires keep !in sources
      modifies this
      ensures stuck == {} ==> tree == DeletedAll(old(tree), set m | m in sources)
      ensures forall loc: Loc :: loc.manga !in sources ==> Lookup(tree, loc) == Lookup(old(tree), loc)
      ensures stuck == {} ==> bindings == old(bindings) - set m | m in sources
      ensures keep in old(bindings) ==> keep in bindings && bindings[keep] == old(bindings)[keep]
    {
      for i := 0 to |sources|
        invariant stuck == {} ==> tree == DeletedAll(old(tree), set m | m in sources[..i])
        invariant forall loc: Loc :: loc.manga !in sources ==> Lookup(tree, loc) == Lookup(old(tree), loc)
        invariant stuck == {} ==> bindings == old(bindings) - set m | m in sources[..i]
        invariant keep in old(bindings) ==> keep in bindings && bindings[keep] == old(bindings)[keep]
      {
        assert sources[i] in sources;
        assert sources[..i + 1] == sources[..i] + [sources[i]];
        DeleteManga(sources[i], sources[i] in stuck);
      }
      assert sources[..|sources|] == sources;
    }
  }

  function ProvidersOf(all: map<string, File>, order: seq<string>): seq<seq<Ref>> {
    seq(|order|, i requires 0 <= i < |order| => if order[i] in all then all[order[i]].providers else [])
  }

  /** What the merge does to the kept manga's bindings. */
  function MergeOp(all: map<string, File>, choice: Option<Ref>, order: seq<string>): Op {
    Merge(ProvidersOf(all, order), choice)
  }

  predicate WellFormed(keep: string, sources: seq<string>, choice: Option<Ref>) {
    && keep != "" && sources != [] && keep !in sources
    && (choice.Some? ==> choice.value.providerID != "" && choice.value.mangaID != "")
  }

  predicate Known(all: map<string, File>, keep: string, sources: seq<string>) {
    keep in all && forall m :: m in sources ==> m in all
  }

  predicate AcceptedRequest(all: map<string, File>, keep: string, sources: seq<string>, choice: Option<Ref>, order: seq<string>) {
    WellFormed(keep, sources, choice) && Known(all, keep, sources) && Accepted(all[keep], MergeOp(all, choice, order))
  }

  /** A bindings file as saving writes it. */
  function Normal(f: File): File {
    f.(providers := Firsts(f.providers))
  }

  /** Every ref of keep or a source has its key in the list, and only theirs are in it. */
  ghost predicate RefsMerged(all: map<string, File>, keep: string, sources: seq<string>, merged: seq<Ref>) {
    && (forall p :: p in merged ==> exists m :: (m == keep || m in sources) && m in all && p in all[m].providers)
    && (forall m, p :: (m == keep || m in sources) && m in all && p in all[m].providers ==> KeyOf(p) in Keys(merged))
  }

  lemma MergedRefs(all: map<string, File>, keep: string, sources: seq<string>, choice: Option<Ref>, order: seq<string>)
    requires AcceptedRequest(all, keep, sources, choice, order) && forall m :: m in order <==> m in sources
    ensures RefsMerged(all, keep, sources, Apply(all[keep], MergeOp(all, choice, order)).providers)
  {
    var f, op := all[keep], MergeOp(all, choice, order);
    var listed := f.providers + Flatten(op.sources);
    FirstsKeepKeys(listed);
    FirstsOfDistinct(Firsts(listed));
    hide Firsts, Keys, KeyOf;
    assert Apply(f, op).providers == Firsts(listed);
    forall p ensures p in listed <==> exists m :: (m == keep || m in sources) && m in all && p in all[m].providers {
      FlattenHolds(op.sources, p);
      if p in Flatten(op.sources) {
        var i :| 0 <= i < |op.sources| && p in op.sources[i];
        assert order[i] in order;
      }
      if m :| m in sources && m in all && p in all[m].providers {
        var i :| 0 <= i < |order| && order[i] == m;
        assert op.sources[i] == all[m].providers;
      }
    }
    forall p | p in Firsts(listed) ensures p in listed {
      var i := FirstsAreFirst(listed, p);
    }
    KeysOfAll(listed);
  }

  /** The content source after the merge, field by field. */
  lemma MergedContent(all: map<string, File>, keep: string, sources: seq<string>, choice: Option<Ref>, order: seq<string>)
    requires AcceptedRequest(all, keep, sources, choice, order)
    ensures keep in all && (choice.Some? || all[keep].content.Some?)
    ensures var was := if all[keep].content.Some? then all[keep].content.value else Source("", "", "", "", 0);
            Apply(all[keep], MergeOp(all, choice, order)).content
            == Some(Source(if choice.Some? then choice.value.providerID else was.providerID,
                           if choice.Some? then choice.value.mangaID else was.mangaID, "", was.readingMode, 0))
  {
    hide Firsts, Flatten;
  }

  lemma KeysOfAll(ps: seq<Ref>)
    ensures forall p :: p in ps ==> KeyOf(p) in Keys(ps)
  {
    forall p | p in ps ensures KeyOf(p) in Keys(ps) {
      var i :| 0 <= i < |ps| && ps[i] == p;
    }
  }

  lemma {:induction false} FlattenHolds(lists: seq<seq<Ref>>, p: Ref)
    ensures p in Flatten(lists) <==> exists i :: 0 <= i < |lists| && p in lists[i]
    decreases |lists|
  {
    if lists != [] {
      FlattenHolds(lists[..|lists| - 1], p);
    }
  }

  lemma AcceptedIsKnown(all: map<string, File>, keep: string, sources: seq<string>, choice: Option<Ref>, order: seq<string>)
    requires AcceptedRequest(all, keep, sources, choice, order)
    ensures keep in all && keep !in sources
  {
  }

  /** The dedup loop of mergeProviderRefs over keep and then each source. */
  method MergeProviderRefs(keep: seq<Ref>, lists: seq<seq<Ref>>) returns (out: seq<Ref>)
    ensures out == Firsts(keep + Flatten(lists))
  {
    hide Firsts, Flatten;
    var seen: set<string>;
    FirstsOfNone();
    out, seen := AddRefs(keep, [], {}, []);
    assert [] + keep == keep;
    FlattenNone();
    assert keep + [] == keep;
    for i := 0 to |lists|
      invariant seen == Keys(keep + Flatten(lists[..i])) && out == Firsts(keep + Flatten(lists[..i]))
    {
      out, seen := AddRefs(lists[i], out, seen, keep + Flatten(lists[..i]));
      FlattenSnoc(lists[..i], lists[i]);
      assert lists[..i + 1] == lists[..i] + [lists[i]];
      assert keep + Flatten(lists[..i]) + lists[i] == keep + (Flatten(lists[..i]) + lists[i]);
    }
    assert lists[..|lists|] == lists;
  }

  lemma FlattenNone()
    ensures Flatten([]) == []
  {
  }

  lemma FlattenSnoc(lists: seq<seq<Ref>>, last: seq<Ref>)
    ensures Flatten(lists + [last]) == Flatten(lists) + last
  {
    assert (lists + [last])[..|lists|] == lists;
  }

  /** The closure `add`: `before` is all it was called with so far. */
  method AddRefs(refs: seq<Ref>, out0: seq<Ref>, seen0: set<string>, ghost before: seq<Ref>)
    returns (out: seq<Ref>, seen: set<string>)
    requires out0 == Firsts(before) && seen0 == Keys(before)
    ensures out == Firsts(before + refs) && seen == Keys(before + refs)
  {
    hide Firsts;
    out, seen := out0, seen0;
    assert before + refs[..0] == before;
    for i := 0 to |refs|
      invariant out == Firsts(before + refs[..i]) && seen == Keys(before + refs[..i])
    {
      var p := refs[i];
      assert before + refs[..i + 1] == before + refs[..i] + [p];
      FirstsSnoc(before + refs[..i], p);
      if KeyOf(p) in seen {
        continue;
      }
      seen := seen + {KeyOf(p)};
      out := out + [p];
    }
    assert before + refs[..|refs|] == before + refs;
  }

  method IsListed(ps: seq<Ref>, providerID: string, mangaID: string) returns (found: bool)
    ensures found <==> Bound(ps, providerID, mangaID)
  {
    var i := 0;
    while i < |ps|
      invariant i <= |ps| && forall j :: 0 <= j < i ==> !IsPair(ps[j], providerID, mangaID)
    {
      if IsPair(ps[i], providerID, mangaID) {
        return true;
      }
      i := i + 1;
    }
    return false;
  }

  lemma MergeStaysConsistentHere(f: File, op: Op)
    requires op.Merge?
    ensures Consistent(f) ==> Consistent(Apply(f, op))
  {
    if Consistent(f) {
      MergeStaysConsistent(f, op);
    }
  }

  /** The visible keys of the manga, in the order of the listing. */
  ghost predicate ListedFrom(listing: seq<Key>, t: Tree, manga: string, keys: seq<Key>) {
    && (forall k :: k in keys <==> Loc(manga, k) in t && !Hidden(k))
    && (forall p, q :: 0 <= p < |keys| && 0 <= q < |keys| ==> (Before(listing, keys[p], keys[q]) <==> p <= q))
  }

  lemma BeforeIff(listing: seq<Key>, i: nat, j: nat)
    requires i < |listing| && j < |listing|
    requires forall p, q :: 0 <= p < q < |listing| ==> listing[p] != listing[q]
    ensures Before(listing, listing[i], listing[j]) <==> i <= j
  {
  }

  lemma ListedOnce(listing: seq<Key>, t: Tree, manga: string, keys: seq<Key>, i: nat)
    requires ListedFrom(listing, t, manga, keys) && i < |keys|
    ensures keys[i] !in keys[..i] && Loc(manga, keys[i]) in t && !Hidden(keys[i])
  {
    hide Before;
    assert keys[i] in keys;
  }

  /** The loop over the keys has moved what it should when it ends or stops. */
  lemma MovesUpTo(t: Tree, keep: string, source: string, listing: seq<Key>, broken: set<Loc>, keys: seq<Key>, i: nat, moved: set<Key>)
    requires ListedFrom(listing, t, source, keys) && i <= |keys|
    requires forall k :: k in moved <==> k in keys[..i] && k in Movable(t, keep, source)
    requires forall k :: k in moved ==> Loc(source, k) !in broken
    requires i < |keys| ==> keys[i] in Movable(t, keep, source) && Loc(source, keys[i]) in broken
    ensures moved == Moves(t, keep, source, listing, broken)
    ensures i == |keys| <==> moved == Movable(t, keep, source)
  {
    hide Before, Hidden;
    assert i < |keys| ==> keys[i] !in keys[..i];
    forall k | k in Movable(t, keep, source) ensures k in moved <==> k in Moves(t, keep, source, listing, broken) {
      assert k in keys;
      var p :| 0 <= p < |keys| && keys[p] == k;
      if p < i {
        forall q | q in Movable(t, keep, source) && Before(listing, q, k) ensures q in moved {
          assert q in keys;
          var r :| 0 <= r < |keys| && keys[r] == q;
          assert r <= p;
        }
      } else {
        assert Before(listing, keys[i], k);
      }
    }
  }

  lemma MoveNothing(t: Tree, keep: string, source: string)
    requires keep != source
    ensures Move(t, keep, source, {}) == t
  {
  }

  /** One more chapter after those already moved. */
  lemma MovedSoFar(t: Tree, keep: string, source: string, moved: set<Key>, k: Key)
    requires keep != source && moved <= Movable(t, keep, source) && k !in moved
    ensures var n := Move(t, keep, source, moved);
            && (Loc(source, k) in n <==> Loc(source, k) in t) && (Loc(keep, k) in n <==> Loc(keep, k) in t)
            && (k in Movable(t, keep, source) <==> k in Movable(n, keep, source))
            && (k in Movable(t, keep, source) ==>
                  Move(n, keep, source, {k}) == Move(t, keep, source, moved + {k}))
  {
  }

  lemma MergeNone(t: Tree, keep: string, listing: seq<Key>, broken: set<Loc>)
    ensures MergedAll(t, keep, []) == MergedFaulty(t, keep, [], listing, broken) == t
  {
  }

  lemma MergeSnoc(t: Tree, keep: string, sources: seq<string>, last: string, listing: seq<Key>, broken: set<Loc>)
    requires keep !in sources && keep != last
    ensures var n := MergedFaulty(t, keep, sources, listing, broken);
            MergedFaulty(t, keep, sources + [last], listing, broken) == Move(n, keep, last, Moves(n, keep, last, listing, broken))
    ensures MergedAll(t, keep, sources + [last]) == Merged(MergedAll(t, keep, sources), keep, last)
  {
    assert (sources + [last])[..|sources|] == sources;
  }
}
