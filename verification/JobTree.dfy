/** Parent links: the subtree of a job, what deleting it leaves, and the recursive SQL query that lists it. */
module JobTree {
  import opened Options
  import opened Jobs

  /** The n-th ancestor of x, following parent links through stored rows. */
  function Chain(jobs: Store, x: string, n: nat): Option<string>
    decreases n
  {
    if n == 0 then Some(x)
    else if x in jobs && jobs[x].parent.Some? then Chain(jobs, jobs[x].parent.value, n - 1)
    else None
  }

  ghost predicate Under(jobs: Store, x: string, root: string) {
    exists n: nat :: Chain(jobs, x, n) == Some(root)
  }

  /** The stored rows at or below root. */
  ghost function Tree(jobs: Store, root: string): set<string> {
    set x | x in jobs && Under(jobs, x, root)
  }

  /** The stored rows at or below any of the roots. */
  ghost function Forest(jobs: Store, roots: set<string>): set<string> {
    set x | x in jobs && exists r :: r in roots && Under(jobs, x, r)
  }

  /** The rows that deleting the trees of these ids removes; an id that is not stored stands for nothing. */
  ghost function Doomed(jobs: Store, ids: set<string>): set<string> {
    Forest(jobs, ids * jobs.Keys)
  }

  function Children(jobs: Store, id: string): set<string> {
    set x | x in jobs && jobs[x].parent == Some(id)
  }

  ghost predicate ChildClosed(jobs: Store, s: set<string>) {
    forall x :: x in jobs && jobs[x].parent.Some? && jobs[x].parent.value in s ==> x in s
  }

  /** The job is its own proper ancestor. */
  ghost predicate OnCycle(jobs: Store, id: string) {
    exists n: nat :: n > 0 && Chain(jobs, id, n) == Some(id)
  }

  /** Every named parent is stored; "" names no parent. */
  ghost predicate ParentClosed(jobs: Store) {
    forall x :: x in jobs && jobs[x].parent.Some? && jobs[x].parent.value != "" ==> jobs[x].parent.value in jobs
  }

  ghost predicate SameLinks(a: Store, b: Store) {
    a.Keys == b.Keys && forall x :: x in a ==> a[x].parent == b[x].parent
  }

  lemma {:induction false} ChainAdd(jobs: Store, x: string, m: nat, n: nat)
    requires Chain(jobs, x, m).Some?
    ensures Chain(jobs, x, m + n) == Chain(jobs, Chain(jobs, x, m).value, n)
    decreases m
  {
    if m > 0 {
      ChainAdd(jobs, jobs[x].parent.value, m - 1, n);
    }
  }

  /** Any child-closed set holding the root holds the whole subtree. */
  lemma {:induction false} ClosedHoldsChain(jobs: Store, s: set<string>, root: string, x: string, n: nat)
    requires root in s && ChildClosed(jobs, s) && Chain(jobs, x, n) == Some(root)
    ensures x in s
    decreases n
  {
    if n > 0 {
      ClosedHoldsChain(jobs, s, root, jobs[x].parent.value, n - 1);
    }
  }

  lemma UnderParent(jobs: Store, x: string, root: string)
    requires x in jobs && jobs[x].parent.Some? && Under(jobs, jobs[x].parent.value, root)
    ensures Under(jobs, x, root)
  {
    var n: nat :| Chain(jobs, jobs[x].parent.value, n) == Some(root);
    assert Chain(jobs, x, n + 1) == Some(root);
  }

  lemma UnderSelf(jobs: Store, x: string)
    ensures Under(jobs, x, x)
  {
    assert Chain(jobs, x, 0) == Some(x);
  }

  lemma ForestIsChildClosed(jobs: Store, roots: set<string>)
    ensures ChildClosed(jobs, Forest(jobs, roots) + (roots - jobs.Keys))
    ensures ChildClosed(jobs, Forest(jobs, roots))
  {
    forall x | x in jobs && jobs[x].parent.Some? && jobs[x].parent.value in Forest(jobs, roots) + (roots - jobs.Keys)
      ensures x in Forest(jobs, roots)
    {
      var p := jobs[x].parent.value;
      if p in roots {
        UnderSelf(jobs, p);
      }
      var r :| r in roots && Under(jobs, p, r);
      UnderParent(jobs, x, r);
    }
  }

  /** Removing a child-closed set leaves every remaining chain as it was. */
  lemma {:induction false} ChainAfterRemoval(jobs: Store, gone: set<string>, x: string, n: nat)
    requires ChildClosed(jobs, gone) && x in jobs && x !in gone
    ensures Chain(jobs - gone, x, n) == Chain(jobs, x, n)
    decreases n
  {
    var left := jobs - gone;
    if n > 1 && jobs[x].parent.Some? {
      var p := jobs[x].parent.value;
      if p in jobs {
        ChainAfterRemoval(jobs, gone, p, n - 1);
      }
    }
  }

  lemma TreeAfterRemoval(jobs: Store, gone: set<string>, root: string)
    requires ChildClosed(jobs, gone)
    ensures Tree(jobs - gone, root) == Tree(jobs, root) - gone
  {
    forall x, n: nat | x in jobs && x !in gone
      ensures Chain(jobs - gone, x, n) == Chain(jobs, x, n)
    {
      ChainAfterRemoval(jobs, gone, x, n);
    }
  }

  /** A store closed under parents stays so when whole subtrees are removed. */
  lemma RemovalKeepsParentClosed(jobs: Store, roots: set<string>)
    requires ParentClosed(jobs)
    ensures ParentClosed(jobs - Forest(jobs, roots))
  {
    ForestIsChildClosed(jobs, roots);
  }

  /** Without its top row, a subtree is the forest of the top row's other children. */
  lemma {:induction false} BelowTop(jobs: Store, id: string, x: string, n: nat)
    requires x in jobs && x != id && Chain(jobs, x, n) == Some(id)
    ensures x in Forest(jobs - {id}, Children(jobs, id) - {id})
    decreases n
  {
    var left := jobs - {id};
    var p := jobs[x].parent.value;
    if p == id {
      UnderSelf(left, x);
    } else {
      assert n > 1;
      BelowTop(jobs, id, p, n - 1);
      var c :| c in Children(jobs, id) - {id} && Under(left, p, c);
      UnderParent(left, x, c);
    }
  }

  lemma {:induction false} ChainInSmaller(jobs: Store, gone: set<string>, x: string, n: nat)
    requires Chain(jobs - gone, x, n).Some?
    ensures Chain(jobs, x, n) == Chain(jobs - gone, x, n)
    decreases n
  {
    if n > 0 {
      ChainInSmaller(jobs, gone, jobs[x].parent.value, n - 1);
    }
  }

  lemma TreeByChildren(jobs: Store, id: string)
    requires id in jobs
    ensures Tree(jobs, id) == {id} + Forest(jobs - {id}, Children(jobs, id) - {id})
  {
    var left := jobs - {id};
    var kids := Children(jobs, id) - {id};
    UnderSelf(jobs, id);
    forall x | x in Tree(jobs, id) ensures x == id || x in Forest(left, kids) {
      if x != id {
        var n: nat :| Chain(jobs, x, n) == Some(id);
        BelowTop(jobs, id, x, n);
      }
    }
    forall x | x in Forest(left, kids) ensures x in Tree(jobs, id) {
      var c :| c in kids && Under(left, x, c);
      var n: nat :| Chain(left, x, n) == Some(c);
      ChainInSmaller(jobs, {id}, x, n);
      ChainAdd(jobs, x, n, 1);
      assert Chain(jobs, c, 1) == Chain(jobs, id, 0);
      assert Chain(jobs, x, n + 1) == Some(id);
    }
  }

  lemma OrphanChain(jobs: Store, c: string, id: string, n: nat)
    requires c in jobs && jobs[c].parent == Some(id) && id !in jobs
    ensures Chain(jobs, c, n) == (if n == 0 then Some(c) else if n == 1 then Some(id) else None)
  {
    if n > 0 {
      assert Chain(jobs, c, n) == Chain(jobs, id, n - 1);
    }
  }

  /** A child of a removed row is below no other child of it. */
  lemma SiblingsApart(jobs: Store, id: string, c: string, others: set<string>)
    requires c in Children(jobs, id) && c != id && others <= Children(jobs, id) - {id} && c !in others
    ensures c !in Forest(jobs - {id}, others)
  {
    forall n: nat ensures Chain(jobs - {id}, c, n) in {Some(c), Some(id), None} {
      OrphanChain(jobs - {id}, c, id, n);
    }
  }

  /** A child-closed part of the subtree that holds the top row is the whole subtree. */
  lemma ClosedIsTree(jobs: Store, root: string, s: set<string>)
    requires root in s && ChildClosed(jobs, s) && s <= Tree(jobs, root)
    ensures s == Tree(jobs, root)
  {
    forall x | x in Tree(jobs, root) ensures x in s {
      var n: nat :| Chain(jobs, x, n) == Some(root);
      ClosedHoldsChain(jobs, s, root, x, n);
    }
  }

  // ---------------------------------------------------------------------------
  // The recursive query of the SQLite driver: rows level by level under UNION ALL.

  /** The rows the query emits in its n-th round. */
  ghost function Level(jobs: Store, root: string, n: nat): set<string> {
    set x | x in jobs && Chain(jobs, x, n) == Some(root)
  }

  function ChildrenOf(jobs: Store, ids: set<string>): set<string> {
    set x | x in jobs && jobs[x].parent.Some? && jobs[x].parent.value in ids
  }

  lemma {:induction false} LevelStep(jobs: Store, root: string, n: nat)
    requires root in jobs
    ensures Level(jobs, root, n + 1) == ChildrenOf(jobs, Level(jobs, root, n))
  {
    forall x | x in jobs
      ensures x in Level(jobs, root, n + 1) <==> x in ChildrenOf(jobs, Level(jobs, root, n))
    {
      if jobs[x].parent.Some? {
        assert Chain(jobs, x, n + 1) == Chain(jobs, jobs[x].parent.value, n);
      }
    }
  }

  lemma LevelsApart(jobs: Store, root: string, x: string, m: nat, n: nat)
    requires !OnCycle(jobs, root) && m < n && Chain(jobs, x, m) == Some(root)
    ensures Chain(jobs, x, n) != Some(root)
  {
    ChainAdd(jobs, x, m, n - m);
  }

  ghost function LevelsBelow(jobs: Store, root: string, n: nat): set<string> {
    set x | x in jobs && exists m: nat :: m < n && Chain(jobs, x, m) == Some(root)
  }

  lemma {:induction false} LevelsGrow(jobs: Store, root: string, n: nat)
    requires !OnCycle(jobs, root) && forall m: nat :: m < n ==> Level(jobs, root, m) != {}
    ensures |LevelsBelow(jobs, root, n)| >= n
  {
    if n > 0 {
      LevelsGrow(jobs, root, n - 1);
      var x :| x in Level(jobs, root, n - 1);
      forall m: nat | m < n - 1 ensures Chain(jobs, x, m) != Some(root) {
        if Chain(jobs, x, m) == Some(root) {
          LevelsApart(jobs, root, x, m, n - 1);
        }
      }
      var smaller := LevelsBelow(jobs, root, n - 1);
      assert x !in smaller && smaller + {x} <= LevelsBelow(jobs, root, n);
      SubsetSize(smaller + {x}, LevelsBelow(jobs, root, n));
    }
  }

  lemma {:induction false} SubsetSize<T>(a: set<T>, b: set<T>)
    requires a <= b
    ensures |a| <= |b|
    ensures |a| == |b| ==> a == b
    decreases a
  {
    if a != {} {
      var x :| x in a;
      SubsetSize(a - {x}, b - {x});
    } else if b != {} {
      var y :| y in b;
      assert |b - {y}| + 1 == |b|;
    }
  }

  lemma {:induction false} CycleChains(jobs: Store, root: string, n: nat, k: nat)
    requires n > 0 && Chain(jobs, root, n) == Some(root)
    ensures Chain(jobs, root, n * k) == Some(root)
  {
    if k > 0 {
      CycleChains(jobs, root, n, k - 1);
      ChainAdd(jobs, root, n * (k - 1), n);
      assert n * (k - 1) + n == n * k;
    }
  }

  /** The query runs out of rows exactly when the job is not its own ancestor. */
  lemma QueryEndsIffAcyclic(jobs: Store, root: string)
    requires root in jobs
    ensures (exists n: nat :: Level(jobs, root, n) == {}) <==> !OnCycle(jobs, root)
  {
    if OnCycle(jobs, root) {
      var c: nat :| c > 0 && Chain(jobs, root, c) == Some(root);
      forall n: nat ensures Level(jobs, root, n) != {} {
        CycleChains(jobs, root, c, n);
        var total := c * n;
        assert total >= n by { assert c * n >= 1 * n; }
        ChainSome(jobs, root, total - n, n);
        var y := Chain(jobs, root, total - n).value;
        ChainAdd(jobs, root, total - n, n);
        if n > 0 {
          assert y in jobs;
        }
        assert (if n == 0 then root else y) in Level(jobs, root, n);
      }
    } else if forall n: nat :: Level(jobs, root, n) != {} {
      LevelsGrow(jobs, root, |jobs| + 1);
      SubsetSize(LevelsBelow(jobs, root, |jobs| + 1), jobs.Keys);
    }
  }

  lemma {:induction false} ChainSome(jobs: Store, x: string, m: nat, n: nat)
    requires Chain(jobs, x, m + n).Some?
    ensures Chain(jobs, x, m).Some?
    decreases m
  {
    if m > 0 {
      ChainSome(jobs, jobs[x].parent.value, m - 1, n);
    }
  }

  /** What the query returns: nothing for an unknown id, otherwise the whole subtree. */
  method RecursiveQuery(jobs: Store, root: string) returns (rows: set<string>)
    requires !OnCycle(jobs, root)
    ensures rows == if root in jobs then Tree(jobs, root) else {}
  {
    var frontier := if root in jobs then {root} else {};
    rows := frontier;
    ghost var n := 0;
    if root in jobs {
      UnderSelf(jobs, root);
      assert frontier == Level(jobs, root, 0);
    }
    while frontier != {}
      invariant rows <= jobs.Keys
      invariant root !in jobs ==> rows == {} && frontier == {}
      invariant root in jobs ==> root in rows && frontier == Level(jobs, root, n) && frontier <= rows
      invariant root in jobs ==> rows == LevelsBelow(jobs, root, n + 1)
      invariant ChildrenOf(jobs, rows - frontier) <= rows
      decreases jobs.Keys - rows, frontier != {}
    {
      LevelStep(jobs, root, n);
      var next := ChildrenOf(jobs, frontier);
      forall x | x in next ensures x !in rows {
        if x in rows {
          var m: nat :| m < n + 1 && Chain(jobs, x, m) == Some(root);
          LevelsApart(jobs, root, x, m, n + 1);
        }
      }
      assert rows + next == LevelsBelow(jobs, root, n + 2);
      frontier := next;
      rows := rows + next;
      n := n + 1;
    }
    if root in jobs {
      assert forall x :: x in rows ==> Under(jobs, x, root);
      ClosedIsTree(jobs, root, rows);
    }
  }

  /** A job that names itself as its parent keeps the query going. */
  lemma {:induction false} SelfParentNeverEnds(j: Job, n: nat)
    requires j.parent == Some("a")
    ensures "a" in Level(map["a" := j], "a", n)
  {
    if n > 0 {
      SelfParentNeverEnds(j, n - 1);
    }
  }
}
