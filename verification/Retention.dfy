/** Which root trees a cleanup may prune, and what any cleanup leaves behind. */
module Retention {
  import opened Options
  import opened Jobs
  import opened JobTree

  predicate IsRoot(j: Job) {
    j.parent == None || j.parent == Some("")
  }

  /** No job of the tree is active, and its youngest one is past the cutoff: the failed one if any job failed. */
  ghost predicate TreeExpired(jobs: Store, tree: set<string>, completedCutoff: Time, failedCutoff: Time)
    requires tree <= jobs.Keys
  {
    && (forall x :: x in tree ==> !Active(jobs[x]))
    && (if exists x :: x in tree && jobs[x].status.Failed?
        then forall x :: x in tree ==> FinishedAt(jobs[x]) <= failedCutoff
        else forall x :: x in tree ==> FinishedAt(jobs[x]) <= completedCutoff)
  }

  ghost function ExpiredRoots(jobs: Store, completedCutoff: Time, failedCutoff: Time): set<string> {
    set r | r in jobs && IsRoot(jobs[r]) && TreeExpired(jobs, Tree(jobs, r), completedCutoff, failedCutoff)
  }

  predicate AllDistinct<T(==)>(s: seq<T>) {
    forall i, j :: 0 <= i < j < |s| ==> s[i] != s[j]
  }

  /** The order in which a driver meets the roots of its store. */
  ghost predicate ListsRoots(jobs: Store, rootIDs: seq<string>) {
    AllDistinct(rootIDs) && forall r :: r in rootIDs <==> r in jobs && IsRoot(jobs[r])
  }

  /** The expired ones among the first i listed roots. */
  ghost function ExpiredAmong(jobs: Store, rootIDs: seq<string>, i: nat, cc: Time, fc: Time): set<string>
    requires i <= |rootIDs|
  {
    (set r | r in rootIDs[..i]) * ExpiredRoots(jobs, cc, fc)
  }

  function BatchLimit(batchSize: int): (n: nat)
    ensures n > 0
  {
    if batchSize <= 0 then 500 else batchSize
  }

  function Min(a: nat, b: nat): nat {
    if a <= b then a else b
  }

  /** `chosen` is a full batch of expired roots. */
  ghost predicate IsBatch(jobs: Store, chosen: set<string>, completedCutoff: Time, failedCutoff: Time, batchSize: int) {
    var expired := ExpiredRoots(jobs, completedCutoff, failedCutoff);
    chosen <= expired && |chosen| == Min(BatchLimit(batchSize), |expired|)
  }

  /** The retention rule in the fields of the rows: a root goes if nothing in its tree is active or too young. */
  lemma RetentionRule(jobs: Store, completedCutoff: Time, failedCutoff: Time, r: string)
    ensures r in ExpiredRoots(jobs, completedCutoff, failedCutoff)
            <==> && r in jobs && (jobs[r].parent == None || jobs[r].parent == Some(""))
                 && var tree := Tree(jobs, r);
                    var cutoff := if exists y :: y in tree && jobs[y].status.Failed? then failedCutoff else completedCutoff;
                    forall x :: x in tree ==>
                      && !jobs[x].status.Pending? && !jobs[x].status.Running?
                      && (if jobs[x].completedAt.Some? then jobs[x].completedAt.value else jobs[x].updatedAt) <= cutoff
  {
    hide Under;
  }

  /** A batch is all expired roots, or as many of them as the batch size allows; the default is 500. */
  lemma BatchRule(jobs: Store, chosen: set<string>, completedCutoff: Time, failedCutoff: Time, batchSize: int)
    ensures IsBatch(jobs, chosen, completedCutoff, failedCutoff, batchSize)
            <==> var expired := ExpiredRoots(jobs, completedCutoff, failedCutoff);
                 var limit := if batchSize <= 0 then 500 else batchSize;
                 chosen <= expired && |chosen| <= limit && (chosen == expired || |chosen| == limit)
  {
    hide ExpiredRoots;
    if chosen <= ExpiredRoots(jobs, completedCutoff, failedCutoff) {
      SubsetSize(chosen, ExpiredRoots(jobs, completedCutoff, failedCutoff));
    }
  }

  /** The HAVING clause as the query states it: row counts per status and the youngest finish time. */
  ghost predicate Having(jobs: Store, tree: set<string>, completedCutoff: Time, failedCutoff: Time)
    requires tree <= jobs.Keys && tree != {}
  {
    var active := |set x | x in tree && Active(jobs[x])|;
    var failed := |set x | x in tree && jobs[x].status.Failed?|;
    active == 0 && ((failed == 0 && MaxFinished(jobs, tree) <= completedCutoff)
                    || (failed > 0 && MaxFinished(jobs, tree) <= failedCutoff))
  }

  /** MAX(COALESCE(completed_at, updated_at)) over a group of rows. */
  ghost function MaxFinished(jobs: Store, tree: set<string>): (m: Time)
    requires tree <= jobs.Keys && tree != {}
    ensures forall x :: x in tree ==> FinishedAt(jobs[x]) <= m
    ensures exists x :: x in tree && FinishedAt(jobs[x]) == m
    decreases tree
  {
    var y :| y in tree;
    if tree == {y} then FinishedAt(jobs[y])
    else
      var rest := MaxFinished(jobs, tree - {y});
      assert forall x :: x in tree ==> x == y || x in tree - {y};
      if FinishedAt(jobs[y]) > rest then FinishedAt(jobs[y]) else rest
  }

  lemma HavingIsExpired(jobs: Store, tree: set<string>, completedCutoff: Time, failedCutoff: Time)
    requires tree <= jobs.Keys && tree != {}
    ensures Having(jobs, tree, completedCutoff, failedCutoff) <==> TreeExpired(jobs, tree, completedCutoff, failedCutoff)
  {
    var active := set x | x in tree && Active(jobs[x]);
    var failed := set x | x in tree && jobs[x].status.Failed?;
    assert |active| == 0 <==> active == {};
    assert |failed| == 0 <==> failed == {};
    assert forall x :: x in active <==> x in tree && Active(jobs[x]);
    assert failed != {} <==> exists x :: x in failed;
    var m := MaxFinished(jobs, tree);
    var y :| y in tree && FinishedAt(jobs[y]) == m;
    assert m <= completedCutoff <==> forall x :: x in tree ==> FinishedAt(jobs[x]) <= completedCutoff;
    assert m <= failedCutoff <==> forall x :: x in tree ==> FinishedAt(jobs[x]) <= failedCutoff;
  }

  /** Trees of two stored jobs share no row exactly when neither job is above the other. */
  lemma RootTreesApart(jobs: Store, r: string, q: string)
    requires r in jobs && q in jobs && r != q
    ensures Tree(jobs, r) !! Tree(jobs, q) <==> !Under(jobs, r, q) && !Under(jobs, q, r)
  {
    UnderSelf(jobs, r);
    UnderSelf(jobs, q);
    forall x | x in jobs && Under(jobs, x, r) && Under(jobs, x, q) ensures Under(jobs, r, q) || Under(jobs, q, r) {
      var m: nat :| Chain(jobs, x, m) == Some(r);
      var n: nat :| Chain(jobs, x, n) == Some(q);
      if m <= n {
        ChainAdd(jobs, x, m, n - m);
      } else {
        ChainAdd(jobs, x, n, m - n);
      }
    }
    assert Under(jobs, r, q) ==> r in Tree(jobs, r) && r in Tree(jobs, q);
    assert Under(jobs, q, r) ==> q in Tree(jobs, r) && q in Tree(jobs, q);
  }

  /** No root is below another one. */
  ghost predicate RootsApart(jobs: Store) {
    forall r, q :: r in jobs && q in jobs && IsRoot(jobs[r]) && IsRoot(jobs[q]) && r != q ==> !Under(jobs, r, q)
  }

  /** No root is its own ancestor, so that the recursive queries on roots end. */
  ghost predicate RootsOffCycles(jobs: Store) {
    forall r :: r in jobs && IsRoot(jobs[r]) ==> !OnCycle(jobs, r)
  }

  /** Both hold as long as no job is stored under the empty id, which a root may name as its parent. */
  lemma NonEmptyIdsKeepRootsApart(jobs: Store)
    requires "" !in jobs
    ensures RootsApart(jobs) && RootsOffCycles(jobs)
  {
    forall r, k: nat | r in jobs && IsRoot(jobs[r]) && k > 0
      ensures Chain(jobs, r, k) == None || Chain(jobs, r, k) == Some("")
    {
      if jobs[r].parent.Some? {
        assert Chain(jobs, r, k) == Chain(jobs, "", k - 1);
      }
    }
    assert forall r :: Chain(jobs, r, 0) == Some(r);
  }

  /** A job stored under the empty id takes in the trees of roots that name "" as their parent. */
  lemma EmptyIdJoinsRoots(top: Job, other: Job)
    requires top.parent == None && other.parent == Some("")
    ensures var jobs := map["" := top, "r" := other];
            IsRoot(jobs[""]) && IsRoot(jobs["r"]) && !RootsApart(jobs) && "r" in Tree(jobs, "")
  {
    var jobs := map["" := top, "r" := other];
    assert Chain(jobs, "r", 1) == Chain(jobs, "", 0) == Some("");
  }

  lemma TreeOutsideForest(jobs: Store, r: string, chosen: set<string>)
    requires RootsApart(jobs) && r in jobs && IsRoot(jobs[r]) && r !in chosen
    requires forall c :: c in chosen ==> c in jobs && IsRoot(jobs[c])
    ensures Tree(jobs, r) !! Forest(jobs, chosen)
  {
    forall x | x in Tree(jobs, r) && x in Forest(jobs, chosen) ensures false {
      var c :| c in chosen && Under(jobs, x, c);
      assert x in Tree(jobs, c);
      RootTreesApart(jobs, r, c);
    }
  }

  lemma ForestGrows(jobs: Store, chosen: set<string>, r: string)
    ensures Forest(jobs, chosen + {r}) == Forest(jobs, chosen) + Tree(jobs, r)
  {
    forall x | x in jobs
      ensures (exists c :: c in chosen + {r} && Under(jobs, x, c))
                <==> (exists c :: c in chosen && Under(jobs, x, c)) || Under(jobs, x, r)
    {
      if Under(jobs, x, r) {
        assert r in chosen + {r};
      }
    }
  }

  /** Deleting one more tree after others; that it may have gone with them makes no difference. */
  lemma DoomedGrows(start: Store, ids: set<string>, id: string)
    ensures var before := start - Doomed(start, ids);
            && before - (if id in before then Tree(before, id) else {}) == start - Doomed(start, ids + {id})
            && Doomed(start, ids + {id}) == Doomed(start, ids) + if id in before then Tree(before, id) else {}
  {
    hide Under;
    var gone := Doomed(start, ids);
    var before := start - gone;
    ForestIsChildClosed(start, ids * start.Keys);
    TreeAfterRemoval(start, gone, id);
    if id in start {
      ForestGrows(start, ids * start.Keys, id);
      assert (ids + {id}) * start.Keys == ids * start.Keys + {id};
      if id in gone {
        TreeOfClosed(start, gone, id);
      }
    } else {
      assert (ids + {id}) * start.Keys == ids * start.Keys;
    }
  }

  lemma TreeOfClosed(jobs: Store, closed: set<string>, id: string)
    requires ChildClosed(jobs, closed) && id in closed
    ensures Tree(jobs, id) <= closed
  {
    forall x | x in Tree(jobs, id) ensures x in closed {
      var n: nat :| Chain(jobs, x, n) == Some(id);
      ClosedHoldsChain(jobs, closed, id, x, n);
    }
  }

  /** All cleanups whose batch covers every expired root leave the same jobs: those outside the expired trees. */
  lemma CleanupsAgree(jobs: Store, chosen: set<string>, cc: Time, fc: Time, batchSize: int)
    requires IsBatch(jobs, chosen, cc, fc, batchSize) && BatchLimit(batchSize) >= |ExpiredRoots(jobs, cc, fc)|
    ensures chosen == ExpiredRoots(jobs, cc, fc)
    ensures jobs - Forest(jobs, chosen) == jobs - Forest(jobs, ExpiredRoots(jobs, cc, fc))
  {
    SubsetSize(chosen, ExpiredRoots(jobs, cc, fc));
  }

  /**
   * Whatever the batch, a cleanup removes trees of expired roots: it loses no active job, and no parent is lost
   * before its child. While no root is below another, every other root tree is untouched.
   */
  lemma CleanupIsWholeTrees(jobs: Store, chosen: set<string>, cc: Time, fc: Time, batchSize: int)
    requires IsBatch(jobs, chosen, cc, fc, batchSize)
    ensures forall x :: x in Forest(jobs, chosen) ==> !Active(jobs[x])
    ensures forall r :: r in chosen ==> Tree(jobs, r) !! (jobs - Forest(jobs, chosen)).Keys
    ensures RootsApart(jobs) ==>
              forall r :: r in jobs && IsRoot(jobs[r]) && r !in chosen ==> Tree(jobs, r) <= (jobs - Forest(jobs, chosen)).Keys
    ensures ParentClosed(jobs) ==> ParentClosed(jobs - Forest(jobs, chosen))
  {
    forall x | x in Forest(jobs, chosen) ensures !Active(jobs[x]) {
      var r :| r in chosen && Under(jobs, x, r);
      assert x in Tree(jobs, r);
    }
    if RootsApart(jobs) {
      forall r | r in jobs && IsRoot(jobs[r]) && r !in chosen ensures Tree(jobs, r) !! Forest(jobs, chosen) {
        TreeOutsideForest(jobs, r, chosen);
      }
    }
    if ParentClosed(jobs) {
      RemovalKeepsParentClosed(jobs, chosen);
    }
  }
}
