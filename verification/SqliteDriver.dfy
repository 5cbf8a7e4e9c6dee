/** The SQLite queue driver, its table held in a map: every method is one step of the scheduler's state machine. */
module SqliteDriver {
  import opened Options
  import opened Jobs
  import opened JobTree
  import opened Retention
  import opened Scheduler
  import opened Dispatch
  import opened SchedulerSafety
  import opened Lifecycle
  import opened PollRule

  datatype Error = JobNotFound | InsertFailed | HandlerConflict | DatabaseError

  class Driver {
    var jobs: Store
    var runningCount: int
    var activeGroups: map<string, int>
    var groupLimits: map<string, int>
    var handlers: set<string>
    const maxConcurrency: int
    /** The goroutines that hold a claimed job and have not finalized it. */
    ghost var inFlight: seq<Exec>

    constructor (table: Store, maxConcurrency: int)
      ensures Abs() == State(table, [], 0, map[], Config(map[], maxConcurrency, {}))
    {
      jobs := table;
      runningCount, activeGroups, groupLimits, handlers := 0, map[], map[], {};
      this.maxConcurrency := maxConcurrency;
      inFlight := [];
    }

    ghost function Abs(): State
      reads this
    {
      State(jobs, inFlight, runningCount, activeGroups, Config(groupLimits, maxConcurrency, handlers))
    }

    method SetGroupLimit(group: string, limit: int)
      modifies this`groupLimits
      ensures groupLimits == old(groupLimits)[group := limit]
      ensures Abs() == Next(old(Abs()), Step.SetGroupLimit(group, limit))
    {
      groupLimits := groupLimits[group := limit];
    }

    method Register(kind: string) returns (err: Option<Error>)
      modifies this`handlers
      ensures handlers == old(handlers) + {kind}
      ensures err == if kind in old(handlers) then Some(HandlerConflict) else None
      ensures Abs() == Next(old(Abs()), Step.Register(kind))
    {
      if kind in handlers {
        assert handlers + {kind} == handlers;
        return Some(HandlerConflict);
      }
      handlers := handlers + {kind};
      return None;
    }

    /** `works` says that no statement of the transaction fails for a reason of its own; otherwise it rolls back. */
    method CreateJob(id: string, job: Job, works: bool) returns (err: Option<Error>)
      modifies this`jobs
      ensures jobs == if works && id !in old(jobs) then old(jobs)[id := job] else old(jobs)
      ensures err == if !works then Some(DatabaseError) else if id in old(jobs) then Some(InsertFailed) else None
      ensures Abs() == if works then Next(old(Abs()), Create(id, job)) else old(Abs())
    {
      if !works {
        return Some(DatabaseError);
      }
      if id in jobs {
        return Some(InsertFailed);
      }
      jobs := jobs[id := job];
      return None;
    }

    method UpdateJob(id: string, job: Job, works: bool) returns (err: Option<Error>)
      modifies this`jobs
      ensures jobs == if works && id in old(jobs) then old(jobs)[id := job] else old(jobs)
      ensures err == if !works then Some(DatabaseError) else if id in old(jobs) then None else Some(JobNotFound)
      ensures Abs() == if works then Next(old(Abs()), Update(id, job)) else old(Abs())
    {
      if !works {
        return Some(DatabaseError);
      }
      if id !in jobs {
        return Some(JobNotFound);
      }
      jobs := jobs[id := job];
      return None;
    }

    method Enqueue(id: string, job: Job, now: Time, works: bool) returns (err: Option<Error>)
      modifies this`jobs
      ensures var row := if id in old(jobs) then old(jobs)[id].(status := Pending, updatedAt := now, error := "")
                         else job.(status := Pending, updatedAt := now, createdAt := now);
              jobs == if works then old(jobs)[id := row] else old(jobs)
      ensures err == if works then None else Some(DatabaseError)
      ensures Abs() == if works then Next(old(Abs()), Step.Enqueue(id, job, now)) else old(Abs())
    {
      if !works {
        return Some(DatabaseError);
      }
      if id !in jobs {
        jobs := jobs[id := job.(status := Pending, updatedAt := now, createdAt := now)];
      } else {
        jobs := jobs[id := jobs[id].(status := Pending, updatedAt := now, error := "")];
      }
      return None;
    }

    method DeleteJob(id: string) returns (err: Option<Error>)
      requires !OnCycle(jobs, id)
      modifies this`jobs
      ensures err == if id in old(jobs) then None else Some(JobNotFound)
      ensures jobs == old(jobs) - (if id in old(jobs) then Tree(old(jobs), id) else {})
      ensures Abs() == Next(old(Abs()), Delete(id))
    {
      var rows := RecursiveQuery(jobs, id);
      UnderSelf(jobs, id);
      jobs := jobs - rows;
      err := if rows == {} then Some(JobNotFound) else None;
    }

    method CancelJob(id: string, now: Time) returns (err: Option<Error>)
      requires !OnCycle(jobs, id)
      modifies this`jobs
      ensures err == if id in old(jobs) then None else Some(JobNotFound)
      ensures jobs.Keys == old(jobs).Keys
      ensures forall x :: x in old(jobs) ==>
                var j := old(jobs)[x];
                jobs[x] == if id in old(jobs) && x in Tree(old(jobs), id) && (j.status.Pending? || j.status.Running?)
                           then j.(status := Failed, error := "job cancelled by user", updatedAt := now, completedAt := Some(now))
                           else j
      ensures Abs() == Next(old(Abs()), Cancel(id, now))
    {
      if id !in jobs {
        return Some(JobNotFound);
      }
      var rows := RecursiveQuery(jobs, id);
      jobs := map x | x in jobs ::
        if x in rows && (jobs[x].status.Pending? || jobs[x].status.Running?)
        then jobs[x].(status := Failed, error := "job cancelled by user", updatedAt := now, completedAt := Some(now))
        else jobs[x];
      return None;
    }

    /** The HAVING clause on the rows of one root. */
    method IsCandidate(tree: set<string>, completedCutoff: Time, failedCutoff: Time) returns (selected: bool)
      requires tree <= jobs.Keys && tree != {}
      ensures selected <==> TreeExpired(jobs, tree, completedCutoff, failedCutoff)
    {
      var active := |set x | x in tree && Active(jobs[x])|;
      var failed := |set x | x in tree && jobs[x].status.Failed?|;
      var x :| x in tree;
      var youngest := FinishedAt(jobs[x]);
      var rest := tree;
      while rest != {}
        invariant rest <= tree
        invariant forall y :: y in tree - rest ==> FinishedAt(jobs[y]) <= youngest
        invariant exists y :: y in tree && FinishedAt(jobs[y]) == youngest
      {
        var y :| y in rest;
        rest := rest - {y};
        if FinishedAt(jobs[y]) > youngest {
          youngest := FinishedAt(jobs[y]);
        }
      }
      assert youngest == MaxFinished(jobs, tree);
      HavingIsExpired(jobs, tree, completedCutoff, failedCutoff);
      selected := active == 0 && ((failed == 0 && youngest <= completedCutoff) || (failed > 0 && youngest <= failedCutoff));
    }

    /** The candidate query with its LIMIT; `order` is the order in which it meets the groups. */
    method SelectCandidates(completedCutoff: Time, failedCutoff: Time, batchSize: int, order: seq<string>)
      returns (rootIDs: seq<string>)
      requires RootsOffCycles(jobs) && ListsRoots(jobs, order)
      ensures AllDistinct(rootIDs) && IsBatch(jobs, Elems(rootIDs), completedCutoff, failedCutoff, batchSize)
    {
      hide Tree, Forest, Under, OnCycle, TreeExpired;
      var limit := BatchLimit(batchSize);
      rootIDs := [];
      var i := 0;
      while i < |order| && |rootIDs| < limit
        invariant 0 <= i <= |order| && |rootIDs| <= limit && AllDistinct(rootIDs)
        invariant forall r :: r in rootIDs <==> r in order[..i] && r in ExpiredRoots(jobs, completedCutoff, failedCutoff)
      {
        var rootID := order[i];
        assert rootID in order && rootID !in order[..i];
        TreeOfStored(jobs, rootID);
        var tree := RecursiveQuery(jobs, rootID);
        var selected := IsCandidate(tree, completedCutoff, failedCutoff);
        if selected {
          rootIDs := rootIDs + [rootID];
        }
        i := i + 1;
      }
      DistinctSize(rootIDs);
      var all := ExpiredRoots(jobs, completedCutoff, failedCutoff);
      SubsetSize(Elems(rootIDs), all);
      if i == |order| {
        assert forall r :: r in all ==> r in order[..i];
        assert Elems(rootIDs) == all;
      }
    }

    /** The transaction of a cleanup: it deletes the tree of each id, if that is still stored. */
    method DeleteTrees(rootIDs: seq<string>) returns (prunedCount: nat)
      requires Enabled(Abs(), Prune(Elems(rootIDs)))
      modifies this`jobs
      ensures Abs() == Next(old(Abs()), Prune(Elems(rootIDs)))
      ensures AllDistinct(rootIDs) && RootsApart(old(jobs)) && (forall r :: r in rootIDs ==> r in old(jobs) && IsRoot(old(jobs)[r]))
              ==> prunedCount == |rootIDs|
      ensures prunedCount <= |rootIDs|
    {
      hide Tree, Forest, Under, OnCycle, Doomed, RootsApart, IsRoot, PendingByAge, AfterPoll, AfterFinalize;
      ghost var start := jobs;
      ghost var apart := AllDistinct(rootIDs) && RootsApart(start) && forall r :: r in rootIDs ==> r in start && IsRoot(start[r]);
      prunedCount := 0;
      NothingDoomed(start);
      for i := 0 to |rootIDs|
        invariant jobs == start - Doomed(start, Elems(rootIDs[..i]))
        invariant prunedCount <= i && (apart ==> prunedCount == i)
      {
        var rootID := rootIDs[i];
        assert rootID in Elems(rootIDs);
        assert Elems(rootIDs[..i + 1]) == Elems(rootIDs[..i]) + {rootID};
        DoomedGrows(start, Elems(rootIDs[..i]), rootID);
        CyclesShrink(start, Doomed(start, Elems(rootIDs[..i])), rootID);
        if apart {
          StillStored(start, rootIDs, i);
        }
        TreeOfStored(jobs, rootID);
        var rows := RecursiveQuery(jobs, rootID);
        jobs := jobs - rows;
        if rows != {} {
          prunedCount := prunedCount + 1;
        }
      }
      assert rootIDs[..|rootIDs|] == rootIDs;
    }

    /** A cleanup into which no other step falls. A root that another one's tree took along is not counted. */
    method CleanupJobs(completedCutoff: Time, failedCutoff: Time, batchSize: int, order: seq<string>, works: bool)
      returns (prunedCount: nat, err: Option<Error>, ghost chosen: set<string>)
      requires RootsOffCycles(jobs) && ListsRoots(jobs, order)
      modifies this`jobs
      ensures IsBatch(old(jobs), chosen, completedCutoff, failedCutoff, batchSize)
      ensures Enabled(old(Abs()), Prune(chosen))
      ensures err == if works || chosen == {} then None else Some(DatabaseError)
      ensures Abs() == if works then Next(old(Abs()), Prune(chosen)) else old(Abs())
      ensures works ==> jobs == old(jobs) - Forest(old(jobs), chosen)
      ensures works ==> prunedCount <= |chosen| && (RootsApart(old(jobs)) ==> prunedCount == |chosen|)
    {
      hide Tree, Forest, Under, OnCycle, TreeExpired, PendingByAge, AfterPoll, AfterFinalize;
      var rootIDs := SelectCandidates(completedCutoff, failedCutoff, batchSize, order);
      chosen := Elems(rootIDs);
      DistinctSize(rootIDs);
      assert forall r :: r in rootIDs ==> r in chosen;
      NothingDoomed(jobs);
      assert chosen * jobs.Keys == chosen;
      if rootIDs == [] {
        assert jobs - Doomed(jobs, {}) == jobs;
        return 0, None, chosen;
      }
      if !works {
        return 0, Some(DatabaseError), chosen;
      }
      prunedCount := DeleteTrees(rootIDs);
      err := None;
    }

    /** One turn of the poll's row loop over the open transaction `tx`; `stop` says the loop breaks here. */
    method VisitRow(tx: Store, jobsToRun: seq<Exec>, id: string, unwritten: set<string>, now: Time)
      returns (tx': Store, jobsToRun': seq<Exec>, stop: bool)
      requires id in tx
      modifies this`runningCount, this`activeGroups
      ensures Scan(tx', runningCount, activeGroups, jobsToRun', stop)
           == ScanRow(Config(groupLimits, maxConcurrency, handlers), unwritten, now,
                      Scan(tx, old(runningCount), old(activeGroups), jobsToRun, false), id)
      ensures tx'.Keys == tx.Keys
    {
      tx', jobsToRun', stop := tx, jobsToRun, false;
      var j := tx[id];
      if j.kind !in handlers {
        if id !in unwritten {
          tx' := tx[id := UnhandledRow(j, now)];
        }
        return;
      }
      if maxConcurrency > 0 && runningCount >= maxConcurrency {
        stop := true;
        return;
      }
      if j.group != "" {
        if j.group in groupLimits && groupLimits[j.group] > 0 {
          if Count(activeGroups, j.group) >= groupLimits[j.group] {
            return;
          }
        }
      }
      tx' := tx[id := j.(status := Running, startedAt := Some(now), updatedAt := now)];
      if j.group != "" {
        activeGroups := activeGroups[j.group := Count(activeGroups, j.group) + 1];
      }
      runningCount := runningCount + 1;
      jobsToRun' := jobsToRun + [Exec(id, j.kind, j.payload, j.retries, j.maxRetries, j.group)];
    }

    /** The row loop of a poll. It gives up at the row where a database error strikes, if one does. */
    method ScanPending(rows: seq<string>, end: PollEnd, unwritten: set<string>, now: Time)
      returns (tx: Store, jobsToRun: seq<Exec>, aborted: bool)
      requires Enabled(Abs(), Poll(rows, end, unwritten, now))
      modifies this`runningCount, this`activeGroups
      ensures aborted <==> end.AbortedAt?
      ensures var a := PollScan(old(Abs()), if aborted then rows[..end.row] else rows, unwritten, now);
              && runningCount == a.runningCount && activeGroups == a.activeGroups
              && (!aborted ==> tx == a.jobs && jobsToRun == a.claimed)
    {
      ghost var s := Abs();
      assert end.AbortedAt? ==> end.row < |rows| && !PollScan(s, rows[..end.row], unwritten, now).stopped;
      RowsArePending(jobs, rows);
      ScanNothing(s, rows, unwritten, now);
      hide PendingByAge, PollScan, ScanRows, ScanRow, Enabled;
      tx, jobsToRun := jobs, [];
      var stop := false;
      var i := 0;
      while i < |rows| && !stop
        invariant 0 <= i <= |rows|
        invariant end.AbortedAt? ==> i <= end.row && !stop
        invariant tx.Keys == s.jobs.Keys
        invariant PollScan(s, rows[..i], unwritten, now) == Scan(tx, runningCount, activeGroups, jobsToRun, stop)
      {
        if end == AbortedAt(i) {
          return tx, jobsToRun, true;
        }
        ScanOneMore(s, rows, i, unwritten, now);
        if end.AbortedAt? {
          RunningOn(s, rows, i + 1, end.row, unwritten, now);
        }
        tx, jobsToRun, stop := VisitRow(tx, jobsToRun, rows[i], unwritten, now);
        i := i + 1;
      }
      StoppedStays(s, rows, i, unwritten, now);
      aborted := false;
    }

    /**
     * Claims pending jobs in `rows`, the result of the pending query, and hands them to goroutines. `end`
     * says which database call fails, if any, and `unwritten` whose unchecked update does.
     */
    method PollAndDispatch(rows: seq<string>, end: PollEnd, unwritten: set<string>, now: Time)
      returns (ghost claimed: seq<Exec>)
      requires Enabled(Abs(), Poll(rows, end, unwritten, now))
      modifies this
      ensures Abs() == Next(old(Abs()), Poll(rows, end, unwritten, now))
      ensures inFlight == old(inFlight) + claimed && groupLimits == old(groupLimits) && handlers == old(handlers)
      ensures if end == Committed && (maxConcurrency > 0 ==> old(runningCount) < maxConcurrency)
              then && FirstServed(old(Abs()), rows, Ids(claimed))
                   && RowsFollow(old(Abs()), rows, Ids(claimed), unwritten, now, jobs)
              else claimed == [] && jobs == old(jobs)
      ensures forall i, j :: 0 <= i < j < |claimed| ==> claimed[i].id != claimed[j].id
      ensures forall i :: 0 <= i < |claimed| ==>
                && claimed[i].id in old(jobs)
                && var j := old(jobs)[claimed[i].id];
                claimed[i] == Exec(claimed[i].id, j.kind, j.payload, j.retries, j.maxRetries, j.group)
      ensures !end.AbortedAt? ==>
                && runningCount == old(runningCount) + |claimed|
                && forall g :: g != "" ==> Count(activeGroups, g) == Count(old(activeGroups), g) + InGroup(claimed, g)
      ensures end.AbortedAt? && (maxConcurrency > 0 ==> old(runningCount) < maxConcurrency) ==>
                exists ids :: Leaked(old(Abs()), Abs(), rows[..end.row], ids)
    {
      hide Tree, Forest, CancelRows, OnCycle, EnqueuedRow, FreshRow, AfterFinalize, PendingByAge, PollScan, FirstServed, RowsFollow,
        Leaked;
      claimed := NewClaims(Abs(), Poll(rows, end, unwritten, now));
      PollPromise(Abs(), rows, end, unwritten, now);
      if maxConcurrency > 0 && runningCount >= maxConcurrency {
        return;
      }
      if end.NotStarted? {
        return;
      }
      var tx, jobsToRun, aborted := ScanPending(rows, end, unwritten, now);
      if aborted {
        return;
      }
      if end.CommitFailed? {
        RollBackCounters(jobsToRun);
        return;
      }
      jobs := tx;
      inFlight := inFlight + jobsToRun;
    }

    /** Takes back the increments of a poll whose COMMIT failed. */
    method RollBackCounters(jobsToRun: seq<Exec>)
      modifies this`runningCount, this`activeGroups
      ensures runningCount == old(runningCount) - |jobsToRun|
      ensures activeGroups == ReleaseAll(old(activeGroups), jobsToRun)
    {
      for k := 0 to |jobsToRun|
        invariant runningCount == old(runningCount) - k
        invariant activeGroups == ReleaseAll(old(activeGroups), jobsToRun[..k])
      {
        assert jobsToRun[..k + 1][..k] == jobsToRun[..k];
        if jobsToRun[k].group != "" {
          activeGroups := activeGroups[jobsToRun[k].group := Count(activeGroups, jobsToRun[k].group) - 1];
        }
        runningCount := runningCount - 1;
      }
      assert jobsToRun[..|jobsToRun|] == jobsToRun;
    }

    /** Records the end of the k-th execution in flight, whose claim-time copy is `j`, and frees its slots. */
    method FinalizeJob(ghost k: nat, j: Exec, execErr: Outcome, written: bool, now: Time)
      requires k < |inFlight| && inFlight[k] == j
      modifies this`jobs, this`runningCount, this`activeGroups, this`inFlight
      ensures var row := if written && j.id in old(jobs) && old(jobs)[j.id].status.Running? then Some(old(jobs)[j.id]) else None;
              jobs == if row == None then old(jobs) else old(jobs)[j.id := match execErr
                case Succeeded => row.value.(status := Completed, updatedAt := now, completedAt := Some(now))
                case PermanentError(text) =>
                  row.value.(status := Failed, retries := j.retries + 1, error := text, updatedAt := now, completedAt := Some(now))
                case TransientError(text) =>
                  if j.retries + 1 >= j.maxRetries
                  then row.value.(status := Failed, retries := j.retries + 1, error := text, updatedAt := now, completedAt := Some(now))
                  else row.value.(status := Pending, retries := j.retries + 1, updatedAt := now)]
      ensures runningCount == old(runningCount) - 1 && inFlight == old(inFlight)[..k] + old(inFlight)[k + 1..]
      ensures activeGroups == if j.group == "" then old(activeGroups)
                              else old(activeGroups)[j.group := Count(old(activeGroups), j.group) - 1]
      ensures Abs() == Next(old(Abs()), Finalize(k, execErr, written, now))
    {
      hide Next, Enabled;
      FinalizeStep(Abs(), k, execErr, written, now);
      if !execErr.Succeeded? {
        var retries := j.retries + 1;
        if execErr.PermanentError? || retries >= j.maxRetries {
          if written && j.id in jobs && jobs[j.id].status.Running? {
            jobs := jobs[j.id := jobs[j.id].(status := Failed, retries := retries, error := execErr.text,
                                             updatedAt := now, completedAt := Some(now))];
          }
        } else if written && j.id in jobs && jobs[j.id].status.Running? {
          jobs := jobs[j.id := jobs[j.id].(status := Pending, retries := retries, updatedAt := now)];
        }
      } else if written && j.id in jobs && jobs[j.id].status.Running? {
        jobs := jobs[j.id := jobs[j.id].(status := Completed, updatedAt := now, completedAt := Some(now))];
      }
      if j.group != "" {
        activeGroups := activeGroups[j.group := Count(activeGroups, j.group) - 1];
      }
      runningCount := runningCount - 1;
      inFlight := Without(inFlight, k);
    }
  }

  lemma FinalizeStep(s: State, k: nat, outcome: Outcome, written: bool, now: Time)
    requires k < |s.inFlight|
    ensures Enabled(s, Finalize(k, outcome, written, now))
    ensures Next(s, Finalize(k, outcome, written, now)) == AfterFinalize(s, k, outcome, written, now)
  {
    hide AfterFinalize;
  }

  lemma ScanNothing(s: State, rows: seq<string>, unwritten: set<string>, now: Time)
    ensures PollScan(s, rows[..0], unwritten, now) == ScanStart(s)
  {
  }

  lemma ScanOneMore(s: State, rows: seq<string>, i: nat, unwritten: set<string>, now: Time)
    requires i < |rows|
    ensures PollScan(s, rows[..i + 1], unwritten, now)
         == ScanRow(s.cfg, unwritten, now, PollScan(s, rows[..i], unwritten, now), rows[i])
  {
    assert rows[..i + 1][..i] == rows[..i];
  }

  lemma {:induction false} StoppedStays(s: State, rows: seq<string>, k: nat, unwritten: set<string>, now: Time)
    requires k <= |rows| && (k < |rows| ==> PollScan(s, rows[..k], unwritten, now).stopped)
    ensures PollScan(s, rows, unwritten, now) == PollScan(s, rows[..k], unwritten, now)
    decreases |rows|
  {
    if k < |rows| {
      var front := rows[..|rows| - 1];
      assert front[..k] == rows[..k];
      StoppedStays(s, front, k, unwritten, now);
    } else {
      assert rows[..k] == rows;
    }
  }

  /** A scan that has not stopped after k rows had not stopped after fewer. */
  lemma RunningOn(s: State, rows: seq<string>, i: nat, k: nat, unwritten: set<string>, now: Time)
    requires i <= k <= |rows| && !PollScan(s, rows[..k], unwritten, now).stopped
    ensures !PollScan(s, rows[..i], unwritten, now).stopped
  {
    assert rows[..k][..i] == rows[..i];
    if PollScan(s, rows[..i], unwritten, now).stopped {
      StoppedStays(s, rows[..k], i, unwritten, now);
    }
  }

  lemma {:induction false} DistinctSize(s: seq<string>)
    requires AllDistinct(s)
    ensures |Elems(s)| == |s|
    decreases |s|
  {
    if s == [] {
      assert Elems(s) == {};
    } else {
      var front, last := s[..|s| - 1], s[|s| - 1];
      DistinctSize(front);
      assert Elems(s) == Elems(front) + {last};
      assert last !in front;
    }
  }

  lemma NothingDoomed(jobs: Store)
    ensures Doomed(jobs, {}) == {} && Elems<string>([]) == {}
  {
  }

  lemma TreeOfStored(jobs: Store, id: string)
    ensures Tree(jobs, id) <= jobs.Keys
    ensures id in jobs ==> id in Tree(jobs, id)
  {
    UnderSelf(jobs, id);
  }

  lemma CyclesShrink(jobs: Store, gone: set<string>, id: string)
    requires !OnCycle(jobs, id)
    ensures !OnCycle(jobs - gone, id)
  {
    forall n: nat | n > 0 ensures Chain(jobs - gone, id, n) != Some(id) {
      if Chain(jobs - gone, id, n) == Some(id) {
        ChainInSmaller(jobs, gone, id, n);
      }
    }
  }

  /** The i-th of distinct roots outlives the trees of the roots before it. */
  lemma StillStored(start: Store, rootIDs: seq<string>, i: nat)
    requires AllDistinct(rootIDs) && RootsApart(start) && i < |rootIDs|
    requires forall r :: r in rootIDs ==> r in start && IsRoot(start[r])
    ensures rootIDs[i] in start - Doomed(start, Elems(rootIDs[..i]))
  {
    hide Under, RootsApart, IsRoot;
    var done, r := Elems(rootIDs[..i]), rootIDs[i];
    assert r in rootIDs && r !in rootIDs[..i];
    assert forall q :: q in rootIDs[..i] ==> q in rootIDs;
    TreeOutsideForest(start, r, done);
    UnderSelf(start, r);
    assert done * start.Keys == done;
  }
}
