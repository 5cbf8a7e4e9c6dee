/** The in-memory queue driver: worklist and recursive walks over the parent links of its job map. */
module InMemoryDriver {
  import opened Options
  import opened Jobs
  import opened JobTree
  import opened MemoryQueue
  import opened Retention

  datatype Error = JobNotFound | JobExists | HandlerConflict | DriverStopped | ContextCancelled

  class Driver {
    /** The job objects of the store, by id. */
    var jobs: Store
    /** The objects that were taken out of the store, as far as workers may still hold them, and how they hold them. */
    var loose: map<(nat, string), Job>
    var version: nat
    var workers: map<nat, Worker>
    var channel: seq<string>
    var handlers: set<string>
    var stopped: bool

    constructor (jobs: Store, handlers: set<string>)
      ensures Abs() == State(jobs, map[], 0, map[], [], handlers, false) && Valid(Abs())
    {
      this.jobs, this.handlers, channel, stopped := jobs, handlers, [], false;
      loose, version, workers := map[], 0, map[];
    }

    ghost function Abs(): State
      reads this
    {
      State(jobs, loose, version, workers, channel, handlers, stopped)
    }

    method Register(kind: string) returns (err: Option<Error>)
      modifies this`handlers
      ensures handlers == old(handlers) + {kind}
      ensures err == if kind in old(handlers) then Some(HandlerConflict) else None
      ensures Abs() == Next(old(Abs()), Step.Register(kind))
    {
      if kind in handlers {
        assert handlers + {kind} == handlers;
        return Some(HandlerConflict);
      }
      handlers := handlers + {kind};
      return None;
    }

    method Stop()
      modifies this`stopped
      ensures stopped
      ensures Abs() == Next(old(Abs()), Step.Stop)
    {
      stopped := true;
    }

    /** An error after the driver was stopped changes nothing; one while sending leaves the row pending all the same. */
    method Enqueue(id: string, job: Job, send: Send) returns (err: Option<Error>)
      modifies this`jobs, this`channel
      ensures jobs == if old(stopped) then old(jobs)
                      else old(jobs)[id := (if id in old(jobs) then old(jobs)[id] else job).(status := Pending)]
      ensures channel == if old(stopped) || !send.Taken? then old(channel) else old(channel) + [id]
      ensures Abs() == Enqueued(old(Abs()), id, job, send)
      ensures err == if old(stopped) || send.StoppedMeanwhile? then Some(DriverStopped)
                     else if send.ContextDone? then Some(ContextCancelled) else None
    {
      if stopped {
        return Some(DriverStopped);
      }
      if id !in jobs {
        jobs := jobs[id := job.(status := Pending)];
      } else {
        jobs := jobs[id := jobs[id].(status := Pending)];
      }
      match send
      case StoppedMeanwhile => return Some(DriverStopped);
      case Taken =>
        channel := channel + [id];
        return None;
      case ContextDone => return Some(ContextCancelled);
    }

    // ----- processJob, section by section -----

    /** The worker receives an id and looks the job up. */
    method FetchJob(w: nat) returns (stored: bool)
      requires Enabled(Abs(), Take(w))
      modifies this`channel, this`workers
      ensures channel == old(channel)[1..]
      ensures workers == if stored then old(workers)[w := Worker(old(channel)[0], None, Fetched)] else old(workers)
      ensures Abs() == Next(old(Abs()), Take(w))
      ensures stored <==> old(channel)[0] in jobs
    {
      var jobID := channel[0];
      channel := channel[1..];
      stored := jobID in jobs;
      if stored {
        workers := workers[w := Worker(jobID, None, Fetched)];
      }
    }

    method Load(w: nat) returns (job: Job)
      requires w in workers && Present(Abs(), workers[w])
      ensures var k := workers[w];
              job == if k.at == None then jobs[k.id] else loose[(k.at.value, k.id)]
      ensures job == Object(Abs(), workers[w])
    {
      var k := workers[w];
      job := if k.at == None then jobs[k.id] else loose[(k.at.value, k.id)];
    }

    method StoreObject(w: nat, job: Job)
      requires w in workers && Present(Abs(), workers[w])
      modifies this`jobs, this`loose
      ensures var k := workers[w];
              && jobs == (if k.at == None then old(jobs)[k.id := job] else old(jobs))
              && loose == (if k.at == None then old(loose) else old(loose)[(k.at.value, k.id) := job])
      ensures Abs() == Write(old(Abs()), workers[w], job)
    {
      var k := workers[w];
      if k.at == None {
        jobs := jobs[k.id := job];
      } else {
        loose := loose[(k.at.value, k.id) := job];
      }
    }

    /** The look at the status and at the handlers, each in a section of its own. */
    method CheckJob(w: nat) returns (goesOn: bool)
      requires Enabled(Abs(), CheckStatus(w))
      modifies this`workers
      ensures Abs() == Next(old(Abs()), CheckStatus(w))
      ensures var status := Object(old(Abs()), old(workers)[w]).status;
              goesOn <==> !status.Failed? && !status.Completed?
      ensures workers == if goesOn then old(workers)[w := old(workers)[w].(phase := Checked)] else old(workers) - {w}
    {
      var job := Load(w);
      goesOn := !(job.status.Failed? || job.status.Completed?);
      if goesOn {
        workers := workers[w := workers[w].(phase := Checked)];
      } else {
        workers := workers - {w};
      }
    }

    method LookUpHandler(w: nat) returns (found: bool)
      requires Enabled(Abs(), FindHandler(w))
      modifies this`workers
      ensures Abs() == Next(old(Abs()), FindHandler(w))
      ensures found <==> Object(old(Abs()), old(workers)[w]).kind in handlers
      ensures workers == old(workers)[w := old(workers)[w].(phase := if found then Ready else Unhandled)]
    {
      var job := Load(w);
      found := job.kind in handlers;
      workers := workers[w := workers[w].(phase := if found then Ready else Unhandled)];
    }

    method FailJob(w: nat, now: Time)
      requires Enabled(Abs(), FailUnhandled(w, now))
      modifies this`jobs, this`loose, this`workers
      ensures var j := Object(old(Abs()), old(workers)[w]);
              var failed := j.(status := Failed, error := "no handler registered for job type " + j.kind, completedAt := Some(now));
              var n := if j.status.Failed? || j.status.Completed? then old(Abs()) else Write(old(Abs()), old(workers)[w], failed);
              jobs == n.jobs && loose == n.loose && workers == old(workers) - {w}
      ensures Abs() == Next(old(Abs()), FailUnhandled(w, now))
    {
      var job := Load(w);
      if !job.status.Failed? && !job.status.Completed? {
        StoreObject(w, job.(status := Failed, error := "no handler registered for job type " + job.kind,
                            completedAt := Some(now)));
      }
      workers := workers - {w};
    }

    /** The handler is called exactly for an object that is still pending. */
    method ClaimJob(w: nat, now: Time) returns (run: bool)
      requires Enabled(Abs(), Claim(w, now))
      modifies this`jobs, this`loose, this`workers
      ensures Abs() == Next(old(Abs()), Claim(w, now))
      ensures var k, j := old(workers)[w], Object(old(Abs()), old(workers)[w]);
              var n := if run then Write(old(Abs()), k, j.(status := Running, startedAt := Some(now))) else old(Abs());
              && (run <==> j.status.Pending?) && jobs == n.jobs && loose == n.loose
              && workers == if run then old(workers)[w := k.(phase := Handling)] else old(workers) - {w}
    {
      var job := Load(w);
      if !job.status.Pending? {
        workers := workers - {w};
        return false;
      }
      StoreObject(w, job.(status := Running, startedAt := Some(now)));
      workers := workers[w := workers[w].(phase := Handling)];
      return true;
    }

    /** The locked section after the handler; `shouldReenqueue` asks for an Enqueue once the lock is free. */
    method SettleJob(w: nat, handleErr: Outcome, now: Time) returns (shouldReenqueue: bool)
      requires Enabled(Abs(), Settle(w, handleErr, now))
      modifies this`jobs, this`loose, this`workers
      ensures Abs() == Next(old(Abs()), Settle(w, handleErr, now))
      ensures var k, j := old(workers)[w], Object(old(Abs()), old(workers)[w]);
              var last := j.retries + 1 >= j.maxRetries;
              var settled := match handleErr
                case Succeeded => j.(status := Completed, completedAt := Some(now))
                case PermanentError(text) => j.(retries := j.retries + 1, status := Failed, error := text, completedAt := Some(now))
                case TransientError(text) =>
                  if last then j.(retries := j.retries + 1, status := Failed, error := text, completedAt := Some(now))
                  else j.(retries := j.retries + 1, status := Pending);
              var n := if j.status.Running? then Write(old(Abs()), k, settled) else old(Abs());
              && jobs == n.jobs && loose == n.loose
              && (shouldReenqueue <==> j.status.Running? && handleErr.TransientError? && !last)
              && workers == if shouldReenqueue then old(workers)[w := k.(phase := Retrying)] else old(workers) - {w}
      ensures shouldReenqueue <==> Again(Object(old(Abs()), old(workers)[w]), handleErr)
    {
      var job := Load(w);
      shouldReenqueue := false;
      if !job.status.Running? {
        RewriteSame(Abs(), workers[w]);
        workers := workers - {w};
        return;
      }
      if !handleErr.Succeeded? {
        job := job.(retries := job.retries + 1);
        if handleErr.PermanentError? || job.retries >= job.maxRetries {
          job := job.(status := Failed, error := handleErr.text, completedAt := Some(now));
        } else {
          job := job.(status := Pending);
          shouldReenqueue := true;
        }
      } else {
        job := job.(status := Completed, completedAt := Some(now));
      }
      StoreObject(w, job);
      workers := if shouldReenqueue then workers[w := workers[w].(phase := Retrying)] else workers - {w};
    }

    /** The Enqueue that ends processJob; its error is dropped. */
    method ReenqueueJob(w: nat, send: Send)
      requires Enabled(Abs(), Reenqueue(w, send))
      modifies this`jobs, this`channel, this`workers
      ensures var k, j := old(workers)[w], Object(old(Abs()), old(workers)[w]);
              && workers == old(workers) - {w}
              && jobs == (if stopped then old(jobs)
                          else old(jobs)[k.id := (if k.id in old(jobs) then old(jobs)[k.id] else j).(status := Pending)])
              && channel == if stopped || !send.Taken? then old(channel) else old(channel) + [k.id]
      ensures Abs() == Next(old(Abs()), Reenqueue(w, send))
    {
      var job := Load(w);
      var id := workers[w].id;
      workers := workers - {w};
      var _ := Enqueue(id, job, send);
    }

    // ----- The job store -----

    /** Rows that have just left the store live on for the workers that hold them. */
    method LetGo(before: Store)
      requires jobs.Keys <= before.Keys && jobs == before - (before.Keys - jobs.Keys)
      modifies this`loose, this`version, this`workers
      ensures Abs() == Detach(old(Abs()).(jobs := before), before.Keys - jobs.Keys)
    {
      var gone := before.Keys - jobs.Keys;
      loose := loose + LooseObjects(version, before, gone);
      workers := Detached(workers, version, gone);
      version := version + 1;
    }

    method UpdateJob(id: string, job: Job) returns (err: Option<Error>)
      modifies this`jobs, this`loose, this`version, this`workers
      ensures err == if id in old(jobs) then None else Some(JobNotFound)
      ensures jobs == if id in old(jobs) then old(jobs)[id := job] else old(jobs)
      ensures Abs() == Next(old(Abs()), Update(id, job))
    {
      if id !in jobs {
        return Some(JobNotFound);
      }
      var before := jobs;
      jobs := jobs - {id};
      assert before.Keys - jobs.Keys == {id};
      LetGo(before);
      jobs := jobs[id := job];
      return None;
    }

    method CreateJob(id: string, job: Job) returns (err: Option<Error>)
      modifies this`jobs
      ensures err == if id in old(jobs) then Some(JobExists) else None
      ensures jobs == if id in old(jobs) then old(jobs) else old(jobs)[id := job]
      ensures Abs() == Next(old(Abs()), Create(id, job))
    {
      if id in jobs {
        return Some(JobExists);
      }
      jobs := jobs[id := job];
      return None;
    }

    /** The ids of the stored children, in whatever order the map yields them. */
    method ChildIDs(id: string) returns (ids: seq<string>)
      ensures (set x | x in ids) == Children(jobs, id)
      ensures AllDistinct(ids)
    {
      ids := [];
      var todo := jobs.Keys;
      while todo != {}
        invariant todo <= jobs.Keys
        invariant forall x :: x in ids <==> x in Children(jobs, id) && x !in todo
        invariant AllDistinct(ids)
      {
        var x :| x in todo;
        if jobs[x].parent == Some(id) {
          ids := ids + [x];
        }
        todo := todo - {x};
      }
    }

    method DeleteJob(id: string) returns (err: Option<Error>)
      modifies this`jobs, this`loose, this`version, this`workers
      ensures err == if id in old(jobs) then None else Some(JobNotFound)
      ensures jobs == old(jobs) - (if id in old(jobs) then Tree(old(jobs), id) else {})
      ensures Abs() == Next(old(Abs()), Delete(id))
    {
      hide Tree;
      if id !in jobs {
        return Some(JobNotFound);
      }
      var before := jobs;
      TreeHolds(before, id);
      var _ := DeleteRecursive(id, {});
      assert before.Keys - jobs.Keys == Tree(before, id);
      LetGo(before);
      return None;
    }

    /** Deletes the row, then its former children, although the map it scans shrinks on the way. */
    method DeleteRecursive(id: string, visited: set<string>) returns (seen: set<string>)
      requires id in visited || id in jobs
      requires visited !! jobs.Keys
      modifies this`jobs
      ensures seen !! jobs.Keys && visited <= seen
      ensures id in visited ==> jobs == old(jobs)
      ensures id !in visited ==> jobs == old(jobs) - Tree(old(jobs), id)
      decreases jobs.Keys
    {
      seen := visited;
      if id in visited {
        return;
      }
      seen := seen + {id};
      var childIDs := ChildIDs(id);
      ghost var start := jobs;
      ghost var below := jobs - {id};
      jobs := jobs - {id};

      ghost var done: set<string> := {};
      assert Forest(below, done) == {};
      for i := 0 to |childIDs|
        invariant done == (set k | 0 <= k < i :: childIDs[k]) - {id}
        invariant jobs == below - Forest(below, done)
        invariant seen !! jobs.Keys && id in seen && visited <= seen
        invariant forall x :: x in seen ==> x !in jobs
        invariant old(jobs) == start
      {
        var child := childIDs[i];
        assert child in Children(start, id);
        if child != id {
          assert child !in done;
          SiblingsApart(start, id, child, done);
          ForestIsChildClosed(below, done);
          TreeAfterRemoval(below, Forest(below, done), child);
          ForestGrows(below, done, child);
        }
        assert child in seen <==> child == id;
        seen := DeleteRecursive(child, seen) by {
          assert jobs.Keys < old(jobs).Keys;
        }
        if child != id {
          done := done + {child};
        }
      }
      assert done == Children(start, id) - {id};
      TreeByChildren(start, id);
    }

    /** Breadth-first over the worklist; every pending or running job met is marked failed. */
    method CancelJob(id: string, now: Time) returns (err: Option<Error>)
      modifies this`jobs
      ensures err == if id in old(jobs) then None else Some(JobNotFound)
      ensures jobs == if id in old(jobs) then CancelRows(old(jobs), Tree(old(jobs), id), now) else old(jobs)
      ensures jobs.Keys == old(jobs).Keys
      ensures forall x :: x in old(jobs) ==>
                var j := old(jobs)[x];
                jobs[x] == if id in old(jobs) && x in Tree(old(jobs), id) && (j.status.Pending? || j.status.Running?)
                           then j.(status := Failed, error := "job cancelled by user", updatedAt := now, completedAt := Some(now))
                           else j
      ensures Abs() == Next(old(Abs()), Cancel(id, now))
    {
      if id !in jobs {
        return Some(JobNotFound);
      }
      hide Tree, Under, CancelRows, CancelledRow;
      var toCancel := [id];
      var visited: set<string> := {};
      ghost var start := jobs;
      TreeHolds(start, id);
      CancelNothing(start, now);
      while toCancel != []
        invariant jobs == CancelRows(start, visited, now)
        invariant visited <= Tree(start, id)
        invariant forall x :: x in toCancel ==> x in Tree(start, id)
        invariant id in visited || id in toCancel
        invariant Frontier(start, visited, toCancel)
        decreases start.Keys - visited, |toCancel|
      {
        var currID := toCancel[0];
        TreeHolds(start, id);
        CancelKeepsLinks(start, visited, now);
        toCancel := toCancel[1..];
        if currID in visited {
          continue;
        }
        CancelOneMore(start, visited, currID, now);
        visited := visited + {currID};
        if currID in jobs {
          jobs := jobs[currID := CancelledRow(jobs[currID], now)];
        }
        CancelKeepsLinks(start, visited, now);
        var kids := ChildIDs(currID);
        assert forall x :: x in Children(jobs, currID) <==> x in kids;
        toCancel := toCancel + kids;
      }
      ClosedIsTree(start, id, visited);
      CancelledRows(start, visited, now);
      return None;
    }

    /** The subtree of a stored job, breadth first. */
    method CollectTree(rootID: string) returns (tree: seq<string>)
      requires rootID in jobs
      ensures (set x | x in tree) == Tree(jobs, rootID)
      ensures tree != []
    {
      tree := [rootID];
      var queueList := [rootID];
      var treeVisited := {rootID};
      UnderSelf(jobs, rootID);
      while queueList != []
        invariant rootID in treeVisited && tree != []
        invariant forall x :: x in tree <==> x in treeVisited
        invariant treeVisited <= Tree(jobs, rootID)
        invariant forall x :: x in queueList ==> x in treeVisited
        invariant forall x :: x in jobs && jobs[x].parent.Some? && jobs[x].parent.value in treeVisited ==>
                    x in treeVisited || jobs[x].parent.value in queueList
        decreases jobs.Keys - treeVisited, |queueList|
      {
        var currID := queueList[0];
        queueList := queueList[1..];
        var kids := ChildIDs(currID);
        assert forall x :: x in kids <==> x in Children(jobs, currID);
        ghost var before, rest := treeVisited, queueList;
        for i := 0 to |kids|
          invariant rootID in treeVisited && tree != []
          invariant forall x :: x in tree <==> x in treeVisited
          invariant treeVisited == before + (set k | 0 <= k < i :: kids[k])
          invariant treeVisited <= Tree(jobs, rootID)
          invariant forall x :: x in queueList ==> x in treeVisited
          invariant forall x :: x in rest ==> x in queueList
          invariant forall x :: x in treeVisited && x !in before ==> x in queueList
          invariant treeVisited == before ==> queueList == rest
        {
          assert kids[i] in Children(jobs, currID);
          if kids[i] !in treeVisited {
            UnderParent(jobs, kids[i], rootID);
            treeVisited := treeVisited + {kids[i]};
            tree := tree + [kids[i]];
            queueList := queueList + [kids[i]];
          }
        }
        forall x | x in jobs && jobs[x].parent.Some? && jobs[x].parent.value in treeVisited
          ensures x in treeVisited || jobs[x].parent.value in queueList
        {
          if jobs[x].parent.value == currID {
            assert x in kids;
          }
        }
      }
      ClosedIsTree(jobs, rootID, treeVisited);
    }

    /** The eligibility scan over a collected tree. */
    method IsEligible(tree: seq<string>, completedCutoff: Time, failedCutoff: Time) returns (eligible: bool)
      requires tree != [] && forall x :: x in tree ==> x in jobs
      ensures eligible <==> TreeExpired(jobs, (set x | x in tree), completedCutoff, failedCutoff)
    {
      var hasActive, hasFailed, maxTime := false, false, 0;
      var i := 0;
      while i < |tree|
        invariant 0 <= i <= |tree|
        invariant !hasActive && forall k :: 0 <= k < i ==> !Active(jobs[tree[k]])
        invariant hasFailed <==> exists k :: 0 <= k < i && jobs[tree[k]].status.Failed?
        invariant forall k :: 0 <= k < i ==> FinishedAt(jobs[tree[k]]) <= maxTime
        invariant maxTime == 0 || exists k :: 0 <= k < i && FinishedAt(jobs[tree[k]]) == maxTime
      {
        var j := jobs[tree[i]];
        if Active(j) {
          hasActive := true;
          break;
        }
        if j.status.Failed? {
          hasFailed := true;
        }
        if maxTime == 0 || FinishedAt(j) > maxTime {
          maxTime := FinishedAt(j);
        }
        i := i + 1;
      }
      ghost var all := set x | x in tree;
      if hasActive {
        assert tree[i] in all;
        return false;
      }
      assert hasFailed <==> exists x :: x in all && jobs[x].status.Failed? by {
        if hasFailed {
          ghost var k :| 0 <= k < i && jobs[tree[k]].status.Failed?;
          assert tree[k] in all;
        }
      }
      if maxTime != 0 {
        ghost var k :| 0 <= k < i && FinishedAt(jobs[tree[k]]) == maxTime;
        assert tree[k] in all;
      }
      eligible := if !hasFailed then maxTime <= completedCutoff else maxTime <= failedCutoff;
    }

    /** One round of the cleanup loop: the root's tree goes if the root is still stored and the tree expired. */
    method PruneIfExpired(rootID: string, completedCutoff: Time, failedCutoff: Time) returns (pruned: bool)
      modifies this`jobs
      ensures pruned <==> rootID in old(jobs) && TreeExpired(old(jobs), Tree(old(jobs), rootID), completedCutoff, failedCutoff)
      ensures jobs == if pruned then old(jobs) - Tree(old(jobs), rootID) else old(jobs)
    {
      if rootID !in jobs {
        return false;
      }
      var treeJobs := CollectTree(rootID);
      assert forall x :: x in treeJobs ==> x in Tree(jobs, rootID) by {
        assert forall x :: x in treeJobs ==> x in (set y | y in treeJobs);
      }
      pruned := IsEligible(treeJobs, completedCutoff, failedCutoff);
      if pruned {
        var _ := DeleteRecursive(rootID, {});
      }
    }

    /**
     * Prunes expired root trees, at most a batch of them; `rootIDs` is the order the map yields the roots. No
     * active job goes, and while no root is below another the pruned roots are a full batch of the expired ones.
     */
    method CleanupJobs(completedCutoff: Time, failedCutoff: Time, batchSize: int, rootIDs: seq<string>)
      returns (deletedCount: nat, ghost chosen: set<string>)
      requires ListsRoots(jobs, rootIDs)
      modifies this`jobs, this`loose, this`version, this`workers
      ensures chosen <= Elems(rootIDs) && deletedCount == |chosen| <= if batchSize <= 0 then 500 else batchSize
      ensures jobs == old(jobs) - Forest(old(jobs), chosen)
      ensures forall x :: x in Forest(old(jobs), chosen) ==> !Active(old(jobs)[x])
      ensures RootsApart(old(jobs)) ==> IsBatch(old(jobs), chosen, completedCutoff, failedCutoff, batchSize)
      ensures Abs() == Next(old(Abs()), Prune(chosen))
    {
      hide Next, Detach, Forest, Doomed, Tree, Under, TreeExpired, PrunedSoFar, ListsRoots, IsBatch, RootsApart;
      var limit := BatchLimit(batchSize);
      deletedCount := 0;
      var before := jobs;
      chosen := {};
      NothingPruned(before, rootIDs, completedCutoff, failedCutoff);
      var i := 0;
      while i < |rootIDs| && deletedCount < limit
        invariant 0 <= i <= |rootIDs| && deletedCount == |chosen| <= limit
        invariant PrunedSoFar(before, jobs, chosen, rootIDs, i, completedCutoff, failedCutoff)
        invariant Abs() == old(Abs()).(jobs := jobs)
      {
        ghost var start := jobs;
        var pruned := PruneIfExpired(rootIDs[i], completedCutoff, failedCutoff);
        PruneStep(before, start, chosen, rootIDs, i, pruned, completedCutoff, failedCutoff);
        if pruned {
          deletedCount := deletedCount + 1;
          chosen := chosen + {rootIDs[i]};
        }
        i := i + 1;
      }
      PruneDone(before, jobs, chosen, rootIDs, i, completedCutoff, failedCutoff, batchSize);
      PruneIsStep(old(Abs()), chosen);
      LetGo(before);
    }
  }

  /** Every child of a visited job is visited or waits in the worklist. */
  predicate Frontier(jobs: Store, visited: set<string>, worklist: seq<string>) {
    forall x :: x in jobs && jobs[x].parent.Some? && jobs[x].parent.value in visited ==> x in visited || x in worklist
  }

  lemma TreeHolds(jobs: Store, id: string)
    ensures Tree(jobs, id) <= jobs.Keys
    ensures id in jobs ==> id in Tree(jobs, id)
    ensures forall x :: x in jobs && jobs[x].parent.Some? && jobs[x].parent.value in Tree(jobs, id) ==> x in Tree(jobs, id)
  {
    UnderSelf(jobs, id);
    forall x | x in jobs && jobs[x].parent.Some? && jobs[x].parent.value in Tree(jobs, id) ensures x in Tree(jobs, id) {
      UnderParent(jobs, x, id);
    }
  }

  lemma CancelNothing(jobs: Store, now: Time)
    ensures CancelRows(jobs, {}, now) == jobs
  {
  }

  lemma CancelledRows(jobs: Store, ids: set<string>, now: Time)
    ensures CancelRows(jobs, ids, now).Keys == jobs.Keys
    ensures forall x :: x in jobs ==>
              CancelRows(jobs, ids, now)[x]
              == if x in ids && (jobs[x].status.Pending? || jobs[x].status.Running?)
                 then jobs[x].(status := Failed, error := "job cancelled by user", updatedAt := now, completedAt := Some(now))
                 else jobs[x]
  {
  }

  lemma CancelOneMore(jobs: Store, visited: set<string>, id: string, now: Time)
    requires id in jobs && id !in visited
    ensures var before := CancelRows(jobs, visited, now);
            before[id := CancelledRow(before[id], now)] == CancelRows(jobs, visited + {id}, now)
  {
  }

  lemma CancelKeepsLinks(jobs: Store, ids: set<string>, now: Time)
    ensures SameLinks(jobs, CancelRows(jobs, ids, now))
  {
  }

  lemma RewriteSame(s: State, k: Worker)
    requires Present(s, k)
    ensures Write(s, k, Object(s, k)) == s
  {
    if k.at == None {
      assert s.jobs[k.id := s.jobs[k.id]] == s.jobs;
    } else {
      assert s.loose[(k.at.value, k.id) := s.loose[(k.at.value, k.id)]] == s.loose;
    }
  }

  lemma PruneIsStep(s: State, chosen: set<string>)
    ensures Next(s, Prune(chosen)) == Detach(s, Forest(s.jobs, chosen))
    ensures s == s.(jobs := s.jobs)
  {
  }

  /** The store after the first i roots, of which `chosen` were pruned. */
  ghost predicate PrunedSoFar(start: Store, now: Store, chosen: set<string>, rootIDs: seq<string>, i: nat, cc: Time, fc: Time) {
    && i <= |rootIDs| && ListsRoots(start, rootIDs)
    && chosen <= Elems(rootIDs[..i]) && now == start - Doomed(start, chosen)
    && (forall x :: x in Doomed(start, chosen) ==> x in start && !Active(start[x]))
    && (RootsApart(start) ==> chosen == ExpiredAmong(start, rootIDs, i, cc, fc))
  }

  lemma NothingPruned(start: Store, rootIDs: seq<string>, cc: Time, fc: Time)
    requires ListsRoots(start, rootIDs)
    ensures PrunedSoFar(start, start, {}, rootIDs, 0, cc, fc)
  {
    assert Doomed(start, {}) == {};
  }

  lemma PruneStep(start: Store, before: Store, chosen: set<string>, rootIDs: seq<string>, i: nat, pruned: bool, cc: Time, fc: Time)
    requires PrunedSoFar(start, before, chosen, rootIDs, i, cc, fc) && i < |rootIDs|
    requires pruned <==> rootIDs[i] in before && TreeExpired(before, Tree(before, rootIDs[i]), cc, fc)
    ensures var r := rootIDs[i];
            && (pruned ==> r !in chosen)
            && PrunedSoFar(start, if pruned then before - Tree(before, r) else before,
                           if pruned then chosen + {r} else chosen, rootIDs, i + 1, cc, fc)
  {
    hide Tree, Under, Doomed, RootsApart, ExpiredRoots, IsRoot;
    var r := rootIDs[i];
    assert rootIDs[..i + 1] == rootIDs[..i] + [r];
    assert r in rootIDs && r !in rootIDs[..i];
    DoomedGrows(start, chosen, r);
    TreeIsInStore(before, r);
    if RootsApart(start) {
      ApartStep(start, before, chosen, r, cc, fc);
    }
  }

  lemma TreeIsInStore(jobs: Store, r: string)
    ensures Tree(jobs, r) <= jobs.Keys
  {
  }

  lemma ApartStep(start: Store, before: Store, chosen: set<string>, r: string, cc: Time, fc: Time)
    requires RootsApart(start) && r in start && IsRoot(start[r]) && r !in chosen && chosen <= ExpiredRoots(start, cc, fc)
    requires before == start - Doomed(start, chosen)
    ensures r in before && (TreeExpired(before, Tree(before, r), cc, fc) <==> r in ExpiredRoots(start, cc, fc))
  {
    assert chosen * start.Keys == chosen;
    RootUndisturbed(start, chosen, r, cc, fc);
  }

  lemma PruneDone(start: Store, now: Store, chosen: set<string>, rootIDs: seq<string>, i: nat, cc: Time, fc: Time, batchSize: int)
    requires PrunedSoFar(start, now, chosen, rootIDs, i, cc, fc) && |chosen| <= BatchLimit(batchSize)
    requires i < |rootIDs| ==> |chosen| == BatchLimit(batchSize)
    ensures chosen <= Elems(rootIDs) && now == start - Forest(start, chosen)
    ensures now.Keys <= start.Keys && start.Keys - now.Keys == Forest(start, chosen)
    ensures now == start - (start.Keys - now.Keys)
    ensures forall x :: x in Forest(start, chosen) ==> x in start && !Active(start[x])
    ensures RootsApart(start) ==> IsBatch(start, chosen, cc, fc, batchSize)
  {
    hide Under, RootsApart, TreeExpired, IsBatch, ExpiredRoots;
    assert forall r :: r in rootIDs[..i] ==> r in rootIDs;
    assert chosen * start.Keys == chosen;
    if RootsApart(start) {
      PrunedIsBatch(start, chosen, rootIDs, i, cc, fc, batchSize);
    }
  }

  lemma PrunedIsBatch(start: Store, chosen: set<string>, rootIDs: seq<string>, i: nat, cc: Time, fc: Time, batchSize: int)
    requires ListsRoots(start, rootIDs) && i <= |rootIDs| && |chosen| <= BatchLimit(batchSize)
    requires chosen == ExpiredAmong(start, rootIDs, i, cc, fc)
    requires i < |rootIDs| ==> |chosen| == BatchLimit(batchSize)
    ensures IsBatch(start, chosen, cc, fc, batchSize)
  {
    hide Tree, TreeExpired;
    SubsetSize(chosen, ExpiredRoots(start, cc, fc));
    if i == |rootIDs| {
      assert rootIDs[..i] == rootIDs;
      assert chosen == ExpiredRoots(start, cc, fc);
    }
  }

  /** Pruning other root trees changes neither a root's tree nor its verdict. */
  lemma RootUndisturbed(jobs: Store, chosen: set<string>, r: string, cc: Time, fc: Time)
    requires RootsApart(jobs) && r in jobs && IsRoot(jobs[r]) && r !in chosen
    requires forall c :: c in chosen ==> c in jobs && IsRoot(jobs[c])
    ensures r in jobs - Forest(jobs, chosen)
    ensures Tree(jobs - Forest(jobs, chosen), r) == Tree(jobs, r)
    ensures TreeExpired(jobs - Forest(jobs, chosen), Tree(jobs, r), cc, fc) <==> TreeExpired(jobs, Tree(jobs, r), cc, fc)
  {
    TreeOutsideForest(jobs, r, chosen);
    UnderSelf(jobs, r);
    ForestIsChildClosed(jobs, chosen);
    TreeAfterRemoval(jobs, Forest(jobs, chosen), r);
    SameRowsSameVerdict(jobs - Forest(jobs, chosen), jobs, Tree(jobs, r), cc, fc);
  }

  lemma SameRowsSameVerdict(a: Store, b: Store, tree: set<string>, cc: Time, fc: Time)
    requires tree <= a.Keys && tree <= b.Keys && forall x :: x in tree ==> a[x] == b[x]
    ensures TreeExpired(a, tree, cc, fc) <==> TreeExpired(b, tree, cc, fc)
  {
  }
}
