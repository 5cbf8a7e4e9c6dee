/** The SQLite cleanup selects its roots in one statement and deletes their trees later: what may fall in between. */
module CleanupGap {
  import opened Options
  import opened Jobs
  import opened JobTree
  import opened Retention
  import opened Scheduler
  import opened Lifecycle

  ghost predicate Quiet(jobs: Store, chosen: set<string>) {
    forall x :: x in Doomed(jobs, chosen) ==> !Active(jobs[x])
  }

  /** The row a step of a caller writes. */
  function StoredRow(s: State, t: Step): Option<(string, Job)> {
    match t
    case Create(id, job) => if id in s.jobs then None else Some((id, job))
    case Enqueue(id, job, now) => Some((id, if id in s.jobs then EnqueuedRow(s.jobs[id], now) else FreshRow(job, now)))
    case Update(id, job) => if id in s.jobs then Some((id, job)) else None
    case _ => None
  }

  /** Beside the rows of `base`, a row of this id belongs to a chosen tree: as its root or through its parent. */
  ghost predicate Joins(base: Store, id: string, row: Job, chosen: set<string>) {
    id in chosen || (row.parent.Some? && row.parent.value in Doomed(base, chosen))
  }

  /** The step puts an active row into a chosen tree, or a row that ties active ones to it. */
  ghost predicate Rearms(s: State, t: Step, chosen: set<string>) {
    var stored := StoredRow(s, t);
    stored.Some? &&
    var (id, row) := stored.value;
    var base := s.jobs - {id};
    Joins(base, id, row, chosen) && (Active(row) || exists x :: x in Tree(base, id) && Active(base[x]))
  }

  lemma {:induction false} ChainInFewer(a: Store, b: Store, x: string, n: nat)
    requires b.Keys <= a.Keys && forall y :: y in b ==> b[y].parent == a[y].parent
    requires Chain(b, x, n).Some?
    ensures Chain(a, x, n) == Chain(b, x, n)
    decreases n
  {
    if n > 0 {
      ChainInFewer(a, b, b[x].parent.value, n - 1);
    }
  }

  lemma DoomedInFewer(a: Store, b: Store, chosen: set<string>)
    requires b.Keys <= a.Keys && forall y :: y in b ==> b[y].parent == a[y].parent
    ensures Doomed(b, chosen) <= Doomed(a, chosen)
  {
    forall x | x in Doomed(b, chosen) ensures x in Doomed(a, chosen) {
      var r :| r in chosen * b.Keys && Under(b, x, r);
      var n: nat :| Chain(b, x, n) == Some(r);
      ChainInFewer(a, b, x, n);
      assert r in chosen * a.Keys && Under(a, x, r);
    }
  }

  /** A doomed row of the larger store was doomed without the new row, or hangs on it. */
  lemma {:induction false} TraceDoom(base: Store, id: string, row: Job, chosen: set<string>, x: string, n: nat, r: string)
    requires id !in base && x in base[id := row] && r in chosen && r in base[id := row]
    requires Chain(base[id := row], x, n) == Some(r)
    ensures x in Doomed(base, chosen) || (Joins(base, id, row, chosen) && (x == id || Under(base, x, id)))
    decreases n
  {
    var all := base[id := row];
    if n == 0 {
      if x != id {
        UnderSelf(base, x);
        assert x in chosen * base.Keys;
      }
    } else {
      var p := all[x].parent.value;
      TraceDoom(base, id, row, chosen, p, n - 1, r);
      if x != id && p in Doomed(base, chosen) {
        var q :| q in chosen * base.Keys && Under(base, p, q);
        UnderParent(base, x, q);
      } else if x != id {
        UnderSelf(base, id);
        UnderParent(base, x, id);
      }
    }
  }

  /** What storing one row does to the doomed rows. */
  lemma DoomedWithRow(base: Store, id: string, row: Job, chosen: set<string>)
    requires id !in base
    ensures Doomed(base[id := row], chosen)
            == Doomed(base, chosen) + if Joins(base, id, row, chosen) then {id} + Tree(base, id) else {}
  {
    var all := base[id := row];
    DoomedInFewer(all, base, chosen);
    forall x | x in Doomed(all, chosen)
      ensures x in Doomed(base, chosen) || (Joins(base, id, row, chosen) && (x == id || x in Tree(base, id)))
    {
      var r :| r in chosen * all.Keys && Under(all, x, r);
      var n: nat :| Chain(all, x, n) == Some(r);
      TraceDoom(base, id, row, chosen, x, n, r);
    }
    if Joins(base, id, row, chosen) {
      var r := RootOfJoined(base, id, row, chosen);
      forall x | x in {id} + Tree(base, id) ensures x in Doomed(all, chosen) {
        UnderSelf(base, id);
        var n: nat :| Chain(base, x, n) == Some(id);
        ChainInFewer(all, base, x, n);
        var m: nat :| Chain(all, id, m) == Some(r);
        ChainAdd(all, x, n, m);
        assert Under(all, x, r);
      }
    }
  }

  lemma RootOfJoined(base: Store, id: string, row: Job, chosen: set<string>) returns (r: string)
    requires id !in base && Joins(base, id, row, chosen)
    ensures r in chosen * base[id := row].Keys && Under(base[id := row], id, r)
  {
    var all := base[id := row];
    if id in chosen {
      r := id;
      UnderSelf(all, id);
    } else {
      var p := row.parent.value;
      r :| r in chosen * base.Keys && Under(base, p, r);
      var n: nat :| Chain(base, p, n) == Some(r);
      ChainInFewer(all, base, p, n);
      UnderParent(all, id, r);
    }
  }

  lemma LinksOnlyShrinkStep(s: State, t: Step)
    requires Enabled(s, t) && !(t.Create? || t.Enqueue? || t.Update?)
    ensures Next(s, t).jobs.Keys <= s.jobs.Keys
    ensures forall x :: x in Next(s, t).jobs ==> Next(s, t).jobs[x].parent == s.jobs[x].parent
  {
    hide Tree, Doomed, OnCycle, AfterPoll, PendingByAge;
    match t
    case Poll(_, _, _, _) => PollFacts(s, t);
    case _ =>
  }

  lemma OtherStepsStayQuiet(s: State, t: Step, chosen: set<string>)
    requires Enabled(s, t) && Quiet(s.jobs, chosen) && !(t.Create? || t.Enqueue? || t.Update?)
    ensures Quiet(Next(s, t).jobs, chosen)
  {
    hide Enabled, Next, Doomed;
    var n := Next(s, t);
    LinksOnlyShrinkStep(s, t);
    DoomedInFewer(s.jobs, n.jobs, chosen);
    DoomedAreStored(n.jobs, chosen);
    forall x | x in Doomed(n.jobs, chosen) ensures !Active(n.jobs[x]) {
      FinishedRowStays(s, t, x);
    }
  }

  lemma DoomedAreStored(jobs: Store, chosen: set<string>)
    ensures Doomed(jobs, chosen) <= jobs.Keys
  {
  }

  /** A step keeps the chosen trees free of active jobs exactly when it does not rearm one. */
  lemma GapStep(s: State, t: Step, chosen: set<string>)
    requires Enabled(s, t) && Quiet(s.jobs, chosen)
    ensures Quiet(Next(s, t).jobs, chosen) <==> !Rearms(s, t, chosen)
  {
    if StoredRow(s, t).Some? {
      var (id, row) := StoredRow(s, t).value;
      var base := s.jobs - {id};
      assert Next(s, t).jobs == base[id := row];
      hide Enabled, Next, Doomed, Joins, Tree;
      DoomedInFewer(s.jobs, base, chosen);
      DoomedWithRow(base, id, row, chosen);
      DoomedAreStored(base, chosen);
      TreeIsStored(base, id);
    } else if t.Create? || t.Enqueue? || t.Update? {
      assert Next(s, t).jobs == s.jobs;
    } else {
      OtherStepsStayQuiet(s, t, chosen);
    }
  }

  lemma TreeIsStored(jobs: Store, root: string)
    ensures Tree(jobs, root) <= jobs.Keys
  {
  }

  /** Enqueueing a stored job rearms a chosen tree exactly when the job is in one. */
  lemma EnqueueRearms(s: State, id: string, job: Job, now: Time, chosen: set<string>)
    requires id in s.jobs
    ensures Rearms(s, Enqueue(id, job, now), chosen) <==> id in Doomed(s.jobs, chosen)
  {
    var base := s.jobs - {id};
    assert s.jobs == base[id := s.jobs[id]];
    hide Doomed, Tree;
    DoomedWithRow(base, id, s.jobs[id], chosen);
    DoomedAreStored(base, chosen);
    TreeIsStored(base, id);
  }

  ghost predicate NeverRearms(s: State, steps: seq<Step>, chosen: set<string>)
    requires Runnable(s, steps)
    decreases |steps|
  {
    steps == [] || (!Rearms(s, steps[0], chosen) && NeverRearms(Next(s, steps[0]), steps[1..], chosen))
  }

  ghost predicate QuietThroughout(s: State, steps: seq<Step>, chosen: set<string>)
    requires Runnable(s, steps)
    decreases |steps|
  {
    Quiet(s.jobs, chosen) && (steps == [] || QuietThroughout(Next(s, steps[0]), steps[1..], chosen))
  }

  lemma {:induction false} QuietRun(s: State, steps: seq<Step>, chosen: set<string>)
    requires Runnable(s, steps) && Quiet(s.jobs, chosen)
    ensures QuietThroughout(s, steps, chosen) <==> NeverRearms(s, steps, chosen)
    ensures QuietThroughout(s, steps, chosen) ==> Quiet(Run(s, steps).jobs, chosen)
    decreases |steps|
  {
    hide Enabled, Next, Quiet, Rearms;
    if steps != [] {
      var n := Next(s, steps[0]);
      GapStep(s, steps[0], chosen);
      if Quiet(n.jobs, chosen) {
        QuietRun(n, steps[1..], chosen);
      } else {
        NotQuietNow(n, steps[1..], chosen);
      }
    }
  }

  lemma NotQuietNow(s: State, steps: seq<Step>, chosen: set<string>)
    requires Runnable(s, steps) && !Quiet(s.jobs, chosen)
    ensures !QuietThroughout(s, steps, chosen)
  {
  }

  /**
   * Whatever falls between the select and the deletion of a cleanup, the selected trees stay free of active
   * jobs at every point exactly when no step rearms one; then the deletion loses no active job.
   */
  lemma CleanupGapIsSafe(s: State, steps: seq<Step>, chosen: set<string>, cc: Time, fc: Time)
    requires Runnable(s, steps) && chosen <= ExpiredRoots(s.jobs, cc, fc)
    ensures QuietThroughout(s, steps, chosen) <==> NeverRearms(s, steps, chosen)
    ensures var end := Run(s, steps);
            NeverRearms(s, steps, chosen) && Enabled(end, Prune(chosen)) ==>
              forall x :: x in end.jobs && Active(end.jobs[x]) ==> x in Next(end, Prune(chosen)).jobs
  {
    forall x | x in Doomed(s.jobs, chosen) ensures !Active(s.jobs[x]) {
      var r :| r in chosen * s.jobs.Keys && Under(s.jobs, x, r);
      assert x in Tree(s.jobs, r);
    }
    hide Doomed, ExpiredRoots, Active;
    QuietRun(s, steps, chosen);
  }

  /** With an Enqueue in that gap the cleanup deletes a pending job. */
  lemma CleanupGapDropsRevivedJob(done: Job, now: Time)
    requires done.parent == None && done.status.Completed?
    ensures var s := State(map["root" := done], [], 0, map[], Config(map[], 0, {}));
            var steps := [Enqueue("root", done, now), Prune({"root"})];
            && "root" in ExpiredRoots(s.jobs, FinishedAt(done), FinishedAt(done))
            && Runnable(s, steps)
            && Next(s, steps[0]).jobs["root"].status.Pending?
            && Run(s, steps).jobs == map[]
  {
    var s := State(map["root" := done], [], 0, map[], Config(map[], 0, {}));
    var steps := [Enqueue("root", done, now), Prune({"root"})];
    var s1 := Next(s, steps[0]);
    assert s1.jobs.Keys == {"root"};
    forall n: nat | n > 0 ensures Chain(s1.jobs, "root", n) == None {}
    UnderSelf(s1.jobs, "root");
    assert Doomed(s1.jobs, {"root"}) == {"root"};
    var s2 := Next(s1, steps[1]);
    assert steps[1..] == [Prune({"root"})] && steps[1..][1..] == [];
    assert Runnable(s2, []) && Runnable(s1, steps[1..]);
    assert Run(s1, steps[1..]) == s2;
  }
}
