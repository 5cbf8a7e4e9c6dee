/** Single flight, bounded retries and sticky cancellation over runs of the SQLite queue. */
module Lifecycle {
  import opened Jobs
  import opened JobTree
  import opened Scheduler
  import opened SchedulerSafety
  import opened Dispatch

  // --- one execution per id -------------------------------------------------------

  /** No id is in flight twice, and no row of an in-flight id waits to be claimed again. */
  ghost predicate SingleFlight(s: State) {
    && DistinctIds(s.inFlight)
    && forall i :: 0 <= i < |s.inFlight| && s.inFlight[i].id in s.jobs ==> !s.jobs[s.inFlight[i].id].status.Pending?
  }

  predicate IsInFlight(s: State, id: string) {
    exists i :: 0 <= i < |s.inFlight| && s.inFlight[i].id == id
  }

  /** The step makes the row of a still-running execution pending. */
  predicate Revives(s: State, t: Step) {
    match t
    case Enqueue(id, _, _) => IsInFlight(s, id)
    case Create(id, job) => id !in s.jobs && job.status.Pending? && IsInFlight(s, id)
    case Update(id, job) => id in s.jobs && job.status.Pending? && IsInFlight(s, id)
    case _ => false
  }

  /** The claims a poll step adds to the executions. */
  function NewClaims(s: State, t: Step): seq<Exec> {
    if t.Poll? && t.end == Committed && !AtCapacity(s.cfg, s.runningCount)
    then PollScan(s, t.rows, t.unwritten, t.now).claimed
    else []
  }

  lemma PollFacts(s: State, t: Step)
    requires Enabled(s, t) && t.Poll?
    ensures Next(s, t).inFlight == s.inFlight + NewClaims(s, t)
    ensures DistinctIds(NewClaims(s, t))
    ensures forall i :: 0 <= i < |NewClaims(s, t)| ==>
              var e := NewClaims(s, t)[i];
              e.id in s.jobs && s.jobs[e.id].status.Pending? && e == Snapshot(e.id, s.jobs[e.id])
              && e.id in Next(s, t).jobs && Next(s, t).jobs[e.id] == ClaimedRow(s.jobs[e.id], t.now)
    ensures Next(s, t).jobs.Keys == s.jobs.Keys
    ensures forall x :: x in s.jobs ==>
              || Next(s, t).jobs[x] == s.jobs[x]
              || (s.jobs[x].status.Pending? && x in Ids(NewClaims(s, t)) && Next(s, t).jobs[x] == ClaimedRow(s.jobs[x], t.now))
              || (s.jobs[x].status.Pending? && x !in Ids(NewClaims(s, t)) && Next(s, t).jobs[x] == UnhandledRow(s.jobs[x], t.now))
  {
    hide ScanRow, ScanRows, Ids, Count, InGroup, ReleaseAll;
    RowsArePending(s.jobs, t.rows);
    ScanIsFaithful(s.cfg, t.unwritten, t.now, ScanStart(s), t.rows);
    var claims := NewClaims(s, t);
    forall i | 0 <= i < |claims| ensures claims[i].id in Ids(claims) {
      InIds(claims, i);
    }
    forall x | x in Ids(claims) ensures x in s.jobs && s.jobs[x].status.Pending? {
      var i := IndexOf(claims, x);
      assert claims[i].id in t.rows;
    }
  }

  lemma IndexOf(execs: seq<Exec>, x: string) returns (i: nat)
    requires x in Ids(execs)
    ensures i < |execs| && execs[i].id == x
  {
    var e :| e in execs && e.id == x;
    i :| 0 <= i < |execs| && execs[i] == e;
  }

  lemma InIds(execs: seq<Exec>, i: nat)
    requires i < |execs|
    ensures execs[i].id in Ids(execs)
  {
    assert execs[i] in execs;
  }

  lemma PollKeepsSingleFlight(s: State, t: Step)
    requires Enabled(s, t) && t.Poll? && SingleFlight(s)
    ensures SingleFlight(Next(s, t))
  {
    hide Ids, AfterPoll, PollScan, PendingByAge, NewClaims;
    PollFacts(s, t);
    var n := Next(s, t);
    forall i, j | 0 <= i < j < |n.inFlight| ensures n.inFlight[i].id != n.inFlight[j].id {
    }
  }

  lemma FinalizeKeepsSingleFlight(s: State, t: Step)
    requires Enabled(s, t) && t.Finalize? && SingleFlight(s)
    ensures SingleFlight(Next(s, t))
  {
    var n := Next(s, t);
    forall i | 0 <= i < |n.inFlight|
      ensures n.inFlight[i] == s.inFlight[if i < t.k then i else i + 1]
      ensures n.inFlight[i].id != s.inFlight[t.k].id
    {
    }
  }

  lemma TreeStepKeepsSingleFlight(s: State, t: Step)
    requires Enabled(s, t) && (t.Delete? || t.Cancel? || t.Prune?) && SingleFlight(s)
    ensures SingleFlight(Next(s, t))
  {
    hide Tree, Doomed, OnCycle;
  }

  /** A step keeps single flight exactly when it does not revive a running execution's row. */
  lemma SingleFlightStep(s: State, t: Step)
    requires Enabled(s, t) && SingleFlight(s)
    ensures SingleFlight(Next(s, t)) <==> !Revives(s, t)
  {
    match t
    case Poll(_, _, _, _) => PollKeepsSingleFlight(s, t);
    case Finalize(_, _, _, _) => FinalizeKeepsSingleFlight(s, t);
    case Delete(_) => TreeStepKeepsSingleFlight(s, t);
    case Cancel(_, _) => TreeStepKeepsSingleFlight(s, t);
    case Prune(_) => TreeStepKeepsSingleFlight(s, t);
    case Create(_, _) =>
    case Enqueue(_, _, _) =>
    case Update(_, _) =>
    case Register(_) =>
    case SetGroupLimit(_, _) =>
  }

  /**
   * The pull pipeline's way of adding a child, create it as pending and then enqueue it, lets the same job
   * run twice when one poll falls between the two calls and another comes after.
   */
  lemma CreateThenEnqueueRunsTwice(child: Job, now: Time)
    requires child.status.Pending?
    ensures var cfg := Config(map[], 0, {child.kind});
            var s := State(map[], [], 0, map[], cfg);
            var poll := Poll(["child"], Committed, {}, now);
            var steps := [Create("child", child), poll, Enqueue("child", child, now), poll];
            && Runnable(s, steps)
            && |Run(s, steps).inFlight| == 2
            && Run(s, steps).inFlight[0].id == "child" == Run(s, steps).inFlight[1].id
  {
    var cfg := Config(map[], 0, {child.kind});
    var s := State(map[], [], 0, map[], cfg);
    var poll := Poll(["child"], Committed, {}, now);
    var enqueue := Enqueue("child", child, now);
    var steps := [Create("child", child), poll, enqueue, poll];
    var s1 := Next(s, steps[0]);
    OneRowPoll(s1, "child", now);
    var s2 := Next(s1, poll);
    var s3 := Next(s2, enqueue);
    OneRowPoll(s3, "child", now);
    var s4 := Next(s3, poll);
    assert steps[1..] == [poll, enqueue, poll] && steps[1..][1..] == [enqueue, poll] && steps[1..][1..][1..] == [poll];
    assert [poll][1..] == [];
    assert Runnable(s4, []) && Runnable(s3, [poll]);
    assert Runnable(s2, [enqueue, poll]);
    assert Runnable(s1, [poll, enqueue, poll]);
    assert Run(s1, [poll, enqueue, poll]) == Run(s2, [enqueue, poll]) == Run(s3, [poll]) == s4;
  }

  lemma OneRowPoll(s: State, id: string, now: Time)
    requires s.jobs.Keys == {id} && s.jobs[id].status.Pending? && s.jobs[id].kind in s.cfg.handlers
    requires s.cfg.maxConcurrency == 0 && s.cfg.groupLimits == map[]
    ensures Enabled(s, Poll([id], Committed, {}, now))
    ensures Next(s, Poll([id], Committed, {}, now)).inFlight == s.inFlight + [Snapshot(id, s.jobs[id])]
    ensures Next(s, Poll([id], Committed, {}, now)).jobs == s.jobs[id := ClaimedRow(s.jobs[id], now)]
    ensures Next(s, Poll([id], Committed, {}, now)).cfg == s.cfg
  {
    assert [id][..0] == [];
    assert ScanRows(s.cfg, {}, now, ScanStart(s), []) == ScanStart(s);
    assert PollScan(s, [id], {}, now) == ScanRow(s.cfg, {}, now, ScanStart(s), id);
  }

  // --- bounded retries ------------------------------------------------------------

  /** How often a stored job can still be claimed. */
  function Weight(jobs: Store, id: string): nat {
    if id !in jobs then 0
    else
      var j := jobs[id];
      if j.status.Pending? then (if j.maxRetries - j.retries > 1 then j.maxRetries - j.retries else 1)
      else if j.status.Running? then (if j.maxRetries - j.retries > 1 then j.maxRetries - j.retries - 1 else 0)
      else 0
  }

  /** The job is in flight at most once, and a running row still carries the counts it was claimed with. */
  ghost predicate Settled(s: State, id: string) {
    && (forall i, j :: 0 <= i < j < |s.inFlight| ==> s.inFlight[i].id != id || s.inFlight[j].id != id)
    && (forall i :: 0 <= i < |s.inFlight| && s.inFlight[i].id == id && id in s.jobs ==>
          && !s.jobs[id].status.Pending?
          && (s.jobs[id].status.Running? ==>
                s.jobs[id].retries == s.inFlight[i].retries && s.jobs[id].maxRetries == s.inFlight[i].maxRetries))
  }

  /** The caller stores or re-queues the job. */
  predicate Renews(t: Step, id: string) {
    match t
    case Create(x, _) => x == id
    case Enqueue(x, _, _) => x == id
    case Update(x, _) => x == id
    case _ => false
  }

  predicate NeverRenews(steps: seq<Step>, id: string) {
    forall i :: 0 <= i < |steps| ==> !Renews(steps[i], id)
  }

  ghost function ClaimsOf(s: State, t: Step, id: string): nat {
    if id in Ids(NewClaims(s, t)) then 1 else 0
  }

  lemma PollWeighs(s: State, t: Step, id: string)
    requires Enabled(s, t) && t.Poll? && Settled(s, id)
    ensures Settled(Next(s, t), id)
    ensures Weight(Next(s, t).jobs, id) + ClaimsOf(s, t, id) <= Weight(s.jobs, id)
  {
    hide AfterPoll, PollScan, PendingByAge, NewClaims;
    PollFacts(s, t);
    var claims := NewClaims(s, t);
    if id in Ids(claims) {
      var e :| e in claims && e.id == id;
    }
    forall i | 0 <= i < |claims| ensures claims[i].id in Ids(claims) {
      InIds(claims, i);
    }
  }

  lemma FinalizeWeighs(s: State, t: Step, id: string)
    requires Enabled(s, t) && t.Finalize? && Settled(s, id)
    ensures Settled(Next(s, t), id)
    ensures Weight(Next(s, t).jobs, id) <= Weight(s.jobs, id)
  {
    var n := Next(s, t);
    forall i | 0 <= i < |n.inFlight|
      ensures n.inFlight[i] == s.inFlight[if i < t.k then i else i + 1]
    {
    }
  }

  lemma TreeStepWeighs(s: State, t: Step, id: string)
    requires Enabled(s, t) && (t.Delete? || t.Cancel? || t.Prune?) && Settled(s, id)
    ensures Settled(Next(s, t), id)
    ensures Weight(Next(s, t).jobs, id) <= Weight(s.jobs, id)
  {
    hide Tree, Doomed, OnCycle;
  }

  /** Every claim of a job uses up weight; no other step adds any, short of storing or enqueueing the job anew. */
  lemma StepWeighs(s: State, t: Step, id: string)
    requires Enabled(s, t) && Settled(s, id) && !Renews(t, id)
    ensures Settled(Next(s, t), id)
    ensures Weight(Next(s, t).jobs, id) + ClaimsOf(s, t, id) <= Weight(s.jobs, id)
  {
    match t
    case Poll(_, _, _, _) => PollWeighs(s, t, id);
    case Finalize(_, _, _, _) => FinalizeWeighs(s, t, id);
    case Delete(_) => TreeStepWeighs(s, t, id);
    case Cancel(_, _) => TreeStepWeighs(s, t, id);
    case Prune(_) => TreeStepWeighs(s, t, id);
    case Create(_, _) =>
    case Enqueue(_, _, _) =>
    case Update(_, _) =>
    case Register(_) =>
    case SetGroupLimit(_, _) =>
  }

  ghost function ClaimsInRun(s: State, steps: seq<Step>, id: string): nat
    requires Runnable(s, steps)
    decreases |steps|
  {
    if steps == [] then 0 else ClaimsOf(s, steps[0], id) + ClaimsInRun(Next(s, steps[0]), steps[1..], id)
  }

  /**
   * Bounded retries: until a caller stores or enqueues it anew, a job is claimed at most
   * max(1, max_retries - retries) more times if pending and max(0, max_retries - retries - 1) if running,
   * whatever other steps interleave.
   */
  lemma {:induction false} RetriesAreBounded(s: State, steps: seq<Step>, id: string)
    requires Runnable(s, steps) && Settled(s, id) && NeverRenews(steps, id)
    ensures ClaimsInRun(s, steps, id) + Weight(Run(s, steps).jobs, id) <= Weight(s.jobs, id)
    ensures Settled(Run(s, steps), id)
    decreases |steps|
  {
    if steps != [] {
      StepWeighs(s, steps[0], id);
      RetriesAreBounded(Next(s, steps[0]), steps[1..], id);
    }
  }

  /** Claims and failing finalizes of the one job of a table, until its retries are used up. */
  function FailingRun(id: string, j: Job): seq<Step>
    decreases j.maxRetries - j.retries
  {
    [Poll([id], Committed, {}, 0), Finalize(0, TransientError("error"), true, 0)]
    + if j.retries + 1 < j.maxRetries then FailingRun(id, j.(retries := j.retries + 1)) else []
  }

  /** A table with this one pending job, which nothing keeps from being claimed. */
  predicate OnlyJob(s: State, id: string, j: Job) {
    && s.jobs == map[id := j] && j.status.Pending? && j.kind in s.cfg.handlers
    && s.cfg.maxConcurrency == 0 && s.cfg.groupLimits == map[] && s.inFlight == []
  }

  /** One claim and one failing finalize. */
  lemma FailOnce(s: State, id: string, j: Job)
    requires OnlyJob(s, id, j)
    ensures var poll, finalize := Poll([id], Committed, {}, 0), Finalize(0, TransientError("error"), true, 0);
            && Enabled(s, poll) && Enabled(Next(s, poll), finalize)
            && ClaimsOf(s, poll, id) == 1 && ClaimsOf(Next(s, poll), finalize, id) == 0
            && var n := Next(Next(s, poll), finalize);
               id in n.jobs && n.jobs[id].retries == j.retries + 1 && n.jobs[id].maxRetries == j.maxRetries
               && (j.retries + 1 < j.maxRetries ==> OnlyJob(n, id, n.jobs[id]))
  {
    ClaimAlone(s, id, j);
    hide AfterPoll, PollScan, PendingByAge;
  }

  lemma ClaimAlone(s: State, id: string, j: Job)
    requires OnlyJob(s, id, j)
    ensures var poll := Poll([id], Committed, {}, 0);
            && Enabled(s, poll) && ClaimsOf(s, poll, id) == 1
            && var n := Next(s, poll);
               n.inFlight == [Snapshot(id, j)] && n.jobs == map[id := ClaimedRow(j, 0)] && n.cfg == s.cfg
  {
    var poll := Poll([id], Committed, {}, 0);
    OneRowPoll(s, id, 0);
    PollFacts(s, poll);
    hide *;
    assert NewClaims(s, poll) == Next(s, poll).inFlight[|s.inFlight|..];
    InIds(NewClaims(s, poll), 0);
  }

  lemma TwoSteps(s: State, a: Step, b: Step, rest: seq<Step>, id: string)
    requires Enabled(s, a) && Enabled(Next(s, a), b) && Runnable(Next(Next(s, a), b), rest)
    ensures Runnable(s, [a, b] + rest)
    ensures ClaimsInRun(s, [a, b] + rest, id)
         == ClaimsOf(s, a, id) + ClaimsOf(Next(s, a), b, id) + ClaimsInRun(Next(Next(s, a), b), rest, id)
  {
    hide Next, Enabled, ClaimsOf;
    var steps := [a, b] + rest;
    assert steps[1..] == [b] + rest && steps[1..][1..] == rest;
    assert Runnable(Next(s, a), steps[1..]);
  }

  /** The bound on retries is tight: a job that keeps failing is claimed as often as it allows. */
  lemma {:induction false} FailingJobUsesItsRetries(s: State, id: string, j: Job)
    requires OnlyJob(s, id, j)
    ensures Runnable(s, FailingRun(id, j)) && NeverRenews(FailingRun(id, j), id)
    ensures ClaimsInRun(s, FailingRun(id, j), id) == Weight(s.jobs, id)
    decreases j.maxRetries - j.retries
  {
    hide Next, Enabled, ClaimsOf, NeverRenews, Runnable, ClaimsInRun, FailingRun;
    var poll, finalize := Poll([id], Committed, {}, 0), Finalize(0, TransientError("error"), true, 0);
    FailOnce(s, id, j);
    FailingRunRenewsNothing(id, j);
    var n := Next(Next(s, poll), finalize);
    var again := j.(retries := j.retries + 1);
    var rest := if again.retries < j.maxRetries then FailingRun(id, again) else [];
    UnfoldFailingRun(id, j);
    NoStepsNoClaims(n, id);
    if again.retries < j.maxRetries {
      FailingRunByCounts(id, n.jobs[id], again);
      FailingJobUsesItsRetries(n, id, n.jobs[id]);
    }
    TwoSteps(s, poll, finalize, rest, id);
  }

  lemma UnfoldFailingRun(id: string, j: Job)
    ensures FailingRun(id, j)
         == [Poll([id], Committed, {}, 0), Finalize(0, TransientError("error"), true, 0)]
            + if j.retries + 1 < j.maxRetries then FailingRun(id, j.(retries := j.retries + 1)) else []
  {
  }

  lemma NoStepsNoClaims(s: State, id: string)
    ensures Runnable(s, []) && ClaimsInRun(s, [], id) == 0
  {
  }

  lemma {:induction false} FailingRunRenewsNothing(id: string, j: Job)
    ensures NeverRenews(FailingRun(id, j), id)
    decreases j.maxRetries - j.retries
  {
    if j.retries + 1 < j.maxRetries {
      FailingRunRenewsNothing(id, j.(retries := j.retries + 1));
    }
  }

  lemma {:induction false} FailingRunByCounts(id: string, a: Job, b: Job)
    requires a.retries == b.retries && a.maxRetries == b.maxRetries
    ensures FailingRun(id, a) == FailingRun(id, b)
    decreases a.maxRetries - a.retries
  {
    if a.retries + 1 < a.maxRetries {
      FailingRunByCounts(id, a.(retries := a.retries + 1), b.(retries := b.retries + 1));
    }
  }

  /** The weights of the listed jobs together. */
  function Potential(jobs: Store, ids: seq<string>): nat {
    if ids == [] then 0 else Weight(jobs, ids[0]) + Potential(jobs, ids[1..])
  }

  predicate NoNewWork(steps: seq<Step>) {
    forall i :: 0 <= i < |steps| ==> !(steps[i].Create? || steps[i].Enqueue? || steps[i].Update?)
  }

  ghost function AllClaims(s: State, steps: seq<Step>): nat
    requires Runnable(s, steps)
    decreases |steps|
  {
    if steps == [] then 0 else |NewClaims(s, steps[0])| + AllClaims(Next(s, steps[0]), steps[1..])
  }

  lemma {:induction false} PotentialDrops(before: Store, after: Store, claimed: set<string>, ids: seq<string>)
    requires forall x :: x in claimed ==> x in ids
    requires forall x :: x in ids ==> Weight(after, x) + (if x in claimed then 1 else 0) <= Weight(before, x)
    ensures Potential(after, ids) + |claimed| <= Potential(before, ids)
    decreases |ids|
  {
    hide Weight;
    if ids == [] {
      assert claimed == {};
    } else {
      PotentialDrops(before, after, claimed - {ids[0]}, ids[1..]);
      assert claimed <= (claimed - {ids[0]}) + {ids[0]};
      if ids[0] in claimed {
        assert claimed == (claimed - {ids[0]}) + {ids[0]};
      } else {
        assert claimed == claimed - {ids[0]};
      }
    }
  }

  /** The total of later claims is bounded by the potential of the stored jobs, which a claim strictly lowers. */
  lemma {:induction false} ClaimsAreBounded(s: State, steps: seq<Step>, ids: seq<string>)
    requires Runnable(s, steps)
    requires forall x :: x in s.jobs ==> x in ids
    requires forall x :: Settled(s, x)
    requires NoNewWork(steps)
    ensures AllClaims(s, steps) + Potential(Run(s, steps).jobs, ids) <= Potential(s.jobs, ids)
    decreases |steps|
  {
    if steps != [] {
      var t, n := steps[0], Next(s, steps[0]);
      forall x
        ensures Settled(n, x)
        ensures Weight(n.jobs, x) + ClaimsOf(s, t, x) <= Weight(s.jobs, x)
      {
        StepWeighs(s, t, x);
      }
      StepShrinks(s, t);
      ClaimsAreBounded(n, steps[1..], ids);
      DistinctCount(NewClaims(s, t));
      forall x | x in Ids(NewClaims(s, t)) ensures x in ids {
        assert ClaimsOf(s, t, x) == 1;
      }
      PotentialDrops(s.jobs, n.jobs, Ids(NewClaims(s, t)), ids);
    }
  }

  lemma StepShrinks(s: State, t: Step)
    requires Enabled(s, t) && !(t.Create? || t.Enqueue? || t.Update?)
    ensures Next(s, t).jobs.Keys <= s.jobs.Keys
    ensures DistinctIds(NewClaims(s, t))
  {
    hide Tree, Doomed, OnCycle, AfterPoll, PendingByAge;
    match t
    case Poll(_, _, _, _) => PollFacts(s, t);
    case _ =>
  }

  // --- sticky cancellation --------------------------------------------------------

  /** Cancelling fails exactly the pending and running rows of the subtree. */
  lemma CancelFailsTheSubtree(s: State, id: string, now: Time)
    requires Enabled(s, Cancel(id, now)) && id in s.jobs
    ensures var n := Next(s, Cancel(id, now));
            && n.jobs.Keys == s.jobs.Keys && n.inFlight == s.inFlight
            && (forall x :: x in s.jobs && n.jobs[x] != s.jobs[x] ==> x in Tree(s.jobs, id) && Active(s.jobs[x]))
            && (forall x :: x in Tree(s.jobs, id) ==> !Active(n.jobs[x]))
            && (forall x :: x in Tree(s.jobs, id) && Active(s.jobs[x]) ==> n.jobs[x].status.Failed?)
  {
    hide Under, OnCycle;
  }

  /** A finished row changes in no step but an Enqueue or Update of it, or its deletion. */
  lemma FinishedRowStays(s: State, t: Step, x: string)
    requires Enabled(s, t) && x in s.jobs && !Active(s.jobs[x]) && !Renews(t, x)
    ensures x in Next(s, t).jobs ==> Next(s, t).jobs[x] == s.jobs[x]
  {
    hide Tree, Doomed, OnCycle, AfterPoll, PendingByAge;
    match t
    case Poll(_, _, _, _) => PollFacts(s, t);
    case _ =>
  }

  lemma AbsentStays(s: State, t: Step, x: string)
    requires Enabled(s, t) && x !in s.jobs && !Renews(t, x)
    ensures x !in Next(s, t).jobs
  {
    hide Tree, Doomed, OnCycle, AfterPoll, PendingByAge;
    match t
    case Poll(_, _, _, _) => PollFacts(s, t);
    case _ =>
  }

  /**
   * In every continuation a finished row is still there unchanged or has been deleted, until a caller
   * stores or enqueues that job anew. Executions still in flight when it was cancelled make no difference.
   */
  lemma {:induction false} FinishedStaysFinished(s: State, steps: seq<Step>, x: string)
    requires Runnable(s, steps) && NeverRenews(steps, x)
    requires x in s.jobs ==> !Active(s.jobs[x])
    ensures x in Run(s, steps).jobs ==> x in s.jobs && Run(s, steps).jobs[x] == s.jobs[x]
    decreases |steps|
  {
    if steps != [] {
      if x in s.jobs {
        FinishedRowStays(s, steps[0], x);
      } else {
        AbsentStays(s, steps[0], x);
      }
      FinishedStaysFinished(Next(s, steps[0]), steps[1..], x);
    }
  }

  /** Cancellation is sticky: what a cancel failed stays failed, whoever is still running it. */
  lemma CancelIsSticky(s: State, id: string, now: Time, steps: seq<Step>, x: string)
    requires Enabled(s, Cancel(id, now)) && id in s.jobs && x in Tree(s.jobs, id) && Active(s.jobs[x])
    requires Runnable(Next(s, Cancel(id, now)), steps) && NeverRenews(steps, x)
    ensures var end := Run(Next(s, Cancel(id, now)), steps);
            x in end.jobs ==> end.jobs[x] == CancelledRow(s.jobs[x], now)
  {
    CancelFailsTheSubtree(s, id, now);
    FinishedStaysFinished(Next(s, Cancel(id, now)), steps, x);
  }

  // --- from a fresh driver ------------------------------------------------------------

  ghost predicate NeverReviving(s: State, steps: seq<Step>)
    requires Runnable(s, steps)
    decreases |steps|
  {
    steps == [] || (!Revives(s, steps[0]) && NeverReviving(Next(s, steps[0]), steps[1..]))
  }

  ghost predicate SingleFlightThroughout(s: State, steps: seq<Step>)
    requires Runnable(s, steps)
    decreases |steps|
  {
    SingleFlight(s) && (steps == [] || SingleFlightThroughout(Next(s, steps[0]), steps[1..]))
  }

  /** No id is in flight twice at any point of a run exactly when no step revives one. */
  lemma {:induction false} SingleFlightRun(s: State, steps: seq<Step>)
    requires Runnable(s, steps) && SingleFlight(s)
    ensures SingleFlightThroughout(s, steps) <==> NeverReviving(s, steps)
    ensures SingleFlightThroughout(s, steps) ==> SingleFlight(Run(s, steps))
    decreases |steps|
  {
    hide Next, Enabled, SingleFlight, Revives;
    if steps != [] {
      var n := Next(s, steps[0]);
      SingleFlightStep(s, steps[0]);
      if SingleFlight(n) {
        SingleFlightRun(n, steps[1..]);
      } else {
        DoubleFlightNow(n, steps[1..]);
      }
    }
  }

  lemma DoubleFlightNow(s: State, steps: seq<Step>)
    requires Runnable(s, steps) && !SingleFlight(s)
    ensures !SingleFlightThroughout(s, steps)
  {
  }

  /** From a driver just opened, every run stays within limits set once, and no id is in flight twice just if none is revived. */
  lemma FreshDriverIsSafe(s: State, steps: seq<Step>)
    requires Fresh(s) && Runnable(s, steps)
    ensures GentleLimits(s, steps) ==> ExecutionsWithinLimits(Run(s, steps))
    ensures SingleFlightThroughout(s, steps) <==> NeverReviving(s, steps)
    ensures NeverReviving(s, steps) ==> SingleFlight(Run(s, steps))
    ensures CountersCover(Run(s, steps))
  {
    if GentleLimits(s, steps) {
      LimitsHold(s, steps);
    }
    SingleFlightRun(s, steps);
    SlotConservation(s, steps);
  }
}
