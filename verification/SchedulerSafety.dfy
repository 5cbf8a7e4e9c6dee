/** What every step of the queue keeps, and what follows for whole runs. */
module SchedulerSafety {
  import opened Jobs
  import opened JobTree
  import opened Scheduler

  ghost function Ids(execs: seq<Exec>): set<string> {
    set e | e in execs :: e.id
  }

  ghost predicate DistinctIds(execs: seq<Exec>) {
    forall i, j :: 0 <= i < j < |execs| ==> execs[i].id != execs[j].id
  }

  /** Rows as the poll query yields them: no repeats, all stored and pending. */
  ghost predicate PendingRows(jobs: Store, rows: seq<string>) {
    && (forall i, j :: 0 <= i < j < |rows| ==> rows[i] != rows[j])
    && (forall i :: 0 <= i < |rows| ==> rows[i] in jobs && jobs[rows[i]].status.Pending?)
  }

  /** The counters have moved by the claims. */
  ghost predicate CountersTell(a0: Scan, a: Scan) {
    && a.runningCount == a0.runningCount + |a.claimed|
    && (forall g :: g != "" ==> Count(a.activeGroups, g) == Count(a0.activeGroups, g) + InGroup(a.claimed, g))
  }

  /** Every claim is the snapshot of a distinct scanned row that has a handler. */
  ghost predicate ClaimsTell(cfg: Config, a0: Scan, rows: seq<string>, a: Scan) {
    && DistinctIds(a.claimed)
    && (forall i :: 0 <= i < |a.claimed| ==>
          && a.claimed[i].id in rows && a.claimed[i].id in a0.jobs
          && a.claimed[i] == Snapshot(a.claimed[i].id, a0.jobs[a.claimed[i].id])
          && a.claimed[i].kind in cfg.handlers)
  }

  /** Claimed rows run, scanned rows without a handler may have failed, all others are as before. */
  ghost predicate RowsTell(cfg: Config, now: Time, a0: Scan, rows: seq<string>, a: Scan) {
    && a.jobs.Keys == a0.jobs.Keys
    && (forall x :: x in a0.jobs && x in Ids(a.claimed) ==> a.jobs[x] == ClaimedRow(a0.jobs[x], now))
    && (forall x :: x in a0.jobs && x !in Ids(a.claimed) ==>
          || a.jobs[x] == a0.jobs[x]
          || (x in rows && a0.jobs[x].kind !in cfg.handlers && a.jobs[x] == UnhandledRow(a0.jobs[x], now)))
  }

  ghost predicate ScanTells(cfg: Config, now: Time, a0: Scan, rows: seq<string>, a: Scan) {
    CountersTell(a0, a) && ClaimsTell(cfg, a0, rows, a) && RowsTell(cfg, now, a0, rows, a)
  }

  lemma {:induction false} ScanCounts(cfg: Config, unwritten: set<string>, now: Time, a0: Scan, rows: seq<string>)
    requires a0.claimed == []
    ensures CountersTell(a0, ScanRows(cfg, unwritten, now, a0, rows))
    decreases |rows|
  {
    if rows != [] {
      var front, id := rows[..|rows| - 1], rows[|rows| - 1];
      ScanCounts(cfg, unwritten, now, a0, front);
      var b := ScanRows(cfg, unwritten, now, a0, front);
      var a := ScanRow(cfg, unwritten, now, b, id);
      if a.claimed != b.claimed {
        assert a.claimed[..|a.claimed| - 1] == b.claimed;
      }
    }
  }

  /** A row not scanned yet is as it was and not claimed. */
  lemma NextRowIsUntouched(cfg: Config, now: Time, a0: Scan, rows: seq<string>, b: Scan, id: string)
    requires PendingRows(a0.jobs, rows + [id]) && ClaimsTell(cfg, a0, rows, b) && RowsTell(cfg, now, a0, rows, b)
    ensures PendingRows(a0.jobs, rows) && id in a0.jobs && id !in Ids(b.claimed) && id in b.jobs && b.jobs[id] == a0.jobs[id]
    ensures id !in rows
  {
    var all := rows + [id];
    assert forall i :: 0 <= i < |rows| ==> all[i] == rows[i];
    assert all[|rows|] == id;
  }

  lemma ClaimStep(cfg: Config, unwritten: set<string>, now: Time, a0: Scan, rows: seq<string>, b: Scan, id: string)
    requires id in a0.jobs && id in b.jobs && id !in Ids(b.claimed) && b.jobs[id] == a0.jobs[id]
    requires ClaimsTell(cfg, a0, rows, b)
    ensures ClaimsTell(cfg, a0, rows + [id], ScanRow(cfg, unwritten, now, b, id))
  {
    assert id in rows + [id];
    assert forall x :: x in rows ==> x in rows + [id];
    forall i | 0 <= i < |b.claimed| ensures b.claimed[i].id != id {
      assert b.claimed[i] in b.claimed;
    }
  }

  lemma RowStep(cfg: Config, unwritten: set<string>, now: Time, a0: Scan, rows: seq<string>, b: Scan, id: string)
    requires id in a0.jobs && id in b.jobs && id !in Ids(b.claimed) && b.jobs[id] == a0.jobs[id]
    requires RowsTell(cfg, now, a0, rows, b)
    ensures RowsTell(cfg, now, a0, rows + [id], ScanRow(cfg, unwritten, now, b, id))
  {
    hide Ids, GroupFull, AtCapacity, Bump, ClaimedRow, UnhandledRow;
    assert id in rows + [id];
    assert forall x :: x in rows ==> x in rows + [id];
    ClaimIds(b.claimed, Snapshot(id, a0.jobs[id]));
    var a := ScanRow(cfg, unwritten, now, b, id);
    assert a.jobs.Keys == a0.jobs.Keys;
    assert forall x :: x in a0.jobs && x != id ==> a.jobs[x] == b.jobs[x] && (x in Ids(a.claimed) <==> x in Ids(b.claimed));
  }

  lemma ClaimIds(execs: seq<Exec>, e: Exec)
    ensures Ids(execs + [e]) == Ids(execs) + {e.id}
  {
    assert e in execs + [e];
    assert forall f :: f in execs + [e] <==> f in execs || f == e;
  }

  lemma ScanTail(cfg: Config, unwritten: set<string>, now: Time, a0: Scan, front: seq<string>, id: string, rows: seq<string>)
    requires rows == front + [id] && PendingRows(a0.jobs, rows)
    requires ScanTells(cfg, now, a0, front, ScanRows(cfg, unwritten, now, a0, front))
    ensures ClaimsTell(cfg, a0, rows, ScanRows(cfg, unwritten, now, a0, rows))
    ensures RowsTell(cfg, now, a0, rows, ScanRows(cfg, unwritten, now, a0, rows))
  {
    hide Ids, PendingRows, ClaimsTell, RowsTell, ScanRow, CountersTell;
    var b := ScanRows(cfg, unwritten, now, a0, front);
    assert rows[..|rows| - 1] == front;
    NextRowIsUntouched(cfg, now, a0, front, b, id);
    ClaimStep(cfg, unwritten, now, a0, front, b, id);
    RowStep(cfg, unwritten, now, a0, front, b, id);
  }

  lemma {:induction false} ScanIsFaithful(cfg: Config, unwritten: set<string>, now: Time, a0: Scan, rows: seq<string>)
    requires PendingRows(a0.jobs, rows) && a0.claimed == []
    ensures ScanTells(cfg, now, a0, rows, ScanRows(cfg, unwritten, now, a0, rows))
    decreases |rows|
  {
    ScanCounts(cfg, unwritten, now, a0, rows);
    if rows != [] {
      var front, id := rows[..|rows| - 1], rows[|rows| - 1];
      assert rows == front + [id];
      forall i | 0 <= i < |front| ensures front[i] == rows[i] {}
      ScanIsFaithful(cfg, unwritten, now, a0, front);
      ScanTail(cfg, unwritten, now, a0, front, id, rows);
    }
  }

  // --- slot conservation --------------------------------------------------------

  /** The counters are exactly the claimed-but-unfinalized executions. */
  ghost predicate CountersExact(s: State) {
    s.runningCount == |s.inFlight| && forall g :: g != "" ==> Count(s.activeGroups, g) == InGroup(s.inFlight, g)
  }

  /** The counters are at least those executions. */
  ghost predicate CountersCover(s: State) {
    s.runningCount >= |s.inFlight| && forall g :: g != "" ==> Count(s.activeGroups, g) >= InGroup(s.inFlight, g)
  }

  /** Claims counted by a poll that then aborted: their increments are never taken back. */
  function Leak(s: State, t: Step): seq<Exec> {
    if t.Poll? && t.end.AbortedAt? && t.end.row <= |t.rows| && !AtCapacity(s.cfg, s.runningCount)
    then PollScan(s, t.rows[..t.end.row], t.unwritten, t.now).claimed
    else []
  }

  /** The leaked slots of a whole run, of group g or, for "", of the global counter. */
  ghost function LeakedSlots(s: State, steps: seq<Step>, g: string): nat
    requires Runnable(s, steps)
    decreases |steps|
  {
    if steps == [] then 0 else SlotsOf(Leak(s, steps[0]), g) + LeakedSlots(Next(s, steps[0]), steps[1..], g)
  }

  lemma {:induction false} ReleaseAllCounts(groups: map<string, int>, claimed: seq<Exec>, g: string)
    requires g != ""
    ensures Count(ReleaseAll(groups, claimed), g) == Count(groups, g) - InGroup(claimed, g)
    decreases |claimed|
  {
    if claimed != [] {
      ReleaseAllCounts(groups, claimed[..|claimed| - 1], g);
    }
  }

  lemma {:induction false} InGroupBound(execs: seq<Exec>, g: string)
    ensures InGroup(execs, g) <= |execs|
    decreases |execs|
  {
    if execs != [] {
      InGroupBound(execs[..|execs| - 1], g);
    }
  }

  /** How far the counter of g exceeds the executions of g; for "" the same of the global counter. */
  function Slack(s: State, g: string): int {
    if g == "" then s.runningCount - |s.inFlight| else Count(s.activeGroups, g) - InGroup(s.inFlight, g)
  }

  function SlotsOf(execs: seq<Exec>, g: string): nat {
    if g == "" then |execs| else InGroup(execs, g)
  }

  lemma PollKeepsSlack(s: State, t: Step, g: string)
    requires Enabled(s, t) && t.Poll?
    ensures Slack(AfterPoll(s, t.rows, t.end, t.unwritten, t.now), g) == Slack(s, g) + SlotsOf(Leak(s, t), g)
  {
    hide PendingByAge, ScanRow, ScanRows;
    var seen := if t.end.AbortedAt? then t.rows[..t.end.row] else t.rows;
    ScanCounts(s.cfg, t.unwritten, t.now, ScanStart(s), seen);
    var a := PollScan(s, seen, t.unwritten, t.now);
    InGroupConcat(s.inFlight, a.claimed, g);
    if g != "" {
      ReleaseAllCounts(a.activeGroups, a.claimed, g);
    }
  }

  /** Every step moves counters and executions alike, up to the slots an aborted poll leaks. */
  lemma StepKeepsSlack(s: State, t: Step, g: string)
    requires Enabled(s, t)
    ensures Slack(Next(s, t), g) == Slack(s, g) + SlotsOf(Leak(s, t), g)
  {
    hide Tree, Doomed, CancelRows, PendingByAge, OnCycle, AfterPoll, PollScan;
    match t
    case Poll(_, _, _, _) => PollKeepsSlack(s, t, g);
    case Finalize(k, _, _, _) => InGroupWithout(s.inFlight, k, g);
    case _ =>
  }

  lemma {:induction false} RunKeepsSlack(s: State, steps: seq<Step>, g: string)
    requires Runnable(s, steps)
    ensures Slack(Run(s, steps), g) == Slack(s, g) + LeakedSlots(s, steps, g)
    ensures LeakedSlots(s, steps, g) <= LeakedSlots(s, steps, "")
    decreases |steps|
  {
    if steps != [] {
      StepKeepsSlack(s, steps[0], g);
      InGroupBound(Leak(s, steps[0]), g);
      RunKeepsSlack(Next(s, steps[0]), steps[1..], g);
    }
  }

  /**
   * Slot conservation over every interleaving: the counters never undercount, and after any run they are
   * exact if and only if no poll of the run aborted after it had claimed something.
   */
  lemma SlotConservation(s: State, steps: seq<Step>)
    requires Runnable(s, steps) && CountersExact(s)
    ensures CountersCover(Run(s, steps))
    ensures CountersExact(Run(s, steps)) <==> LeakedSlots(s, steps, "") == 0
  {
    var end := Run(s, steps);
    RunKeepsSlack(s, steps, "");
    forall g | g != ""
      ensures Count(end.activeGroups, g) >= InGroup(end.inFlight, g)
      ensures LeakedSlots(s, steps, "") == 0 ==> Count(end.activeGroups, g) == InGroup(end.inFlight, g)
    {
      RunKeepsSlack(s, steps, g);
    }
  }

  /** A poll that claims one row and then fails at the next leaks a slot. */
  lemma AbortedPollLeaks(j: Job, now: Time)
    requires j.status.Pending?
    ensures var s := State(map["a" := j, "b" := j], [], 0, map[], Config(map[], 0, {j.kind}));
            var steps := [Poll(["a", "b"], AbortedAt(1), {}, now)];
            && CountersExact(s) && Runnable(s, steps)
            && LeakedSlots(s, steps, "") == 1 && !CountersExact(Run(s, steps))
  {
    var s := State(map["a" := j, "b" := j], [], 0, map[], Config(map[], 0, {j.kind}));
    var t := Poll(["a", "b"], AbortedAt(1), {}, now);
    assert t.rows[..1] == ["a"] && ["a"][..0] == [];
    assert ScanRows(s.cfg, {}, now, ScanStart(s), []) == ScanStart(s);
    assert PollScan(s, ["a"], {}, now) == ScanRow(s.cfg, {}, now, ScanStart(s), "a");
    assert PendingByAge(s.jobs, t.rows);
    assert [t][1..] == [];
    assert LeakedSlots(Next(s, t), [], "") == 0;
    SlotConservation(s, [t]);
  }

  // --- limits ---------------------------------------------------------------------

  predicate UnderMax(cfg: Config, running: int) {
    cfg.maxConcurrency > 0 ==> running <= cfg.maxConcurrency
  }

  ghost predicate GroupsUnder(cfg: Config, groups: map<string, int>) {
    forall g :: Limited(cfg, g) ==> Count(groups, g) <= cfg.groupLimits[g]
  }

  ghost predicate CountersWithinLimits(s: State) {
    UnderMax(s.cfg, s.runningCount) && GroupsUnder(s.cfg, s.activeGroups)
  }

  /** No positive limit is exceeded by the executions themselves. */
  ghost predicate ExecutionsWithinLimits(s: State) {
    UnderMax(s.cfg, |s.inFlight|) && forall g :: Limited(s.cfg, g) ==> InGroup(s.inFlight, g) <= s.cfg.groupLimits[g]
  }

  lemma {:induction false} ScanStaysWithinLimits(cfg: Config, unwritten: set<string>, now: Time, a0: Scan, rows: seq<string>)
    requires UnderMax(cfg, a0.runningCount) && GroupsUnder(cfg, a0.activeGroups)
    ensures var a := ScanRows(cfg, unwritten, now, a0, rows);
            UnderMax(cfg, a.runningCount) && GroupsUnder(cfg, a.activeGroups)
    decreases |rows|
  {
    if rows != [] {
      ScanStaysWithinLimits(cfg, unwritten, now, a0, rows[..|rows| - 1]);
    }
  }

  /** The new limit does not undercut what already runs in the group. */
  predicate GentleLimit(s: State, t: Step) {
    t.SetGroupLimit? ==> t.group == "" || t.limit <= 0 || Count(s.activeGroups, t.group) <= t.limit
  }

  /** A step keeps the counters within the limits exactly when it is no undercutting limit change. */
  lemma StepStaysWithinLimits(s: State, t: Step)
    requires Enabled(s, t) && CountersWithinLimits(s)
    ensures CountersWithinLimits(Next(s, t)) <==> GentleLimit(s, t)
  {
    match t
    case Poll(rows, end, unwritten, now) =>
      var seen := if end.AbortedAt? then rows[..end.row] else rows;
      ScanStaysWithinLimits(s.cfg, unwritten, now, ScanStart(s), seen);
      ScanCounts(s.cfg, unwritten, now, ScanStart(s), seen);
      var a := PollScan(s, seen, unwritten, now);
      forall g | g != "" ensures Count(ReleaseAll(a.activeGroups, a.claimed), g) == Count(s.activeGroups, g) {
        ReleaseAllCounts(a.activeGroups, a.claimed, g);
      }
    case SetGroupLimit(g, limit) =>
      assert Limited(Next(s, t).cfg, g) <==> g != "" && limit > 0;
      assert forall h :: h != g ==> (Limited(Next(s, t).cfg, h) <==> Limited(s.cfg, h));
    case _ =>
  }

  /** A limit set below what runs is exceeded at once. */
  lemma LimitCanBeUndercut(e: Exec)
    requires e.group != ""
    ensures var s := State(map[], [e, e], 2, map[e.group := 2], Config(map[], 0, {}));
            && CountersExact(s) && CountersWithinLimits(s)
            && !ExecutionsWithinLimits(Next(s, SetGroupLimit(e.group, 1)))
  {
    var s := State(map[], [e, e], 2, map[e.group := 2], Config(map[], 0, {}));
    forall g | g != "" ensures Count(s.activeGroups, g) == InGroup(s.inFlight, g) {
      assert [e, e][..1] == [e] && [e][..0] == [];
      assert InGroup([e], g) == if e.group == g then 1 else 0;
    }
    assert Limited(Next(s, SetGroupLimit(e.group, 1)).cfg, e.group);
  }

  ghost predicate GentleLimits(s: State, steps: seq<Step>)
    requires Runnable(s, steps)
    decreases |steps|
  {
    steps == [] || (GentleLimit(s, steps[0]) && GentleLimits(Next(s, steps[0]), steps[1..]))
  }

  /** Whatever interleaves and whatever fails, no positive limit is ever exceeded by running executions. */
  lemma {:induction false} LimitsHold(s: State, steps: seq<Step>)
    requires Runnable(s, steps) && CountersCover(s) && CountersWithinLimits(s) && GentleLimits(s, steps)
    ensures ExecutionsWithinLimits(Run(s, steps))
    decreases |steps|
  {
    if steps != [] {
      StepStaysWithinLimits(s, steps[0]);
      StepKeepsSlack(s, steps[0], "");
      forall g | g != "" ensures Count(Next(s, steps[0]).activeGroups, g) >= InGroup(Next(s, steps[0]).inFlight, g) {
        StepKeepsSlack(s, steps[0], g);
      }
      LimitsHold(Next(s, steps[0]), steps[1..]);
    }
  }
}
