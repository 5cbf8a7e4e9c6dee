/** A committed poll claims as many jobs as the free slots allow, oldest first in every group. */
module Dispatch {
  import opened Jobs
  import opened JobTree
  import opened Scheduler
  import opened SchedulerSafety

  /** A pending row with a registered handler. */
  predicate Ready(s: State, x: string) {
    x in s.jobs && s.jobs[x].status.Pending? && s.jobs[x].kind in s.cfg.handlers
  }

  ghost function OfGroup(jobs: Store, ids: set<string>, g: string): set<string> {
    set x | x in ids && x in jobs && jobs[x].group == g
  }

  /** Free slots of a limited group; an overfull group has none. */
  function FreeSlots(s: State, g: string): nat
    requires Limited(s.cfg, g)
  {
    if s.cfg.groupLimits[g] <= Count(s.activeGroups, g) then 0 else s.cfg.groupLimits[g] - Count(s.activeGroups, g)
  }

  /** A set of ready jobs that fits into the free slots, overall and group by group. */
  ghost predicate Feasible(s: State, choice: set<string>) {
    && (forall x :: x in choice ==> Ready(s, x))
    && (s.cfg.maxConcurrency > 0 ==> s.runningCount + |choice| <= s.cfg.maxConcurrency)
    && (forall g :: Limited(s.cfg, g) ==> |OfGroup(s.jobs, choice, g)| <= FreeSlots(s, g))
  }

  /** Row by row: a ready row is claimed, or its group is full, or the scan stopped before claiming it or any later row. */
  ghost predicate RowsServed(s: State, rows: seq<string>, a: Scan) {
    && (forall i :: 0 <= i < |rows| && Ready(s, rows[i]) && rows[i] !in Ids(a.claimed) ==>
          || GroupFull(s.cfg, a.activeGroups, s.jobs[rows[i]].group)
          || (a.stopped && forall j :: i <= j < |rows| ==> rows[j] !in Ids(a.claimed)))
    && (forall i, j :: 0 <= i < j < |rows| && Ready(s, rows[i]) && rows[j] in Ids(a.claimed) ==>
          rows[j] in s.jobs && s.jobs[rows[i]].group == s.jobs[rows[j]].group ==> rows[i] in Ids(a.claimed))
    && (a.stopped ==> AtCapacity(s.cfg, a.runningCount))
  }

  lemma {:induction false} ScanServes(s: State, rows: seq<string>, unwritten: set<string>, now: Time)
    requires PendingRows(s.jobs, rows)
    ensures RowsServed(s, rows, PollScan(s, rows, unwritten, now))
    decreases |rows|
  {
    if rows != [] {
      var front, id := rows[..|rows| - 1], rows[|rows| - 1];
      assert rows == front + [id];
      PrefixPending(s.jobs, rows);
      ScanServes(s, front, unwritten, now);
      ScanIsFaithful(s.cfg, unwritten, now, ScanStart(s), front);
      var b := PollScan(s, front, unwritten, now);
      NextRowIsUntouched(s.cfg, now, ScanStart(s), front, b, id);
      ServeStep(s, front, id, b, unwritten, now);
    }
  }

  lemma PrefixPending(jobs: Store, rows: seq<string>)
    requires rows != [] && PendingRows(jobs, rows)
    ensures PendingRows(jobs, rows[..|rows| - 1])
  {
    var front := rows[..|rows| - 1];
    assert forall i :: 0 <= i < |front| ==> front[i] == rows[i];
  }

  lemma ServeStep(s: State, front: seq<string>, id: string, b: Scan, unwritten: set<string>, now: Time)
    requires RowsServed(s, front, b)
    requires id in s.jobs && id in b.jobs && id !in Ids(b.claimed) && id !in front && b.jobs[id] == s.jobs[id]
    requires s.jobs[id].status.Pending?
    ensures RowsServed(s, front + [id], ScanRow(s.cfg, unwritten, now, b, id))
  {
    hide Ids;
    var a := ScanRow(s.cfg, unwritten, now, b, id);
    var rows := front + [id];
    assert forall i :: 0 <= i < |front| ==> rows[i] == front[i] && rows[i] in front;
    ClaimIds(b.claimed, Snapshot(id, s.jobs[id]));
    assert a.claimed != b.claimed ==> Ids(a.claimed) == Ids(b.claimed) + {id};
    assert forall g :: GroupFull(s.cfg, b.activeGroups, g) ==> GroupFull(s.cfg, a.activeGroups, g);
  }

  lemma GroupSnoc(jobs: Store, ids: set<string>, x: string, g: string)
    requires x in jobs && x !in ids
    ensures |OfGroup(jobs, ids + {x}, g)| == |OfGroup(jobs, ids, g)| + if jobs[x].group == g then 1 else 0
  {
    if jobs[x].group == g {
      assert OfGroup(jobs, ids + {x}, g) == OfGroup(jobs, ids, g) + {x};
    } else {
      assert OfGroup(jobs, ids + {x}, g) == OfGroup(jobs, ids, g);
    }
  }

  lemma {:induction false} DistinctCount(execs: seq<Exec>)
    requires DistinctIds(execs)
    ensures |Ids(execs)| == |execs|
    ensures forall i :: 0 <= i < |execs| ==> execs[i].id !in Ids(execs[..i])
    decreases |execs|
  {
    if execs == [] {
      assert Ids(execs) == {};
    } else {
      var front, e := execs[..|execs| - 1], execs[|execs| - 1];
      assert execs == front + [e];
      DistinctCount(front);
      ClaimIds(front, e);
      assert forall i :: 0 <= i < |front| ==> front[..i] == execs[..i];
    }
  }

  /** The claims of a scan, counted per group by id. */
  lemma {:induction false} GroupOfClaims(jobs: Store, claimed: seq<Exec>, g: string)
    requires DistinctIds(claimed)
    requires forall i :: 0 <= i < |claimed| ==> claimed[i].id in jobs && claimed[i].group == jobs[claimed[i].id].group
    ensures |OfGroup(jobs, Ids(claimed), g)| == InGroup(claimed, g)
    ensures |Ids(claimed)| == |claimed|
    decreases |claimed|
  {
    DistinctCount(claimed);
    if claimed == [] {
      assert OfGroup(jobs, Ids(claimed), g) == {};
    } else {
      hide Ids, OfGroup;
      var front, e := claimed[..|claimed| - 1], claimed[|claimed| - 1];
      GroupOfClaims(jobs, front, g);
      assert claimed == front + [e];
      ClaimIds(front, e);
      GroupSnoc(jobs, Ids(front), e.id, g);
    }
  }

  /** A set that is no larger in any group is no larger. */
  lemma {:induction false} GroupwiseSmaller(jobs: Store, a: set<string>, b: set<string>)
    requires a <= jobs.Keys && b <= jobs.Keys
    requires forall g :: |OfGroup(jobs, a, g)| <= |OfGroup(jobs, b, g)|
    ensures |a| <= |b|
    decreases a
  {
    if a != {} {
      var x :| x in a;
      var g := jobs[x].group;
      var ag, bg := OfGroup(jobs, a, g), OfGroup(jobs, b, g);
      assert x in ag;
      forall h ensures |OfGroup(jobs, a - ag, h)| <= |OfGroup(jobs, b - bg, h)| {
        if h == g {
          assert OfGroup(jobs, a - ag, h) == {};
        } else {
          assert OfGroup(jobs, a - ag, h) == OfGroup(jobs, a, h);
          assert OfGroup(jobs, b - bg, h) == OfGroup(jobs, b, h);
        }
      }
      GroupwiseSmaller(jobs, a - ag, b - bg);
      assert a == (a - ag) + ag && b == (b - bg) + bg;
    }
  }

  /** What the poll of a state claims. */
  ghost function Claimed(s: State, rows: seq<string>, unwritten: set<string>, now: Time): set<string> {
    Ids(PollScan(s, rows, unwritten, now).claimed)
  }

  /**
   * The claims are feasible, and each group gets what it can use: min(ready jobs, free slots), unless the
   * poll ended because every global slot is taken.
   */
  lemma ClaimsAreFeasible(s: State, rows: seq<string>, unwritten: set<string>, now: Time)
    requires PendingByAge(s.jobs, rows) && !AtCapacity(s.cfg, s.runningCount)
    ensures Feasible(s, Claimed(s, rows, unwritten, now))
    ensures |Claimed(s, rows, unwritten, now)| == |PollScan(s, rows, unwritten, now).claimed|
    ensures forall g :: |OfGroup(s.jobs, Claimed(s, rows, unwritten, now), g)|
                     == Count(PollScan(s, rows, unwritten, now).activeGroups, g) - Count(s.activeGroups, g) || g == ""
  {
    RowsArePending(s.jobs, rows);
    ScanIsFaithful(s.cfg, unwritten, now, ScanStart(s), rows);
    var a := PollScan(s, rows, unwritten, now);
    forall g
      ensures |OfGroup(s.jobs, Ids(a.claimed), g)| == InGroup(a.claimed, g)
      ensures |Ids(a.claimed)| == |a.claimed|
    {
      GroupOfClaims(s.jobs, a.claimed, g);
    }
    GroupOfClaims(s.jobs, a.claimed, "");
    CapacityKept(s.cfg, unwritten, now, ScanStart(s), rows);
  }

  lemma RowsArePending(jobs: Store, rows: seq<string>)
    requires PendingByAge(jobs, rows)
    ensures PendingRows(jobs, rows)
  {
    forall i | 0 <= i < |rows| ensures rows[i] in jobs && jobs[rows[i]].status.Pending? {
      assert rows[i] in rows;
    }
  }

  /** A scan fills free slots but never more, even if a group starts out overfull. */
  lemma {:induction false} CapacityKept(cfg: Config, unwritten: set<string>, now: Time, a0: Scan, rows: seq<string>)
    requires !AtCapacity(cfg, a0.runningCount)
    ensures var a := ScanRows(cfg, unwritten, now, a0, rows);
            && UnderMax(cfg, a.runningCount)
            && forall g :: Limited(cfg, g) ==>
                 Count(a.activeGroups, g) <= cfg.groupLimits[g] || Count(a.activeGroups, g) == Count(a0.activeGroups, g)
    decreases |rows|
  {
    if rows != [] {
      CapacityKept(cfg, unwritten, now, a0, rows[..|rows| - 1]);
    }
  }

  /** No feasible choice of ready jobs is larger than what a poll claims. */
  lemma DispatchIsOptimal(s: State, rows: seq<string>, unwritten: set<string>, now: Time, choice: set<string>)
    requires PendingByAge(s.jobs, rows) && !AtCapacity(s.cfg, s.runningCount)
    requires Feasible(s, choice)
    ensures |choice| <= |Claimed(s, rows, unwritten, now)|
  {
    var a := PollScan(s, rows, unwritten, now);
    var claimed := Claimed(s, rows, unwritten, now);
    RowsArePending(s.jobs, rows);
    ScanServes(s, rows, unwritten, now);
    ScanCounts(s.cfg, unwritten, now, ScanStart(s), rows);
    ClaimsAreFeasible(s, rows, unwritten, now);
    if !a.stopped {
      forall g ensures |OfGroup(s.jobs, choice, g)| <= |OfGroup(s.jobs, claimed, g)| {
        GroupServed(s, rows, a, choice, g);
      }
      GroupwiseSmaller(s.jobs, choice, claimed);
    }
  }

  lemma GroupServed(s: State, rows: seq<string>, a: Scan, choice: set<string>, g: string)
    requires PendingByAge(s.jobs, rows) && RowsServed(s, rows, a) && !a.stopped && Feasible(s, choice)
    requires g != "" ==> |OfGroup(s.jobs, Ids(a.claimed), g)| == Count(a.activeGroups, g) - Count(s.activeGroups, g)
    ensures |OfGroup(s.jobs, choice, g)| <= |OfGroup(s.jobs, Ids(a.claimed), g)|
  {
    if !GroupFull(s.cfg, a.activeGroups, g) {
      forall x | x in OfGroup(s.jobs, choice, g) ensures x in OfGroup(s.jobs, Ids(a.claimed), g) {
        assert Ready(s, x) && x in rows;
        var i :| 0 <= i < |rows| && rows[i] == x;
      }
      SubsetSize(OfGroup(s.jobs, choice, g), OfGroup(s.jobs, Ids(a.claimed), g));
    }
  }

  ghost function ReadyJobs(s: State): set<string> {
    set x | x in s.jobs && Ready(s, x)
  }

  /** How many jobs a poll could use in group g: min(ready, free slots), or all ready ones if g has no limit. */
  ghost function Share(s: State, g: string): nat {
    var ready := |OfGroup(s.jobs, ReadyJobs(s), g)|;
    if Limited(s.cfg, g) && FreeSlots(s, g) < ready then FreeSlots(s, g) else ready
  }

  /** A poll gives every group exactly its share, unless it gave out every free global slot. */
  lemma EveryGroupGetsItsShare(s: State, rows: seq<string>, unwritten: set<string>, now: Time)
    requires PendingByAge(s.jobs, rows) && !AtCapacity(s.cfg, s.runningCount)
    ensures forall g :: |OfGroup(s.jobs, Claimed(s, rows, unwritten, now), g)| <= Share(s, g)
    ensures || (s.cfg.maxConcurrency > 0
                && |Claimed(s, rows, unwritten, now)| == s.cfg.maxConcurrency - s.runningCount)
            || forall g :: |OfGroup(s.jobs, Claimed(s, rows, unwritten, now), g)| == Share(s, g)
  {
    var a := PollScan(s, rows, unwritten, now);
    var claimed := Claimed(s, rows, unwritten, now);
    RowsArePending(s.jobs, rows);
    ScanServes(s, rows, unwritten, now);
    ScanCounts(s.cfg, unwritten, now, ScanStart(s), rows);
    ClaimsAreFeasible(s, rows, unwritten, now);
    forall g
      ensures |OfGroup(s.jobs, claimed, g)| <= Share(s, g)
      ensures !a.stopped ==> |OfGroup(s.jobs, claimed, g)| == Share(s, g)
    {
      SubsetSize(OfGroup(s.jobs, claimed, g), OfGroup(s.jobs, ReadyJobs(s), g));
      if !a.stopped && !GroupFull(s.cfg, a.activeGroups, g) {
        forall x | x in OfGroup(s.jobs, ReadyJobs(s), g) ensures x in claimed {
          assert x in rows;
          var i :| 0 <= i < |rows| && rows[i] == x;
        }
        assert OfGroup(s.jobs, ReadyJobs(s), g) == OfGroup(s.jobs, claimed, g);
      }
    }
  }

  /**
   * Fairness: the jobs claimed from a group are its oldest ready ones, and an older ready job is passed
   * over only if its group is full after the poll.
   */
  lemma DispatchIsFair(s: State, rows: seq<string>, unwritten: set<string>, now: Time, older: string, newer: string)
    requires PendingByAge(s.jobs, rows) && !AtCapacity(s.cfg, s.runningCount)
    requires Ready(s, older) && older !in Claimed(s, rows, unwritten, now)
    requires newer in s.jobs && newer in Claimed(s, rows, unwritten, now)
    requires s.jobs[older].createdAt < s.jobs[newer].createdAt
    ensures s.jobs[older].group != s.jobs[newer].group
    ensures GroupFull(s.cfg, PollScan(s, rows, unwritten, now).activeGroups, s.jobs[older].group)
  {
    var a := PollScan(s, rows, unwritten, now);
    RowsArePending(s.jobs, rows);
    ScanServes(s, rows, unwritten, now);
    ScanIsFaithful(s.cfg, unwritten, now, ScanStart(s), rows);
    assert older in rows && newer in rows;
    var i :| 0 <= i < |rows| && rows[i] == older;
    var j :| 0 <= j < |rows| && rows[j] == newer;
    assert i < j;
  }
}
