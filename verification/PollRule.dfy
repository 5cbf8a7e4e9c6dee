/** What a poll does with every pending row, told from the table, the counters and the order of the rows alone. */
module PollRule {
  import opened Options
  import opened Jobs
  import opened JobTree
  import opened Scheduler
  import opened SchedulerSafety
  import opened Dispatch
  import opened Lifecycle

  /** The claimed ones among the first i rows. */
  function ClaimedBefore(rows: seq<string>, i: nat, ids: set<string>): set<string>
    requires i <= |rows|
  {
    set k | 0 <= k < i && rows[k] in ids :: rows[k]
  }

  /** No global slot is left when the i-th row comes up. */
  predicate SlotsGone(s: State, rows: seq<string>, i: nat, ids: set<string>)
    requires i <= |rows|
  {
    s.cfg.maxConcurrency > 0 && s.runningCount + |ClaimedBefore(rows, i, ids)| >= s.cfg.maxConcurrency
  }

  /** The limit of the i-th row's group is used up when the row comes up. */
  ghost predicate GroupGone(s: State, rows: seq<string>, i: nat, ids: set<string>)
    requires i < |rows| && rows[i] in s.jobs
  {
    var g := s.jobs[rows[i]].group;
    && g != "" && g in s.cfg.groupLimits && s.cfg.groupLimits[g] > 0
    && (if g in s.activeGroups then s.activeGroups[g] else 0) + |OfGroup(s.jobs, ClaimedBefore(rows, i, ids), g)|
       >= s.cfg.groupLimits[g]
  }

  /** A row before the i-th that has a handler found no global slot, which ends the poll. */
  predicate CutOff(s: State, rows: seq<string>, i: nat, ids: set<string>)
    requires i <= |rows|
  {
    exists k :: 0 <= k < i && rows[k] in s.jobs && s.jobs[rows[k]].kind in s.cfg.handlers && SlotsGone(s, rows, k, ids)
  }

  /** `ids` are claimed first come, first served. */
  ghost predicate FirstServed(s: State, rows: seq<string>, ids: set<string>) {
    && (forall x :: x in ids ==> x in rows)
    && (forall i :: 0 <= i < |rows| && rows[i] in s.jobs ==>
          (rows[i] in ids <==> s.jobs[rows[i]].kind in s.cfg.handlers
                               && !SlotsGone(s, rows, i, ids) && !GroupGone(s, rows, i, ids)))
  }

  /** The i-th row after the poll. */
  function RowAfter(s: State, rows: seq<string>, i: nat, ids: set<string>, unwritten: set<string>, now: Time): Job
    requires i < |rows| && rows[i] in s.jobs
  {
    var j := s.jobs[rows[i]];
    if rows[i] in ids then j.(status := Running, startedAt := Some(now), updatedAt := now)
    else if j.kind in s.cfg.handlers || rows[i] in unwritten || CutOff(s, rows, i, ids) then j
    else j.(status := Failed, error := "no handler registered for job type " + j.kind, updatedAt := now,
            completedAt := Some(now))
  }

  ghost predicate RowsFollow(s: State, rows: seq<string>, ids: set<string>, unwritten: set<string>, now: Time, after: Store) {
    && after.Keys == s.jobs.Keys
    && (forall x :: x in s.jobs && x !in rows ==> after[x] == s.jobs[x])
    && (forall i :: 0 <= i < |rows| && rows[i] in s.jobs ==> after[rows[i]] == RowAfter(s, rows, i, ids, unwritten, now))
  }

  /** The scan of these rows kept to the rule, and says how it went on. */
  ghost predicate Kept(s: State, rows: seq<string>, unwritten: set<string>, now: Time, a: Scan) {
    && FirstServed(s, rows, Ids(a.claimed)) && RowsFollow(s, rows, Ids(a.claimed), unwritten, now, a.jobs)
    && (a.stopped <==> CutOff(s, rows, |rows|, Ids(a.claimed)))
  }

  lemma ClaimedBeforeStep(front: seq<string>, id: string, ids: set<string>, all: set<string>, i: nat)
    requires id !in front && id !in ids && i <= |front| && ids <= all <= ids + {id}
    ensures ClaimedBefore(front + [id], i, all) == ClaimedBefore(front, i, ids)
  {
    var rows := front + [id];
    assert forall k :: 0 <= k < i ==> rows[k] == front[k] && rows[k] in front;
    assert forall k :: 0 <= k < i ==> (rows[k] in all <==> front[k] in ids);
  }

  lemma AllClaimedBefore(rows: seq<string>, ids: set<string>)
    requires forall x :: x in ids ==> x in rows
    ensures ClaimedBefore(rows, |rows|, ids) == ids
  {
    forall x | x in ids ensures x in ClaimedBefore(rows, |rows|, ids) {
      var k :| 0 <= k < |rows| && rows[k] == x;
    }
  }

  /** What was said of the earlier rows stays so with one more row. */
  lemma EarlierRows(s: State, front: seq<string>, id: string, ids: set<string>, all: set<string>, i: nat)
    requires id !in front && id !in ids && i <= |front| && ids <= all <= ids + {id}
    ensures SlotsGone(s, front + [id], i, all) <==> SlotsGone(s, front, i, ids)
    ensures CutOff(s, front + [id], i, all) <==> CutOff(s, front, i, ids)
    ensures i < |front| && front[i] in s.jobs ==> (GroupGone(s, front + [id], i, all) <==> GroupGone(s, front, i, ids))
  {
    hide SlotsGone;
    var rows := front + [id];
    forall k | 0 <= k <= i ensures SlotsGone(s, rows, k, all) <==> SlotsGone(s, front, k, ids) {
      ClaimedBeforeStep(front, id, ids, all, k);
      assert ClaimedBefore(rows, k, all) == ClaimedBefore(front, k, ids);
      SlotsBySet(s, rows, k, all, front, ids);
    }
    assert forall k :: 0 <= k < i ==> rows[k] == front[k];
    ClaimedBeforeStep(front, id, ids, all, i);
  }

  lemma SlotsBySet(s: State, rows: seq<string>, k: nat, all: set<string>, front: seq<string>, ids: set<string>)
    requires k <= |rows| && k <= |front| && ClaimedBefore(rows, k, all) == ClaimedBefore(front, k, ids)
    ensures SlotsGone(s, rows, k, all) <==> SlotsGone(s, front, k, ids)
  {
  }

  /** Once the slots are gone they stay gone. */
  lemma SlotsStayGone(s: State, rows: seq<string>, ids: set<string>, k: nat, i: nat)
    requires k <= i <= |rows| && SlotsGone(s, rows, k, ids)
    ensures SlotsGone(s, rows, i, ids)
  {
    SubsetSize(ClaimedBefore(rows, k, ids), ClaimedBefore(rows, i, ids));
  }

  /** The scan's own tests at the next row are those of the rule. */
  lemma TestsAgree(s: State, front: seq<string>, b: Scan, id: string)
    requires CountersTell(ScanStart(s), b) && ClaimsTell(s.cfg, ScanStart(s), front, b)
    requires id in s.jobs && id !in front
    ensures AtCapacity(s.cfg, b.runningCount) <==> SlotsGone(s, front + [id], |front|, Ids(b.claimed))
    ensures GroupFull(s.cfg, b.activeGroups, s.jobs[id].group) <==> GroupGone(s, front + [id], |front|, Ids(b.claimed))
    ensures forall x :: x in Ids(b.claimed) ==> x in front
  {
    var ids := Ids(b.claimed);
    forall x | x in ids ensures x in front {
      var e :| e in b.claimed && e.id == x;
      var i :| 0 <= i < |b.claimed| && b.claimed[i] == e;
    }
    ClaimedBeforeStep(front, id, ids, ids, |front|);
    AllClaimedBefore(front, ids);
    GroupOfClaims(s.jobs, b.claimed, s.jobs[id].group);
  }

  /** What the step from `front` to one more row rests on: earlier rows keep their tests, and the scan's are the rule's. */
  ghost predicate OneMore(s: State, front: seq<string>, id: string, b: Scan, ids: set<string>, all: set<string>) {
    var rows := front + [id];
    && id !in front && id !in ids && id in s.jobs && ids <= all <= ids + {id} && (forall x :: x in ids ==> x in front)
    && (forall i :: 0 <= i < |front| ==> rows[i] == front[i] && rows[i] in front)
    && (forall i :: 0 <= i < |front| ==> (SlotsGone(s, rows, i, all) <==> SlotsGone(s, front, i, ids)))
    && (forall i :: 0 <= i <= |front| ==> (CutOff(s, rows, i, all) <==> CutOff(s, front, i, ids)))
    && (forall i :: 0 <= i < |front| && rows[i] in s.jobs ==> (GroupGone(s, rows, i, all) <==> GroupGone(s, front, i, ids)))
    && (AtCapacity(s.cfg, b.runningCount) <==> SlotsGone(s, rows, |front|, all))
    && (GroupFull(s.cfg, b.activeGroups, s.jobs[id].group) <==> GroupGone(s, rows, |front|, all))
    && (CutOff(s, rows, |front|, all) ==> SlotsGone(s, rows, |front|, all))
    && (CutOff(s, rows, |rows|, all) <==>
          CutOff(s, rows, |front|, all) || (s.jobs[id].kind in s.cfg.handlers && SlotsGone(s, rows, |front|, all)))
  }

  lemma OneMoreHolds(s: State, front: seq<string>, id: string, b: Scan, ids: set<string>, all: set<string>)
    requires CountersTell(ScanStart(s), b) && ClaimsTell(s.cfg, ScanStart(s), front, b)
    requires id in s.jobs && id !in front && ids == Ids(b.claimed) && id !in ids && ids <= all <= ids + {id}
    ensures OneMore(s, front, id, b, ids, all)
  {
    var rows := front + [id];
    TestsAgree(s, front, b, id);
    hide Ids, SlotsGone, GroupGone, GroupFull, AtCapacity, CountersTell, ClaimsTell;
    ClaimedBeforeStep(front, id, ids, all, |front|);
    ClaimedBeforeStep(front, id, ids, ids, |front|);
    GoneBySet(s, rows, ids, all);
    forall i | 0 <= i <= |front|
      ensures SlotsGone(s, rows, i, all) <==> SlotsGone(s, front, i, ids)
      ensures CutOff(s, rows, i, all) <==> CutOff(s, front, i, ids)
      ensures i < |front| && front[i] in s.jobs ==> (GroupGone(s, rows, i, all) <==> GroupGone(s, front, i, ids))
      ensures i < |front| ==> rows[i] == front[i] && rows[i] in front
    {
      EarlierRows(s, front, id, ids, all, i);
    }
    if CutOff(s, rows, |front|, all) {
      var k :| 0 <= k < |front| && rows[k] in s.jobs && s.jobs[rows[k]].kind in s.cfg.handlers && SlotsGone(s, rows, k, all);
      SlotsStayGone(s, rows, all, k, |front|);
    }
    CutOffStep(s, rows, all);
  }

  lemma RuleStep(s: State, front: seq<string>, id: string, b: Scan, unwritten: set<string>, now: Time)
    requires Kept(s, front, unwritten, now, b)
    requires CountersTell(ScanStart(s), b) && ClaimsTell(s.cfg, ScanStart(s), front, b)
    requires id in s.jobs && id !in front && id !in Ids(b.claimed) && id in b.jobs && b.jobs[id] == s.jobs[id]
    ensures Kept(s, front + [id], unwritten, now, ScanRow(s.cfg, unwritten, now, b, id))
  {
    var a := ScanRow(s.cfg, unwritten, now, b, id);
    ClaimIds(b.claimed, Snapshot(id, s.jobs[id]));
    hide Ids, SlotsGone, GroupGone, GroupFull, AtCapacity, CountersTell, ClaimsTell, CutOff, Bump, FirstServed, RowsFollow,
      OneMore, RowAfter;
    OneMoreHolds(s, front, id, b, Ids(b.claimed), Ids(a.claimed));
    NewRow(s, front, id, b, unwritten, now);
    ServedStep(s, front, id, b, Ids(b.claimed), Ids(a.claimed));
    FollowStep(s, front, id, b, Ids(b.claimed), Ids(a.claimed), unwritten, now, a.jobs);
  }

  /** The turn of the scan at the new row is the one of the rule. */
  lemma NewRow(s: State, front: seq<string>, id: string, b: Scan, unwritten: set<string>, now: Time)
    requires var a := ScanRow(s.cfg, unwritten, now, b, id);
             OneMore(s, front, id, b, Ids(b.claimed), Ids(a.claimed))
    requires b.stopped <==> CutOff(s, front, |front|, Ids(b.claimed))
    requires id in b.jobs && b.jobs[id] == s.jobs[id]
    ensures var a := ScanRow(s.cfg, unwritten, now, b, id);
            var rows, all := front + [id], Ids(a.claimed);
            && (id in all <==> s.jobs[id].kind in s.cfg.handlers
                               && !SlotsGone(s, rows, |front|, all) && !GroupGone(s, rows, |front|, all))
            && (a.stopped <==> CutOff(s, rows, |rows|, all))
            && a.jobs.Keys == b.jobs.Keys && (forall x :: x in b.jobs && x != id ==> a.jobs[x] == b.jobs[x])
            && a.jobs[id] == RowAfter(s, rows, |front|, all, unwritten, now)
  {
    ClaimIds(b.claimed, Snapshot(id, s.jobs[id]));
    hide Ids, SlotsGone, GroupGone, GroupFull, AtCapacity, CutOff, Bump;
  }

  lemma ServedStep(s: State, front: seq<string>, id: string, b: Scan, ids: set<string>, all: set<string>)
    requires OneMore(s, front, id, b, ids, all) && FirstServed(s, front, ids)
    requires id in all <==> s.jobs[id].kind in s.cfg.handlers
                            && !SlotsGone(s, front + [id], |front|, all) && !GroupGone(s, front + [id], |front|, all)
    ensures FirstServed(s, front + [id], all)
  {
    hide SlotsGone, GroupGone, CutOff, GroupFull, AtCapacity;
    var rows := front + [id];
    assert id in rows;
    assert forall x :: x in front ==> x in rows;
    assert rows[|front|] == id;
  }

  lemma FollowStep(s: State, front: seq<string>, id: string, b: Scan, ids: set<string>, all: set<string>,
                   unwritten: set<string>, now: Time, after: Store)
    requires OneMore(s, front, id, b, ids, all) && RowsFollow(s, front, ids, unwritten, now, b.jobs)
    requires after.Keys == b.jobs.Keys && forall x :: x in b.jobs && x != id ==> after[x] == b.jobs[x]
    requires id in after && after[id] == RowAfter(s, front + [id], |front|, all, unwritten, now)
    ensures RowsFollow(s, front + [id], all, unwritten, now, after)
  {
    hide OneMore, RowAfter;
    var rows := front + [id];
    assert id in s.jobs && id !in front by {
      OneMoreIsNew(s, front, id, b, ids, all);
    }
    assert forall x :: x in rows <==> x in front || x == id;
    assert rows[|front|] == id;
    forall i | 0 <= i < |front| && rows[i] in s.jobs
      ensures front[i] == rows[i] && rows[i] in front
      ensures RowAfter(s, rows, i, all, unwritten, now) == RowAfter(s, front, i, ids, unwritten, now)
    {
      EarlierRowAfter(s, front, id, b, ids, all, i, unwritten, now);
    }
  }

  lemma OneMoreIsNew(s: State, front: seq<string>, id: string, b: Scan, ids: set<string>, all: set<string>)
    requires OneMore(s, front, id, b, ids, all)
    ensures id in s.jobs && id !in front
  {
  }

  lemma EarlierRowAfter(s: State, front: seq<string>, id: string, b: Scan, ids: set<string>, all: set<string>, i: nat,
                        unwritten: set<string>, now: Time)
    requires OneMore(s, front, id, b, ids, all) && i < |front| && front[i] in s.jobs
    ensures (front + [id])[i] == front[i]
    ensures RowAfter(s, front + [id], i, all, unwritten, now) == RowAfter(s, front, i, ids, unwritten, now)
  {
    hide SlotsGone, GroupGone, CutOff, GroupFull, AtCapacity;
  }

  lemma GoneBySet(s: State, rows: seq<string>, ids: set<string>, all: set<string>)
    requires rows != [] && rows[|rows| - 1] in s.jobs
    requires ClaimedBefore(rows, |rows| - 1, ids) == ClaimedBefore(rows, |rows| - 1, all)
    ensures SlotsGone(s, rows, |rows| - 1, ids) <==> SlotsGone(s, rows, |rows| - 1, all)
    ensures GroupGone(s, rows, |rows| - 1, ids) <==> GroupGone(s, rows, |rows| - 1, all)
  {
  }

  lemma CutOffStep(s: State, rows: seq<string>, ids: set<string>)
    requires rows != [] && rows[|rows| - 1] in s.jobs
    ensures CutOff(s, rows, |rows|, ids)
            <==> CutOff(s, rows, |rows| - 1, ids)
                 || (s.jobs[rows[|rows| - 1]].kind in s.cfg.handlers && SlotsGone(s, rows, |rows| - 1, ids))
  {
    hide SlotsGone;
  }

  lemma {:induction false} ScanKeepsRule(s: State, rows: seq<string>, unwritten: set<string>, now: Time)
    requires PendingRows(s.jobs, rows)
    ensures Kept(s, rows, unwritten, now, PollScan(s, rows, unwritten, now))
    decreases |rows|
  {
    if rows == [] {
      assert Ids(PollScan(s, rows, unwritten, now).claimed) == {};
    } else {
      var front, id := rows[..|rows| - 1], rows[|rows| - 1];
      assert rows == front + [id];
      PrefixPending(s.jobs, rows);
      ScanKeepsRule(s, front, unwritten, now);
      ScanIsFaithful(s.cfg, unwritten, now, ScanStart(s), front);
      var b := PollScan(s, front, unwritten, now);
      NextRowIsUntouched(s.cfg, now, ScanStart(s), front, b, id);
      hide Kept, ScanRow, CountersTell, ClaimsTell, RowsTell, PendingRows, Ids;
      RuleStep(s, front, id, b, unwritten, now);
    }
  }

  /** The rule leaves no choice: two sets that keep to it agree on every prefix. */
  lemma {:induction false} SameClaims(s: State, rows: seq<string>, a: set<string>, b: set<string>, i: nat)
    requires PendingRows(s.jobs, rows) && FirstServed(s, rows, a) && FirstServed(s, rows, b) && i <= |rows|
    ensures ClaimedBefore(rows, i, a) == ClaimedBefore(rows, i, b)
    decreases i
  {
    hide FirstServed, SlotsGone, GroupGone, PendingRows;
    if i > 0 {
      SameClaims(s, rows, a, b, i - 1);
      ServedAt(s, rows, a, i - 1);
      ServedAt(s, rows, b, i - 1);
      SameTests(s, rows, a, b, i - 1);
      hide ClaimedBefore;
      ClaimedBeforeSnoc(rows, i - 1, a);
      ClaimedBeforeSnoc(rows, i - 1, b);
    }
  }

  lemma ServedAt(s: State, rows: seq<string>, ids: set<string>, i: nat)
    requires PendingRows(s.jobs, rows) && FirstServed(s, rows, ids) && i < |rows|
    ensures rows[i] in s.jobs
    ensures rows[i] in ids <==> s.jobs[rows[i]].kind in s.cfg.handlers
                                && !SlotsGone(s, rows, i, ids) && !GroupGone(s, rows, i, ids)
  {
    hide SlotsGone, GroupGone;
  }

  lemma SameTests(s: State, rows: seq<string>, a: set<string>, b: set<string>, i: nat)
    requires i < |rows| && rows[i] in s.jobs && ClaimedBefore(rows, i, a) == ClaimedBefore(rows, i, b)
    ensures SlotsGone(s, rows, i, a) <==> SlotsGone(s, rows, i, b)
    ensures GroupGone(s, rows, i, a) <==> GroupGone(s, rows, i, b)
  {
  }

  lemma ClaimedBeforeSnoc(rows: seq<string>, i: nat, ids: set<string>)
    requires i < |rows|
    ensures ClaimedBefore(rows, i + 1, ids) == ClaimedBefore(rows, i, ids) + if rows[i] in ids then {rows[i]} else {}
  {
  }

  /** What a poll claims is told by the rule, and by nothing else. */
  lemma ClaimsAreFirstServed(s: State, rows: seq<string>, unwritten: set<string>, now: Time, ids: set<string>)
    requires PendingByAge(s.jobs, rows)
    ensures FirstServed(s, rows, ids) <==> ids == Claimed(s, rows, unwritten, now)
  {
    RowsArePending(s.jobs, rows);
    ScanKeepsRule(s, rows, unwritten, now);
    var claimed := Claimed(s, rows, unwritten, now);
    if FirstServed(s, rows, ids) {
      SameClaims(s, rows, ids, claimed, |rows|);
      AllClaimedBefore(rows, ids);
      AllClaimedBefore(rows, claimed);
    }
  }

  /** A committed poll that starts below capacity does to every row what the rule says. */
  lemma PollKeepsRule(s: State, rows: seq<string>, unwritten: set<string>, now: Time)
    requires Enabled(s, Poll(rows, Committed, unwritten, now))
    requires s.cfg.maxConcurrency > 0 ==> s.runningCount < s.cfg.maxConcurrency
    ensures var n := Next(s, Poll(rows, Committed, unwritten, now));
            var ids := Claimed(s, rows, unwritten, now);
            FirstServed(s, rows, ids) && RowsFollow(s, rows, ids, unwritten, now, n.jobs)
  {
    hide FirstServed, RowsFollow;
    RowsArePending(s.jobs, rows);
    ScanKeepsRule(s, rows, unwritten, now);
  }

  /**
   * Such a poll fails every listed job whose type has no handler, unless the update of its row fails or the job
   * comes after the last claim of a poll that gave out every global slot.
   */
  lemma UnhandledJobsFail(s: State, rows: seq<string>, unwritten: set<string>, now: Time, i: nat)
    requires Enabled(s, Poll(rows, Committed, unwritten, now))
    requires s.cfg.maxConcurrency > 0 ==> s.runningCount < s.cfg.maxConcurrency
    requires i < |rows| && rows[i] in s.jobs && s.jobs[rows[i]].kind !in s.cfg.handlers
    ensures var n := Next(s, Poll(rows, Committed, unwritten, now));
            var j := s.jobs[rows[i]];
            && rows[i] in n.jobs
            && (rows[i] in unwritten ==> n.jobs[rows[i]] == j)
            && (rows[i] !in unwritten ==>
                  || n.jobs[rows[i]] == j.(status := Failed, error := "no handler registered for job type " + j.kind,
                                           updatedAt := now, completedAt := Some(now))
                  || (&& n.jobs[rows[i]] == j && s.cfg.maxConcurrency > 0
                      && s.runningCount + |n.inFlight| - |s.inFlight| == s.cfg.maxConcurrency
                      && forall k :: i <= k < |rows| ==> rows[k] !in Claimed(s, rows, unwritten, now)))
  {
    var ids := Claimed(s, rows, unwritten, now);
    PollKeepsRule(s, rows, unwritten, now);
    ClaimsAreFeasible(s, rows, unwritten, now);
    hide Claimed;
    assert rows[i] !in ids;
    if CutOff(s, rows, i, ids) {
      CutOffMeansFull(s, rows, i, ids);
    }
  }

  lemma CutOffMeansFull(s: State, rows: seq<string>, i: nat, ids: set<string>)
    requires FirstServed(s, rows, ids) && i <= |rows| && CutOff(s, rows, i, ids)
    ensures s.cfg.maxConcurrency > 0 && s.runningCount + |ids| >= s.cfg.maxConcurrency
    ensures forall k :: i <= k < |rows| && rows[k] in s.jobs ==> rows[k] !in ids
  {
    hide SlotsGone;
    var k :| 0 <= k < i && rows[k] in s.jobs && s.jobs[rows[k]].kind in s.cfg.handlers && SlotsGone(s, rows, k, ids);
    SlotsStayGone(s, rows, ids, k, |rows|);
    AllClaimedBefore(rows, ids);
    GoneIsFull(s, rows, ids);
    forall m | i <= m < |rows| && rows[m] in s.jobs ensures rows[m] !in ids {
      SlotsStayGone(s, rows, ids, k, m);
    }
  }

  lemma GoneIsFull(s: State, rows: seq<string>, ids: set<string>)
    requires ClaimedBefore(rows, |rows|, ids) == ids && SlotsGone(s, rows, |rows|, ids)
    ensures s.cfg.maxConcurrency > 0 && s.runningCount + |ids| >= s.cfg.maxConcurrency
  {
  }

  /** The slots that an aborted poll has counted and not taken back are those its rows so far would claim. */
  ghost predicate Leaked(s: State, n: State, rows: seq<string>, ids: set<string>) {
    && FirstServed(s, rows, ids) && n.runningCount == s.runningCount + |ids|
    && forall g :: g != "" ==> Count(n.activeGroups, g) == Count(s.activeGroups, g) + |OfGroup(s.jobs, ids, g)|
  }

  lemma AbortLeaks(s: State, rows: seq<string>, k: nat, unwritten: set<string>, now: Time) returns (ids: set<string>)
    requires Enabled(s, Poll(rows, AbortedAt(k), unwritten, now))
    requires s.cfg.maxConcurrency > 0 ==> s.runningCount < s.cfg.maxConcurrency
    ensures Leaked(s, Next(s, Poll(rows, AbortedAt(k), unwritten, now)), rows[..k], ids)
  {
    var seen := rows[..k];
    ids := Claimed(s, seen, unwritten, now);
    RowsArePending(s.jobs, rows);
    assert PendingRows(s.jobs, seen) by {
      assert forall i :: 0 <= i < |seen| ==> seen[i] == rows[i];
    }
    hide PollScan, PendingByAge, PendingRows, Claimed, FirstServed, OfGroup;
    ScanLeaks(s, seen, unwritten, now);
  }

  lemma ScanLeaks(s: State, rows: seq<string>, unwritten: set<string>, now: Time)
    requires PendingRows(s.jobs, rows)
    ensures var a, ids := PollScan(s, rows, unwritten, now), Claimed(s, rows, unwritten, now);
            && FirstServed(s, rows, ids) && a.runningCount == s.runningCount + |ids|
            && forall g :: g != "" ==> Count(a.activeGroups, g) == Count(s.activeGroups, g) + |OfGroup(s.jobs, ids, g)|
  {
    var a := PollScan(s, rows, unwritten, now);
    ScanKeepsRule(s, rows, unwritten, now);
    ScanIsFaithful(s.cfg, unwritten, now, ScanStart(s), rows);
    hide ScanRows, PendingRows, FirstServed, OfGroup, RowsTell, RowsFollow, Ids;
    GroupOfClaims(s.jobs, a.claimed, "");
    forall g | g != "" ensures Count(a.activeGroups, g) == Count(s.activeGroups, g) + |OfGroup(s.jobs, Ids(a.claimed), g)| {
      GroupOfClaims(s.jobs, a.claimed, g);
    }
  }

  /** The executions a poll adds are exact copies of their rows, each of another job, and counted once. */
  lemma NewExecutions(s: State, t: Step)
    requires Enabled(s, t) && t.Poll?
    ensures var n := Next(s, t);
            var claimed := NewClaims(s, t);
            && n.inFlight == s.inFlight + claimed && n.cfg == s.cfg
            && (forall i, j :: 0 <= i < j < |claimed| ==> claimed[i].id != claimed[j].id)
            && (forall i :: 0 <= i < |claimed| ==>
                  && claimed[i].id in s.jobs
                  && var j := s.jobs[claimed[i].id];
                  claimed[i] == Exec(claimed[i].id, j.kind, j.payload, j.retries, j.maxRetries, j.group))
            && (!t.end.AbortedAt? ==>
                  && n.runningCount == s.runningCount + |claimed|
                  && forall g :: g != "" ==> Count(n.activeGroups, g) == Count(s.activeGroups, g) + InGroup(claimed, g))
  {
    PollFacts(s, t);
    var n, claimed := Next(s, t), NewClaims(s, t);
    if !t.end.AbortedAt? {
      StepKeepsSlack(s, t, "");
      forall g | g != "" ensures Count(n.activeGroups, g) == Count(s.activeGroups, g) + InGroup(claimed, g) {
        StepKeepsSlack(s, t, g);
        InGroupConcat(s.inFlight, claimed, g);
      }
    }
    hide Ids, NewClaims, PendingByAge, PollScan;
  }

  /** All that one poll promises, for every way it can end. */
  lemma PollPromise(s: State, rows: seq<string>, end: PollEnd, unwritten: set<string>, now: Time)
    requires Enabled(s, Poll(rows, end, unwritten, now))
    ensures var t := Poll(rows, end, unwritten, now);
            var n, claimed := Next(s, t), NewClaims(s, t);
            && n.inFlight == s.inFlight + claimed && n.cfg == s.cfg
            && (if end == Committed && (s.cfg.maxConcurrency > 0 ==> s.runningCount < s.cfg.maxConcurrency)
                then FirstServed(s, rows, Ids(claimed)) && RowsFollow(s, rows, Ids(claimed), unwritten, now, n.jobs)
                else claimed == [] && n.jobs == s.jobs)
            && (end.AbortedAt? && (s.cfg.maxConcurrency > 0 ==> s.runningCount < s.cfg.maxConcurrency) ==>
                  exists ids :: Leaked(s, n, rows[..end.row], ids))
    ensures var t := Poll(rows, end, unwritten, now);
            var n, claimed := Next(s, t), NewClaims(s, t);
            && (forall i, j :: 0 <= i < j < |claimed| ==> claimed[i].id != claimed[j].id)
            && (forall i :: 0 <= i < |claimed| ==>
                  && claimed[i].id in s.jobs
                  && var j := s.jobs[claimed[i].id];
                  claimed[i] == Exec(claimed[i].id, j.kind, j.payload, j.retries, j.maxRetries, j.group))
            && (!end.AbortedAt? ==>
                  && n.runningCount == s.runningCount + |claimed|
                  && forall g :: g != "" ==> Count(n.activeGroups, g) == Count(s.activeGroups, g) + InGroup(claimed, g))
  {
    hide FirstServed, RowsFollow, Leaked, PendingByAge, PollScan, Ids;
    NewExecutions(s, Poll(rows, end, unwritten, now));
    if s.cfg.maxConcurrency > 0 ==> s.runningCount < s.cfg.maxConcurrency {
      if end == Committed {
        PollKeepsRule(s, rows, unwritten, now);
      } else if end.AbortedAt? {
        var ids := AbortLeaks(s, rows, end.row, unwritten, now);
      }
    }
  }
}
