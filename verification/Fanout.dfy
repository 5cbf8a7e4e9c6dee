/** The pull_manga fan-out for one manga and one provider: concurrent executions, retries and failing steps. */
module Fanout {
  import opened Options

  type Id = string

  /** One execution of the handler. `existing` is what it listed; `saved` says chapter i is on disk, its child not made. */
  datatype Exec =
    | Fetched(chapters: seq<Id>)
    | Locked(chapters: seq<Id>)
    | Looping(chapters: seq<Id>, existing: set<Id>, i: nat, saved: bool)
    | Failed
    | Finished(chapters: seq<Id>, existing: set<Id>)

  /**
   * `pulls` counts the pull_chapter rows per chapter. Two history variables: `given` holds the chapters that
   * were on disk at first or were saved by others, `orphans` those saved here whose child was never created.
   */
  datatype State = State(
    disk: set<Id>, owner: Option<nat>, execs: map<nat, Exec>, pulls: multiset<Id>, given: set<Id>, orphans: set<Id>)

  /** How enqueueChild ends: the row is created and scheduled, only created, or not even created. */
  datatype Child = Scheduled | CreatedOnly | NotCreated

  datatype Step =
    | Fetch(e: nat, chapters: seq<Id>)
    | Lock(e: nat)
    | List(e: nat, ok: bool)
    | Skip(e: nat)
    | Save(e: nat, ok: bool)
    | Enqueue(e: nat, child: Child)
    | Finish(e: nat)
    | SavedByOthers(id: Id)

  predicate Distinct(s: seq<Id>) {
    forall i, j :: 0 <= i < j < |s| ==> s[i] != s[j]
  }

  predicate AtChapter(s: State, e: nat) {
    e in s.execs && s.execs[e].Looping? && s.execs[e].i < |s.execs[e].chapters|
  }

  function Current(s: State, e: nat): Id
    requires AtChapter(s, e)
  {
    s.execs[e].chapters[s.execs[e].i]
  }

  predicate Enabled(s: State, t: Step) {
    match t
    case Fetch(e, _) => e !in s.execs
    case Lock(e) => e in s.execs && s.execs[e].Fetched? && s.owner == None
    case List(e, _) => e in s.execs && s.execs[e].Locked?
    case Skip(e) => AtChapter(s, e) && Current(s, e) in s.execs[e].existing
    case Save(e, _) => AtChapter(s, e) && Current(s, e) !in s.execs[e].existing && !s.execs[e].saved
    case Enqueue(e, _) => AtChapter(s, e) && s.execs[e].saved
    case Finish(e) => e in s.execs && s.execs[e].Looping? && s.execs[e].i == |s.execs[e].chapters|
    case SavedByOthers(_) => true
  }

  function Leave(s: State, e: nat, x: Exec): State {
    s.(owner := None, execs := s.execs[e := x])
  }

  function Next(s: State, t: Step): State
    requires Enabled(s, t)
  {
    match t
    case Fetch(e, chapters) => s.(execs := s.execs[e := Fetched(chapters)])
    case Lock(e) => s.(owner := Some(e), execs := s.execs[e := Locked(s.execs[e].chapters)])
    case List(e, ok) =>
      if ok then s.(execs := s.execs[e := Looping(s.execs[e].chapters, s.disk, 0, false)]) else Leave(s, e, Failed)
    case Skip(e) => s.(execs := s.execs[e := s.execs[e].(i := s.execs[e].i + 1)])
    case Save(e, ok) =>
      if ok then s.(disk := s.disk + {Current(s, e)}, execs := s.execs[e := s.execs[e].(saved := true)])
      else Leave(s, e, Failed)
    case Enqueue(e, child) =>
      var id := Current(s, e);
      var after := if child.NotCreated? then s.(orphans := s.orphans + {id}) else s.(pulls := s.pulls + multiset{id});
      if child.Scheduled? then after.(execs := s.execs[e := s.execs[e].(i := s.execs[e].i + 1, saved := false)])
      else Leave(after, e, Failed)
    case Finish(e) => Leave(s, e, Finished(s.execs[e].chapters, s.execs[e].existing))
    case SavedByOthers(id) => s.(disk := s.disk + {id}, given := s.given + {id})
  }

  predicate Runnable(s: State, steps: seq<Step>)
    decreases |steps|
  {
    steps == [] || (Enabled(s, steps[0]) && Runnable(Next(s, steps[0]), steps[1..]))
  }

  function Run(s: State, steps: seq<Step>): State
    requires Runnable(s, steps)
    decreases |steps|
  {
    if steps == [] then s else Run(Next(s, steps[0]), steps[1..])
  }

  /** Nothing fetched yet: the chapters in `disk` were there before. */
  function Start(disk: set<Id>): State {
    State(disk, None, map[], multiset{}, disk, {})
  }

  /** No fetch delivers an id twice. */
  predicate DistinctFetches(steps: seq<Step>) {
    forall k :: 0 <= k < |steps| ==> steps[k].Fetch? ==> Distinct(steps[k].chapters)
  }

  // ----- What every step keeps -----

  predicate Inside(x: Exec) {
    x.Locked? || x.Looping?
  }

  /** What the loop has to do is untouched; what it has done is on disk already or has its child. */
  predicate OnTrack(x: Exec, pulls: multiset<Id>, orphans: set<Id>) {
    match x
    case Fetched(chapters) => Distinct(chapters)
    case Locked(chapters) => Distinct(chapters)
    case Looping(chapters, existing, i, saved) =>
      && Distinct(chapters) && i <= |chapters|
      && (saved ==> i < |chapters| && chapters[i] !in existing)
      && (forall j :: 0 <= j < i ==> chapters[j] in existing || chapters[j] in pulls)
      && (forall j :: i <= j < |chapters| ==>
            chapters[j] in existing || (chapters[j] !in pulls && chapters[j] !in orphans))
    case Failed => true
    case Finished(chapters, existing) => forall id :: id in chapters ==> id in existing || id in pulls
  }

  ghost predicate Serialized(s: State) {
    && (forall e :: e in s.execs ==> OnTrack(s.execs[e], s.pulls, s.orphans))
    && (forall e :: e in s.execs && Inside(s.execs[e]) ==> s.owner == Some(e))
    && (s.owner.Some? ==> s.owner.value in s.execs && Inside(s.execs[s.owner.value]))
  }

  /** The chapter that is saved while its child is still to be made. */
  predicate Pending(s: State, id: Id) {
    s.owner.Some? && AtChapter(s, s.owner.value) && s.execs[s.owner.value].saved && Current(s, s.owner.value) == id
  }

  /** A chapter has at most one child; one on disk without a child was given, is orphaned, or is pending. */
  ghost predicate Accounted(s: State) {
    && (forall id :: s.pulls[id] <= 1)
    && (forall id :: id in s.pulls ==> id in s.disk && id !in s.orphans)
    && s.orphans <= s.disk
    && (forall id :: Pending(s, id) ==> id in s.disk)
    && (forall id :: id in s.disk ==> id in s.given || id in s.pulls || id in s.orphans || Pending(s, id))
  }

  ghost predicate Safe(s: State) {
    Serialized(s) && Accounted(s)
  }

  lemma StartIsSafe(disk: set<Id>)
    ensures Safe(Start(disk))
  {
  }

  lemma OutsideStaysOnTrack(x: Exec, s: State, n: State)
    requires OnTrack(x, s.pulls, s.orphans) && s.pulls <= n.pulls
    requires !Inside(x) || (s.pulls == n.pulls && s.orphans == n.orphans)
    ensures OnTrack(x, n.pulls, n.orphans)
  {
  }

  lemma EnqueueStaysOnTrack(s: State, t: Step)
    requires t.Enqueue? && Enabled(s, t) && OnTrack(s.execs[t.e], s.pulls, s.orphans)
    ensures OnTrack(Next(s, t).execs[t.e], Next(s, t).pulls, Next(s, t).orphans)
    ensures s.pulls <= Next(s, t).pulls
  {
    var x, id := s.execs[t.e], Current(s, t.e);
    assert forall j :: x.i < j < |x.chapters| ==> x.chapters[j] != id;
  }

  /** The acting execution stays on track; only a child changes the counts. */
  lemma ActorStaysOnTrack(s: State, t: Step)
    requires Safe(s) && Enabled(s, t) && !t.SavedByOthers? && (t.Fetch? ==> Distinct(t.chapters))
    ensures var n := Next(s, t);
            t.e in n.execs && OnTrack(n.execs[t.e], n.pulls, n.orphans) && s.pulls <= n.pulls
    ensures !t.Enqueue? ==> Next(s, t).pulls == s.pulls && Next(s, t).orphans == s.orphans
  {
    if t.e in s.execs {
      assert OnTrack(s.execs[t.e], s.pulls, s.orphans);
    }
    if t.Enqueue? {
      EnqueueStaysOnTrack(s, t);
    } else if t.List? {
      assert forall id :: id in s.pulls ==> id in s.disk;
    } else {
      hide Safe;
      QuietStaysOnTrack(s, t);
    }
  }

  lemma QuietStaysOnTrack(s: State, t: Step)
    requires Enabled(s, t) && (t.Fetch? || t.Lock? || t.Skip? || t.Save? || t.Finish?)
    requires t.e in s.execs ==> OnTrack(s.execs[t.e], s.pulls, s.orphans)
    requires t.Fetch? ==> Distinct(t.chapters)
    ensures var n := Next(s, t);
            t.e in n.execs && OnTrack(n.execs[t.e], s.pulls, s.orphans) && n.pulls == s.pulls && n.orphans == s.orphans
  {
    if t.Skip? {
      hide Distinct;
      assert Next(s, t).execs[t.e] == s.execs[t.e].(i := s.execs[t.e].i + 1);
    }
  }

  /** A step changes its own execution only, and the lock follows whoever is inside. */
  lemma StepFrame(s: State, t: Step)
    requires Enabled(s, t) && !t.SavedByOthers?
    ensures var n := Next(s, t);
            && t.e in n.execs && n.execs == s.execs[t.e := n.execs[t.e]]
            && n.owner == (if t.Lock? then Some(t.e)
                           else if t.e in s.execs && Inside(s.execs[t.e]) && !Inside(n.execs[t.e]) then None
                           else s.owner)
            && (t.Lock? ==> s.owner == None && Inside(n.execs[t.e]))
            && (Inside(n.execs[t.e]) && !t.Lock? ==> t.e in s.execs && Inside(s.execs[t.e]))
            && (t.Fetch? || t.Lock? ==> t.e !in s.execs || !Inside(s.execs[t.e]))
            && (!t.Fetch? && !t.Lock? ==> t.e in s.execs && Inside(s.execs[t.e]))
  {
  }

  lemma StepKeepsOrder(s: State, t: Step)
    requires Safe(s) && Enabled(s, t) && (t.Fetch? ==> Distinct(t.chapters))
    ensures Serialized(Next(s, t))
  {
    if t.SavedByOthers? {
      return;
    }
    ActorStaysOnTrack(s, t);
    StepFrame(s, t);
    hide OnTrack, Accounted, Next, Enabled;
    var n := Next(s, t);
    forall e | e in n.execs ensures OnTrack(n.execs[e], n.pulls, n.orphans) {
      if e != t.e {
        assert n.execs[e] == s.execs[e] && OnTrack(s.execs[e], s.pulls, s.orphans);
        OutsideStaysOnTrack(s.execs[e], s, n);
      }
    }
  }

  lemma EnqueueKeepsAccounts(s: State, t: Step)
    requires Safe(s) && Enabled(s, t) && t.Enqueue?
    ensures Accounted(Next(s, t))
  {
    var id := Current(s, t.e);
    assert OnTrack(s.execs[t.e], s.pulls, s.orphans) && s.owner == Some(t.e);
    assert Pending(s, id) && id !in s.pulls;
    var n := Next(s, t);
    hide OnTrack, Serialized;
    assert n.disk == s.disk && n.given == s.given;
    assert forall x :: !Pending(n, x);
    assert forall x :: Pending(s, x) ==> x == id;
  }

  lemma SaveKeepsAccounts(s: State, t: Step)
    requires Safe(s) && Enabled(s, t) && t.Save?
    ensures Accounted(Next(s, t))
  {
    var id := Current(s, t.e);
    assert OnTrack(s.execs[t.e], s.pulls, s.orphans) && s.owner == Some(t.e);
    var n := Next(s, t);
    hide OnTrack, Serialized;
    assert forall x :: !Pending(s, x);
    assert forall x :: Pending(n, x) ==> x == id;
  }

  lemma StepKeepsAccounts(s: State, t: Step)
    requires Safe(s) && Enabled(s, t)
    ensures Accounted(Next(s, t))
  {
    if t.Save? {
      SaveKeepsAccounts(s, t);
    } else if t.Enqueue? {
      EnqueueKeepsAccounts(s, t);
    } else {
      NothingPendingChanges(s, t);
      hide OnTrack, Serialized, Pending;
    }
  }

  lemma NothingPendingChanges(s: State, t: Step)
    requires Safe(s) && Enabled(s, t) && !t.Save? && !t.Enqueue?
    ensures forall x :: Pending(s, x) <==> Pending(Next(s, t), x)
  {
    hide Accounted;
    if !t.SavedByOthers? {
      StepFrame(s, t);
      if t.e in s.execs {
        assert OnTrack(s.execs[t.e], s.pulls, s.orphans);
      }
    }
  }

  lemma {:induction false} RunKeepsSafe(s: State, steps: seq<Step>)
    requires Safe(s) && Runnable(s, steps) && DistinctFetches(steps)
    ensures Safe(Run(s, steps))
    decreases |steps|
  {
    hide Safe, Next, Enabled;
    if steps != [] {
      assert DistinctFetches(steps[1..]) by {
        assert forall k :: 0 <= k < |steps[1..]| ==> steps[1..][k] == steps[k + 1];
      }
      SafeStep(s, steps[0]);
      RunKeepsSafe(Next(s, steps[0]), steps[1..]);
    }
  }

  lemma SafeStep(s: State, t: Step)
    requires Safe(s) && Enabled(s, t) && (t.Fetch? ==> Distinct(t.chapters))
    ensures Safe(Next(s, t))
  {
    StepKeepsOrder(s, t);
    StepKeepsAccounts(s, t);
    hide Serialized, Accounted;
  }

  /**
   * At most one child per chapter, over every interleaving of executions, retries and failures. Whenever the
   * lock is free, a chapter only the fan-out saved has its child exactly when it is on disk and no execution
   * failed between saving it and creating its child.
   */
  lemma AtMostOneChild(disk: set<Id>, steps: seq<Step>, id: Id)
    requires Runnable(Start(disk), steps) && DistinctFetches(steps)
    ensures var s := Run(Start(disk), steps);
            && s.pulls[id] <= 1
            && (s.owner == None && id !in s.given ==> (id in s.pulls <==> id in s.disk && id !in s.orphans))
  {
    StartIsSafe(disk);
    RunKeepsSafe(Start(disk), steps);
  }

  /** An execution that finishes leaves every chapter it fetched either listed before it began or with one child. */
  lemma FinishedFetchIsCovered(disk: set<Id>, steps: seq<Step>, e: nat, id: Id)
    requires Runnable(Start(disk), steps) && DistinctFetches(steps)
    ensures var s := Run(Start(disk), steps);
            e in s.execs && s.execs[e].Finished? && id in s.execs[e].chapters && id !in s.execs[e].existing
            ==> s.pulls[id] == 1
  {
    StartIsSafe(disk);
    RunKeepsSafe(Start(disk), steps);
    var s := Run(Start(disk), steps);
    if e in s.execs && s.execs[e].Finished? && id in s.execs[e].chapters {
      assert OnTrack(s.execs[e], s.pulls, s.orphans);
    }
  }

  // ----- What the code does with repeated ids and with failures -----

  lemma {:induction false} RunAppends(s: State, a: seq<Step>, b: seq<Step>)
    requires Runnable(s, a) && Runnable(Run(s, a), b)
    ensures Runnable(s, a + b) && Run(s, a + b) == Run(Run(s, a), b)
    decreases |a|
  {
    if a == [] {
      assert a + b == b;
    } else {
      assert (a + b)[1..] == a[1..] + b;
      RunAppends(Next(s, a[0]), a[1..], b);
    }
  }

  /** A chapter whose child was never created gets none from any later execution. */
  lemma {:induction false} OrphansStay(s: State, steps: seq<Step>, id: Id)
    requires Safe(s) && Runnable(s, steps) && DistinctFetches(steps) && id in s.orphans
    ensures id in Run(s, steps).orphans && id !in Run(s, steps).pulls
    decreases |steps|
  {
    if steps != [] {
      assert DistinctFetches(steps[1..]) by {
        assert forall k :: 0 <= k < |steps[1..]| ==> steps[1..][k] == steps[k + 1];
      }
      SafeStep(s, steps[0]);
      OrphansStay(Next(s, steps[0]), steps[1..], id);
    }
  }

  /** The chapters of a fetch that are not in `existing`, repetitions included. */
  function Missing(chapters: seq<Id>, existing: set<Id>): seq<Id> {
    if chapters == [] then []
    else (if chapters[0] in existing then [] else [chapters[0]]) + Missing(chapters[1..], existing)
  }

  /** The steps of a loop in which nothing fails. */
  function LoopSteps(e: nat, chapters: seq<Id>, existing: set<Id>): seq<Step> {
    if chapters == [] then [Finish(e)]
    else (if chapters[0] in existing then [Skip(e)] else [Save(e, true), Enqueue(e, Scheduled)])
         + LoopSteps(e, chapters[1..], existing)
  }

  /** An execution that saves its one chapter and cannot create the child, and a second one after it. */
  function OrphaningRun(id: Id): seq<Step> {
    [Fetch(0, [id]), Lock(0), List(0, true), Save(0, true), Enqueue(0, NotCreated)]
    + [Fetch(1, [id]), Lock(1), List(1, true), Skip(1), Finish(1)]
  }

  /** The second execution finishes, but the chapter still has no child. */
  lemma OrphanIsNeverPulled(id: Id)
    ensures Runnable(Start({}), OrphaningRun(id)) && DistinctFetches(OrphaningRun(id))
    ensures var execs := map[0 := Failed, 1 := Finished([id], {id})];
            Run(Start({}), OrphaningRun(id)) == State({id}, None, execs, multiset{}, {}, {id})
  {
    hide Run, Runnable;
    var first := [Fetch(0, [id]), Lock(0), List(0, true), Save(0, true), Enqueue(0, NotCreated)];
    FailingExecution(id);
    FollowingExecution(id);
    RunAppends(Start({}), first, [Fetch(1, [id]), Lock(1), List(1, true), Skip(1), Finish(1)]);
  }

  lemma FailingExecution(id: Id)
    ensures var steps := [Fetch(0, [id]), Lock(0), List(0, true), Save(0, true), Enqueue(0, NotCreated)];
            && Runnable(Start({}), steps)
            && Run(Start({}), steps) == State({id}, None, map[0 := Failed], multiset{}, {}, {id})
  {
    FiveSteps(Start({}), Fetch(0, [id]), Lock(0), List(0, true), Save(0, true), Enqueue(0, NotCreated));
  }

  lemma FollowingExecution(id: Id)
    ensures var s := State({id}, None, map[0 := Failed], multiset{}, {}, {id});
            var steps := [Fetch(1, [id]), Lock(1), List(1, true), Skip(1), Finish(1)];
            && Runnable(s, steps)
            && Run(s, steps) == s.(execs := map[0 := Failed, 1 := Finished([id], {id})])
  {
    var s := State({id}, None, map[0 := Failed], multiset{}, {}, {id});
    FiveSteps(s, Fetch(1, [id]), Lock(1), List(1, true), Skip(1), Finish(1));
  }

  lemma FiveSteps(s: State, a: Step, b: Step, c: Step, d: Step, e: Step)
    requires Enabled(s, a) && Enabled(Next(s, a), b) && Enabled(Next(Next(s, a), b), c)
    requires Enabled(Next(Next(Next(s, a), b), c), d) && Enabled(Next(Next(Next(Next(s, a), b), c), d), e)
    ensures Runnable(s, [a, b, c, d, e])
    ensures Run(s, [a, b, c, d, e]) == Next(Next(Next(Next(Next(s, a), b), c), d), e)
  {
    hide Next, Enabled;
    var s1 := Next(s, a);
    var s2 := Next(s1, b);
    var s3 := Next(s2, c);
    var s4 := Next(s3, d);
    var s5 := Next(s4, e);
    assert [e][1..] == [] && [d, e][1..] == [e] && [c, d, e][1..] == [d, e] && [b, c, d, e][1..] == [c, d, e];
    assert [a, b, c, d, e][1..] == [b, c, d, e];
    assert Runnable(s4, [e]) && Run(s4, [e]) == s5;
    assert Runnable(s3, [d, e]) && Run(s3, [d, e]) == s5;
    assert Runnable(s2, [c, d, e]) && Run(s2, [c, d, e]) == s5;
    assert Runnable(s1, [b, c, d, e]) && Run(s1, [b, c, d, e]) == s5;
  }

  lemma {:induction false} LoopCreates(s: State, e: nat)
    requires e in s.execs && s.execs[e].Looping? && !s.execs[e].saved && s.execs[e].i <= |s.execs[e].chapters|
    ensures var x := s.execs[e];
            var rest := x.chapters[x.i..];
            var steps := LoopSteps(e, rest, x.existing);
            && Runnable(s, steps)
            && Run(s, steps).pulls == s.pulls + multiset(Missing(rest, x.existing))
    decreases |s.execs[e].chapters| - s.execs[e].i
  {
    var x := s.execs[e];
    var rest := x.chapters[x.i..];
    if rest == [] {
      assert Run(s, [Finish(e)]) == Next(s, Finish(e));
    } else {
      var first := if rest[0] in x.existing then [Skip(e)] else [Save(e, true), Enqueue(e, Scheduled)];
      assert rest[1..] == x.chapters[x.i + 1..];
      OneChapter(s, e);
      var n := Run(s, first);
      LoopCreates(n, e);
      RunAppends(s, first, LoopSteps(e, rest[1..], x.existing));
      assert LoopSteps(e, rest, x.existing) == first + LoopSteps(e, rest[1..], x.existing);
      assert Missing(rest, x.existing)
             == (if rest[0] in x.existing then [] else [rest[0]]) + Missing(rest[1..], x.existing);
    }
  }

  lemma OneChapter(s: State, e: nat)
    requires AtChapter(s, e) && !s.execs[e].saved
    ensures var x, id := s.execs[e], Current(s, e);
            var first := if id in x.existing then [Skip(e)] else [Save(e, true), Enqueue(e, Scheduled)];
            && Runnable(s, first)
            && e in Run(s, first).execs && Run(s, first).execs[e] == x.(i := x.i + 1)
            && Run(s, first).pulls == s.pulls + if id in x.existing then multiset{} else multiset{id}
  {
    var x, id := s.execs[e], Current(s, e);
    if id in x.existing {
      assert Run(s, [Skip(e)]) == Next(s, Skip(e));
    } else {
      var n := Next(s, Save(e, true));
      assert [Save(e, true), Enqueue(e, Scheduled)][1..] == [Enqueue(e, Scheduled)];
      assert Run(n, [Enqueue(e, Scheduled)]) == Next(n, Enqueue(e, Scheduled));
    }
  }

  /**
   * Why fetches must be distinct: the loop does not look at what it saved itself. One execution in which
   * nothing fails gives no chapter two children exactly when the fetched chapters missing from disk are distinct.
   */
  lemma OneExecutionIsExact(disk: set<Id>, chapters: seq<Id>)
    ensures var steps := [Fetch(0, chapters), Lock(0), List(0, true)] + LoopSteps(0, chapters, disk);
            && Runnable(Start(disk), steps)
            && ((forall id :: Run(Start(disk), steps).pulls[id] <= 1) <==> Distinct(Missing(chapters, disk)))
  {
    hide Run, Runnable, Next, Enabled, Distinct, Missing, LoopSteps;
    var opening := [Fetch(0, chapters), Lock(0), List(0, true)];
    Opening(disk, chapters);
    var s := Run(Start(disk), opening);
    LoopCreates(s, 0);
    assert chapters[0..] == chapters;
    RunAppends(Start(disk), opening, LoopSteps(0, chapters, disk));
    assert s.pulls + multiset(Missing(chapters, disk)) == multiset(Missing(chapters, disk));
    CountsAreOnes(Missing(chapters, disk));
  }

  /** A fetch that lists a new chapter twice makes two children for it. */
  lemma RepeatedFetchMakesTwoChildren(id: Id)
    ensures var steps := [Fetch(0, [id, id]), Lock(0), List(0, true)] + LoopSteps(0, [id, id], {});
            && Runnable(Start({}), steps)
            && exists x :: Run(Start({}), steps).pulls[x] > 1
  {
    OneExecutionIsExact({}, [id, id]);
    assert [id, id][1..] == [id] && [id][1..] == [];
    assert Missing([id, id], {})[0] == Missing([id, id], {})[1];
  }

  lemma Opening(disk: set<Id>, chapters: seq<Id>)
    ensures var steps := [Fetch(0, chapters), Lock(0), List(0, true)];
            && Runnable(Start(disk), steps)
            && var s := Run(Start(disk), steps);
               s.execs == map[0 := Looping(chapters, disk, 0, false)] && s.pulls == multiset{}
  {
    hide Missing, LoopSteps;
    var s1 := Next(Start(disk), Fetch(0, chapters));
    var s2 := Next(s1, Lock(0));
    var steps := [Fetch(0, chapters), Lock(0), List(0, true)];
    assert steps[1..] == [Lock(0), List(0, true)] && steps[1..][1..] == [List(0, true)];
    OneStep(s2, List(0, true));
    assert Runnable(s1, steps[1..]) && Run(s1, steps[1..]) == Next(s2, List(0, true));
    assert Runnable(Start(disk), steps);
  }

  lemma CountsAreOnes(s: seq<Id>)
    ensures (forall id :: multiset(s)[id] <= 1) <==> Distinct(s)
  {
    if !Distinct(s) {
      var i, j :| 0 <= i < j < |s| && s[i] == s[j];
      assert s == s[..i + 1] + s[i + 1..];
      assert s[i] in s[..i + 1] && s[j] in s[i + 1..] by {
        assert s[..i + 1][i] == s[i] && s[i + 1..][j - i - 1] == s[j];
      }
      assert multiset(s)[s[i]] >= 2;
    } else {
      forall id ensures multiset(s)[id] <= 1 {
        if i :| 0 <= i < |s| && s[i] == id {
          assert s == s[..i] + [id] + s[i + 1..];
          assert id !in s[..i] && id !in s[i + 1..];
        }
      }
    }
  }

  lemma OneStep(s: State, t: Step)
    requires Enabled(s, t)
    ensures Runnable(s, [t]) && Run(s, [t]) == Next(s, t)
  {
    assert [t][1..] == [];
  }

  lemma Extend(begin: State, steps: seq<Step>, s: State, t: Step) returns (longer: seq<Step>)
    requires Runnable(begin, steps) && Run(begin, steps) == s && Enabled(s, t)
    ensures longer == steps + [t] && Runnable(begin, longer) && Run(begin, longer) == Next(s, t)
  {
    OneStep(s, t);
    RunAppends(begin, steps, [t]);
    longer := steps + [t];
  }

  lemma NoSteps(s: State)
    ensures Runnable(s, []) && Run(s, []) == s
  {
  }

  lemma ListEffect(s: State, e: nat, ok: bool)
    requires e in s.execs && s.execs[e].Locked?
    ensures Enabled(s, List(e, ok))
    ensures var x := if ok then Looping(s.execs[e].chapters, s.disk, 0, false) else Failed;
            Next(s, List(e, ok)) == s.(execs := s.execs[e := x], owner := if ok then s.owner else None)
  {
  }

  lemma FinishEffect(s: State, e: nat)
    requires e in s.execs && s.execs[e].Looping? && s.execs[e].i == |s.execs[e].chapters|
    ensures Enabled(s, Finish(e))
    ensures var x := Finished(s.execs[e].chapters, s.execs[e].existing);
            Next(s, Finish(e)) == s.(execs := s.execs[e := x], owner := None)
  {
  }

  // ----- The handler -----

  /** What goes wrong at one chapter, if anything. */
  datatype Fault = NoFault | SaveFails | ChildFails(child: Child)

  predicate Harmless(faults: map<nat, Fault>, j: nat) {
    j !in faults || faults[j].NoFault? || (faults[j].ChildFails? && faults[j].child.Scheduled?)
  }

  predicate SavingFails(faults: map<nat, Fault>, j: nat) {
    j in faults && faults[j].SaveFails?
  }

  /** The row of the child gets created, scheduled or not. */
  predicate Creates(faults: map<nat, Fault>, j: nat) {
    j !in faults || faults[j].NoFault? || (faults[j].ChildFails? && !faults[j].child.NotCreated?)
  }

  /**
   * The four ways a turn can go: nothing fails, the save fails, the child is not even created, or it is created
   * but not scheduled. Only the first goes on, and only in the second nothing is saved.
   */
  lemma TurnKinds(faults: map<nat, Fault>, j: nat)
    ensures var fault := if j in faults then faults[j] else NoFault;
            && (Harmless(faults, j) <==> fault == NoFault || fault == ChildFails(Scheduled))
            && (SavingFails(faults, j) <==> fault == SaveFails)
            && (Creates(faults, j) <==> fault != SaveFails && fault != ChildFails(NotCreated))
  {
  }

  /** The first missing chapter, from the i-th on, at which something fails. */
  function FirstFault(chapters: seq<Id>, existing: set<Id>, faults: map<nat, Fault>, i: nat): (f: nat)
    requires i <= |chapters|
    ensures i <= f <= |chapters|
    decreases |chapters| - i
  {
    if i == |chapters| || (chapters[i] !in existing && !Harmless(faults, i)) then i
    else FirstFault(chapters, existing, faults, i + 1)
  }

  lemma {:induction false} FirstFaultIsFirst(chapters: seq<Id>, existing: set<Id>, faults: map<nat, Fault>, i: nat, j: nat)
    requires i <= j < |chapters|
    ensures var f := FirstFault(chapters, existing, faults, i);
            && (j < f ==> chapters[j] in existing || Harmless(faults, j))
            && (j == f ==> chapters[j] !in existing && !Harmless(faults, j))
    decreases j - i
  {
    if i < j && (chapters[i] in existing || Harmless(faults, i)) {
      FirstFaultIsFirst(chapters, existing, faults, i + 1, j);
    }
  }

  lemma FaultHere(chapters: seq<Id>, existing: set<Id>, faults: map<nat, Fault>, i: nat)
    requires i <= |chapters|
    ensures FirstFault(chapters, existing, faults, i)
            == if i < |chapters| && (chapters[i] in existing || Harmless(faults, i))
               then FirstFault(chapters, existing, faults, i + 1) else i
  {
  }

  /** How many turns the loop takes: the failing one is its last. */
  function Turns(chapters: seq<Id>, existing: set<Id>, faults: map<nat, Fault>): (n: nat)
    ensures n <= |chapters|
  {
    var f := FirstFault(chapters, existing, faults, 0);
    if f < |chapters| then f + 1 else f
  }

  /** The chapters that the first n turns save. */
  function Saved(chapters: seq<Id>, existing: set<Id>, faults: map<nat, Fault>, n: nat): set<Id>
    requires n <= |chapters|
  {
    if n == 0 then {}
    else
      Saved(chapters, existing, faults, n - 1)
      + if chapters[n - 1] in existing || SavingFails(faults, n - 1) then {} else {chapters[n - 1]}
  }

  /** The children that the first n turns create. */
  function Created(chapters: seq<Id>, existing: set<Id>, faults: map<nat, Fault>, n: nat): multiset<Id>
    requires n <= |chapters|
  {
    if n == 0 then multiset{}
    else
      Created(chapters, existing, faults, n - 1)
      + if chapters[n - 1] in existing || !Creates(faults, n - 1) then multiset{} else multiset{chapters[n - 1]}
  }

  lemma SavedStep(chapters: seq<Id>, existing: set<Id>, faults: map<nat, Fault>, n: nat)
    requires n < |chapters|
    ensures Saved(chapters, existing, faults, n + 1)
            == Saved(chapters, existing, faults, n) + if chapters[n] in existing || SavingFails(faults, n) then {} else {chapters[n]}
    ensures Created(chapters, existing, faults, n + 1)
            == Created(chapters, existing, faults, n)
               + if chapters[n] in existing || !Creates(faults, n) then multiset{} else multiset{chapters[n]}
  {
  }

  lemma SavedNone(chapters: seq<Id>, existing: set<Id>, faults: map<nat, Fault>)
    ensures Saved(chapters, existing, faults, 0) == {} && Created(chapters, existing, faults, 0) == multiset{}
  {
  }

  /** Up to the first fault every occurrence of a missing chapter is saved and gets its child. */
  lemma {:induction false} NothingIsSkipped(chapters: seq<Id>, existing: set<Id>, faults: map<nat, Fault>, n: nat)
    requires n <= FirstFault(chapters, existing, faults, 0)
    ensures Created(chapters, existing, faults, n) == multiset(Missing(chapters[..n], existing))
    ensures Saved(chapters, existing, faults, n) == SetOf(Missing(chapters[..n], existing))
    decreases n
  {
    hide Missing, FirstFault, SetOf, Saved, Created;
    if n == 0 {
      SavedNone(chapters, existing, faults);
      assert chapters[..0] == [];
      NothingMissing(existing);
    } else {
      NothingIsSkipped(chapters, existing, faults, n - 1);
      MissingOneMore(chapters, existing, n - 1);
      FirstFaultIsFirst(chapters, existing, faults, 0, n - 1);
      SavedStep(chapters, existing, faults, n - 1);
      if chapters[n - 1] !in existing {
        assert Harmless(faults, n - 1);
        SetOfSnoc(Missing(chapters[..n - 1], existing), chapters[n - 1]);
      } else {
        assert Missing(chapters[..n - 1], existing) + [] == Missing(chapters[..n - 1], existing);
      }
    }
  }

  function SetOf(s: seq<Id>): set<Id> {
    set id | id in s
  }

  lemma SetOfSnoc(s: seq<Id>, id: Id)
    ensures SetOf(s + [id]) == SetOf(s) + {id}
  {
    assert id in s + [id];
  }

  lemma NothingMissing(existing: set<Id>)
    ensures Missing([], existing) == [] && SetOf([]) == {}
  {
  }

  lemma {:induction false} MissingConcat(a: seq<Id>, b: seq<Id>, existing: set<Id>)
    ensures Missing(a + b, existing) == Missing(a, existing) + Missing(b, existing)
    decreases |a|
  {
    if a == [] {
      assert a + b == b;
    } else {
      assert (a + b)[1..] == a[1..] + b;
      MissingConcat(a[1..], b, existing);
    }
  }

  lemma MissingOneMore(chapters: seq<Id>, existing: set<Id>, i: nat)
    requires i < |chapters|
    ensures Missing(chapters[..i + 1], existing)
            == Missing(chapters[..i], existing) + if chapters[i] in existing then [] else [chapters[i]]
  {
    assert chapters[..i + 1] == chapters[..i] + [chapters[i]];
    MissingConcat(chapters[..i], [chapters[i]], existing);
    assert [chapters[i]][1..] == [];
  }

  /** The library and the job store as one handler execution sees them while it holds the lock. */
  class PullHandler {
    var disk: set<Id>
    var pulls: multiset<Id>
    ghost var state: State

    constructor (disk: set<Id>)
      ensures Valid() && state == Start(disk)
    {
      this.disk, pulls, state := disk, multiset{}, Start(disk);
    }

    ghost predicate Valid()
      reads this
    {
      disk == state.disk && pulls == state.pulls
    }

    method SaveChapter(ghost e: nat, id: Id, ok: bool)
      requires Valid() && AtChapter(state, e) && id == Current(state, e) && Enabled(state, Save(e, ok))
      modifies this
      ensures Valid() && state == Next(old(state), Save(e, ok))
      ensures disk == (if ok then old(disk) + {id} else old(disk)) && pulls == old(pulls)
    {
      state := Next(state, Save(e, ok));
      if ok {
        disk := disk + {id};
      }
    }

    method EnqueueChild(ghost e: nat, id: Id, child: Child)
      requires Valid() && AtChapter(state, e) && id == Current(state, e) && Enabled(state, Enqueue(e, child))
      modifies this
      ensures Valid() && state == Next(old(state), Enqueue(e, child))
      ensures disk == old(disk) && pulls == if child.NotCreated? then old(pulls) else old(pulls) + multiset{id}
    {
      state := Next(state, Enqueue(e, child));
      if !child.NotCreated? {
        pulls := pulls + multiset{id};
      }
    }

    /** One turn of the handler's loop. */
    method PullOne(ghost e: nat, chapters: seq<Id>, existing: set<Id>, i: nat, faults: map<nat, Fault>,
                   ghost begin: State, ghost steps: seq<Step>) returns (ok: bool, ghost longer: seq<Step>)
      requires Valid() && i < |chapters| && Runnable(begin, steps) && Run(begin, steps) == state
      requires e in state.execs && state.execs[e] == Looping(chapters, existing, i, false) && state.owner == Some(e)
      modifies this
      ensures Valid() && Runnable(begin, longer) && Run(begin, longer) == state
      ensures ok <==> chapters[i] in existing || Harmless(faults, i)
      ensures e in state.execs && state.execs[e] == if ok then Looping(chapters, existing, i + 1, false) else Failed
      ensures state.owner == if ok then Some(e) else None
      ensures disk == old(disk) + if chapters[i] in existing || SavingFails(faults, i) then {} else {chapters[i]}
      ensures pulls == old(pulls) + if chapters[i] in existing || !Creates(faults, i) then multiset{} else multiset{chapters[i]}
    {
      hide Run, Runnable;
      var id := chapters[i];
      if id in existing {
        longer := Extend(begin, steps, state, Skip(e));
        state := Next(state, Skip(e));
        return true, longer;
      }
      var fault := if i in faults then faults[i] else NoFault;
      longer := Extend(begin, steps, state, Save(e, !fault.SaveFails?));
      SaveChapter(e, id, !fault.SaveFails?);
      if fault.SaveFails? {
        return false, longer;
      }
      var child := if fault.ChildFails? then fault.child else Scheduled;
      longer := Extend(begin, longer, state, Enqueue(e, child));
      EnqueueChild(e, id, child);
      ok := child.Scheduled?;
    }

    /** The locked part of HandlePullManga; `faults` says what fails at which chapter. */
    method HandlePullManga(ghost e: nat, chapters: seq<Id>, listFails: bool, faults: map<nat, Fault>)
      returns (ok: bool, ghost steps: seq<Step>)
      requires Valid() && e in state.execs && state.execs[e] == Locked(chapters) && state.owner == Some(e)
      modifies this
      ensures Valid() && Runnable(old(state), steps) && state == Run(old(state), steps)
      ensures e in state.execs && state.execs[e] == (if ok then Finished(chapters, old(disk)) else Failed)
      ensures listFails ==> !ok && disk == old(disk) && pulls == old(pulls)
      ensures !listFails ==>
                var n := Turns(chapters, old(disk), faults);
                && (ok <==> FirstFault(chapters, old(disk), faults, 0) == |chapters|)
                && disk == old(disk) + Saved(chapters, old(disk), faults, n)
                && pulls == old(pulls) + Created(chapters, old(disk), faults, n)
      ensures state.owner == None
    {
      hide Run, Runnable, FirstFault, Harmless, SavingFails, Creates, Next, Enabled, Saved, Created;
      ghost var begin := state;
      NoSteps(state);
      ListEffect(state, e, !listFails);
      steps := Extend(begin, [], state, List(e, !listFails));
      state := Next(state, List(e, !listFails));
      if listFails {
        return false, steps;
      }
      var existing := disk;
      SavedNone(chapters, existing, faults);
      var i := 0;
      while i < |chapters|
        invariant Valid() && i <= |chapters| && Runnable(begin, steps) && Run(begin, steps) == state
        invariant e in state.execs && state.execs[e] == Looping(chapters, existing, i, false) && state.owner == Some(e)
        invariant FirstFault(chapters, existing, faults, 0) == FirstFault(chapters, existing, faults, i)
        invariant disk == old(disk) + Saved(chapters, existing, faults, i)
        invariant pulls == old(pulls) + Created(chapters, existing, faults, i)
      {
        FaultHere(chapters, existing, faults, i);
        SavedStep(chapters, existing, faults, i);
        ok, steps := PullOne(e, chapters, existing, i, faults, begin, steps);
        if !ok {
          return;
        }
        i := i + 1;
      }
      FaultHere(chapters, existing, faults, i);
      FinishEffect(state, e);
      steps := Extend(begin, steps, state, Finish(e));
      state := Next(state, Finish(e));
      ok := true;
    }
  }
}
