/** When a cancelled or deleted job stays so in the in-memory queue, over all its runs. */
module MemoryRuns {
  import opened Options
  import opened Jobs
  import opened JobTree
  import opened MemoryQueue
  import opened InMemoryDriver

  // ----- A finished row -----

  /** The row has been deleted or is still as it was. */
  predicate Stays(s: State, x: string, row: Job) {
    x in s.jobs ==> s.jobs[x] == row
  }

  /** The step stores another row under the id: a client does, or a retrying worker whose driver still runs. */
  predicate Replaces(s: State, t: Step, x: string, row: Job) {
    match t
    case Create(id, job) => id == x && x !in s.jobs && job != row
    case Update(id, job) => id == x && x in s.jobs && job != row
    case Enqueue(id, _, _) => id == x && !s.stopped
    case Reenqueue(w, _) => w in s.workers && s.workers[w].id == x && !s.stopped
    case _ => false
  }

  /** A finished row stays in a step exactly when the step does not replace it. */
  lemma FinishedRowStep(s: State, t: Step, x: string, row: Job)
    requires Enabled(s, t) && Finished(row) && Stays(s, x, row)
    ensures Stays(Next(s, t), x, row) <==> !Replaces(s, t, x, row)
  {
    hide Tree, Forest;
  }

  ghost predicate StaysThroughout(s: State, steps: seq<Step>, x: string, row: Job)
    requires Runnable(s, steps)
    decreases |steps|
  {
    Stays(s, x, row) && (steps == [] || StaysThroughout(Next(s, steps[0]), steps[1..], x, row))
  }

  ghost predicate NeverReplaces(s: State, steps: seq<Step>, x: string, row: Job)
    requires Runnable(s, steps)
    decreases |steps|
  {
    steps == [] || (!Replaces(s, steps[0], x, row) && NeverReplaces(Next(s, steps[0]), steps[1..], x, row))
  }

  lemma StaysNow(s: State, steps: seq<Step>, x: string, row: Job)
    requires Runnable(s, steps) && StaysThroughout(s, steps, x, row)
    ensures Stays(s, x, row)
  {
  }

  /** A finished row stays throughout a run exactly when no step of the run replaces it. */
  lemma {:induction false} FinishedRowRun(s: State, steps: seq<Step>, x: string, row: Job)
    requires Runnable(s, steps) && Finished(row) && Stays(s, x, row)
    ensures StaysThroughout(s, steps, x, row) <==> NeverReplaces(s, steps, x, row)
    decreases |steps|
  {
    hide Next, Enabled, Stays, Replaces, Finished;
    if steps != [] {
      var n := Next(s, steps[0]);
      FinishedRowStep(s, steps[0], x, row);
      if Stays(n, x, row) {
        FinishedRowRun(n, steps[1..], x, row);
      } else if StaysThroughout(n, steps[1..], x, row) {
        StaysNow(n, steps[1..], x, row);
      }
    }
  }

  /**
   * Cancellation: what a cancel failed stays failed, or is deleted, throughout the rest of the run exactly when
   * no client replaces it and no worker re-enqueues it while the driver runs.
   */
  lemma CancelStaysIff(s: State, id: string, now: Time, steps: seq<Step>, x: string)
    requires id in s.jobs && x in Tree(s.jobs, id) && Active(s.jobs[x])
    requires Runnable(Next(s, Cancel(id, now)), steps)
    ensures var n, row := Next(s, Cancel(id, now)), CancelledRow(s.jobs[x], now);
            && n.jobs[x] == row && row.status.Failed?
            && (StaysThroughout(n, steps, x, row) <==> NeverReplaces(n, steps, x, row))
  {
    FinishedRowRun(Next(s, Cancel(id, now)), steps, x, CancelledRow(s.jobs[x], now));
  }

  // ----- A deleted row -----

  /** The step stores a row under an id that has none. */
  predicate Stores(s: State, t: Step, x: string) {
    match t
    case Create(id, _) => id == x
    case Enqueue(id, _, _) => id == x && !s.stopped
    case Reenqueue(w, _) => w in s.workers && s.workers[w].id == x && !s.stopped
    case _ => false
  }

  lemma AbsentRowStep(s: State, t: Step, x: string)
    requires Enabled(s, t) && x !in s.jobs && Valid(s)
    ensures x !in Next(s, t).jobs <==> !Stores(s, t, x)
  {
    hide Tree, Forest;
  }

  ghost predicate AbsentThroughout(s: State, steps: seq<Step>, x: string)
    requires Runnable(s, steps)
    decreases |steps|
  {
    x !in s.jobs && (steps == [] || AbsentThroughout(Next(s, steps[0]), steps[1..], x))
  }

  ghost predicate NeverStores(s: State, steps: seq<Step>, x: string)
    requires Runnable(s, steps)
    decreases |steps|
  {
    steps == [] || (!Stores(s, steps[0], x) && NeverStores(Next(s, steps[0]), steps[1..], x))
  }

  /** A deleted job stays away throughout a run exactly when no client and no retrying worker stores it again. */
  lemma {:induction false} DeletedRowRun(s: State, steps: seq<Step>, x: string)
    requires Runnable(s, steps) && Valid(s) && x !in s.jobs
    ensures AbsentThroughout(s, steps, x) <==> NeverStores(s, steps, x)
    decreases |steps|
  {
    if steps != [] {
      AbsentRowStep(s, steps[0], x);
      ObjectsStay(s, steps[0]);
      hide Next, Enabled, Stores, Valid;
      var n := Next(s, steps[0]);
      if x !in n.jobs {
        DeletedRowRun(n, steps[1..], x);
      }
    }
  }

  // ----- The window between a run and its retry -----

  /** The worker's retry, if it has one, after a Stop if there is one. */
  ghost function AfterRetry(s: State, w: nat, stop: bool, send: Send): State {
    var n := if stop then Next(s, Stop) else s;
    if Holds(n, w, Retrying) then Next(n, Reenqueue(w, send)) else n
  }

  lemma RetryEffect(s: State, w: nat, stop: bool, send: Send)
    requires w in s.workers ==> Holds(s, w, Retrying)
    ensures AfterRetry(s, w, stop, send).jobs
            == if w in s.workers && !s.stopped && !stop
               then var x := s.workers[w].id;
                    s.jobs[x := RequeueRow(if x in s.jobs then s.jobs[x] else Object(s, s.workers[w]))]
               else s.jobs
  {
  }

  /** Settling keeps the worker exactly for a retry, and no row but its own changes. */
  lemma SettleEffect(s: State, w: nat, outcome: Outcome, now: Time)
    requires Holds(s, w, Handling)
    ensures var k := s.workers[w];
            var n := Next(s, Settle(w, outcome, now));
            && n.stopped == s.stopped && n.jobs.Keys == s.jobs.Keys && n.version == s.version
            && n.jobs == (if k.at == None then s.jobs[k.id := SettleRow(s.jobs[k.id], outcome, now)] else s.jobs)
            && (w in n.workers <==> Again(Object(s, k), outcome))
            && (w in n.workers ==> Holds(n, w, Retrying) && n.workers[w] == k.(phase := Retrying)
                                   && Object(n, n.workers[w]) == SettleRow(Object(s, k), outcome, now))
  {
    hide SettleRow;
  }

  /** Cancelling leaves the workers and their loose objects, and no active row under the id. */
  lemma CancelEffect(s: State, x: string, now: Time)
    requires x in s.jobs
    ensures var n := Next(s, Cancel(x, now));
            && n == s.(jobs := n.jobs) && n.jobs.Keys == s.jobs.Keys && !Active(n.jobs[x])
  {
    UnderSelf(s.jobs, x);
    hide Under;
  }

  lemma DeleteEffect(s: State, x: string, w: nat)
    requires Valid(s) && x in s.jobs
    ensures var n := Next(s, Delete(x));
            && x !in n.jobs && n.stopped == s.stopped && n.workers.Keys == s.workers.Keys
            && (w in s.workers ==>
                  && Present(n, n.workers[w]) && Object(n, n.workers[w]) == Object(s, s.workers[w])
                  && n.workers[w].id == s.workers[w].id && n.workers[w].phase == s.workers[w].phase
                  && (s.workers[w].id == x ==> n.workers[w].at.Some?))
  {
    UnderSelf(s.jobs, x);
    if w in s.workers {
      DetachKeepsObjects(s, Tree(s.jobs, x), w);
    }
    hide Under;
  }

  /**
   * A cancel of a job whose handler is returning, before or after the run is settled, by a worker that holds the
   * stored object or one that an update replaced: the row ends active exactly when the run asks for a retry and
   * the driver is not stopped before that.
   */
  lemma CancelBeforeRetry(s: State, w: nat, outcome: Outcome, now: Time, cancelAt: Time, early: bool, stop: bool, send: Send)
    requires Holds(s, w, Handling) && s.workers[w].id in s.jobs
    ensures var cancel := Cancel(s.workers[w].id, cancelAt);
            early ==> Holds(Next(s, cancel), w, Handling) && Next(s, cancel).workers == s.workers
    ensures var x := s.workers[w].id;
            var cancel := Cancel(x, cancelAt);
            var seen := Object(if early then Next(s, cancel) else s, s.workers[w]);
            var settled := if early then Next(Next(s, cancel), Settle(w, outcome, now))
                           else Next(Next(s, Settle(w, outcome, now)), cancel);
            var end := AfterRetry(settled, w, stop, send);
            && x in end.jobs
            && (Active(end.jobs[x]) <==> Again(seen, outcome) && !s.stopped && !stop)
  {
    var x := s.workers[w].id;
    CancelEffect(s, x, cancelAt);
    var before := if early then Next(s, Cancel(x, cancelAt)) else s;
    SettleEffect(before, w, outcome, now);
    var after := Next(before, Settle(w, outcome, now));
    if !early {
      CancelEffect(after, x, cancelAt);
    }
    var settled := if early then after else Next(after, Cancel(x, cancelAt));
    hide Next, AfterRetry, SettleRow;
    RetryEffect(settled, w, stop, send);
    if early && s.workers[w].at == None {
      SettledInactive(before.jobs[x], outcome, now);
    }
  }

  lemma SettledInactive(j: Job, outcome: Outcome, now: Time)
    requires !Active(j)
    ensures SettleRow(j, outcome, now) == j && !Again(j, outcome)
  {
  }

  /** A deletion in the same place: the job is stored again, as pending, exactly under the same condition. */
  lemma DeleteBeforeRetry(s: State, w: nat, outcome: Outcome, now: Time, early: bool, stop: bool, send: Send)
    requires Valid(s) && Holds(s, w, Handling) && s.workers[w].id in s.jobs
    ensures Holds(Next(s, Delete(s.workers[w].id)), w, Handling)
    ensures var x := s.workers[w].id;
            var settled := if early then Next(Next(s, Delete(x)), Settle(w, outcome, now))
                           else Next(Next(s, Settle(w, outcome, now)), Delete(x));
            var end := AfterRetry(settled, w, stop, send);
            && (x in end.jobs <==> Again(Object(s, s.workers[w]), outcome) && !s.stopped && !stop)
            && (x in end.jobs ==> end.jobs[x].status.Pending?)
  {
    var x := s.workers[w].id;
    DeleteEffect(s, x, w);
    var before := if early then Next(s, Delete(x)) else s;
    SettleEffect(before, w, outcome, now);
    var after := Next(before, Settle(w, outcome, now));
    if !early {
      ObjectsStay(s, Settle(w, outcome, now));
      DeleteEffect(after, x, w);
    }
    var settled := if early then after else Next(after, Delete(x));
    hide Next, AfterRetry, SettleRow, Valid;
    RetryEffect(settled, w, stop, send);
  }

  /** The end of processJob on the driver, with a cancel before or after the settling and perhaps a stop. */
  method CancelledRun(d: Driver, w: nat, handleErr: Outcome, now: Time, cancelAt: Time, early: bool, stop: bool, send: Send)
    returns (again: bool)
    requires Holds(d.Abs(), w, Handling) && d.workers[w].id in d.jobs
    modifies d
    ensures var x := old(d.workers)[w].id;
            x in d.jobs && (Active(d.jobs[x]) <==> again && !old(d.stopped) && !stop)
    ensures var k := old(d.workers)[w];
            again <==> Again(Object(old(d.Abs()), k), handleErr) && !(early && k.at == None)
  {
    hide Next, SettleRow, Enqueued, Tree, Write, CancelRows, Object, Again, Active;
    ghost var s := d.Abs();
    var x := d.workers[w].id;
    CancelBeforeRetry(s, w, handleErr, now, cancelAt, early, stop, send);
    SeenAfterCancel(s, w, handleErr, cancelAt);
    CancelEffect(s, x, cancelAt);
    if early {
      var _ := d.CancelJob(x, cancelAt);
    }
    SettleEffect(d.Abs(), w, handleErr, now);
    again := d.SettleJob(w, handleErr, now);
    if !early {
      CancelEffect(d.Abs(), x, cancelAt);
      var _ := d.CancelJob(x, cancelAt);
    }
    StopEffect(d.Abs());
    if stop {
      d.Stop();
    }
    if again {
      d.ReenqueueJob(w, send);
    }
  }

  /** A cancel reaches the run of a worker that holds the stored object, and no other. */
  lemma SeenAfterCancel(s: State, w: nat, outcome: Outcome, cancelAt: Time)
    requires Holds(s, w, Handling) && s.workers[w].id in s.jobs
    ensures var n := Next(s, Cancel(s.workers[w].id, cancelAt));
            && Present(n, s.workers[w])
            && (Again(Object(n, s.workers[w]), outcome) <==> Again(Object(s, s.workers[w]), outcome) && s.workers[w].at.Some?)
  {
    CancelEffect(s, s.workers[w].id, cancelAt);
    hide Next;
  }

  lemma StopEffect(s: State)
    ensures Next(s, Stop) == s.(stopped := true)
  {
  }

  /** The same with a deletion. */
  method DeletedRun(d: Driver, w: nat, handleErr: Outcome, now: Time, early: bool, stop: bool, send: Send)
    returns (again: bool)
    requires Valid(d.Abs()) && Holds(d.Abs(), w, Handling) && d.workers[w].id in d.jobs
    modifies d
    ensures old(d.workers)[w].id in d.jobs <==> again && !old(d.stopped) && !stop
    ensures again <==> Again(Object(old(d.Abs()), old(d.workers)[w]), handleErr)
  {
    hide Next, SettleRow, Enqueued, Valid, Tree, Write;
    ghost var s := d.Abs();
    var x := d.workers[w].id;
    DeleteBeforeRetry(s, w, handleErr, now, early, stop, send);
    DeleteEffect(s, x, w);
    if early {
      var _ := d.DeleteJob(x);
    }
    SettleEffect(d.Abs(), w, handleErr, now);
    ghost var start := d.Abs();
    again := d.SettleJob(w, handleErr, now);
    if !early {
      ObjectsStay(start, Settle(w, handleErr, now));
      DeleteEffect(d.Abs(), x, w);
      var _ := d.DeleteJob(x);
    }
    StopEffect(d.Abs());
    if stop {
      d.Stop();
    }
    if again {
      d.ReenqueueJob(w, send);
    }
  }

  /** One worker whose handler runs the only job, a first attempt of two. */
  function Working(j: Job): State {
    State(map["a" := j.(status := Running, retries := 0, maxRetries := 2)], map[], 0,
          map[0 := Worker("a", None, Handling)], [], {}, false)
  }

  /** A cancel between the failed attempt and its retry is lost, unless the driver is stopped first. */
  lemma CancelLostInWindow(j: Job, send: Send)
    ensures var settled := Next(Working(j), Settle(0, TransientError("e"), 1));
            var cancelled := Next(settled, Cancel("a", 2));
            && cancelled.jobs["a"].status.Failed?
            && Active(AfterRetry(cancelled, 0, false, send).jobs["a"])
            && !Active(AfterRetry(cancelled, 0, true, send).jobs["a"])
  {
    hide Next, AfterRetry, CancelRows, Tree;
    CancelBeforeRetry(Working(j), 0, TransientError("e"), 1, 2, false, false, send);
    CancelBeforeRetry(Working(j), 0, TransientError("e"), 1, 2, false, true, send);
    SettleEffect(Working(j), 0, TransientError("e"), 1);
    CancelledIsFailed(Next(Working(j), Settle(0, TransientError("e"), 1)), "a", 2);
  }

  lemma CancelledIsFailed(s: State, x: string, now: Time)
    requires x in s.jobs && Active(s.jobs[x])
    ensures Next(s, Cancel(x, now)).jobs.Keys == s.jobs.Keys
    ensures Next(s, Cancel(x, now)).jobs[x].status.Failed?
  {
    UnderSelf(s.jobs, x);
    hide Under;
  }

  /** The same worker after an update replaced the stored object. */
  function Replaced(j: Job, other: Job): State {
    State(map["a" := other], map[(0, "a") := Working(j).jobs["a"]], 1, map[0 := Worker("a", Some(0), Handling)], [], {}, false)
  }

  lemma UpdateReplaces(j: Job, other: Job)
    ensures Next(Working(j), Update("a", other)) == Replaced(j, other)
  {
    var d := Detach(Working(j), {"a"});
    assert (0, "a") in (set x | x in {"a"} && x in Working(j).jobs :: (0, x));
    assert d.loose == map[(0, "a") := Working(j).jobs["a"]];
    assert d.jobs["a" := other] == map["a" := other];
    assert d.workers == map[0 := Worker("a", Some(0), Handling)];
  }

  /** Then a cancel is lost even while the handler still runs. */
  lemma CancelLostAfterUpdate(j: Job, other: Job, send: Send)
    ensures var cancelled := Next(Replaced(j, other), Cancel("a", 1));
            && "a" in cancelled.jobs && !Active(cancelled.jobs["a"])
            && Holds(cancelled, 0, Handling)
            && var end := AfterRetry(Next(cancelled, Settle(0, TransientError("e"), 2)), 0, false, send);
            "a" in end.jobs && Active(end.jobs["a"])
  {
    CancelEffect(Replaced(j, other), "a", 1);
    CancelBeforeRetry(Replaced(j, other), 0, TransientError("e"), 2, 1, true, false, send);
    hide AfterRetry, Next;
  }

  /** A job deleted while its handler runs is stored again by the retry, unless the driver is stopped first. */
  lemma DeletedJobComesBack(j: Job, send: Send)
    ensures var deleted := Next(Working(j), Delete("a"));
            && "a" !in deleted.jobs && Holds(deleted, 0, Handling)
            && var settled := Next(deleted, Settle(0, TransientError("e"), 1));
            && "a" in AfterRetry(settled, 0, false, send).jobs
            && "a" !in AfterRetry(settled, 0, true, send).jobs
  {
    DeleteEffect(Working(j), "a", 0);
    DeleteBeforeRetry(Working(j), 0, TransientError("e"), 1, true, false, send);
    DeleteBeforeRetry(Working(j), 0, TransientError("e"), 1, true, true, send);
  }
}
