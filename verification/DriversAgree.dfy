/** Where the two queue drivers, written quite differently, do the same to a job or to the whole store. */
module DriversAgree {
  import opened Jobs
  import opened JobTree
  import opened Retention
  import InMemoryDriver
  import Lifecycle
  import Memory = MemoryQueue
  import Sql = Scheduler
  import SqliteDriver

  /**
   * The SQLite driver settles a run by the counts it was claimed with, the in-memory one by those of the job
   * object. But for the update time the results are the same exactly when the run succeeded or the retries
   * are, and for a transient error the verdict on another retry is.
   */
  lemma SettlingAgrees(j: Job, e: Sql.Exec, outcome: Outcome, now: Time)
    requires j.status.Running?
    ensures Sql.FinalRow(j, e, outcome, now) == Memory.SettleRow(j, outcome, now).(updatedAt := now)
            <==> outcome.Succeeded?
                 || (e.retries == j.retries
                     && (outcome.TransientError? ==> (e.retries + 1 < e.maxRetries <==> Memory.Again(j, outcome))))
  {
  }

  /** Both write the same for a job they claim, and for one that has no handler. */
  lemma ClaimingAgrees(j: Job, now: Time)
    ensures Memory.StartedRow(j, now).(updatedAt := now) == Sql.ClaimedRow(j, now)
    ensures Memory.UnhandledRow(j, now).(updatedAt := now) == Sql.UnhandledRow(j, now)
  {
  }

  /** How often a pending job runs in the in-memory driver if every run ends with a transient error. */
  function Runs(j: Job): nat
    requires j.status.Pending?
    decreases j.maxRetries - j.retries
  {
    var running, error := j.(status := Running), TransientError("error");
    1 + if Memory.Again(running, error) then Runs(Memory.RequeueRow(Memory.SettleRow(running, error, 0))) else 0
  }

  /** That is the number of claims by which the SQLite driver's retries are bounded. */
  lemma {:induction false} RunsAgree(jobs: Store, id: string)
    requires id in jobs && jobs[id].status.Pending?
    ensures Runs(jobs[id]) == Lifecycle.Weight(jobs, id)
    decreases jobs[id].maxRetries - jobs[id].retries
  {
    var running, error := jobs[id].(status := Running), TransientError("error");
    if Memory.Again(running, error) {
      RunsAgree(jobs[id := Memory.RequeueRow(Memory.SettleRow(running, error, 0))], id);
    }
  }

  /** The same table cleaned up by both drivers, each meeting the roots in an order of its own. */
  method CleanUpBoth(table: Store, completedCutoff: Time, failedCutoff: Time, batchSize: int,
                     inMemory: seq<string>, inTable: seq<string>) returns (left: Store, kept: Store)
    requires RootsApart(table) && RootsOffCycles(table) && ListsRoots(table, inMemory) && ListsRoots(table, inTable)
    ensures BatchLimit(batchSize) >= |ExpiredRoots(table, completedCutoff, failedCutoff)| ==>
              left == kept == table - Forest(table, ExpiredRoots(table, completedCutoff, failedCutoff))
  {
    var memory := new InMemoryDriver.Driver(table, {});
    var m, a := memory.CleanupJobs(completedCutoff, failedCutoff, batchSize, inMemory);
    var sqlite := new SqliteDriver.Driver(table, 0);
    var n, err, b := sqlite.CleanupJobs(completedCutoff, failedCutoff, batchSize, inTable, true);
    left, kept := memory.jobs, sqlite.jobs;
    if BatchLimit(batchSize) >= |ExpiredRoots(table, completedCutoff, failedCutoff)| {
      CleanupsAgree(table, a, completedCutoff, failedCutoff, batchSize);
      CleanupsAgree(table, b, completedCutoff, failedCutoff, batchSize);
    }
  }

  /** A job deleted by both drivers from the same table; on a cycle the query of the SQLite driver does not end. */
  method DeleteInBoth(table: Store, id: string) returns (left: Store, kept: Store)
    requires !OnCycle(table, id)
    ensures left == kept == table - set x | x in table && id in table && Under(table, x, id)
  {
    hide Under, OnCycle;
    var memory := new InMemoryDriver.Driver(table, {});
    var _ := memory.DeleteJob(id);
    var sqlite := new SqliteDriver.Driver(table, 0);
    var _ := sqlite.DeleteJob(id);
    left, kept := memory.jobs, sqlite.jobs;
  }

  /** And a job cancelled by both. */
  method CancelInBoth(table: Store, id: string, now: Time) returns (left: Store, kept: Store)
    requires !OnCycle(table, id)
    ensures left == kept
  {
    hide Under, OnCycle;
    var memory := new InMemoryDriver.Driver(table, {});
    var _ := memory.CancelJob(id, now);
    var sqlite := new SqliteDriver.Driver(table, 0);
    var _ := sqlite.CancelJob(id, now);
    left, kept := memory.jobs, sqlite.jobs;
  }
}
