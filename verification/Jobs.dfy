/** The job record shared by both queue drivers, and the store that holds the rows. */
module Jobs {
  import opened Options

  /** Instants are naturals; 0 is Go's zero time. */
  type Time = nat

  /** `Other` covers the status strings a caller may store beside the four named ones. */
  datatype Status = Pending | Running | Completed | Failed | Other(text: string)

  /** A row without its id, which is the key of the store. `error` is "" for NULL. */
  datatype Job = Job(
    parent: Option<string>,
    kind: string,
    payload: string,
    status: Status,
    retries: int,
    maxRetries: int,
    group: string,
    error: string,
    metadata: map<string, string>,
    createdAt: Time,
    updatedAt: Time,
    startedAt: Option<Time>,
    completedAt: Option<Time>)

  /** How a handler run ends. A panic, a missing row and a missing handler are transient errors. */
  datatype Outcome = Succeeded | TransientError(text: string) | PermanentError(text: string)

  type Store = map<string, Job>

  function Elems<T>(s: seq<T>): set<T> {
    set x | x in s
  }

  predicate Active(j: Job) {
    j.status.Pending? || j.status.Running?
  }

  /** COALESCE(completed_at, updated_at). */
  function FinishedAt(j: Job): Time {
    if j.completedAt.Some? then j.completedAt.value else j.updatedAt
  }

  function CancelledRow(j: Job, now: Time): Job {
    if Active(j)
    then j.(status := Failed, error := "job cancelled by user", updatedAt := now, completedAt := Some(now))
    else j
  }

  /** The rows of `ids` cancelled, all others as they were. */
  function CancelRows(jobs: Store, ids: set<string>, now: Time): Store {
    map x | x in jobs :: if x in ids then CancelledRow(jobs[x], now) else jobs[x]
  }
}
