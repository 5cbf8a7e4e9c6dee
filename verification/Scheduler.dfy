/** The SQLite job queue as a state machine: one step per statement, transaction or section under the poll lock. */
module Scheduler {
  import opened Options
  import opened Jobs
  import opened JobTree

  /** A claimed job as the poll scanned it; the goroutine keeps this copy until it is finalized. */
  datatype Exec = Exec(id: string, kind: string, payload: string, retries: int, maxRetries: int, group: string)

  datatype Config = Config(groupLimits: map<string, int>, maxConcurrency: int, handlers: set<string>)

  datatype State = State(
    jobs: Store,
    inFlight: seq<Exec>,
    runningCount: int,
    activeGroups: map<string, int>,
    cfg: Config)

  /** How a poll ends. `AbortedAt(k)` is a Scan or claim error at the k-th row: the transaction rolls back. */
  datatype PollEnd = NotStarted | AbortedAt(row: nat) | CommitFailed | Committed

  datatype Step =
    | Create(id: string, job: Job)
    | Enqueue(id: string, job: Job, now: Time)
    | Update(id: string, job: Job)
    | Delete(id: string)
    | Cancel(id: string, now: Time)
    | Prune(roots: set<string>)
    | Register(kind: string)
    | SetGroupLimit(group: string, limit: int)
    | Poll(rows: seq<string>, end: PollEnd, unwritten: set<string>, now: Time)
    | Finalize(k: nat, outcome: Outcome, written: bool, now: Time)

  // --- poll -------------------------------------------------------------------

  /** What a poll carries from row to row. */
  datatype Scan = Scan(jobs: Store, runningCount: int, activeGroups: map<string, int>, claimed: seq<Exec>, stopped: bool)

  /** Go's reading of a missing map key. */
  function Count(groups: map<string, int>, g: string): int {
    if g in groups then groups[g] else 0
  }

  predicate AtCapacity(cfg: Config, running: int) {
    cfg.maxConcurrency > 0 && running >= cfg.maxConcurrency
  }

  predicate Limited(cfg: Config, g: string) {
    g != "" && g in cfg.groupLimits && cfg.groupLimits[g] > 0
  }

  predicate GroupFull(cfg: Config, groups: map<string, int>, g: string) {
    Limited(cfg, g) && Count(groups, g) >= cfg.groupLimits[g]
  }

  function Snapshot(id: string, j: Job): Exec {
    Exec(id, j.kind, j.payload, j.retries, j.maxRetries, j.group)
  }

  function ClaimedRow(j: Job, now: Time): Job {
    j.(status := Running, startedAt := Some(now), updatedAt := now)
  }

  function UnhandledRow(j: Job, now: Time): Job {
    j.(status := Failed, error := "no handler registered for job type " + j.kind, updatedAt := now, completedAt := Some(now))
  }

  function Bump(groups: map<string, int>, g: string, delta: int): map<string, int> {
    if g == "" then groups else groups[g := Count(groups, g) + delta]
  }

  /** One turn of the row loop. `unwritten` are the ids whose unchecked "no handler" UPDATE fails. */
  function ScanRow(cfg: Config, unwritten: set<string>, now: Time, a: Scan, id: string): Scan {
    if a.stopped || id !in a.jobs then a
    else
      var j := a.jobs[id];
      if j.kind !in cfg.handlers then
        if id in unwritten then a else a.(jobs := a.jobs[id := UnhandledRow(j, now)])
      else if AtCapacity(cfg, a.runningCount) then a.(stopped := true)
      else if GroupFull(cfg, a.activeGroups, j.group) then a
      else a.(jobs := a.jobs[id := ClaimedRow(j, now)],
              runningCount := a.runningCount + 1,
              activeGroups := Bump(a.activeGroups, j.group, 1),
              claimed := a.claimed + [Snapshot(id, j)])
  }

  function ScanRows(cfg: Config, unwritten: set<string>, now: Time, a: Scan, rows: seq<string>): Scan
    decreases |rows|
  {
    if rows == [] then a
    else ScanRow(cfg, unwritten, now, ScanRows(cfg, unwritten, now, a, rows[..|rows| - 1]), rows[|rows| - 1])
  }

  function ScanStart(s: State): Scan {
    Scan(s.jobs, s.runningCount, s.activeGroups, [], false)
  }

  /** The scan of a poll's rows, as far as the poll gets. */
  function PollScan(s: State, rows: seq<string>, unwritten: set<string>, now: Time): Scan {
    ScanRows(s.cfg, unwritten, now, ScanStart(s), rows)
  }

  /** `rows` lists the pending jobs by creation time; rows created at the same time come in any order. */
  ghost predicate PendingByAge(jobs: Store, rows: seq<string>) {
    && (forall i, j :: 0 <= i < j < |rows| ==> rows[i] != rows[j])
    && (forall x :: x in rows <==> x in jobs && jobs[x].status.Pending?)
    && (forall i, j :: 0 <= i < j < |rows| && rows[i] in jobs && rows[j] in jobs ==>
          jobs[rows[i]].createdAt <= jobs[rows[j]].createdAt)
  }

  function AfterPoll(s: State, rows: seq<string>, end: PollEnd, unwritten: set<string>, now: Time): State
    requires end.AbortedAt? ==> end.row <= |rows|
  {
    if AtCapacity(s.cfg, s.runningCount) then s
    else match end
      case NotStarted => s
      case AbortedAt(k) =>
        var a := PollScan(s, rows[..k], unwritten, now);
        s.(runningCount := a.runningCount, activeGroups := a.activeGroups)
      case CommitFailed =>
        var a := PollScan(s, rows, unwritten, now);
        s.(runningCount := a.runningCount - |a.claimed|, activeGroups := ReleaseAll(a.activeGroups, a.claimed))
      case Committed =>
        var a := PollScan(s, rows, unwritten, now);
        s.(jobs := a.jobs, runningCount := a.runningCount, activeGroups := a.activeGroups, inFlight := s.inFlight + a.claimed)
  }

  function ReleaseAll(groups: map<string, int>, claimed: seq<Exec>): map<string, int> {
    if claimed == [] then groups
    else Bump(ReleaseAll(groups, claimed[..|claimed| - 1]), claimed[|claimed| - 1].group, -1)
  }

  // --- finalize ---------------------------------------------------------------

  /** The row a finished execution writes, if its row still says running. */
  function FinalRow(j: Job, e: Exec, outcome: Outcome, now: Time): Job {
    if !j.status.Running? then j
    else match outcome
      case Succeeded => j.(status := Completed, updatedAt := now, completedAt := Some(now))
      case PermanentError(text) =>
        j.(status := Failed, retries := e.retries + 1, error := text, updatedAt := now, completedAt := Some(now))
      case TransientError(text) =>
        if e.retries + 1 >= e.maxRetries
        then j.(status := Failed, retries := e.retries + 1, error := text, updatedAt := now, completedAt := Some(now))
        else j.(status := Pending, retries := e.retries + 1, updatedAt := now)
  }

  function Without<T>(s: seq<T>, k: nat): seq<T>
    requires k < |s|
  {
    s[..k] + s[k + 1..]
  }

  function AfterFinalize(s: State, k: nat, outcome: Outcome, written: bool, now: Time): State
    requires k < |s.inFlight|
  {
    var e := s.inFlight[k];
    s.(jobs := if written && e.id in s.jobs then s.jobs[e.id := FinalRow(s.jobs[e.id], e, outcome, now)] else s.jobs,
       runningCount := s.runningCount - 1,
       activeGroups := Bump(s.activeGroups, e.group, -1),
       inFlight := Without(s.inFlight, k))
  }

  // --- all steps --------------------------------------------------------------

  function EnqueuedRow(j: Job, now: Time): Job {
    j.(status := Pending, updatedAt := now, error := "")
  }

  /** A job object handed to Enqueue that is not stored yet. */
  function FreshRow(job: Job, now: Time): Job {
    job.(status := Pending, updatedAt := now, createdAt := now)
  }

  /** The recursive queries only return on acyclic links, and a poll sees the pending rows in order. */
  ghost predicate Enabled(s: State, t: Step) {
    match t
    case Delete(id) => !OnCycle(s.jobs, id)
    case Cancel(id, _) => !OnCycle(s.jobs, id)
    case Prune(roots) => forall r :: r in roots ==> !OnCycle(s.jobs, r)
    case Poll(rows, end, unwritten, now) =>
      && PendingByAge(s.jobs, rows)
      && (end.AbortedAt? ==> end.row < |rows| && !PollScan(s, rows[..end.row], unwritten, now).stopped)
    case Finalize(k, _, _, _) => k < |s.inFlight|
    case _ => true
  }

  ghost function Next(s: State, t: Step): State
    requires Enabled(s, t)
  {
    match t
    case Create(id, job) => if id in s.jobs then s else s.(jobs := s.jobs[id := job])
    case Enqueue(id, job, now) =>
      s.(jobs := s.jobs[id := if id in s.jobs then EnqueuedRow(s.jobs[id], now) else FreshRow(job, now)])
    case Update(id, job) => if id in s.jobs then s.(jobs := s.jobs[id := job]) else s
    case Delete(id) => s.(jobs := s.jobs - (if id in s.jobs then Tree(s.jobs, id) else {}))
    case Cancel(id, now) => if id in s.jobs then s.(jobs := CancelRows(s.jobs, Tree(s.jobs, id), now)) else s
    case Prune(roots) => s.(jobs := s.jobs - Doomed(s.jobs, roots))
    case Register(kind) => s.(cfg := s.cfg.(handlers := s.cfg.handlers + {kind}))
    case SetGroupLimit(g, limit) => s.(cfg := s.cfg.(groupLimits := s.cfg.groupLimits[g := limit]))
    case Poll(rows, end, unwritten, now) => AfterPoll(s, rows, end, unwritten, now)
    case Finalize(k, outcome, written, now) => AfterFinalize(s, k, outcome, written, now)
  }

  ghost predicate Runnable(s: State, steps: seq<Step>)
    decreases |steps|
  {
    steps == [] || (Enabled(s, steps[0]) && Runnable(Next(s, steps[0]), steps[1..]))
  }

  ghost function Run(s: State, steps: seq<Step>): State
    requires Runnable(s, steps)
    decreases |steps|
  {
    if steps == [] then s else Run(Next(s, steps[0]), steps[1..])
  }

  /** A driver that has just been opened on a stored table. */
  predicate Fresh(s: State) {
    s.inFlight == [] && s.runningCount == 0 && s.activeGroups == map[]
  }

  // --- counting ---------------------------------------------------------------

  /** The executions whose claim-time group is g. */
  function InGroup(execs: seq<Exec>, g: string): nat {
    if execs == [] then 0
    else InGroup(execs[..|execs| - 1], g) + if execs[|execs| - 1].group == g then 1 else 0
  }

  lemma {:induction false} InGroupConcat(a: seq<Exec>, b: seq<Exec>, g: string)
    ensures InGroup(a + b, g) == InGroup(a, g) + InGroup(b, g)
    decreases |b|
  {
    if b == [] {
      assert a + b == a;
    } else {
      assert (a + b)[..|a + b| - 1] == a + b[..|b| - 1];
      InGroupConcat(a, b[..|b| - 1], g);
    }
  }

  lemma InGroupWithout(s: seq<Exec>, k: nat, g: string)
    requires k < |s|
    ensures InGroup(s, g) == InGroup(Without(s, k), g) + if s[k].group == g then 1 else 0
  {
    assert s == s[..k] + [s[k]] + s[k + 1..];
    InGroupConcat(s[..k] + [s[k]], s[k + 1..], g);
    InGroupConcat(s[..k], [s[k]], g);
    InGroupConcat(s[..k], s[k + 1..], g);
    assert [s[k]][..0] == [];
  }
}
