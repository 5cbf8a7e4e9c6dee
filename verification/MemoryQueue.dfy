/** The in-memory job queue as a state machine: one step per section under its lock, with the job objects workers hold. */
module MemoryQueue {
  import opened Options
  import opened Jobs
  import opened JobTree

  /** How the send to the worker's channel ends. */
  datatype Send = Taken | StoppedMeanwhile | ContextDone

  /** How far processJob has come with the job object it looked up. */
  datatype Phase = Fetched | Checked | Unhandled | Ready | Handling | Retrying

  /** `at` is None while the store still holds the worker's object; else it names the object among the loose ones. */
  datatype Worker = Worker(id: string, at: Option<nat>, phase: Phase)

  /**
   * `loose` are the job objects that an update or deletion took out of the store, by the number of that step and
   * the id. Workers that hold the same object still share it there.
   */
  datatype State = State(
    jobs: Store,
    loose: map<(nat, string), Job>,
    version: nat,
    workers: map<nat, Worker>,
    channel: seq<string>,
    handlers: set<string>,
    stopped: bool)

  datatype Step =
    | Create(id: string, job: Job)
    | Update(id: string, job: Job)
    | Enqueue(id: string, job: Job, send: Send)
    | Delete(id: string)
    | Cancel(id: string, now: Time)
    | Prune(roots: set<string>)
    | Register(kind: string)
    | Stop
    | Take(w: nat)
    | CheckStatus(w: nat)
    | FindHandler(w: nat)
    | FailUnhandled(w: nat, now: Time)
    | Claim(w: nat, now: Time)
    | Settle(w: nat, outcome: Outcome, now: Time)
    | Reenqueue(w: nat, send: Send)

  // ----- Rows -----

  predicate Finished(j: Job) {
    j.status.Failed? || j.status.Completed?
  }

  function UnhandledRow(j: Job, now: Time): Job {
    j.(status := Failed, error := "no handler registered for job type " + j.kind, completedAt := Some(now))
  }

  function StartedRow(j: Job, now: Time): Job {
    j.(status := Running, startedAt := Some(now))
  }

  /** A job after its handler returned: only a running one changes. */
  function SettleRow(j: Job, outcome: Outcome, now: Time): (r: Job)
    ensures r != j ==> j.status.Running?
    ensures j.status.Running? ==> !r.status.Running? && r.retries == j.retries + if outcome.Succeeded? then 0 else 1
    ensures r == j.(status := r.status, retries := r.retries, error := r.error, completedAt := r.completedAt)
  {
    if !j.status.Running? then j
    else match outcome
      case Succeeded => j.(status := Completed, completedAt := Some(now))
      case PermanentError(text) =>
        j.(retries := j.retries + 1, status := Failed, error := text, completedAt := Some(now))
      case TransientError(text) =>
        if j.retries + 1 >= j.maxRetries
        then j.(retries := j.retries + 1, status := Failed, error := text, completedAt := Some(now))
        else j.(retries := j.retries + 1, status := Pending)
  }

  /** The run asks to be enqueued again. */
  predicate Again(j: Job, outcome: Outcome) {
    j.status.Running? && outcome.TransientError? && j.retries + 1 < j.maxRetries
  }

  function RequeueRow(j: Job): Job {
    j.(status := Pending)
  }

  // ----- Objects -----

  predicate Holds(s: State, w: nat, phase: Phase) {
    w in s.workers && s.workers[w].phase == phase && Present(s, s.workers[w])
  }

  predicate Present(s: State, k: Worker) {
    if k.at == None then k.id in s.jobs else (k.at.value, k.id) in s.loose
  }

  function Object(s: State, k: Worker): Job
    requires Present(s, k)
  {
    if k.at == None then s.jobs[k.id] else s.loose[(k.at.value, k.id)]
  }

  function Write(s: State, k: Worker, row: Job): State {
    if k.at == None then s.(jobs := s.jobs[k.id := row]) else s.(loose := s.loose[(k.at.value, k.id) := row])
  }

  /** The worker is done with its job, or goes on to the next phase. */
  function Idle(s: State, w: nat): State {
    s.(workers := s.workers - {w})
  }

  function GoOn(s: State, w: nat, phase: Phase): State
    requires w in s.workers
  {
    s.(workers := s.workers[w := s.workers[w].(phase := phase)])
  }

  /** Rows leave the store; their objects live on for the workers that hold them. */
  function Detach(s: State, gone: set<string>): State {
    s.(jobs := s.jobs - gone,
       loose := s.loose + LooseObjects(s.version, s.jobs, gone),
       version := s.version + 1,
       workers := Detached(s.workers, s.version, gone))
  }

  function LooseObjects(version: nat, jobs: Store, gone: set<string>): map<(nat, string), Job> {
    map k | k in (set x | x in gone && x in jobs :: (version, x)) && k.1 in jobs :: jobs[k.1]
  }

  function Detached(workers: map<nat, Worker>, version: nat, gone: set<string>): map<nat, Worker> {
    map w | w in workers ::
      if workers[w].at == None && workers[w].id in gone then workers[w].(at := Some(version)) else workers[w]
  }

  /** Enqueue, called by a client or by a worker for the object `job`. */
  function Enqueued(s: State, id: string, job: Job, send: Send): State {
    if s.stopped then s
    else s.(jobs := s.jobs[id := RequeueRow(if id in s.jobs then s.jobs[id] else job)],
            channel := if send.Taken? then s.channel + [id] else s.channel)
  }

  // ----- Steps -----

  predicate Enabled(s: State, t: Step) {
    match t
    case Take(w) => w !in s.workers && s.channel != []
    case CheckStatus(w) => Holds(s, w, Fetched)
    case FindHandler(w) => Holds(s, w, Checked)
    case FailUnhandled(w, _) => Holds(s, w, Unhandled)
    case Claim(w, _) => Holds(s, w, Ready)
    case Settle(w, _, _) => Holds(s, w, Handling)
    case Reenqueue(w, _) => Holds(s, w, Retrying)
    case _ => true
  }

  ghost function Next(s: State, t: Step): State
    requires Enabled(s, t)
  {
    match t
    case Create(id, job) => if id in s.jobs then s else s.(jobs := s.jobs[id := job])
    case Update(id, job) =>
      if id !in s.jobs then s else var d := Detach(s, {id}); d.(jobs := d.jobs[id := job])
    case Enqueue(id, job, send) => Enqueued(s, id, job, send)
    case Delete(id) => if id in s.jobs then Detach(s, Tree(s.jobs, id)) else s
    case Cancel(id, now) => if id in s.jobs then s.(jobs := CancelRows(s.jobs, Tree(s.jobs, id), now)) else s
    case Prune(roots) => Detach(s, Forest(s.jobs, roots))
    case Register(kind) => s.(handlers := s.handlers + {kind})
    case Stop => s.(stopped := true)
    case Take(w) =>
      var n := s.(channel := s.channel[1..]);
      if s.channel[0] in s.jobs then n.(workers := s.workers[w := Worker(s.channel[0], None, Fetched)]) else n
    case CheckStatus(w) => if Finished(Object(s, s.workers[w])) then Idle(s, w) else GoOn(s, w, Checked)
    case FindHandler(w) => GoOn(s, w, if Object(s, s.workers[w]).kind in s.handlers then Ready else Unhandled)
    case FailUnhandled(w, now) =>
      var j := Object(s, s.workers[w]);
      Idle(if Finished(j) then s else Write(s, s.workers[w], UnhandledRow(j, now)), w)
    case Claim(w, now) =>
      var j := Object(s, s.workers[w]);
      if j.status.Pending? then GoOn(Write(s, s.workers[w], StartedRow(j, now)), w, Handling) else Idle(s, w)
    case Settle(w, outcome, now) =>
      var j := Object(s, s.workers[w]);
      var n := Write(s, s.workers[w], SettleRow(j, outcome, now));
      if Again(j, outcome) then GoOn(n, w, Retrying) else Idle(n, w)
    case Reenqueue(w, send) => Enqueued(Idle(s, w), s.workers[w].id, Object(s, s.workers[w]), send)
  }

  ghost predicate Runnable(s: State, steps: seq<Step>)
    decreases |steps|
  {
    steps == [] || (Enabled(s, steps[0]) && Runnable(Next(s, steps[0]), steps[1..]))
  }

  ghost function Run(s: State, steps: seq<Step>): State
    requires Runnable(s, steps)
    decreases |steps|
  {
    if steps == [] then s else Run(Next(s, steps[0]), steps[1..])
  }

  // ----- Every worker keeps its object -----

  /** Each worker's object is in the store or loose, and no loose object is from the future. */
  predicate Valid(s: State) {
    && (forall w :: w in s.workers ==> Present(s, s.workers[w]))
    && (forall k :: k in s.loose ==> k.0 < s.version)
  }

  lemma DetachKeepsObjects(s: State, gone: set<string>, w: nat)
    requires Valid(s) && w in s.workers
    ensures var n := Detach(s, gone);
            w in n.workers && Present(n, n.workers[w]) && Object(n, n.workers[w]) == Object(s, s.workers[w])
            && n.workers[w].id == s.workers[w].id && n.workers[w].phase == s.workers[w].phase
            && (n.workers[w].at == None <==> s.workers[w].at == None && s.workers[w].id !in gone)
  {
    var k := s.workers[w];
    if k.at == None && k.id in gone {
      assert (s.version, k.id) in (set x | x in gone && x in s.jobs :: (s.version, x));
    } else if k.at.Some? {
      assert (k.at.value, k.id) in s.loose && k.at.value < s.version;
    }
  }

  lemma DetachStaysValid(s: State, gone: set<string>)
    requires Valid(s)
    ensures Valid(Detach(s, gone))
  {
    forall w | w in s.workers ensures Present(Detach(s, gone), Detach(s, gone).workers[w]) {
      DetachKeepsObjects(s, gone, w);
    }
  }

  lemma WriteStaysValid(s: State, k: Worker, row: Job)
    requires Valid(s) && Present(s, k)
    ensures Valid(Write(s, k, row))
  {
  }

  /** No step takes an object away from a worker that holds it. */
  lemma ObjectsStay(s: State, t: Step)
    requires Valid(s) && Enabled(s, t)
    ensures Valid(Next(s, t))
  {
    hide Detach, Write, Tree, Forest, CancelRows, UnhandledRow, StartedRow, SettleRow, RequeueRow;
    match t
    case Update(id, _) => DetachStaysValid(s, {id});
    case Delete(id) => DetachStaysValid(s, Tree(s.jobs, id));
    case Prune(roots) => DetachStaysValid(s, Forest(s.jobs, roots));
    case Cancel(id, now) => CancelKeepsKeys(s.jobs, Tree(s.jobs, id), now);
    case FailUnhandled(_, _) => ObjectsStayInWrite(s, t);
    case Claim(_, _) => ObjectsStayInWrite(s, t);
    case Settle(_, _, _) => ObjectsStayInWrite(s, t);
    case _ =>
  }

  lemma ObjectsStayInWrite(s: State, t: Step)
    requires Valid(s) && Enabled(s, t) && (t.FailUnhandled? || t.Claim? || t.Settle?)
    ensures Valid(Next(s, t))
  {
    hide Detach, Write, Tree, Forest, CancelRows, UnhandledRow, StartedRow, SettleRow, RequeueRow;
    match t
    case FailUnhandled(w, now) => WriteStaysValid(s, s.workers[w], UnhandledRow(Object(s, s.workers[w]), now));
    case Claim(w, now) =>
      WriteStaysValid(s, s.workers[w], StartedRow(Object(s, s.workers[w]), now));
      WriteKeepsWorkers(s, w);
    case Settle(w, outcome, now) =>
      WriteStaysValid(s, s.workers[w], SettleRow(Object(s, s.workers[w]), outcome, now));
      WriteKeepsWorkers(s, w);
  }

  lemma WriteKeepsWorkers(s: State, w: nat)
    requires w in s.workers
    ensures forall row :: Write(s, s.workers[w], row).workers == s.workers
  {
  }

  lemma CancelKeepsKeys(jobs: Store, ids: set<string>, now: Time)
    ensures CancelRows(jobs, ids, now).Keys == jobs.Keys
  {
  }

  /** An update or deletion does not change the object a worker holds; only a later look at the store would. */
  lemma RunSeesItsOwnObject(s: State, t: Step, w: nat)
    requires Valid(s) && w in s.workers && (t.Update? || t.Delete? || t.Prune?)
    ensures var n := Next(s, t);
            w in n.workers && Present(n, n.workers[w]) && Object(n, n.workers[w]) == Object(s, s.workers[w])
            && n.workers[w].phase == s.workers[w].phase
  {
    match t
    case Update(id, _) => DetachKeepsObjects(s, {id}, w);
    case Delete(id) => DetachKeepsObjects(s, Tree(s.jobs, id), w);
    case Prune(roots) => DetachKeepsObjects(s, Forest(s.jobs, roots), w);
  }
}
