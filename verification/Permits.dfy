/** The concurrency middleware: a counting channel whose permits travel with response bodies. */
module Permits {
  import opened Options

  /** Where a request stands. Closing twice leaves a body closed. */
  datatype Phase = Waiting | InTransport | BodyOpen | BodyClosed | Finished

  /** `held` is the number of values in the channel. */
  datatype State = State(maxConcurrent: nat, held: int, calls: map<nat, Phase>)

  datatype Step =
    | Arrive(c: nat)
    | Acquire(c: nat)
    | GiveUp(c: nat)
    | TransportFails(c: nat)
    | NoBody(c: nat)
    | ReturnBody(c: nat)
    | CloseBody(c: nat)

  predicate In(s: State, c: nat, p: Phase) {
    c in s.calls && s.calls[c] == p
  }

  predicate Enabled(s: State, t: Step) {
    match t
    case Arrive(c) => c !in s.calls
    case Acquire(c) => In(s, c, Waiting) && s.held < s.maxConcurrent
    case GiveUp(c) => In(s, c, Waiting)
    case TransportFails(c) => In(s, c, InTransport)
    case NoBody(c) => In(s, c, InTransport)
    case ReturnBody(c) => In(s, c, InTransport)
    case CloseBody(c) => In(s, c, BodyOpen) || In(s, c, BodyClosed)
  }

  /** The step receives from the channel: it gives a permit back. */
  predicate Releases(s: State, t: Step) {
    t.TransportFails? || t.NoBody? || (t.CloseBody? && In(s, t.c, BodyOpen))
  }

  function PhaseAfter(t: Step): Phase {
    match t
    case Arrive(_) => Waiting
    case Acquire(_) => InTransport
    case GiveUp(_) => Finished
    case TransportFails(_) => Finished
    case NoBody(_) => Finished
    case ReturnBody(_) => BodyOpen
    case CloseBody(_) => BodyClosed
  }

  function Next(s: State, t: Step): State
    requires Enabled(s, t)
  {
    s.(held := s.held + (if t.Acquire? then 1 else if Releases(s, t) then -1 else 0),
       calls := s.calls[t.c := PhaseAfter(t)])
  }

  predicate Runnable(s: State, steps: seq<Step>)
    decreases |steps|
  {
    steps == [] || (Enabled(s, steps[0]) && Runnable(Next(s, steps[0]), steps[1..]))
  }

  function Run(s: State, steps: seq<Step>): State
    requires Runnable(s, steps)
    decreases |steps|
  {
    if steps == [] then s else Run(Next(s, steps[0]), steps[1..])
  }

  predicate Holding(p: Phase) {
    p.InTransport? || p.BodyOpen?
  }

  /** The requests inside the wrapped round trip and those whose body is still open. */
  function Holders(s: State): set<nat> {
    set c | c in s.calls && Holding(s.calls[c])
  }

  predicate Conserved(s: State) {
    s.held == |Holders(s)| <= s.maxConcurrent
  }

  /** A release always finds a permit in the channel, so it never blocks. */
  lemma ReleaseNeverBlocks(s: State, t: Step)
    requires Conserved(s) && Enabled(s, t) && Releases(s, t)
    ensures s.held > 0
  {
    assert t.c in Holders(s);
  }

  lemma StepConserves(s: State, t: Step)
    requires Conserved(s) && Enabled(s, t)
    ensures Conserved(Next(s, t))
  {
    var n := Next(s, t);
    if Holding(n.calls[t.c]) {
      assert Holders(n) == Holders(s) + {t.c};
    } else {
      assert Holders(n) == Holders(s) - {t.c};
    }
  }

  function CountSteps(s: State, steps: seq<Step>, c: nat, releases: bool): nat
    requires Runnable(s, steps)
    decreases |steps|
  {
    if steps == [] then 0
    else
      (if steps[0].c == c && (if releases then Releases(s, steps[0]) else steps[0].Acquire?) then 1 else 0)
      + CountSteps(Next(s, steps[0]), steps[1..], c, releases)
  }

  /** How many permits a request may still take: one before it has acquired, none after. */
  function Fresh(s: State, c: nat): nat {
    if c !in s.calls || s.calls[c].Waiting? then 1 else 0
  }

  function Held(s: State, c: nat): nat {
    if c in s.calls && Holding(s.calls[c]) then 1 else 0
  }

  /**
   * Permit conservation over every interleaving: the permits held are the requests in transport plus the
   * open bodies, never more than the limit, and no request acquires twice or gives back more than it took,
   * however often its body is closed.
   */
  lemma {:induction false} PermitsConserved(s: State, steps: seq<Step>, c: nat)
    requires Conserved(s) && Runnable(s, steps)
    ensures Conserved(Run(s, steps))
    ensures Held(s, c) + CountSteps(s, steps, c, false) == Held(Run(s, steps), c) + CountSteps(s, steps, c, true)
    ensures CountSteps(s, steps, c, false) + Fresh(Run(s, steps), c) <= Fresh(s, c)
    decreases |steps|
  {
    if steps != [] {
      StepConserves(s, steps[0]);
      PermitsConserved(Next(s, steps[0]), steps[1..], c);
    }
  }

  /** A request that acquired and is over has released exactly once. */
  lemma ReleasedExactlyOnce(maxConcurrent: nat, steps: seq<Step>, c: nat)
    requires Runnable(State(maxConcurrent, 0, map[]), steps)
    ensures var s := State(maxConcurrent, 0, map[]);
            var acquired, released := CountSteps(s, steps, c, false), CountSteps(s, steps, c, true);
            && Conserved(Run(s, steps))
            && released <= acquired <= 1
            && (released == acquired <==> Held(Run(s, steps), c) == 0)
  {
    var s := State(maxConcurrent, 0, map[]);
    assert Holders(s) == {};
    PermitsConserved(s, steps, c);
  }

  /** The middleware's channel and the response bodies it has wrapped. */
  class Limiter {
    const maxConcurrent: nat
    var sem: int
    ghost var calls: map<nat, Phase>

    constructor (maxConcurrent: nat)
      ensures Abs() == State(maxConcurrent, 0, map[]) && Conserved(Abs())
    {
      this.maxConcurrent, sem, calls := maxConcurrent, 0, map[];
      new;
      assert Holders(Abs()) == {};
    }

    ghost function Abs(): State
      reads this
    {
      State(maxConcurrent, sem, calls)
    }

    /** The select: with a free slot and a done context the runtime picks either, as `pickDone` says. */
    method Enter(ghost c: nat, ctxDone: bool, pickDone: bool) returns (acquired: bool)
      requires Conserved(Abs()) && In(Abs(), c, Waiting)
      requires sem < maxConcurrent || ctxDone
      modifies this
      ensures Conserved(Abs())
      ensures acquired <==> old(sem) < maxConcurrent && !(ctxDone && pickDone)
      ensures Enabled(old(Abs()), if acquired then Acquire(c) else GiveUp(c))
      ensures Abs() == Next(old(Abs()), if acquired then Acquire(c) else GiveUp(c))
      ensures sem == old(sem) + (if acquired then 1 else 0)
      ensures calls == old(calls)[c := if acquired then InTransport else Finished]
    {
      acquired := sem < maxConcurrent && !(ctxDone && pickDone);
      StepConserves(Abs(), if acquired then Acquire(c) else GiveUp(c));
      if acquired {
        sem := sem + 1;
      }
      calls := calls[c := if acquired then InTransport else Finished];
    }

    /** What happens after the wrapped round trip: an error or a missing body gives the permit back at once. */
    method Leave(ghost c: nat, failed: bool, hasBody: bool) returns (body: Option<Body>)
      requires Conserved(Abs()) && In(Abs(), c, InTransport)
      modifies this
      ensures Conserved(Abs())
      ensures Abs() == Next(old(Abs()), if failed then TransportFails(c) else if hasBody then ReturnBody(c) else NoBody(c))
      ensures sem == old(sem) - (if !failed && hasBody then 0 else 1)
      ensures calls == old(calls)[c := if !failed && hasBody then BodyOpen else Finished]
      ensures body.Some? <==> !failed && hasBody
      ensures body.Some? ==> fresh(body.value) && body.value.owner == this && body.value.call == c && !body.value.done
    {
      StepConserves(Abs(), if failed then TransportFails(c) else if hasBody then ReturnBody(c) else NoBody(c));
      body := None;
      if failed || !hasBody {
        sem := sem - 1;
        calls := calls[c := Finished];
      } else {
        calls := calls[c := BodyOpen];
        var b := new Body(this, c);
        body := Some(b);
      }
    }
  }

  /** bodyWithRelease: `done` is the state of its sync.Once. */
  class Body {
    const owner: Limiter
    var done: bool
    ghost const call: nat

    constructor (owner: Limiter, ghost call: nat)
      ensures this.owner == owner && this.call == call && !done
    {
      this.owner, this.call, done := owner, call, false;
    }

    method Close()
      requires Conserved(owner.Abs())
      requires In(owner.Abs(), call, if done then BodyClosed else BodyOpen)
      modifies this, owner
      ensures done && Conserved(owner.Abs())
      ensures owner.sem == old(owner.sem) - (if old(done) then 0 else 1)
      ensures owner.calls == old(owner.calls)[call := BodyClosed]
      ensures owner.Abs() == Next(old(owner.Abs()), CloseBody(call))
    {
      StepConserves(owner.Abs(), CloseBody(call));
      if !done {
        done := true;
        owner.sem := owner.sem - 1;
        owner.calls := owner.calls[call := BodyClosed];
      } else {
        assert owner.calls[call := BodyClosed] == owner.calls;
      }
    }
  }
}
