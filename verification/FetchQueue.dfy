/** One row of the durable fetch queue and any number of agents working it.

    Every database call is one atomic step on the row; everything an agent does in
    between is an arbitrary result. Lock stamps are the clock's seconds. A generation
    is the life of the row between two enqueues out of a terminal status. */
module FetchQueue {
  import opened Options

  const LEASE_SECONDS: nat := 600

  datatype Status = Pending | Fetching | Done | Failed | Cancelled

  datatype Row = Row(status: Status, lockedAt: Option<nat>, retryCount: nat, nextRetryAt: Option<nat>)

  type Positive = n: nat | n >= 1 witness 1

  /** What leaves through the channel for one generation. */
  datatype Emission = Patch(index: nat, total: nat) | Failure

  datatype Phase =
    | Working                                // checking endpoints and fetching
    | Leased                                 // lease verified; extracting
    | Finishing(batch: Positive)                  // about to mark the row done
    | Failing(exhausted: bool)               // about to mark the row failed
    | Retrying(retryAt: nat)                 // about to reschedule
    | Submitting(gen: nat, next: nat, total: nat)
    | Announcing(gen: nat)

  datatype Agent = Idle | Active(stamp: nat, retryCount: nat, phase: Phase)

  /** The caller's view of one write: a definite count, or an error after which the
      write may or may not have been applied. */
  datatype Reply = Ok | Err(applied: bool)

  datatype State = State(
    now: nat,
    maxRetries: nat,
    row: Row,
    targetCancelled: bool,
    agents: map<nat, Agent>,
    // history
    gen: nat,
    holder: Option<nat>,       // who locked the row last, while it is Fetching
    lastStamp: nat,
    attempts: nat,             // locks in this generation
    sweeps: nat,               // leases taken back in this generation
    emitted: map<nat, seq<Emission>>,
    closed: map<nat, Status>,  // how a generation ended, Done or Failed
    silent: set<nat>)          // ended, but its poster stopped or never learned of it

  datatype Step =
    | Tick(later: nat)
    | Enqueue
    | SetTargetCancelled(cancelled: bool)
    | Sweep
    | Lock(agent: nat)
    | FetchFailed(agent: nat)             // remote setup or fetch error
    | MissingLocally(agent: nat)          // commits missing, nowhere to fetch from
    | VerifyLease(agent: nat, reply: Reply)
    | Extract(agent: nat, events: Option<Positive>)
    | MarkDone(agent: nat, reply: Reply)
    | MarkFailed(agent: nat, reply: Reply)
    | SetRetry(agent: nat, reply: Reply)
    | Send(agent: nat)
    | Stop(agent: nat)                    // agent dies, or its channel is closed

  function Init(maxRetries: nat, now: nat): State {
    State(now, maxRetries, Row(Pending, None, 0, None), false, map[], 0, None, 0, 0, 0, map[], map[], {})
  }

  function Cap(s: State): nat {
    if s.maxRetries < 1 then 1 else s.maxRetries
  }

  function Backoff(retryCount: nat): nat {
    if retryCount == 0 then 5 else if retryCount == 1 then 30 else 180
  }

  function AgentAt(s: State, a: nat): Agent {
    if a in s.agents then s.agents[a] else Idle
  }

  function With(s: State, a: nat, agent: Agent): (t: State)
    ensures t == s.(agents := t.agents)
  {
    s.(agents := s.agents[a := agent])
  }

  function InPhase(s: State, a: nat, phase: Phase): State
    requires AgentAt(s, a).Active?
  {
    With(s, a, AgentAt(s, a).(phase := phase))
  }

  predicate Terminal(status: Status) {
    status == Done || status == Failed || status == Cancelled
  }

  /** The lease test of every conditional update; a missing stamp compares as 0. */
  predicate LeaseMatches(s: State, stamp: nat) {
    s.row.status == Fetching && s.row.lockedAt.GetOr(0) == stamp
  }

  predicate Holds(s: State, stamp: nat) {
    LeaseMatches(s, stamp) && !s.targetCancelled
  }

  function Cancel(s: State): State {
    s.(row := s.row.(status := Cancelled, lockedAt := None), holder := None)
  }

  function Close(s: State, status: Status): State {
    s.(row := Row(status, None, s.row.retryCount, if status == Done then None else s.row.nextRetryAt),
       holder := None, closed := s.closed[s.gen := status])
  }

  function Silence(s: State, gen: nat): (t: State)
    ensures t == s.(silent := t.silent)
  {
    s.(silent := s.silent + {gen})
  }

  /** The clean-up after an update that matched nothing. */
  function CancelIfTargetCancelled(s: State, stamp: nat): State {
    if LeaseMatches(s, stamp) && s.targetCancelled then Cancel(s) else s
  }

  function EmittedIn(s: State, gen: nat): seq<Emission> {
    if gen in s.emitted then s.emitted[gen] else []
  }

  function Emit(s: State, gen: nat, e: Emission): (t: State)
    ensures t == s.(emitted := t.emitted)
  {
    s.(emitted := s.emitted[gen := EmittedIn(s, gen) + [e]])
  }

  /** How an agent takes a transient failure: it gives up when its attempts are spent,
      and otherwise plans to reschedule. */
  function Transient(s: State, a: nat): State
    requires AgentAt(s, a).Active?
  {
    var count := AgentAt(s, a).retryCount;
    InPhase(s, a, if count + 1 >= Cap(s) then Failing(true) else Retrying(s.now + Backoff(count)))
  }

  predicate Posting(p: Phase) {
    p.Submitting? || p.Announcing?
  }

  predicate Enabled(s: State, step: Step) {
    match step
    case Tick(later) => later >= s.now
    case Enqueue => true
    case SetTargetCancelled(_) => true
    case Sweep => true
    case Lock(a) => AgentAt(s, a).Idle?
    case FetchFailed(a) => AgentAt(s, a).Active? && AgentAt(s, a).phase.Working?
    case MissingLocally(a) => AgentAt(s, a).Active? && AgentAt(s, a).phase.Working?
    case VerifyLease(a, _) => AgentAt(s, a).Active? && AgentAt(s, a).phase.Working?
    case Extract(a, _) => AgentAt(s, a).Active? && AgentAt(s, a).phase.Leased?
    case MarkDone(a, _) => AgentAt(s, a).Active? && AgentAt(s, a).phase.Finishing?
    case MarkFailed(a, _) => AgentAt(s, a).Active? && AgentAt(s, a).phase.Failing?
    case SetRetry(a, _) => AgentAt(s, a).Active? && AgentAt(s, a).phase.Retrying?
    case Send(a) => AgentAt(s, a).Active? && Posting(AgentAt(s, a).phase)
    case Stop(a) => true
  }

  function AfterEnqueue(s: State): State {
    if s.row.status == Fetching then s
    else if s.row.status == Pending then s.(row := s.row.(nextRetryAt := None))
    else s.(row := s.row.(status := Pending, retryCount := 0, nextRetryAt := None),
            gen := s.gen + 1, attempts := 0, sweeps := 0)
  }

  function AfterSweep(s: State): State {
    if s.row.status == Fetching && (s.row.lockedAt == None || s.row.lockedAt.value < s.now - LEASE_SECONDS)
    then s.(row := s.row.(status := Pending, lockedAt := None), holder := None, sweeps := s.sweeps + 1)
    else s
  }

  function AfterLock(s: State, a: nat): State {
    if s.targetCancelled && !Terminal(s.row.status) then Cancel(s)
    else if s.row.status == Pending && s.row.nextRetryAt.GetOr(0) <= s.now then
      With(s.(row := s.row.(status := Fetching, lockedAt := Some(s.now)),
              holder := Some(a), lastStamp := s.now, attempts := s.attempts + 1),
           a, Active(s.now, s.row.retryCount, Working))
    else s
  }

  function AfterVerify(s: State, a: nat, reply: Reply): State
    requires AgentAt(s, a).Active?
  {
    var stamp := AgentAt(s, a).stamp;
    if reply.Err? then Transient(s, a)
    else if Holds(s, stamp) then InPhase(s, a, Leased)
    else With(CancelIfTargetCancelled(s, stamp), a, Idle)
  }

  function AfterMarkDone(s: State, a: nat, total: Positive, reply: Reply): State
    requires AgentAt(s, a).Active?
  {
    var stamp := AgentAt(s, a).stamp;
    if reply.Err? then Transient(if reply.applied && Holds(s, stamp) then Silence(Close(s, Done), s.gen) else s, a)
    else if Holds(s, stamp) then InPhase(Close(s, Done), a, Submitting(s.gen, 1, total))
    else With(CancelIfTargetCancelled(s, stamp), a, Idle)
  }

  function AfterMarkFailed(s: State, a: nat, reply: Reply): State
    requires AgentAt(s, a).Active?
  {
    var stamp := AgentAt(s, a).stamp;
    if reply == Err(false) then With(s, a, Idle)
    else if !Holds(s, stamp) then With(CancelIfTargetCancelled(s, stamp), a, Idle)
    else if reply.Ok? then InPhase(Close(s, Failed), a, Announcing(s.gen))
    else With(Silence(Close(s, Failed), s.gen), a, Idle)
  }

  function AfterSetRetry(s: State, a: nat, retryAt: nat, reply: Reply): State
    requires AgentAt(s, a).Active?
  {
    var stamp := AgentAt(s, a).stamp;
    var next :=
      if reply == Err(false) then s
      else if Holds(s, stamp) then
        s.(row := Row(Pending, None, s.row.retryCount + 1, Some(retryAt)), holder := None)
      else if reply.Ok? then CancelIfTargetCancelled(s, stamp)
      else s;
    With(next, a, Idle)
  }

  function AfterSend(s: State, a: nat, p: Phase): State
    requires AgentAt(s, a).Active? && Posting(p)
  {
    if p.Announcing? then With(Emit(s, p.gen, Failure), a, Idle)
    else
      var sent := Emit(s, p.gen, Patch(p.next, p.total));
      if p.next == p.total then With(sent, a, Idle)
      else InPhase(sent, a, Submitting(p.gen, p.next + 1, p.total))
  }

  function AfterStop(s: State, a: nat): State {
    var agent := AgentAt(s, a);
    With(if agent.Active? && Posting(agent.phase) then Silence(s, agent.phase.gen) else s, a, Idle)
  }

  function Apply(s: State, step: Step): State
    requires Enabled(s, step)
  {
    match step
    case Tick(later) => s.(now := later)
    case SetTargetCancelled(cancelled) => s.(targetCancelled := cancelled)
    case Enqueue => AfterEnqueue(s)
    case Sweep => AfterSweep(s)
    case Lock(a) => AfterLock(s, a)
    case FetchFailed(a) => Transient(s, a)
    case MissingLocally(a) => InPhase(s, a, Failing(false))
    case VerifyLease(a, reply) => AfterVerify(s, a, reply)
    case Extract(a, events) => InPhase(s, a, if events.None? then Failing(false) else Finishing(events.value))
    case MarkDone(a, reply) => AfterMarkDone(s, a, s.agents[a].phase.batch, reply)
    case MarkFailed(a, reply) => AfterMarkFailed(s, a, reply)
    case SetRetry(a, reply) => AfterSetRetry(s, a, s.agents[a].phase.retryAt, reply)
    case Send(a) => AfterSend(s, a, s.agents[a].phase)
    case Stop(a) => AfterStop(s, a)
  }

  function Run(s: State, steps: seq<Step>): Option<State>
    decreases |steps|
  {
    if steps == [] then Some(s)
    else if Enabled(s, steps[0]) then Run(Apply(s, steps[0]), steps[1..])
    else None
  }

  ghost predicate Reachable(s: State) {
    exists maxRetries, now, steps :: Run(Init(maxRetries, now), steps) == Some(s)
  }
}
