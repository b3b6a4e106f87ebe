/** What one row of the fetch queue guarantees, over every run of its agents. */
module FetchQueueSafety {
  import opened Options
  import opened FetchQueue

  // ---- leases --------------------------------------------------------------

  ghost predicate AtWork(s: State, a: nat) {
    AgentAt(s, a).Active? && !Posting(AgentAt(s, a).phase)
  }

  ghost predicate Superseded(s: State, a: nat) {
    AtWork(s, a) && s.holder != Some(a)
  }

  /** A working agent that no longer holds the row, but whose stamp the row carries, or
      will carry if it is locked again within this second. */
  ghost predicate Risky(s: State, a: nat) {
    Superseded(s, a)
    && ((s.row.status == Fetching && AgentAt(s, a).stamp == s.lastStamp)
        || (s.row.status == Pending && AgentAt(s, a).stamp == s.now))
  }

  ghost predicate NoneRisky(s: State) {
    forall a: nat :: !Risky(s, a)
  }

  /** Enqueues a finished row while an agent that locked it in this very second is still
      at work on it. */
  ghost predicate IsHasty(s: State, step: Step) {
    step.Enqueue? && Terminal(s.row.status) && exists a: nat :: AtWork(s, a) && AgentAt(s, a).stamp == s.now
  }

  /** A working agent's lease is the current one, with an unchanged retry count, or it was
      superseded; `calm` says that nobody is risky. */
  ghost predicate AgentSound(s: State, a: nat, calm: bool) {
    AtWork(s, a) ==>
      var agent := AgentAt(s, a);
      && agent.stamp <= s.lastStamp
      && (s.holder == Some(a) ==> agent.stamp == s.lastStamp && agent.retryCount == s.row.retryCount)
      && (calm ==> !Risky(s, a))
      && (agent.phase == Failing(true) ==> agent.retryCount + 1 >= Cap(s))
      && (agent.phase.Retrying? ==> agent.retryCount + 1 < Cap(s))
  }

  ghost predicate RowSound(s: State) {
    && s.lastStamp <= s.now
    && (s.holder.Some? <==> s.row.status == Fetching)
    && (s.row.status == Fetching ==> s.row.lockedAt == Some(s.lastStamp))
    && (s.row.status == Pending ==> s.attempts == s.row.retryCount + s.sweeps)
    && (s.row.status == Fetching ==> s.attempts == s.row.retryCount + s.sweeps + 1)
  }

  ghost predicate LeasesSound(s: State, calm: bool) {
    RowSound(s) && forall a: nat :: AgentSound(s, a, calm)
  }

  lemma QuietKept(s: State, b: nat, later: nat, cancelled: bool, calm: bool)
    requires RowSound(s) && AgentSound(s, b, calm) && later >= s.now
    ensures Sound(s.(now := later), b, calm) && Sound(s.(targetCancelled := cancelled), b, calm)
      && Sound(AfterSweep(s), b, calm)
  {
  }

  lemma EnqueueKept(s: State, b: nat, calm: bool)
    requires Sound(s, b, calm) && (calm ==> !IsHasty(s, Enqueue))
    ensures Sound(AfterEnqueue(s), b, calm)
  {
  }

  ghost predicate Sound(s: State, a: nat, calm: bool) {
    RowSound(s) && AgentSound(s, a, calm)
  }

  lemma LockKept(s: State, a: nat, b: nat, calm: bool)
    requires Sound(s, b, calm) && AgentAt(s, a).Idle?
    ensures Sound(AfterLock(s, a), b, calm)
  {
  }

  lemma PhaseKept(s: State, a: nat, p: Phase, b: nat, calm: bool)
    requires Sound(s, b, calm) && AgentAt(s, a).Active? && (AtWork(s, a) || Posting(p)) && p != Failing(true)
      && !p.Retrying?
    ensures Sound(InPhase(s, a, p), b, calm)
  {
  }

  lemma TransientKept(s: State, a: nat, b: nat, calm: bool)
    requires Sound(s, b, calm) && AtWork(s, a)
    ensures Sound(Transient(s, a), b, calm)
  {
  }

  lemma IdleKept(s: State, a: nat, b: nat, calm: bool)
    requires Sound(s, b, calm)
    ensures Sound(With(s, a, Idle), b, calm)
  {
  }

  lemma CancelKept(s: State, stamp: nat, b: nat, calm: bool)
    requires Sound(s, b, calm)
    ensures Sound(CancelIfTargetCancelled(s, stamp), b, calm)
  {
  }

  lemma CloseKept(s: State, status: Status, b: nat, calm: bool)
    requires Sound(s, b, calm) && status != Pending && status != Fetching
    ensures Sound(Close(s, status), b, calm) && Sound(Silence(Close(s, status), s.gen), b, calm)
  {
  }

  lemma RescheduleKept(s: State, a: nat, retryAt: nat, b: nat, calm: bool)
    requires Sound(s, a, calm) && Sound(s, b, calm) && AtWork(s, a) && AgentAt(s, a).phase.Retrying?
      && Holds(s, AgentAt(s, a).stamp)
    ensures Sound(With(s.(row := Row(Pending, None, s.row.retryCount + 1, Some(retryAt)), holder := None),
                       a, Idle), b, calm)
  {
  }

  lemma RecordKept(s: State, gen: nat, e: Emission, b: nat, calm: bool)
    requires Sound(s, b, calm)
    ensures Sound(Emit(s, gen, e), b, calm) && Sound(Silence(s, gen), b, calm)
  {
  }

  lemma SoundKept(s: State, step: Step, b: nat, calm: bool)
    requires LeasesSound(s, calm) && Enabled(s, step) && (calm ==> !IsHasty(s, step))
    ensures Sound(Apply(s, step), b, calm)
  {
    hide RowSound, AgentSound, Transient, InPhase, With, Cap, Holds, CancelIfTargetCancelled, Close, Silence, Emit;
    hide AfterLock, AfterEnqueue, AfterSweep;
    assert AgentSound(s, b, calm);
    match step
    case Tick(later) => QuietKept(s, b, later, true, calm);
    case SetTargetCancelled(c) => QuietKept(s, b, s.now, c, calm);
    case Enqueue => EnqueueKept(s, b, calm);
    case Sweep => QuietKept(s, b, s.now, true, calm);
    case Lock(a) => LockKept(s, a, b, calm);
    case FetchFailed(a) => TransientKept(s, a, b, calm);
    case MissingLocally(a) => PhaseKept(s, a, Failing(false), b, calm);
    case Extract(a, events) =>
      PhaseKept(s, a, if events.None? then Failing(false) else Finishing(events.value), b, calm);
    case VerifyLease(a, _) =>
      TransientKept(s, a, b, calm);
      PhaseKept(s, a, Leased, b, calm);
      LetGoKept(s, a, b, calm);
    case MarkDone(a, _) =>
      var closed := Close(s, Done);
      CloseKept(s, Done, b, calm);
      AgentsOfClose(s, Done);
      TransientKept(s, a, b, calm);
      TransientKept(Silence(closed, s.gen), a, b, calm);
      PhaseKept(closed, a, Submitting(s.gen, 1, AgentAt(s, a).phase.batch), b, calm);
      LetGoKept(s, a, b, calm);
    case MarkFailed(a, _) =>
      var closed := Close(s, Failed);
      CloseKept(s, Failed, b, calm);
      AgentsOfClose(s, Failed);
      PhaseKept(closed, a, Announcing(s.gen), b, calm);
      IdleKept(Silence(closed, s.gen), a, b, calm);
      LetGoKept(s, a, b, calm);
    case SetRetry(a, _) =>
      assert AgentSound(s, a, calm);
      if Holds(s, AgentAt(s, a).stamp) {
        RescheduleKept(s, a, AgentAt(s, a).phase.retryAt, b, calm);
      }
      LetGoKept(s, a, b, calm);
    case Send(a) =>
      var p := AgentAt(s, a).phase;
      var e := if p.Announcing? then Failure else Patch(p.next, p.total);
      RecordKept(s, p.gen, e, b, calm);
      AgentsOfRecord(s, p.gen, e);
      IdleKept(Emit(s, p.gen, e), a, b, calm);
      if p.Submitting? {
        PhaseKept(Emit(s, p.gen, e), a, Submitting(p.gen, p.next + 1, p.total), b, calm);
      }
    case Stop(a) =>
      IdleKept(s, a, b, calm);
      if AgentAt(s, a).Active? && Posting(AgentAt(s, a).phase) {
        RecordKept(s, AgentAt(s, a).phase.gen, Failure, b, calm);
        IdleKept(Silence(s, AgentAt(s, a).phase.gen), a, b, calm);
      }
  }

  /** Giving up: the clean-up update and going idle. */
  lemma LetGoKept(s: State, a: nat, b: nat, calm: bool)
    requires Sound(s, b, calm) && AgentAt(s, a).Active?
    ensures Sound(With(s, a, Idle), b, calm)
      && Sound(With(CancelIfTargetCancelled(s, AgentAt(s, a).stamp), a, Idle), b, calm)
  {
    hide RowSound, AgentSound, With, CancelIfTargetCancelled;
    IdleKept(s, a, b, calm);
    CancelKept(s, AgentAt(s, a).stamp, b, calm);
    IdleKept(CancelIfTargetCancelled(s, AgentAt(s, a).stamp), a, b, calm);
  }

  lemma AgentsOfClose(s: State, status: Status)
    ensures Close(s, status).agents == s.agents && Silence(Close(s, status), s.gen).agents == s.agents
  {
  }

  lemma AgentsOfRecord(s: State, gen: nat, e: Emission)
    ensures Emit(s, gen, e).agents == s.agents
  {
  }

  lemma LeasesKept(s: State, step: Step, calm: bool)
    requires LeasesSound(s, calm) && Enabled(s, step) && (calm ==> !IsHasty(s, step))
    ensures LeasesSound(Apply(s, step), calm)
  {
    hide Apply, RowSound, AgentSound;
    SoundKept(s, step, 0, calm);
    forall b: nat ensures AgentSound(Apply(s, step), b, calm) {
      SoundKept(s, step, b, calm);
    }
  }

  // ---- outcomes ------------------------------------------------------------

  ghost predicate PostingFor(s: State, a: nat, gen: nat) {
    AgentAt(s, a).Active? && Posting(AgentAt(s, a).phase) && AgentAt(s, a).phase.gen == gen
  }

  /** The first `|es|` of the `total` numbered patches of one batch. */
  ghost predicate IsBatch(es: seq<Emission>, total: nat) {
    |es| <= total && forall i :: 0 <= i < |es| ==> es[i] == Patch(i + 1, total)
  }

  ghost predicate Allowed(ending: Status, es: seq<Emission>) {
    if ending == Failed then es == [] || es == [Failure] else exists total :: IsBatch(es, total)
  }

  ghost predicate Complete(ending: Status, es: seq<Emission>) {
    if ending == Failed then es == [Failure] else es != [] && IsBatch(es, |es|)
  }

  /** How far a posting agent has got. */
  ghost predicate Progress(p: Phase, ending: Status, es: seq<Emission>) {
    match p
    case Submitting(_, next, total) => ending == Done && 1 <= next <= total && |es| == next - 1 && IsBatch(es, total)
    case Announcing(_) => ending == Failed && es == []
    case _ => true
  }

  ghost predicate GenSound(s: State, gen: nat) {
    && (gen !in s.closed ==> EmittedIn(s, gen) == [] && gen !in s.silent && forall a: nat :: !PostingFor(s, a, gen))
    && (gen in s.closed ==>
          var ending, es := s.closed[gen], EmittedIn(s, gen);
          && gen <= s.gen && (ending == Done || ending == Failed)
          && Allowed(ending, es)
          && (forall a: nat :: PostingFor(s, a, gen) ==> gen !in s.silent && Progress(AgentAt(s, a).phase, ending, es))
          && (forall a: nat, b: nat :: PostingFor(s, a, gen) && PostingFor(s, b, gen) ==> a == b)
          && (gen in s.silent || Complete(ending, es) || exists a: nat :: PostingFor(s, a, gen)))
  }

  ghost predicate EndingExact(s: State) {
    && (s.gen in s.closed <==> s.row.status == Done || s.row.status == Failed)
    && forall gen: nat :: gen > s.gen ==> gen !in s.closed
  }

  ghost predicate OutcomesSound(s: State) {
    && EndingExact(s)
    && forall gen: nat :: GenSound(s, gen)
  }

  /** A step that neither posts for a generation nor ends it leaves its outcome alone. */
  lemma OutcomeFrame(s: State, t: State, gen: nat)
    requires GenSound(s, gen) && t.gen >= s.gen
    requires EmittedIn(t, gen) == EmittedIn(s, gen) && (gen in t.silent <==> gen in s.silent)
    requires if gen in s.closed then gen in t.closed && t.closed[gen] == s.closed[gen] else gen !in t.closed
    requires forall a: nat :: (PostingFor(s, a, gen) || PostingFor(t, a, gen)) ==> AgentAt(t, a) == AgentAt(s, a)
    ensures GenSound(t, gen)
  {
    assert forall a: nat :: PostingFor(s, a, gen) <==> PostingFor(t, a, gen);
  }

  lemma MarkDoneEnds(s: State, a: nat, total: Positive, reply: Reply, gen: nat)
    requires OutcomesSound(s) && AtWork(s, a) && Holds(s, AgentAt(s, a).stamp) && reply != Err(false)
    ensures GenSound(AfterMarkDone(s, a, total, reply), gen)
  {
    var t := AfterMarkDone(s, a, total, reply);
    assert GenSound(s, gen);
    forall b: nat | b != a
      ensures AgentAt(t, b) == AgentAt(s, b) && (PostingFor(t, b, gen) <==> PostingFor(s, b, gen)) { }
    if gen == s.gen {
      assert EmittedIn(t, gen) == [] && IsBatch([], 0);
      assert reply.Ok? ==> PostingFor(t, a, gen);
      assert forall b: nat :: PostingFor(t, b, gen) ==> b == a;
    } else {
      OutcomeFrame(s, t, gen);
    }
  }

  lemma MarkFailedEnds(s: State, a: nat, reply: Reply, gen: nat)
    requires OutcomesSound(s) && AtWork(s, a) && Holds(s, AgentAt(s, a).stamp) && reply != Err(false)
    ensures GenSound(AfterMarkFailed(s, a, reply), gen)
  {
    var t := AfterMarkFailed(s, a, reply);
    assert GenSound(s, gen);
    forall b: nat | b != a
      ensures AgentAt(t, b) == AgentAt(s, b) && (PostingFor(t, b, gen) <==> PostingFor(s, b, gen)) { }
    if gen == s.gen {
      assert EmittedIn(t, gen) == [];
      assert reply.Ok? ==> PostingFor(t, a, gen);
      assert forall b: nat :: PostingFor(t, b, gen) ==> b == a;
    } else {
      OutcomeFrame(s, t, gen);
    }
  }

  lemma SendPosts(s: State, a: nat, p: Phase, gen: nat)
    requires AgentAt(s, a).Active? && AgentAt(s, a).phase == p && Posting(p)
    requires GenSound(s, gen) && GenSound(s, p.gen)
    ensures GenSound(AfterSend(s, a, p), gen)
  {
    var t := AfterSend(s, a, p);
    assert PostingFor(s, a, p.gen);
    forall b: nat | b != a
      ensures AgentAt(t, b) == AgentAt(s, b) && (PostingFor(t, b, gen) <==> PostingFor(s, b, gen)) { }
    if gen != p.gen {
      OutcomeFrame(s, t, gen);
    } else {
      SentProgress(p, EmittedIn(s, gen));
      assert p.Submitting? && p.next < p.total ==> PostingFor(t, a, gen);
      assert forall b: nat :: PostingFor(t, b, gen) ==> b == a;
    }
  }

  lemma SentProgress(p: Phase, es: seq<Emission>)
    requires Posting(p) && Progress(p, if p.Announcing? then Failed else Done, es)
    ensures p.Submitting? ==>
      IsBatch(es + [Patch(p.next, p.total)], p.total) && |es + [Patch(p.next, p.total)]| == p.next
    ensures p.Announcing? ==> es + [Failure] == [Failure]
  {
  }

  lemma StopPosts(s: State, a: nat, gen: nat)
    requires OutcomesSound(s)
    ensures GenSound(AfterStop(s, a), gen)
  {
    var t := AfterStop(s, a);
    assert GenSound(s, gen);
    forall b: nat | b != a
      ensures AgentAt(t, b) == AgentAt(s, b) && (PostingFor(t, b, gen) <==> PostingFor(s, b, gen)) { }
    if PostingFor(s, a, gen) {
      assert forall b: nat :: PostingFor(t, b, gen) ==> b == a;
    } else {
      OutcomeFrame(s, t, gen);
    }
  }

  /** Every other step: nothing is posted and no generation ends. */
  predicate LeavesOutcomes(s: State, step: Step) {
    match step
    case Send(_) => false
    case Stop(_) => false
    case MarkDone(a, reply) => !(AgentAt(s, a).Active? && Holds(s, AgentAt(s, a).stamp)) || reply == Err(false)
    case MarkFailed(a, reply) => !(AgentAt(s, a).Active? && Holds(s, AgentAt(s, a).stamp)) || reply == Err(false)
    case _ => true
  }

  ghost predicate Left(s: State, t: State) {
    && t.emitted == s.emitted && t.closed == s.closed && t.silent == s.silent && t.gen >= s.gen
    && (forall a: nat, gen: nat :: (PostingFor(s, a, gen) || PostingFor(t, a, gen)) ==> AgentAt(t, a) == AgentAt(s, a))
    && (t.gen == s.gen ==> t.row.status == s.row.status || (!(Ended(s.row.status)) && !(Ended(t.row.status))))
    && (t.gen != s.gen ==> t.gen == s.gen + 1 && !Ended(t.row.status))
  }

  predicate Ended(status: Status) {
    status == Done || status == Failed
  }

  lemma QuietLeft(s: State, later: nat, cancelled: bool)
    requires later >= s.now
    ensures Left(s, s.(now := later)) && Left(s, s.(targetCancelled := cancelled))
    ensures Left(s, AfterEnqueue(s)) && Left(s, AfterSweep(s))
  {
  }

  lemma LockLeft(s: State, a: nat)
    requires AgentAt(s, a).Idle?
    ensures Left(s, AfterLock(s, a))
  {
  }

  lemma WorkLeft(s: State, a: nat, p: Phase)
    requires AtWork(s, a) && !Posting(p)
    ensures Left(s, Transient(s, a)) && Left(s, InPhase(s, a, p))
  {
  }

  lemma LetGoLeft(s: State, a: nat)
    requires AtWork(s, a)
    ensures Left(s, With(s, a, Idle)) && Left(s, With(CancelIfTargetCancelled(s, AgentAt(s, a).stamp), a, Idle))
  {
  }

  lemma RetryLeft(s: State, a: nat, retryAt: nat, reply: Reply)
    requires AtWork(s, a)
    ensures Left(s, AfterSetRetry(s, a, retryAt, reply))
  {
  }

  lemma OutcomesLeft(s: State, step: Step)
    requires Enabled(s, step) && LeavesOutcomes(s, step)
    ensures Left(s, Apply(s, step))
  {
    hide Left, Transient, InPhase, With, CancelIfTargetCancelled, AfterEnqueue, AfterSweep, AfterLock,
      AfterSetRetry, Holds;
    match step
    case Tick(later) => QuietLeft(s, later, true);
    case SetTargetCancelled(c) => QuietLeft(s, s.now, c);
    case Enqueue => QuietLeft(s, s.now, true);
    case Sweep => QuietLeft(s, s.now, true);
    case Lock(a) => LockLeft(s, a);
    case SetRetry(a, reply) => RetryLeft(s, a, AgentAt(s, a).phase.retryAt, reply);
    case Extract(a, events) => WorkLeft(s, a, if events.None? then Failing(false) else Finishing(events.value));
    case FetchFailed(a) => WorkLeft(s, a, Leased);
    case MissingLocally(a) => WorkLeft(s, a, Failing(false));
    case VerifyLease(a, _) =>
      WorkLeft(s, a, Leased);
      LetGoLeft(s, a);
    case MarkDone(a, _) =>
      WorkLeft(s, a, Leased);
      LetGoLeft(s, a);
    case MarkFailed(a, _) => LetGoLeft(s, a);
  }

  lemma GenKept(s: State, step: Step, gen: nat)
    requires OutcomesSound(s) && Enabled(s, step)
    ensures GenSound(Apply(s, step), gen)
  {
    hide GenSound, EmittedIn, PostingFor, Holds, AfterStop, AfterSend, AfterMarkFailed, AfterMarkDone;
    assert GenSound(s, gen);
    if LeavesOutcomes(s, step) {
      OutcomesLeft(s, step);
      SameOutbox(s, Apply(s, step), gen);
      OutcomeFrame(s, Apply(s, step), gen);
    } else {
      match step
      case Send(a) =>
        assert GenSound(s, AgentAt(s, a).phase.gen);
        SendPosts(s, a, AgentAt(s, a).phase, gen);
      case Stop(a) => StopPosts(s, a, gen);
      case MarkDone(a, reply) => MarkDoneEnds(s, a, AgentAt(s, a).phase.batch, reply, gen);
      case MarkFailed(a, reply) => MarkFailedEnds(s, a, reply, gen);
    }
  }

  lemma SameOutbox(s: State, t: State, gen: nat)
    requires t.emitted == s.emitted
    ensures EmittedIn(t, gen) == EmittedIn(s, gen)
  {
  }

  lemma MarkDoneKeepsEnding(s: State, a: nat, total: Positive, reply: Reply)
    requires EndingExact(s) && AtWork(s, a)
    ensures EndingExact(AfterMarkDone(s, a, total, reply))
  {
    hide AgentAt, AtWork;
  }

  lemma MarkFailedKeepsEnding(s: State, a: nat, reply: Reply)
    requires EndingExact(s) && AtWork(s, a)
    ensures EndingExact(AfterMarkFailed(s, a, reply))
  {
    hide AgentAt, AtWork;
  }

  lemma PostsKeepEnding(s: State, a: nat)
    requires EndingExact(s)
    ensures EndingExact(AfterStop(s, a))
    ensures AgentAt(s, a).Active? && Posting(AgentAt(s, a).phase) ==> EndingExact(AfterSend(s, a, AgentAt(s, a).phase))
  {
    hide EmittedIn;
  }

  lemma LeftKeepsEnding(s: State, t: State)
    requires EndingExact(s) && Left(s, t)
    ensures EndingExact(t)
  {
  }

  /** The current generation is recorded as ended exactly while the row says so. */
  lemma EndingKept(s: State, step: Step)
    requires OutcomesSound(s) && Enabled(s, step)
    ensures EndingExact(Apply(s, step))
  {
    hide EndingExact, GenSound, Left, AfterStop, AfterSend, AfterMarkDone, AfterMarkFailed;
    if LeavesOutcomes(s, step) {
      OutcomesLeft(s, step);
      LeftKeepsEnding(s, Apply(s, step));
    } else {
      match step
      case Send(a) => PostsKeepEnding(s, a);
      case Stop(a) => PostsKeepEnding(s, a);
      case MarkDone(a, reply) => MarkDoneKeepsEnding(s, a, AgentAt(s, a).phase.batch, reply);
      case MarkFailed(a, reply) => MarkFailedKeepsEnding(s, a, reply);
    }
  }

  ghost predicate Inv(s: State) {
    LeasesSound(s, false) && OutcomesSound(s)
  }

  lemma StepKeepsInv(s: State, step: Step)
    requires Inv(s) && Enabled(s, step)
    ensures Inv(Apply(s, step))
  {
    hide Apply, LeasesSound, GenSound, EndingExact;
    LeasesKept(s, step, false);
    EndingKept(s, step);
    forall b: nat ensures GenSound(Apply(s, step), b) {
      GenKept(s, step, b);
    }
  }

  lemma {:induction false} RunKeepsInv(s: State, steps: seq<Step>)
    requires Inv(s) && Run(s, steps).Some?
    ensures Inv(Run(s, steps).value)
    decreases |steps|
  {
    hide Inv, Apply, Enabled;
    if steps != [] {
      StepKeepsInv(s, steps[0]);
      RunKeepsInv(Apply(s, steps[0]), steps[1..]);
    }
  }

  lemma ReachableInv(s: State)
    requires Reachable(s)
    ensures Inv(s)
  {
    var maxRetries, now, steps :| Run(Init(maxRetries, now), steps) == Some(s);
    assert forall gen: nat :: GenSound(Init(maxRetries, now), gen);
    RunKeepsInv(Init(maxRetries, now), steps);
  }

  // ---- main results --------------------------------------------------------

  /** Whatever the agents, sweeps, errors and cancellations: one generation of the row
      yields nothing, one failure event, or the leading part of one batch. Only a row
      marked done or failed in that generation yields anything, and it yields all of it
      unless the posting agent stopped or its last write was answered by an error. */
  lemma OneOutcomePerGeneration(s: State, gen: nat)
    requires Reachable(s)
    ensures var es := EmittedIn(s, gen);
      && (es == [] || (gen in s.closed
                       && if s.closed[gen] == Failed then es == [Failure] else exists total :: IsBatch(es, total)))
      && (gen in s.closed && gen !in s.silent && (forall a: nat :: !PostingFor(s, a, gen)) ==>
        Complete(s.closed[gen], es))
  {
    ReachableInv(s);
    assert GenSound(s, gen);
  }

  /** The steps an agent takes while it works a row. */
  predicate WorkStep(step: Step) {
    !(step.Tick? || step.Enqueue? || step.SetTargetCancelled? || step.Sweep? || step.Lock?)
  }

  ghost predicate Harmless(s: State, t: State, a: nat) {
    && t.row == s.row && t.emitted == s.emitted && t.closed == s.closed
    && (AgentAt(t, a).Active? ==> !Posting(AgentAt(t, a).phase))
  }

  lemma NoLeaseNoEffect(s: State, step: Step)
    requires Enabled(s, step) && WorkStep(step) && AtWork(s, step.agent)
      && !LeaseMatches(s, AgentAt(s, step.agent).stamp)
    ensures Harmless(s, Apply(s, step), step.agent)
  {
    hide EmittedIn, Emit, Close, Silence, AfterSend;
  }

  lemma {:induction false} RunOn(s: State, steps: seq<Step>, step: Step)
    requires Run(s, steps).Some? && Enabled(Run(s, steps).value, step)
    ensures Run(s, steps + [step]) == Some(Apply(Run(s, steps).value, step))
    decreases |steps|
  {
    hide Apply, Enabled;
    if steps == [] {
      assert [step][1..] == [] && steps + [step] == [step];
      assert Run(Apply(s, step), []) == Some(Apply(s, step));
    } else {
      assert (steps + [step])[1..] == steps[1..] + [step];
      RunOn(Apply(s, steps[0]), steps[1..], step);
    }
  }

  lemma ReachOn(s: State, step: Step) returns (t: State)
    requires Reachable(s) && Enabled(s, step)
    ensures t == Apply(s, step) && Reachable(t)
  {
    hide Apply, Enabled, Run;
    var maxRetries, now, steps :| Run(Init(maxRetries, now), steps) == Some(s);
    RunOn(Init(maxRetries, now), steps, step);
    t := Apply(s, step);
  }

  // ---- superseded agents ----

  /** A superseded agent that is not risky changes neither the row nor what is emitted, and
      never starts posting. */
  lemma SupersededAgentIsHarmless(s: State, step: Step)
    requires Reachable(s) && Enabled(s, step) && WorkStep(step) && Superseded(s, step.agent) && !Risky(s, step.agent)
    ensures Harmless(s, Apply(s, step), step.agent)
  {
    hide Apply, Harmless, Run;
    ReachableInv(s);
    assert AgentSound(s, step.agent, false);
    NoLeaseNoEffect(s, step);
  }

  /** Where nobody is risky, somebody becomes so exactly when a finished row is enqueued
      in the second in which an agent still at work locked it. */
  lemma RiskArisesExactly(s: State, step: Step)
    requires Reachable(s) && NoneRisky(s) && Enabled(s, step)
    ensures NoneRisky(Apply(s, step)) <==> !IsHasty(s, step)
  {
    hide Apply, AgentSound, Risky, Run;
    ReachableInv(s);
    NoneRiskyIsCalm(s);
    if !IsHasty(s, step) {
      LeasesKept(s, step, true);
      NoneRiskyIsCalm(Apply(s, step));
    } else {
      var a: nat :| AtWork(s, a) && AgentAt(s, a).stamp == s.now;
      HastyMakesRisky(s, a);
      assert Risky(Apply(s, step), a);
    }
  }

  lemma NoneRiskyIsCalm(s: State)
    ensures LeasesSound(s, true) <==> LeasesSound(s, false) && NoneRisky(s)
  {
    hide Risky, RowSound;
    if LeasesSound(s, true) {
      forall a: nat ensures AgentSound(s, a, false) && !Risky(s, a) {
        assert AgentSound(s, a, true);
        OnlyWorkersAreRisky(s, a);
      }
    }
    if LeasesSound(s, false) && NoneRisky(s) {
      forall a: nat ensures AgentSound(s, a, true) {
        assert AgentSound(s, a, false);
      }
    }
  }

  lemma OnlyWorkersAreRisky(s: State, a: nat)
    ensures Risky(s, a) ==> AtWork(s, a)
  {
  }

  lemma HastyMakesRisky(s: State, a: nat)
    requires RowSound(s) && Terminal(s.row.status) && AtWork(s, a) && AgentAt(s, a).stamp == s.now
    ensures Enabled(s, Enqueue) && Risky(Apply(s, Enqueue), a)
  {
  }

  /** A run in which no finished row is enqueued hastily. */
  ghost predicate CalmRun(s: State, steps: seq<Step>)
    decreases |steps|
  {
    steps == [] || (Enabled(s, steps[0]) && !IsHasty(s, steps[0]) && CalmRun(Apply(s, steps[0]), steps[1..]))
  }

  lemma {:induction false} CalmRunRuns(s: State, steps: seq<Step>)
    requires CalmRun(s, steps)
    ensures Run(s, steps).Some?
    decreases |steps|
  {
    hide Apply, Enabled, IsHasty;
    if steps != [] {
      CalmRunRuns(Apply(s, steps[0]), steps[1..]);
    }
  }

  /** After these steps the agent is superseded and takes a step that does some harm. */
  ghost predicate Harms(s: State, steps: seq<Step>, step: Step) {
    && CalmRun(s, steps) && Run(s, steps).Some?
    && var t := Run(s, steps).value;
       Enabled(t, step) && WorkStep(step) && Superseded(t, step.agent) && !Harmless(t, Apply(t, step), step.agent)
  }

  ghost predicate CanHarm(s: State, a: nat) {
    exists steps, step :: Harms(s, steps, step) && WorkStep(step) && step.agent == a
  }

  /** Without another hasty enqueue, a superseded agent can come to do harm exactly when
      some agent is risky. */
  lemma HarmNeedsExactlyARiskyAgent(s: State)
    requires Reachable(s)
    ensures (exists a: nat :: CanHarm(s, a)) <==> (exists a: nat :: Risky(s, a))
  {
    hide CanHarm, Risky, Run;
    if a: nat :| CanHarm(s, a) {
      if NoneRisky(s) {
        NobodyHarms(s, a);
      }
    }
    if a: nat :| Risky(s, a) {
      RiskyCanHarm(s, a);
    }
  }

  lemma {:induction false} CalmRunStaysCalm(s: State, steps: seq<Step>)
    requires LeasesSound(s, true) && CalmRun(s, steps) && Run(s, steps).Some?
    ensures LeasesSound(Run(s, steps).value, true)
    decreases |steps|
  {
    hide Apply, Enabled, LeasesSound, IsHasty;
    if steps != [] {
      LeasesKept(s, steps[0], true);
      CalmRunStaysCalm(Apply(s, steps[0]), steps[1..]);
    }
  }

  lemma NobodyHarms(s: State, a: nat)
    requires Reachable(s) && NoneRisky(s)
    ensures !CanHarm(s, a)
  {
    hide Apply, Enabled, LeasesSound, IsHasty, CalmRun, Run, Harmless, Risky;
    ReachableInv(s);
    NoneRiskyIsCalm(s);
    forall steps, step | CalmRun(s, steps) && Run(s, steps).Some? && WorkStep(step)
      ensures !Harms(s, steps, step)
    {
      var t := Run(s, steps).value;
      CalmRunStaysCalm(s, steps);
      NoneRiskyIsCalm(t);
      if Enabled(t, step) && Superseded(t, step.agent) {
        CalmStepIsHarmless(t, step);
      }
    }
  }

  lemma CalmStepIsHarmless(s: State, step: Step)
    requires LeasesSound(s, true) && Enabled(s, step) && WorkStep(step) && Superseded(s, step.agent)
    ensures Harmless(s, Apply(s, step), step.agent)
  {
    hide Apply, Harmless;
    assert AgentSound(s, step.agent, true);
    NoLeaseNoEffect(s, step);
  }

  lemma CalmRunOn(s: State, steps: seq<Step>, step: Step)
    requires CalmRun(s, steps) && Run(s, steps).Some?
    requires Enabled(Run(s, steps).value, step) && !IsHasty(Run(s, steps).value, step)
    ensures CalmRun(s, steps + [step]) && Run(s, steps + [step]) == Some(Apply(Run(s, steps).value, step))
    decreases |steps|
  {
    hide Apply, Enabled, IsHasty;
    RunOn(s, steps, step);
    if steps == [] {
      assert [step][1..] == [] && steps + [step] == [step];
      assert CalmRun(Apply(s, step), []);
    } else {
      assert (steps + [step])[1..] == steps[1..] + [step];
      CalmRunOn(Apply(s, steps[0]), steps[1..], step);
    }
  }

  /** Some agent above all of these. */
  lemma {:induction false} Bounded(agents: set<nat>) returns (bound: nat)
    ensures forall a :: a in agents ==> a < bound
  {
    bound := 0;
    if agents != {} {
      var a :| a in agents;
      bound := Bounded(agents - {a});
      bound := if a < bound then bound else a + 1;
      assert forall b :: b in agents ==> b == a || b in agents - {a};
    }
  }

  /** Another agent locks the row, if nobody has yet, and the risky one's stamp is its own. */
  lemma RiskyComesToHold(s: State, a: nat) returns (steps: seq<Step>, t: State)
    requires RowSound(s) && Risky(s, a)
    ensures steps != [] && CalmRun(s, steps) && Run(s, steps) == Some(t)
    ensures Superseded(t, a) && AgentAt(t, a) == AgentAt(s, a) && Holds(t, AgentAt(t, a).stamp)
  {
    hide CalmRun, Run;
    steps, t := QuietStep(s, [], s, SetTargetCancelled(false));
    if s.row.status == Pending {
      var b := Bounded(s.agents.Keys);
      steps, t := QuietStep(s, steps, t, Enqueue);
      steps, t := QuietStep(s, steps, t, Lock(b));
    }
  }

  lemma QuietStep(s: State, steps: seq<Step>, t: State, step: Step) returns (more: seq<Step>, u: State)
    requires steps == [] ==> t == s
    requires steps != [] ==> CalmRun(s, steps) && Run(s, steps) == Some(t)
    requires Enabled(t, step) && (step.Enqueue? ==> !Terminal(t.row.status))
    ensures more != [] && CalmRun(s, more) && Run(s, more) == Some(u) && u == Apply(t, step)
  {
    hide Apply, Enabled;
    more, u := steps + [step], Apply(t, step);
    CalmRunOn(s, steps, step);
  }

  /** Whatever it is at, a risky agent is a few steps away from changing the row. */
  lemma RiskyCanHarm(s: State, a: nat)
    requires Reachable(s) && Risky(s, a)
    ensures CanHarm(s, a)
  {
    hide CalmRun, Run;
    ReachableInv(s);
    var steps, t := RiskyComesToHold(s, a);
    var stamp := AgentAt(t, a).stamp;
    if AgentAt(t, a).phase.Working? {
      steps, t := QuietStep(s, steps, t, MissingLocally(a));
    } else if AgentAt(t, a).phase.Leased? {
      steps, t := QuietStep(s, steps, t, Extract(a, None));
    }
    assert Superseded(t, a) && Holds(t, stamp) && AgentAt(t, a).stamp == stamp;
    var p := AgentAt(t, a).phase;
    var step := if p.Finishing? then Step.MarkDone(a, Ok) else if p.Failing? then Step.MarkFailed(a, Ok)
      else Step.SetRetry(a, Ok);
    assert !Harmless(t, Apply(t, step), a);
    assert Harms(s, steps, step);
  }

  // ---- the cap on attempts ----

  predicate WithinCap(s: State) {
    !Terminal(s.row.status) ==> s.row.retryCount < Cap(s)
  }

  /** A risky agent's rescheduling is charged to a row with no attempt left. */
  ghost predicate Overruns(s: State, step: Step)
    requires Enabled(s, step)
  {
    step.SetRetry? && Risky(s, step.agent) && Holds(s, AgentAt(s, step.agent).stamp) && step.reply != Err(false)
    && s.row.retryCount + 1 >= Cap(s)
  }

  /** What an agent takes as a transient failure: git fails, or the database answers the
      lease test or the marking of a finished row with an error, applied or not. */
  predicate FailsTransiently(step: Step) {
    step.FetchFailed? || (step.VerifyLease? && step.reply.Err?) || (step.MarkDone? && step.reply.Err?)
  }

  /** A transient failure of the lease holder is given up exactly when the locks of
      this generation, apart from swept ones, have reached `max(1, max_retries)`, and they
      are no more than that exactly when the row was within the cap. */
  lemma GivesUpExactlyAtTheCap(s: State, step: Step)
    requires Reachable(s) && Enabled(s, step) && FailsTransiently(step) && s.holder == Some(step.agent)
    ensures AgentAt(Apply(s, step), step.agent).phase == Failing(true) <==> s.attempts - s.sweeps >= Cap(s)
    ensures AgentAt(Apply(s, step), step.agent).phase.Retrying? <==> s.attempts - s.sweeps < Cap(s)
    ensures s.attempts - s.sweeps <= Cap(s) <==> WithinCap(s)
  {
    ReachableInv(s);
    assert AgentSound(s, step.agent, false);
  }

  /** A row leaves the cap exactly by a risky agent's rescheduling. */
  lemma CapIsLeftExactly(s: State, step: Step)
    requires Reachable(s) && Enabled(s, step) && WithinCap(s)
    ensures WithinCap(Apply(s, step)) <==> !Overruns(s, step)
  {
    hide Reachable, Apply, AfterSetRetry;
    ReachableInv(s);
    if step.SetRetry? {
      assert AgentSound(s, step.agent, false);
      RetryIsApplied(s, step);
      RetryLeavesCap(s, step.agent, s.agents[step.agent].phase.retryAt, step.reply);
    } else {
      OthersStayWithinCap(s, step);
    }
  }

  lemma RetryIsApplied(s: State, step: Step)
    requires Enabled(s, step) && step.SetRetry?
    ensures Apply(s, step) == AfterSetRetry(s, step.agent, s.agents[step.agent].phase.retryAt, step.reply)
  {
  }

  lemma RetryLeavesCap(s: State, a: nat, retryAt: nat, reply: Reply)
    requires RowSound(s) && AgentSound(s, a, false) && AtWork(s, a) && AgentAt(s, a).phase.Retrying? && WithinCap(s)
    ensures WithinCap(AfterSetRetry(s, a, retryAt, reply)) <==>
      !(Risky(s, a) && Holds(s, AgentAt(s, a).stamp) && reply != Err(false) && s.row.retryCount + 1 >= Cap(s))
  {
  }

  lemma OthersStayWithinCap(s: State, step: Step)
    requires Enabled(s, step) && !step.SetRetry? && WithinCap(s)
    ensures WithinCap(Apply(s, step))
  {
    hide EmittedIn, Emit, Silence;
  }

  lemma {:induction false} CalmFrom(s: State, steps: seq<Step>)
    requires Reachable(s) && NoneRisky(s) && WithinCap(s) && CalmRun(s, steps) && Run(s, steps).Some?
    ensures NoneRisky(Run(s, steps).value) && WithinCap(Run(s, steps).value)
    decreases |steps|
  {
    hide Apply, Enabled, Reachable, IsHasty, Risky, WithinCap;
    if steps != [] {
      RiskArisesExactly(s, steps[0]);
      CapIsLeftExactly(s, steps[0]);
      OnlyRiskyOverrun(s, steps[0]);
      var t := ReachOn(s, steps[0]);
      CalmFrom(t, steps[1..]);
    }
  }

  lemma OnlyRiskyOverrun(s: State, step: Step)
    requires Enabled(s, step) && NoneRisky(s)
    ensures !Overruns(s, step)
  {
  }

  /** Over a whole run without a hasty enqueue: nobody is ever risky, so no superseded agent
      does harm, and the row stays within the cap. */
  lemma CalmRunsAreSafe(maxRetries: nat, now: nat, steps: seq<Step>)
    requires CalmRun(Init(maxRetries, now), steps) && Run(Init(maxRetries, now), steps).Some?
    ensures NoneRisky(Run(Init(maxRetries, now), steps).value) && WithinCap(Run(Init(maxRetries, now), steps).value)
  {
    hide CalmRun, Run;
    FreshRowReachable(maxRetries, now);
    CalmFrom(Init(maxRetries, now), steps);
  }

  // ---- inputs for which it fails ----

  /** The first agent is about to mark the row done, in the second it locked it. */
  lemma AboutToFinish() returns (s: State)
    ensures Reachable(s) && s.now == 7 && !s.targetCancelled && s.agents == map[1 := Active(7, 0, Finishing(1))]
    ensures s.row == Row(Fetching, Some(7), 0, None)
  {
    hide Reachable, Run;
    s := Init(3, 7);
    assert Reachable(s) by { FreshRowReachable(3, 7); }
    s := ReachOn(s, Lock(1));
    s := ReachOn(s, VerifyLease(1, Ok));
    s := ReachOn(s, Extract(1, Some(1)));
  }

  /** The row is cancelled under it and enqueued again in the same second. */
  lemma EnqueuedUnderIt() returns (s: State)
    ensures Reachable(s) && s.now == 7 && !s.targetCancelled && s.agents == map[1 := Active(7, 0, Finishing(1))]
    ensures s.row == Row(Pending, None, 0, None)
  {
    hide Reachable, Run;
    s := AboutToFinish();
    s := ReachOn(s, SetTargetCancelled(true));
    s := ReachOn(s, Lock(2));
    s := ReachOn(s, SetTargetCancelled(false));
    s := ReachOn(s, Enqueue);
  }

  /** Without the condition the guarantee fails: a cancelled row is enqueued and locked
      again within the second of its first lock, both agents hold the same stamp, and
      the superseded one marks the row done and posts its batch. */
  lemma HastyEnqueueLetsASupersededAgentPost() returns (s: State)
    ensures Reachable(s) && Superseded(s, 1) && Enabled(s, Step.MarkDone(1, Ok))
    ensures !Harmless(s, Apply(s, Step.MarkDone(1, Ok)), 1)
  {
    hide Reachable, Run;
    s := EnqueuedUnderIt();
    s := ReachOn(s, Lock(2));
    assert AgentAt(s, 1) == Active(7, 0, Finishing(1));
    assert s.row == Row(Fetching, Some(7), 0, None) && s.holder == Some(2);
  }

  /** One agent is about to reschedule when the row is cancelled under it and enqueued
      again. */
  lemma CancelledBeforeRetry() returns (s: State)
    ensures Reachable(s) && s.now == 7 && s.maxRetries == 2 && !s.targetCancelled && s.sweeps == 0 && s.attempts == 0
    ensures s.agents == map[1 := Active(7, 0, Retrying(12))] && s.row == Row(Pending, None, 0, None)
  {
    hide Reachable, Run;
    s := Init(2, 7);
    assert Reachable(s) by { FreshRowReachable(2, 7); }
    s := ReachOn(s, Lock(1));
    s := ReachOn(s, FetchFailed(1));
    s := ReachOn(s, SetTargetCancelled(true));
    s := ReachOn(s, Lock(2));
    s := ReachOn(s, SetTargetCancelled(false));
    s := ReachOn(s, Enqueue);
  }

  /** One agent is about to reschedule; the row was cancelled under it, enqueued again, and
      locked and rescheduled by a second agent, all within one second. */
  lemma AboutToOverrun() returns (s: State)
    ensures Reachable(s) && s.now == 7 && s.maxRetries == 2 && !s.targetCancelled && s.sweeps == 0 && s.attempts == 1
    ensures AgentAt(s, 1) == Active(7, 0, Retrying(12)) && AgentAt(s, 3).Idle? && AgentAt(s, 4).Idle?
    ensures s.row == Row(Pending, None, 1, Some(12))
  {
    hide Reachable, Run;
    s := CancelledBeforeRetry();
    s := ReachOn(s, Lock(2));
    s := ReachOn(s, FetchFailed(2));
    s := ReachOn(s, Step.SetRetry(2, Ok));
  }

  /** A row locked three times in one generation, none of them swept, with two attempts
      allowed. */
  lemma HastyEnqueueOverrunsTheCap() returns (s: State)
    ensures Reachable(s) && s.holder == Some(4) && Enabled(s, FetchFailed(4)) && s.attempts - s.sweeps == 3
      && Cap(s) == 2
  {
    hide Reachable, Run;
    s := AboutToOverrun();
    s := ReachOn(s, Enqueue);
    s := ReachOn(s, Lock(3));
    s := ReachOn(s, Step.SetRetry(1, Ok));
    s := ReachOn(s, Enqueue);
    s := ReachOn(s, Lock(4));
  }

  lemma FreshRowReachable(maxRetries: nat, now: nat)
    ensures Reachable(Init(maxRetries, now))
  {
    assert Run(Init(maxRetries, now), []) == Some(Init(maxRetries, now));
  }
}
