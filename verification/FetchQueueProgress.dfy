/** What the fetch queue gets done: whatever happened to a row before, undisturbed agents
    carry it to its end. */
module FetchQueueProgress {
  import opened Options
  import opened FetchQueue
  import opened FetchQueueSafety

  // ---- short runs ----

  lemma Run1(s: State, a: Step)
    requires Enabled(s, a)
    ensures Run(s, [a]) == Some(Apply(s, a))
  {
    hide Apply, Enabled;
    assert [a][1..] == [];
    assert Run(Apply(s, a), []) == Some(Apply(s, a));
  }

  lemma Run2(s: State, a: Step, b: Step)
    requires Enabled(s, a) && Enabled(Apply(s, a), b)
    ensures Run(s, [a, b]) == Some(Apply(Apply(s, a), b))
  {
    hide Apply, Enabled, Run;
    RunFirst(s, a, [b]);
    Run1(Apply(s, a), b);
    assert [a] + [b] == [a, b];
  }

  lemma Run3(s: State, a: Step, b: Step, c: Step)
    requires Enabled(s, a) && Enabled(Apply(s, a), b) && Enabled(Apply(Apply(s, a), b), c)
    ensures Run(s, [a, b, c]) == Some(Apply(Apply(Apply(s, a), b), c))
  {
    hide Apply, Enabled, Run;
    RunFirst(s, a, [b, c]);
    Run2(Apply(s, a), b, c);
    assert [a] + [b, c] == [a, b, c];
  }

  lemma RunFirst(s: State, a: Step, rest: seq<Step>)
    requires Enabled(s, a)
    ensures Run(s, [a] + rest) == Run(Apply(s, a), rest)
  {
    hide Apply, Enabled;
    assert ([a] + rest)[1..] == rest;
  }

  lemma {:induction false} RunConcat(s: State, steps: seq<Step>, more: seq<Step>)
    requires Run(s, steps).Some?
    ensures Run(s, steps + more) == Run(Run(s, steps).value, more)
    decreases |steps|
  {
    hide Apply, Enabled;
    if steps == [] {
      assert steps + more == more;
    } else {
      assert (steps + more)[1..] == steps[1..] + more;
      RunConcat(Apply(s, steps[0]), steps[1..], more);
    }
  }

  // ---- leases ----

  /** A sweep takes a row back exactly when it has been locked for more than ten minutes; it
      costs the row nothing else, and leaves every other row as it is. */
  lemma SweepTakesExpiredLeases(s: State)
    requires Reachable(s)
    ensures Run(s, [Sweep]).Some?
    ensures var t := Run(s, [Sweep]).value;
      if s.row.status == Fetching && s.now > s.lastStamp + 600
      then t.row == Row(Pending, None, s.row.retryCount, s.row.nextRetryAt) && t.holder == None && t.gen == s.gen
           && t.agents == s.agents && t.emitted == s.emitted && t.closed == s.closed
      else t == s
  {
    ReachableRow(s);
    Run1(s, Sweep);
  }

  lemma ReachableRow(s: State)
    requires Reachable(s)
    ensures RowSound(s) && EmittedIn(s, s.gen) == if s.gen in s.closed then EmittedIn(s, s.gen) else []
    ensures s.gen in s.closed <==> s.row.status == Done || s.row.status == Failed
    ensures forall a: nat :: AgentSound(s, a, false)
  {
    hide AgentSound, RowSound, Reachable;
    ReachableInv(s);
    assert GenSound(s, s.gen);
  }

  /** An idle agent gets the row exactly when it is waiting, is due, and is still wanted. */
  lemma LocksExactly(s: State, b: nat)
    requires Reachable(s) && AgentAt(s, b).Idle?
    ensures Run(s, [Lock(b)]).Some?
    ensures var t := Run(s, [Lock(b)]).value;
      if s.row.status == Pending && !s.targetCancelled && s.row.nextRetryAt.GetOr(0) <= s.now
      then AgentAt(t, b) == Active(s.now, s.row.retryCount, Working) && t.holder == Some(b) && t.gen == s.gen
           && t.row == Row(Fetching, Some(s.now), s.row.retryCount, s.row.nextRetryAt)
      else AgentAt(t, b).Idle?
  {
    Run1(s, Lock(b));
  }

  /** No unfinished row is stuck: whoever held it, and wherever they died, once the lease and
      the wait are over any idle agent gets it. */
  lemma NoRowIsStuck(s: State, later: nat, b: nat)
    requires Reachable(s) && (s.row.status == Pending || s.row.status == Fetching) && !s.targetCancelled
    requires AgentAt(s, b).Idle?
    requires later >= s.now && later > s.lastStamp + 600 && later >= s.row.nextRetryAt.GetOr(0)
    ensures Run(s, [Tick(later), Sweep, Lock(b)]).Some?
    ensures var t := Run(s, [Tick(later), Sweep, Lock(b)]).value;
      t.holder == Some(b) && AgentAt(t, b) == Active(later, s.row.retryCount, Working) && t.gen == s.gen
  {
    ReachableRow(s);
    Run3(s, Tick(later), Sweep, Lock(b));
  }

  /** A dead agent leaves the row to the sweep. */
  lemma DeathLeavesRow(s: State, a: nat)
    ensures Run(s, [Stop(a)]).Some?
    ensures var t := Run(s, [Stop(a)]).value; AgentAt(t, a).Idle? && t.row == s.row && t.emitted == s.emitted
  {
    Run1(s, Stop(a));
  }

  // ---- requests and cancellations ----

  /** After a request any idle agent gets the row at once, unless somebody is at it; a
      finished row starts over, in a new generation. */
  lemma RequestedRowIsDue(s: State, b: nat)
    requires Reachable(s) && !s.targetCancelled && AgentAt(s, b).Idle?
    ensures s.row.status == Fetching ==> Run(s, [Enqueue]) == Some(s)
    ensures s.row.status != Fetching ==> Run(s, [Enqueue, Lock(b)]).Some?
    ensures s.row.status != Fetching ==>
      var t, over := Run(s, [Enqueue, Lock(b)]).value, s.row.status != Pending;
      t.holder == Some(b) && t.row.status == Fetching && t.gen == (if over then s.gen + 1 else s.gen)
      && AgentAt(t, b) == Active(s.now, if over then 0 else s.row.retryCount, Working)
  {
    Run1(s, Enqueue);
    if s.row.status != Fetching {
      Run2(s, Enqueue, Lock(b));
    }
  }

  /** Once its target is cancelled, the next agent that comes by cancels an unfinished row. */
  lemma CancelledTargetEndsRow(s: State, b: nat)
    requires Reachable(s) && s.targetCancelled && AgentAt(s, b).Idle?
    ensures Run(s, [Lock(b)]).Some?
    ensures var t := Run(s, [Lock(b)]).value;
      AgentAt(t, b).Idle? && t.emitted == s.emitted
      && if s.row.status == Pending || s.row.status == Fetching then t.row.status == Cancelled && t.holder == None
         else t.row == s.row
  {
    Run1(s, Lock(b));
  }

  /** The four conditional updates of a lease, each answered. */
  predicate IsUpdate(step: Step) {
    (step.VerifyLease? || step.MarkDone? || step.MarkFailed? || step.SetRetry?) && step.reply == Ok
  }

  /** So does its holder, at its next update, without a word. */
  lemma CancelledTargetStopsHolder(s: State, step: Step)
    requires Reachable(s) && s.targetCancelled && Enabled(s, step) && IsUpdate(step) && s.holder == Some(step.agent)
    ensures Run(s, [step]).Some?
    ensures var t := Run(s, [step]).value;
      t.row.status == Cancelled && t.holder == None && AgentAt(t, step.agent).Idle?
      && t.emitted == s.emitted && t.closed == s.closed
  {
    ReachableRow(s);
    assert AgentSound(s, step.agent, false);
    Run1(s, step);
  }

  /** Only a request takes a finished row up again. */
  lemma FinishedStaysFinished(s: State, step: Step)
    requires Reachable(s) && Enabled(s, step) && !step.Enqueue?
    requires s.row.status == Done || s.row.status == Failed || s.row.status == Cancelled
    ensures Apply(s, step).row == s.row && Apply(s, step).gen == s.gen
  {
    hide EmittedIn, Emit, Silence, Reachable;
  }

  // ---- what an undisturbed agent achieves ----

  /** Agent `b` holds the row, has just locked it, and nobody cancelled its target. */
  ghost predicate Starts(s: State, b: nat) {
    Reachable(s) && s.holder == Some(b) && AgentAt(s, b).Active? && AgentAt(s, b).phase == Working && !s.targetCancelled
  }

  function Sends(b: nat, n: nat): seq<Step> {
    if n == 0 then [] else [Send(b)] + Sends(b, n - 1)
  }

  lemma {:induction false} SendsAll(s: State, b: nat, gen: nat, next: nat, total: nat)
    requires AgentAt(s, b).Active? && AgentAt(s, b).phase == Submitting(gen, next, total)
    requires 1 <= next <= total && IsBatch(EmittedIn(s, gen), total) && |EmittedIn(s, gen)| == next - 1
    ensures Run(s, Sends(b, total + 1 - next)).Some?
    ensures var t := Run(s, Sends(b, total + 1 - next)).value;
      t.row == s.row && AgentAt(t, b).Idle? && IsBatch(EmittedIn(t, gen), total) && |EmittedIn(t, gen)| == total
    decreases total - next
  {
    hide Run;
    var t := Apply(s, Send(b));
    RunFirst(s, Send(b), Sends(b, total - next));
    if next == total {
      RunNothing(t);
    } else {
      SendsAll(t, b, gen, next + 1, total);
    }
  }

  lemma RunNothing(s: State)
    ensures Run(s, []) == Some(s)
  {
  }

  /** It marks the row done and delivers its whole batch, in order. */
  lemma UndisturbedAgentDelivers(s: State, b: nat, total: Positive)
    requires Starts(s, b)
    ensures var steps := [VerifyLease(b, Ok), Extract(b, Some(total)), Step.MarkDone(b, Ok)] + Sends(b, total);
      Run(s, steps).Some?
      && var t := Run(s, steps).value;
         t.row.status == Done && AgentAt(t, b).Idle? && |EmittedIn(t, s.gen)| == total
         && forall i :: 0 <= i < total ==> EmittedIn(t, s.gen)[i] == Patch(i + 1, total)
  {
    hide Run, Reachable, RowSound, EmittedIn;
    ReachableRow(s);
    StartsHolding(s, b);
    var leased := Apply(s, VerifyLease(b, Ok));
    var finishing := Apply(leased, Extract(b, Some(total)));
    var done := Apply(finishing, Step.MarkDone(b, Ok));
    Run3(s, VerifyLease(b, Ok), Extract(b, Some(total)), Step.MarkDone(b, Ok));
    RunConcat(s, [VerifyLease(b, Ok), Extract(b, Some(total)), Step.MarkDone(b, Ok)], Sends(b, total));
    SameEmitted(s, done, s.gen);
    SendsAll(done, b, s.gen, 1, total);
  }

  lemma SameEmitted(s: State, t: State, gen: nat)
    requires t.emitted == s.emitted
    ensures EmittedIn(t, gen) == EmittedIn(s, gen)
  {
  }

  lemma StartsHolding(s: State, b: nat)
    requires Starts(s, b)
    ensures Holds(s, AgentAt(s, b).stamp) && s.row.status == Fetching && AgentAt(s, b).retryCount == s.row.retryCount
    ensures s.gen !in s.closed && EmittedIn(s, s.gen) == []
  {
    hide Reachable;
    ReachableRow(s);
    assert AgentSound(s, b, false);
  }

  /** An agent that is about to give up, and still has its lease, says so once. */
  lemma FailingAgentAnnounces(s: State, b: nat)
    requires AgentAt(s, b).Active? && AgentAt(s, b).phase.Failing? && Holds(s, AgentAt(s, b).stamp)
    requires EmittedIn(s, s.gen) == []
    ensures Run(s, [Step.MarkFailed(b, Ok), Send(b)]).Some?
    ensures var t := Run(s, [Step.MarkFailed(b, Ok), Send(b)]).value;
      t.row.status == Failed && AgentAt(t, b).Idle? && EmittedIn(t, s.gen) == [Failure]
  {
    hide Run;
    Run2(s, Step.MarkFailed(b, Ok), Send(b));
  }

  /** Where there is nothing to fetch from, it marks the row failed and says so once. */
  lemma UndisturbedAgentReportsMissing(s: State, b: nat)
    requires Starts(s, b)
    ensures var steps := [MissingLocally(b), Step.MarkFailed(b, Ok), Send(b)];
      Run(s, steps).Some?
      && var t := Run(s, steps).value;
         t.row.status == Failed && AgentAt(t, b).Idle? && EmittedIn(t, s.gen) == [Failure]
  {
    hide Run, Reachable, RowSound;
    StartsHolding(s, b);
    RunFirst(s, MissingLocally(b), [Step.MarkFailed(b, Ok), Send(b)]);
    FailingAgentAnnounces(Apply(s, MissingLocally(b)), b);
    assert [MissingLocally(b)] + [Step.MarkFailed(b, Ok), Send(b)]
        == [MissingLocally(b), Step.MarkFailed(b, Ok), Send(b)];
  }

  /** So it does where nothing can be extracted. */
  lemma UndisturbedAgentReportsFailure(s: State, b: nat)
    requires Starts(s, b)
    ensures var steps := [VerifyLease(b, Ok), Extract(b, None)] + [Step.MarkFailed(b, Ok), Send(b)];
      Run(s, steps).Some?
      && var t := Run(s, steps).value;
         t.row.status == Failed && AgentAt(t, b).Idle? && EmittedIn(t, s.gen) == [Failure]
  {
    hide Run, Reachable, RowSound;
    StartsHolding(s, b);
    var failing := Apply(Apply(s, VerifyLease(b, Ok)), Extract(b, None));
    Run2(s, VerifyLease(b, Ok), Extract(b, None));
    FailingAgentAnnounces(failing, b);
    RunConcat(s, [VerifyLease(b, Ok), Extract(b, None)], [Step.MarkFailed(b, Ok), Send(b)]);
  }

  /** An agent that is about to reschedule, and still has its lease, gives the row back. */
  lemma RetryingAgentReschedules(s: State, b: nat)
    requires AgentAt(s, b).Active? && AgentAt(s, b).phase.Retrying? && Holds(s, AgentAt(s, b).stamp)
    ensures Run(s, [Step.SetRetry(b, Ok)]).Some?
    ensures var t := Run(s, [Step.SetRetry(b, Ok)]).value;
      t.row == Row(Pending, None, s.row.retryCount + 1, Some(AgentAt(s, b).phase.retryAt))
      && t.gen == s.gen && t.holder == None && AgentAt(t, b).Idle? && t.emitted == s.emitted
  {
    hide Run;
    Run1(s, Step.SetRetry(b, Ok));
  }

  /** After a transient failure with attempts left it reschedules the row, five seconds, half
      a minute or three minutes ahead, for one more attempt in the same generation. */
  lemma UndisturbedAgentReschedules(s: State, b: nat)
    requires Starts(s, b) && s.row.retryCount + 1 < s.maxRetries
    ensures var steps := [FetchFailed(b), Step.SetRetry(b, Ok)];
      Run(s, steps).Some?
      && var t := Run(s, steps).value;
         t.row == Row(Pending, None, s.row.retryCount + 1,
                      Some(s.now + match s.row.retryCount case 0 => 5 case 1 => 30 case _ => 180))
         && t.gen == s.gen && t.holder == None && AgentAt(t, b).Idle? && t.emitted == s.emitted
  {
    hide Run, Reachable, RowSound, EmittedIn;
    StartsHolding(s, b);
    RunFirst(s, FetchFailed(b), [Step.SetRetry(b, Ok)]);
    RetryingAgentReschedules(Apply(s, FetchFailed(b)), b);
    assert [FetchFailed(b)] + [Step.SetRetry(b, Ok)] == [FetchFailed(b), Step.SetRetry(b, Ok)];
  }

  /** With none left it gives the row up. */
  lemma UndisturbedAgentGivesUp(s: State, b: nat)
    requires Starts(s, b) && s.row.retryCount + 1 >= s.maxRetries
    ensures var steps := [FetchFailed(b), Step.MarkFailed(b, Ok), Send(b)];
      Run(s, steps).Some?
      && var t := Run(s, steps).value;
         t.row.status == Failed && AgentAt(t, b).Idle? && EmittedIn(t, s.gen) == [Failure]
  {
    hide Run, Reachable, RowSound;
    StartsHolding(s, b);
    RunFirst(s, FetchFailed(b), [Step.MarkFailed(b, Ok), Send(b)]);
    FailingAgentAnnounces(Apply(s, FetchFailed(b)), b);
    assert [FetchFailed(b)] + [Step.MarkFailed(b, Ok), Send(b)] == [FetchFailed(b), Step.MarkFailed(b, Ok), Send(b)];
  }
}
