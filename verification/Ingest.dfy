/** The NNTP fetch loop over one shared tracker, as a state machine.

    One task reads the groups in turn. It issues a receipt per article, and every
    so often waits for the tracker to go quiet, takes the safe mark and stores it.
    Receipts are settled and dropped by other tasks in any order at any moment, and
    the process may fail or be killed between any two steps. */
module Ingest {
  import opened Options
  import opened Numbers
  import opened Events

  const MARK_COMMIT_BATCH: nat := 100
  const RESET_OVERLAP: nat := 100

  /** Numbers are per group, and start afresh when the mark is reinitialised. */
  datatype Article = Article(group: string, epoch: nat, number: nat)
  datatype Receipt = Receipt(article: Article, settled: bool)

  /** A group's stored mark, with the place and count of its last reinitialisation. */
  datatype Group = Group(mark: nat, floor: nat, epoch: nat)

  datatype Stage =
    | Fetching          // asking the server for article handedOff + 1
    | Sending           // receipt issued, event not yet accepted by the channel
    | Registering       // about to create the `notified` future
    | Checking          // registered; about to look at the counter
    | Parked            // saw articles in flight; awaiting the registration
    | Taking            // saw none
    | Storing(safe: nat)

  datatype Driver =
    | Idle
    | Reading(group: string, committed: nat, handedOff: nat, high: nat, stage: Stage, flush: bool)

  datatype State = State(
    tracker: TrackerState,
    receipts: map<nat, Receipt>,  // live receipts
    notified: bool,               // the current registration has been woken
    driver: Driver,
    groups: map<string, Group>,   // durable
    settled: set<Article>,        // stored or deliberately rejected
    absent: set<Article>,         // reported missing by the server
    lost: set<nat>)               // numbers dropped unsettled since the last take

  datatype Step =
    | SelectGroup(name: string, high: nat, overlap: nat)
    | FetchOk(id: nat)
    | Sent
    | Missing                   // reply 423
    | StopReading               // tip reached, or a fetch error
    | Register
    | Check
    | Wake
    | Take
    | Store
    | Abort                     // an error ends the cycle
    | Settle(id: nat)
    | Drop(id: nat)
    | Crash

  function Init(): State {
    State(TrackerState(0, None), map[], false, Idle, map[], {}, {}, {})
  }

  function Lookup(groups: map<string, Group>, name: string): Group {
    if name in groups then groups[name] else Group(0, 0, 0)
  }

  /** The group as the cycle finds it: a first read starts an overlap below the tip,
      and a mark ahead of a non-empty server is pulled back. */
  function Initialised(g: Group, high: nat, overlap: nat): Group {
    if g.mark == 0 && high > 0 then
      var start := SaturatingSub(high, overlap);
      Group(start, start, g.epoch + 1)
    else if g.mark > high && high != 0 then
      var start := SaturatingSub(high, RESET_OVERLAP);
      Group(start, start, g.epoch + 1)
    else g
  }

  predicate At(s: State, stage: Stage) {
    s.driver.Reading? && s.driver.stage == stage
  }

  function Next(s: State): Article
    requires s.driver.Reading?
  {
    Article(s.driver.group, Lookup(s.groups, s.driver.group).epoch, s.driver.handedOff + 1)
  }

  predicate Enabled(s: State, step: Step) {
    match step
    case SelectGroup(_, _, _) => s.driver.Idle?
    case FetchOk(id) => At(s, Fetching) && s.driver.handedOff < s.driver.high && id !in s.receipts
    case Sent => At(s, Sending)
    case Missing => At(s, Fetching) && s.driver.handedOff + 1 < s.driver.high
    case StopReading => At(s, Fetching)
    case Register => At(s, Registering)
    case Check => At(s, Checking)
    case Wake => At(s, Parked) && s.notified
    case Take => At(s, Taking)
    case Store => s.driver.Reading? && s.driver.stage.Storing?
    case Settle(id) => id in s.receipts
    case Drop(id) => id in s.receipts && s.tracker.inFlight > 0
    case Abort => s.driver.Reading?
    case Crash => true
  }

  function Apply(s: State, step: Step): State
    requires Enabled(s, step)
  {
    match step
    case SelectGroup(name, high, overlap) =>
      var g := Initialised(Lookup(s.groups, name), high, overlap);
      s.(groups := s.groups[name := g], driver := Reading(name, g.mark, g.mark, high, Fetching, false))
    case FetchOk(id) =>
      s.(tracker := Issued(s.tracker), receipts := s.receipts[id := Receipt(Next(s), false)],
         driver := s.driver.(stage := Sending))
    case Sent =>
      var handedOff := s.driver.handedOff + 1;
      var full := SaturatingSub(handedOff, s.driver.committed) >= MARK_COMMIT_BATCH;
      s.(driver := s.driver.(handedOff := handedOff, stage := if full then Registering else Fetching))
    case Missing =>
      s.(absent := s.absent + {Next(s)}, driver := s.driver.(handedOff := s.driver.handedOff + 1))
    case StopReading =>
      s.(driver := if s.driver.handedOff > s.driver.committed
                   then s.driver.(stage := Registering, flush := true) else Idle)
    case Register => s.(notified := false, driver := s.driver.(stage := Checking))
    case Check => s.(driver := s.driver.(stage := if s.tracker.inFlight == 0 then Taking else Parked))
    case Wake => s.(driver := s.driver.(stage := Registering))
    case Take =>
      var mark := SafeMark(s.tracker, s.driver.handedOff);
      var safe := if mark < s.driver.committed then s.driver.committed else mark;
      s.(tracker := Taken(s.tracker), lost := {}, driver := s.driver.(stage := Storing(safe)))
    case Store =>
      var safe := s.driver.stage.safe;
      s.(groups := s.groups[s.driver.group := Lookup(s.groups, s.driver.group).(mark := safe)],
         driver := if s.driver.flush || safe < s.driver.handedOff then Idle
                   else s.driver.(committed := safe, stage := Fetching))
    case Settle(id) =>
      s.(receipts := s.receipts[id := s.receipts[id].(settled := true)],
         settled := s.settled + {s.receipts[id].article})
    case Drop(id) =>
      var r := s.receipts[id];
      var tracker := Returned(s.tracker, r.article.number, r.settled);
      s.(tracker := tracker, receipts := s.receipts - {id}, notified := s.notified || tracker.inFlight == 0,
         lost := if r.settled then s.lost else s.lost + {r.article.number})
    case Abort => s.(driver := Idle)
    case Crash => s.(tracker := TrackerState(0, None), receipts := map[], notified := false, driver := Idle, lost := {})
  }

  /** The state after a run, if every step of it was enabled. */
  function Run(s: State, steps: seq<Step>): Option<State>
    decreases |steps|
  {
    if steps == [] then Some(s)
    else if Enabled(s, steps[0]) then Run(Apply(s, steps[0]), steps[1..])
    else None
  }

  ghost predicate Reachable(s: State) {
    exists steps :: Run(Init(), steps) == Some(s)
  }

  // ---- the invariant -------------------------------------------------------

  ghost predicate Done(s: State, a: Article) {
    a in s.settled || a in s.absent
  }

  ghost predicate Live(s: State, a: Article) {
    exists id :: id in s.receipts && s.receipts[id].article == a
  }

  /** What keeps the mark off article `n`: it is done, its receipt is still out, or
      the record of losses reaches it. */
  ghost predicate Accounted(s: State, name: string, n: nat) {
    var a := Article(name, Lookup(s.groups, name).epoch, n);
    || Done(s, a) || Live(s, a)
    || (s.tracker.lowestLost.Some? && s.tracker.lowestLost.value <= n)
  }

  ghost predicate MarkSafe(s: State, name: string, mark: nat) {
    var g := Lookup(s.groups, name);
    forall n :: g.floor < n <= mark ==> Done(s, Article(name, g.epoch, n))
  }

  ghost predicate CountExact(s: State) {
    s.tracker.inFlight == |s.receipts|
  }

  ghost predicate MarksSafe(s: State) {
    forall name :: MarkSafe(s, name, Lookup(s.groups, name).mark)
  }

  ghost predicate ReceiptsSound(s: State) {
    forall id :: id in s.receipts ==>
      s.receipts[id].article.number >= 1
      && (s.receipts[id].settled ==> s.receipts[id].article in s.settled)
  }

  /** The last article with a receipt or an absence behind it. */
  function Reached(d: Driver): nat
    requires d.Reading?
  {
    if d.stage == Sending then d.handedOff + 1 else d.handedOff
  }

  ghost predicate DriverSound(s: State) {
    s.driver.Reading? ==>
      var d := s.driver;
      var g := Lookup(s.groups, d.group);
      && d.committed == g.mark && g.floor <= g.mark && d.committed <= d.handedOff
      && (match d.stage
          case Storing(safe) => d.committed <= safe <= d.handedOff && MarkSafe(s, d.group, safe)
          case _ => forall n :: d.committed < n <= Reached(d) ==> Accounted(s, d.group, n))
      && (d.stage == Taking ==> s.tracker.inFlight == 0)
      && (d.stage == Parked && !s.notified ==> s.tracker.inFlight > 0)
      && (d.stage == Sending ==> d.handedOff < d.high)
  }

  ghost predicate Inv(s: State) {
    && CountExact(s)
    && ReceiptsSound(s)
    && IsLowest(s.tracker.lowestLost, s.lost) && 0 !in s.lost
    && (forall name :: Lookup(s.groups, name).floor <= Lookup(s.groups, name).mark)
    && MarksSafe(s)
    && DriverSound(s)
  }

  lemma InitInv()
    ensures Inv(Init())
  {
  }

  /** Reinitialising the group being selected, with every other group untouched. */
  lemma SelectKeepsInv(s: State, name: string, high: nat, overlap: nat)
    requires Inv(s) && s.driver.Idle?
    ensures Inv(Apply(s, SelectGroup(name, high, overlap)))
  {
    var t := Apply(s, SelectGroup(name, high, overlap));
    forall other
      ensures MarkSafe(t, other, Lookup(t.groups, other).mark)
      ensures Lookup(t.groups, other).floor <= Lookup(t.groups, other).mark
    {
      assert MarkSafe(s, other, Lookup(s.groups, other).mark);
    }
  }

  /** Steps that leave the groups and the history alone keep what was accounted. */
  lemma AccountedKept(s: State, t: State, name: string, n: nat)
    requires Accounted(s, name, n)
    requires Lookup(t.groups, name).epoch == Lookup(s.groups, name).epoch && s.settled <= t.settled
      && s.absent <= t.absent
    requires forall id :: id in s.receipts ==> id in t.receipts && t.receipts[id].article == s.receipts[id].article
    requires s.tracker.lowestLost == t.tracker.lowestLost
    ensures Accounted(t, name, n)
  {
    var a := Article(name, Lookup(s.groups, name).epoch, n);
    if Live(s, a) {
      var id :| id in s.receipts && s.receipts[id].article == a;
      assert t.receipts[id].article == a;
    }
  }

  lemma MarksKept(s: State, t: State)
    requires MarksSafe(s) && t.groups == s.groups && s.settled <= t.settled && s.absent <= t.absent
    ensures MarksSafe(t)
  {
    forall name ensures MarkSafe(t, name, Lookup(t.groups, name).mark) {
      assert MarkSafe(s, name, Lookup(s.groups, name).mark);
    }
  }

  lemma NewReceiptAccounts(t: State, id: nat)
    requires t.driver.Reading? && id in t.receipts && t.receipts[id].article == Next(t)
    ensures Accounted(t, t.driver.group, t.driver.handedOff + 1)
  {
    assert Live(t, Next(t));
  }

  lemma FetchKeepsDriver(s: State, id: nat)
    requires DriverSound(s) && Enabled(s, FetchOk(id))
    ensures DriverSound(Apply(s, FetchOk(id)))
  {
    hide Accounted;
    var t, d := Apply(s, FetchOk(id)), s.driver;
    NewReceiptAccounts(t, id);
    forall n | d.committed < n <= Reached(d) ensures Accounted(t, d.group, n) {
      AccountedKept(s, t, d.group, n);
    }
  }

  lemma FetchKeepsReceipts(s: State, id: nat)
    requires CountExact(s) && ReceiptsSound(s) && Enabled(s, FetchOk(id))
    ensures CountExact(Apply(s, FetchOk(id))) && ReceiptsSound(Apply(s, FetchOk(id)))
  {
    assert Apply(s, FetchOk(id)).receipts.Keys == s.receipts.Keys + {id};
  }

  lemma FetchKeepsInv(s: State, id: nat)
    requires Inv(s) && Enabled(s, FetchOk(id))
    ensures Inv(Apply(s, FetchOk(id)))
  {
    hide DriverSound, MarksSafe, CountExact, ReceiptsSound, IsLowest;
    MarksKept(s, Apply(s, FetchOk(id)));
    FetchKeepsDriver(s, id);
    FetchKeepsReceipts(s, id);
  }

  lemma MissingKeepsInv(s: State)
    requires Inv(s) && Enabled(s, Missing)
    ensures Inv(Apply(s, Missing))
  {
    hide MarksSafe;
    var t := Apply(s, Missing);
    MarksKept(s, t);
    var d := s.driver;
    forall n | d.committed < n <= Reached(d) ensures Accounted(t, d.group, n) {
      AccountedKept(s, t, d.group, n);
    }
  }

  /** With nothing in flight and the losses above the mark, everything up to the
      mark is done. */
  lemma TakeKeepsInv(s: State)
    requires Inv(s) && Enabled(s, Take)
    ensures Inv(Apply(s, Take))
  {
    var t := Apply(s, Take);
    MarksKept(s, t);
    var d, g := s.driver, Lookup(s.groups, s.driver.group);
    assert s.receipts == map[];
    forall n | g.floor < n <= t.driver.stage.safe ensures Done(t, Article(d.group, g.epoch, n)) {
      if n <= d.committed {
        assert MarkSafe(s, d.group, g.mark);
      } else {
        assert Accounted(s, d.group, n);
      }
    }
  }

  lemma StoreKeepsInv(s: State)
    requires Inv(s) && Enabled(s, Store)
    ensures Inv(Apply(s, Store))
  {
    var t := Apply(s, Store);
    forall name ensures MarkSafe(t, name, Lookup(t.groups, name).mark)
                && Lookup(t.groups, name).floor <= Lookup(t.groups, name).mark {
      assert MarkSafe(s, name, Lookup(s.groups, name).mark);
    }
  }

  /** Moving the driver along touches neither groups nor history. */
  lemma DriveKeepsInv(s: State, step: Step)
    requires Inv(s) && Enabled(s, step)
    requires step.Sent? || step.Register? || step.Check? || step.Wake? || step.StopReading? || step.Abort?
    ensures Inv(Apply(s, step))
  {
    hide MarksSafe, Accounted;
    var t := Apply(s, step);
    MarksKept(s, t);
    if t.driver.Reading? {
      forall n | t.driver.committed < n <= Reached(t.driver) ensures Accounted(t, t.driver.group, n) {
        AccountedKept(s, t, t.driver.group, n);
      }
    }
  }

  lemma SettleKeepsInv(s: State, id: nat)
    requires Inv(s) && Enabled(s, Step.Settle(id))
    ensures Inv(Apply(s, Step.Settle(id)))
  {
    var t := Apply(s, Step.Settle(id));
    MarksKept(s, t);
    assert t.receipts.Keys == s.receipts.Keys;
    HistoryKeepsDriver(s, t);
  }

  lemma HistoryKeepsDriver(s: State, t: State)
    requires DriverSound(s) && t.driver == s.driver && t.groups == s.groups && t.tracker == s.tracker
    requires s.settled <= t.settled && s.absent <= t.absent && t.notified == s.notified
    requires forall id :: id in s.receipts ==> id in t.receipts && t.receipts[id].article == s.receipts[id].article
    ensures DriverSound(t)
  {
    if s.driver.Reading? && !s.driver.stage.Storing? {
      forall n | t.driver.committed < n <= Reached(t.driver) ensures Accounted(t, t.driver.group, n) {
        AccountedKept(s, t, t.driver.group, n);
      }
    }
  }

  /** A returning receipt leaves its article either settled or recorded as lost. */
  /** What a dropped receipt accounted for is done, or recorded as lost. */
  lemma DropKeepsAccounted(s: State, id: nat, name: string, n: nat)
    requires ReceiptsSound(s) && Enabled(s, Step.Drop(id)) && Accounted(s, name, n)
    ensures Accounted(Apply(s, Step.Drop(id)), name, n)
  {
    var t := Apply(s, Step.Drop(id));
    var a := Article(name, Lookup(s.groups, name).epoch, n);
    if Live(s, a) {
      var other :| other in s.receipts && s.receipts[other].article == a;
      assert other != id ==> other in t.receipts && t.receipts[other].article == a;
    }
  }

  lemma DropKeepsDriver(s: State, id: nat)
    requires ReceiptsSound(s) && DriverSound(s) && Enabled(s, Step.Drop(id))
    ensures DriverSound(Apply(s, Step.Drop(id)))
  {
    hide Accounted;
    var d := s.driver;
    if d.Reading? && !d.stage.Storing? {
      forall n | d.committed < n <= Reached(d) ensures Accounted(Apply(s, Step.Drop(id)), d.group, n) {
        DropKeepsAccounted(s, id, d.group, n);
      }
    }
  }

  lemma DropKeepsReceipts(s: State, id: nat)
    requires CountExact(s) && ReceiptsSound(s) && Enabled(s, Step.Drop(id))
    ensures CountExact(Apply(s, Step.Drop(id))) && ReceiptsSound(Apply(s, Step.Drop(id)))
  {
    assert Apply(s, Step.Drop(id)).receipts.Keys == s.receipts.Keys - {id};
  }

  lemma DropKeepsLowest(s: State, id: nat)
    requires ReceiptsSound(s) && IsLowest(s.tracker.lowestLost, s.lost) && 0 !in s.lost && Enabled(s, Step.Drop(id))
    ensures var t := Apply(s, Step.Drop(id)); IsLowest(t.tracker.lowestLost, t.lost) && 0 !in t.lost
  {
  }

  lemma DropKeepsInv(s: State, id: nat)
    requires Inv(s) && Enabled(s, Step.Drop(id))
    ensures Inv(Apply(s, Step.Drop(id)))
  {
    hide DriverSound, MarksSafe, CountExact, ReceiptsSound, IsLowest;
    MarksKept(s, Apply(s, Step.Drop(id)));
    DropKeepsDriver(s, id);
    DropKeepsReceipts(s, id);
    DropKeepsLowest(s, id);
  }

  lemma CrashKeepsInv(s: State)
    requires Inv(s)
    ensures Inv(Apply(s, Crash))
  {
    MarksKept(s, Apply(s, Crash));
  }

  lemma StepKeepsInv(s: State, step: Step)
    requires Inv(s) && Enabled(s, step)
    ensures Inv(Apply(s, step))
  {
    match step
    case SelectGroup(name, high, overlap) => SelectKeepsInv(s, name, high, overlap);
    case FetchOk(id) => FetchKeepsInv(s, id);
    case Missing => MissingKeepsInv(s);
    case Take => TakeKeepsInv(s);
    case Store => StoreKeepsInv(s);
    case Settle(id) => SettleKeepsInv(s, id);
    case Drop(id) => DropKeepsInv(s, id);
    case Crash => CrashKeepsInv(s);
    case _ => DriveKeepsInv(s, step);
  }

  lemma {:induction false} RunKeepsInv(s: State, steps: seq<Step>)
    requires Inv(s) && Run(s, steps).Some?
    ensures Inv(Run(s, steps).value)
    decreases |steps|
  {
    if steps != [] {
      StepKeepsInv(s, steps[0]);
      RunKeepsInv(Apply(s, steps[0]), steps[1..]);
    }
  }

  // ---- main results --------------------------------------------------------

  /** Over every interleaving, cycle, error and crash: the counter is the number of
      live receipts, the record is the least loss since the last take, and no stored
      mark covers an article that was neither settled nor reported absent since the mark
      was last reinitialised. */
  lemma NothingBelowTheMarkIsLost(s: State)
    requires Reachable(s)
    ensures s.tracker.inFlight == |s.receipts| && IsLowest(s.tracker.lowestLost, s.lost)
    ensures forall name, n :: Lookup(s.groups, name).floor < n <= Lookup(s.groups, name).mark ==>
      Done(s, Article(name, Lookup(s.groups, name).epoch, n))
  {
    var steps :| Run(Init(), steps) == Some(s);
    InitInv();
    RunKeepsInv(Init(), steps);
    forall name, n | Lookup(s.groups, name).floor < n <= Lookup(s.groups, name).mark
      ensures Done(s, Article(name, Lookup(s.groups, name).epoch, n))
    {
      assert MarkSafe(s, name, Lookup(s.groups, name).mark);
    }
  }

  /** A stored mark moves back exactly when a cycle selects a group whose mark is
      ahead of a non-empty server. */
  lemma MarkMovesBackOnlyOnReset(s: State, step: Step, name: string)
    requires Reachable(s) && Enabled(s, step)
    ensures Lookup(Apply(s, step).groups, name).mark < Lookup(s.groups, name).mark
      <==> step.SelectGroup? && step.name == name && 0 < step.high < Lookup(s.groups, name).mark
  {
    var steps :| Run(Init(), steps) == Some(s);
    InitInv();
    RunKeepsInv(Init(), steps);
  }

  /** It does move back: a first read of a group whose tip is at 200 starts the mark at
      100, and the server then comes back with a tip of 50. */
  lemma MarkCanMoveBack() returns (s: State)
    ensures Reachable(s) && Enabled(s, SelectGroup("g", 50, 100))
    ensures Lookup(Apply(s, SelectGroup("g", 50, 100)).groups, "g").mark < Lookup(s.groups, "g").mark
  {
    var steps := [SelectGroup("g", 200, 100), Abort];
    var t := Apply(Init(), steps[0]);
    s := Apply(t, Abort);
    assert steps[1..] == [Abort] && [Abort][1..] == [];
    assert Run(s, []) == Some(s) && Run(t, [Abort]) == Some(s);
    assert Run(Init(), steps) == Some(s);
  }

  /** No lost wakeup: a waiter that is parked while nothing is in flight has been
      notified, and from any point of the wait the driver reaches `Taking` within
      its own next three steps. */
  lemma QuietWaiterProceeds(s: State)
    requires Reachable(s) && s.tracker.inFlight == 0
    requires At(s, Registering) || At(s, Checking) || At(s, Parked)
    ensures At(s, Parked) ==> s.notified
    ensures exists steps :: OwnSteps(steps) && Run(s, steps).Some? && At(Run(s, steps).value, Taking)
  {
    var steps :| Run(Init(), steps) == Some(s);
    InitInv();
    RunKeepsInv(Init(), steps);
    var own := if At(s, Checking) then [Check] else if At(s, Registering) then [Register, Check]
      else [Wake, Register, Check];
    WaitRuns(s);
    assert Run(s, own).Some? && At(Run(s, own).value, Taking);
  }

  /** At most three steps of the waiting driver alone. */
  predicate OwnSteps(steps: seq<Step>) {
    |steps| <= 3 && forall st :: st in steps ==> st.Register? || st.Check? || st.Wake?
  }

  lemma WaitRuns(s: State)
    requires s.tracker.inFlight == 0 && s.driver.Reading?
    decreases if At(s, Parked) then 2 else if At(s, Registering) then 1 else 0
    ensures At(s, Checking) ==> Run(s, [Check]).Some? && At(Run(s, [Check]).value, Taking)
    ensures At(s, Registering) ==> Run(s, [Register, Check]).Some? && At(Run(s, [Register, Check]).value, Taking)
    ensures At(s, Parked) && s.notified ==>
      Run(s, [Wake, Register, Check]).Some? && At(Run(s, [Wake, Register, Check]).value, Taking)
  {
    if At(s, Checking) {
      assert Run(Apply(s, Check), []) == Some(Apply(s, Check));
      assert [Check][1..] == [];
    } else if At(s, Registering) {
      WaitRuns(Apply(s, Register));
      assert [Register, Check][1..] == [Check];
    } else if At(s, Parked) && s.notified {
      WaitRuns(Apply(s, Wake));
      assert [Wake, Register, Check][1..] == [Register, Check];
    }
  }

  /** The wait ends only by reading zero under the lock, and the counter is still
      zero when the mark is taken. */
  lemma MarkTakenOnlyWhenQuiet(s: State, step: Step)
    requires Reachable(s) && Enabled(s, step)
    ensures At(Apply(s, step), Taking) && !At(s, Taking) ==> step.Check? && s.receipts == map[]
    ensures step.Take? ==> s.receipts == map[]
  {
    var steps :| Run(Init(), steps) == Some(s);
    InitInv();
    RunKeepsInv(Init(), steps);
    assert |s.receipts| == 0 <==> s.receipts == map[];
  }
}
