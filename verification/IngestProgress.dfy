/** How far the stored mark gets: it stops at a loss and nowhere else, and a cycle that
    nothing disturbs takes it to the tip of its group. */
module IngestProgress {
  import opened Options
  import opened Events
  import opened Ingest

  // ---- runs ----

  lemma {:induction false} RunConcat(s: State, steps: seq<Step>, more: seq<Step>)
    requires Run(s, steps).Some?
    ensures Run(s, steps + more) == Run(Run(s, steps).value, more)
    decreases |steps|
  {
    hide Apply, Enabled;
    if steps == [] {
      assert steps + more == more;
    } else {
      assert (steps + more)[1..] == steps[1..] + more;
      RunConcat(Apply(s, steps[0]), steps[1..], more);
    }
  }

  lemma Run1(s: State, a: Step)
    requires Enabled(s, a)
    ensures Run(s, [a]) == Some(Apply(s, a))
  {
    hide Apply, Enabled;
    assert [a][1..] == [];
    assert Run(Apply(s, a), []) == Some(Apply(s, a));
  }

  lemma Run2(s: State, a: Step, b: Step)
    requires Enabled(s, a) && Enabled(Apply(s, a), b)
    ensures Run(s, [a, b]) == Some(Apply(Apply(s, a), b))
  {
    hide Apply, Enabled, Run;
    Run1(s, a);
    Run1(Apply(s, a), b);
    RunConcat(s, [a], [b]);
    assert [a] + [b] == [a, b];
  }

  lemma ReachableInv(s: State)
    requires Reachable(s)
    ensures Inv(s)
  {
    hide Inv, Apply, Enabled;
    var steps :| Run(Init(), steps) == Some(s);
    InitInv();
    RunKeepsInv(Init(), steps);
  }

  // ---- where the mark stops ----

  predicate NothingLostUpTo(s: State, n: nat) {
    forall a :: a in s.lost ==> a > n
  }

  /** Once taken and stored, the mark has passed exactly the numbers handed off that no loss
      since the last take is at or below. */
  lemma MarkStopsOnlyAtALoss(s: State)
    requires Reachable(s) && At(s, Taking)
    ensures Run(s, [Take, Store]).Some?
    ensures var t, d := Run(s, [Take, Store]).value, s.driver;
      var mark := Lookup(t.groups, d.group).mark;
      d.committed <= mark <= d.handedOff
      && (forall n :: d.committed < n <= d.handedOff ==> (n <= mark <==> NothingLostUpTo(s, n)))
      && forall name :: name != d.group ==> Lookup(t.groups, name) == Lookup(s.groups, name)
  {
    hide Inv, Run;
    ReachableInv(s);
    TakingIsSound(s);
    Run2(s, Take, Store);
  }

  lemma TakingIsSound(s: State)
    requires Inv(s) && At(s, Taking)
    ensures s.driver.committed <= s.driver.handedOff && IsLowest(s.tracker.lowestLost, s.lost) && 0 !in s.lost
    ensures s.driver.committed == Lookup(s.groups, s.driver.group).mark
  {
    hide Accounted, MarksSafe;
  }

  /** So it is right below a loss, at everything handed off, or held back by one from below
      where it was. */
  lemma MarkIsBelowALossOrAtTheEnd(s: State)
    requires Reachable(s) && At(s, Taking)
    ensures Run(s, [Take, Store]).Some?
    ensures var t, d := Run(s, [Take, Store]).value, s.driver;
      var mark := Lookup(t.groups, d.group).mark;
      (mark == d.handedOff || mark + 1 in s.lost || (mark == d.committed && exists a :: a in s.lost && a <= mark))
      && (NothingLostUpTo(s, d.handedOff) ==> mark == d.handedOff)
  {
    hide Inv, Run;
    ReachableInv(s);
    TakingIsSound(s);
    Run2(s, Take, Store);
  }

  // ---- where a cycle starts, and when it stores ----

  /** A cycle starts behind the stored mark; a first read starts an overlap below the tip, and
      a mark ahead of a server that has articles is taken back to 100 below its tip. */
  lemma CycleStartsAtTheMark(s: State, name: string, high: nat, overlap: nat)
    requires s.driver.Idle?
    ensures Run(s, [SelectGroup(name, high, overlap)]).Some?
    ensures var t, stored := Run(s, [SelectGroup(name, high, overlap)]).value, Lookup(s.groups, name).mark;
      var start := Lookup(t.groups, name).mark;
      t.driver == Reading(name, start, start, high, Fetching, false)
      && (stored == 0 && high > overlap ==> start == high - overlap)
      && (stored == 0 && high <= overlap ==> start == 0)
      && (stored > high > 100 ==> start == high - 100)
      && (stored > high && 0 < high <= 100 ==> start == 0)
      && (0 < stored <= high || high == 0 ==> start == stored)
  {
    Run1(s, SelectGroup(name, high, overlap));
  }

  /** A batch is stored as soon as a hundred articles are handed off, and not before. */
  lemma BatchOfAHundred(s: State)
    requires Reachable(s) && At(s, Sending)
    ensures Run(s, [Sent]).Some?
    ensures var t, d := Run(s, [Sent]).value, s.driver;
      t.driver.Reading? && t.driver.handedOff == d.handedOff + 1 && t.driver.committed == d.committed
      && t.driver.stage == if d.handedOff + 1 - d.committed >= 100 then Registering else Fetching
  {
    hide Inv;
    ReachableInv(s);
    SendingIsSound(s);
    Run1(s, Sent);
  }

  lemma SendingIsSound(s: State)
    requires Inv(s) && At(s, Sending)
    ensures s.driver.committed <= s.driver.handedOff
  {
    hide Accounted, MarksSafe;
  }

  // ---- an undisturbed cycle ----

  /** Reading with nothing in flight and nothing lost. */
  ghost predicate Quiet(s: State, name: string, high: nat) {
    && At(s, Fetching) && s.driver.group == name && s.driver.high == high && !s.driver.flush
    && s.receipts == map[] && s.tracker == TrackerState(0, None) && s.lost == {}
    && s.driver.committed == Lookup(s.groups, name).mark <= s.driver.handedOff <= high
  }

  function ReadOne(): seq<Step> {
    [FetchOk(0), Sent, Step.Settle(0), Step.Drop(0)]
  }

  /** One more article, stored and confirmed. */
  lemma ReadsOne(s: State, name: string, high: nat)
    requires Quiet(s, name, high) && s.driver.handedOff < high
    ensures Run(s, ReadOne()).Some?
    ensures var t, d := Run(s, ReadOne()).value, s.driver;
      t.receipts == map[] && t.tracker == TrackerState(0, None) && t.lost == {} && t.groups == s.groups
      && t.driver == d.(handedOff := d.handedOff + 1,
                        stage := if d.handedOff + 1 - d.committed >= 100 then Registering else Fetching)
  {
    hide Run;
    var a := Apply(s, FetchOk(0));
    var b := Apply(a, Sent);
    var c := Apply(b, Step.Settle(0));
    var d := Apply(c, Step.Drop(0));
    assert a.receipts.Keys == {0} && d.receipts.Keys == {};
    Run2(s, FetchOk(0), Sent);
    Run2(b, Step.Settle(0), Step.Drop(0));
    RunConcat(s, [FetchOk(0), Sent], [Step.Settle(0), Step.Drop(0)]);
    assert [FetchOk(0), Sent] + [Step.Settle(0), Step.Drop(0)] == ReadOne();
  }

  function Commit(): seq<Step> {
    [Register, Check, Take, Store]
  }

  /** With nothing in flight, the wait, the take and the store go through, and everything
      handed off is behind the mark. */
  lemma Commits(s: State)
    requires At(s, Registering) && s.tracker == TrackerState(0, None) && s.driver.committed <= s.driver.handedOff
    ensures Run(s, Commit()).Some?
    ensures var t, d := Run(s, Commit()).value, s.driver;
      t.receipts == s.receipts && t.tracker == s.tracker && t.lost == {}
      && Lookup(t.groups, d.group).mark == d.handedOff
      && t.driver == if d.flush then Idle else d.(committed := d.handedOff, stage := Fetching)
  {
    hide Run;
    var checking := Apply(s, Register);
    var taking := Apply(checking, Check);
    Run2(s, Register, Check);
    Run2(taking, Take, Store);
    RunConcat(s, [Register, Check], [Take, Store]);
    assert [Register, Check] + [Take, Store] == Commit();
  }

  /** From one quiet point to the next. */
  lemma Advances(s: State, name: string, high: nat) returns (steps: seq<Step>)
    requires Quiet(s, name, high) && s.driver.handedOff < high
    ensures Run(s, steps).Some?
    ensures var t := Run(s, steps).value; Quiet(t, name, high) && t.driver.handedOff == s.driver.handedOff + 1
  {
    hide Run;
    steps := ReadOne();
    ReadsOne(s, name, high);
    var read := Run(s, steps).value;
    if At(read, Registering) {
      Commits(read);
      RunConcat(s, steps, Commit());
      steps := steps + Commit();
    }
  }

  lemma {:induction false} ReachesTip(s: State, name: string, high: nat) returns (steps: seq<Step>)
    requires Quiet(s, name, high)
    ensures Run(s, steps).Some?
    ensures var t := Run(s, steps).value; t.driver.Idle? && Lookup(t.groups, name).mark == high
    decreases high - s.driver.handedOff
  {
    hide Run, Quiet;
    if s.driver.Reading? && s.driver.handedOff < high {
      var first := Advances(s, name, high);
      var rest := ReachesTip(Run(s, first).value, name, high);
      RunConcat(s, first, rest);
      steps := first + rest;
    } else {
      steps := StopsAtTip(s, name, high);
    }
  }

  /** The final flush, if anything is left to store. */
  lemma StopsAtTip(s: State, name: string, high: nat) returns (steps: seq<Step>)
    requires Quiet(s, name, high) && !(s.driver.Reading? && s.driver.handedOff < high)
    ensures Run(s, steps).Some?
    ensures var t := Run(s, steps).value; t.driver.Idle? && Lookup(t.groups, name).mark == high
  {
    hide Run;
    steps := [StopReading];
    Run1(s, StopReading);
    var stopped := Apply(s, StopReading);
    if At(stopped, Registering) {
      Commits(stopped);
      RunConcat(s, steps, Commit());
      steps := steps + Commit();
    }
  }

  /** Undisturbed, a cycle takes the mark of its group to the tip of the server. */
  lemma UndisturbedCycleReachesTip(s: State, name: string, high: nat, overlap: nat) returns (steps: seq<Step>)
    requires Reachable(s) && s.driver.Idle? && s.receipts == map[] && s.lost == {} && high > 0
    ensures Run(s, [SelectGroup(name, high, overlap)] + steps).Some?
    ensures var t := Run(s, [SelectGroup(name, high, overlap)] + steps).value;
      t.driver.Idle? && Lookup(t.groups, name).mark == high
  {
    hide Run, Inv;
    ReachableInv(s);
    NothingRecorded(s);
    var select := SelectGroup(name, high, overlap);
    Run1(s, select);
    steps := ReachesTip(Apply(s, select), name, high);
    RunConcat(s, [select], steps);
  }

  lemma NothingRecorded(s: State)
    requires Inv(s) && s.receipts == map[] && s.lost == {}
    ensures s.tracker == TrackerState(0, None)
  {
    hide MarksSafe, DriverSound;
  }
}
