/** Article receipts and the high-water mark of an NNTP group.

    `TrackerState` is the state behind the tracker's mutex; `Issued`, `Returned`
    and `Taken` are the three critical sections. The classes below them are the
    objects that run those sections in place, and module `Ingest` puts them under
    the fetch loop as a state machine. */
module Events {
  import opened Options

  datatype TrackerState = TrackerState(inFlight: nat, lowestLost: Option<nat>)

  function Issued(s: TrackerState): TrackerState {
    s.(inFlight := s.inFlight + 1)
  }

  function Returned(s: TrackerState, article: nat, settled: bool): TrackerState
    requires s.inFlight > 0
  {
    TrackerState(
      s.inFlight - 1,
      if settled then s.lowestLost
      else match s.lowestLost
        case None => Some(article)
        case Some(lowest) => Some(if lowest < article then lowest else article))
  }

  /** The mark a drained tracker allows; `saturating_sub` stops at article 0. */
  function SafeMark(s: TrackerState, handedOffUpTo: nat): nat {
    match s.lowestLost
    case None => handedOffUpTo
    case Some(lost) =>
      var below := if lost == 0 then 0 else lost - 1;
      if handedOffUpTo < below then handedOffUpTo else below
  }

  function Taken(s: TrackerState): TrackerState {
    s.(lowestLost := None)
  }

  /** `m` is the least element of `lost`, or `None` when nothing was lost. */
  ghost predicate IsLowest(m: Option<nat>, lost: set<nat>) {
    match m
    case None => lost == {}
    case Some(low) => low in lost && forall a :: a in lost ==> low <= a
  }

  class IngestTracker {
    var state: TrackerState
    ghost var live: set<IngestReceipt>  // receipts issued and not yet dropped
    ghost var lost: set<nat>            // articles dropped unsettled since the last take

    ghost predicate Valid()
      reads this, live
    {
      && state.inFlight == |live|
      && IsLowest(state.lowestLost, lost)
      && forall r :: r in live ==> r.tracker == this
    }

    constructor ()
      ensures Valid() && live == {} && lost == {}
    {
      state, live, lost := TrackerState(0, None), {}, {};
    }

    method Issue(article: nat) returns (receipt: IngestReceipt)
      requires Valid()
      modifies this
      ensures Valid() && fresh(receipt) && live == old(live) + {receipt} && lost == old(lost)
      ensures receipt.article == article && !receipt.settled && receipt.tracker == this
    {
      state := Issued(state);
      receipt := new IngestReceipt(this, article);
      live := live + {receipt};
    }

    /** Every loss since the last take lies above the returned mark, and the mark
        stops short of `handedOffUpTo` only right below such a loss. */
    method TakeSafeMark(handedOffUpTo: nat) returns (mark: nat)
      requires Valid()
      modifies this`state, this`lost
      ensures Valid() && live == old(live) && lost == {} && state.inFlight == old(state.inFlight)
      ensures mark <= handedOffUpTo
      ensures 0 !in old(lost) ==> forall a :: a in old(lost) ==> mark < a
      ensures mark == handedOffUpTo || mark + 1 in old(lost) || 0 in old(lost)
    {
      mark := SafeMark(state, handedOffUpTo);
      state := Taken(state);
      lost := {};
    }
  }

  class IngestReceipt {
    const tracker: IngestTracker
    const article: nat
    var settled: bool

    constructor (tracker: IngestTracker, article: nat)
      ensures this.tracker == tracker && this.article == article && !settled
    {
      this.tracker, this.article, this.settled := tracker, article, false;
    }

    method Settle()
      modifies this
      ensures settled
    {
      settled := true;
    }

    /** Ownership makes a receipt drop once, so it is live when it drops. The result
        says whether the tracker's waiters are notified. */
    method Drop() returns (notifyWaiters: bool)
      requires tracker.Valid() && this in tracker.live
      modifies tracker
      ensures tracker.Valid()
      ensures tracker.live == old(tracker.live) - {this}
      ensures tracker.lost == old(tracker.lost) + if settled then {} else {article}
      ensures notifyWaiters <==> tracker.live == {}
    {
      tracker.state := Returned(tracker.state, article, settled);
      tracker.live := tracker.live - {this};
      if !settled {
        tracker.lost := tracker.lost + {article};
      }
      notifyWaiters := tracker.state.inFlight == 0;
    }
  }
}
