/** The benchmark summary: one pass over the results fills the counters, one pass over
    the commits compares findings with what was matched. */
module Benchmark {
  import opened Options
  import opened Text

  /** The status names a result may carry; any other text is `Other`. */
  datatype Status =
    | Detected | PartiallyDetected | Missed | Suppressed | FalsePositive
    | NotReviewed | NotFoundInDb | Unknown | Skipped | Other(text: string)

  datatype MissReason = WronglyDismissed | PreexistingFiltered | ReviewFailed | OtherReason(text: string)

  datatype Behavior = DetectBug | DetectWithAttribution | DetectRegression | SuppressFalsePositive

  datatype Attribution = Correct | Wrong | Missing | Acceptable

  datatype Matched = Matched(index: nat, preexisting: bool)

  datatype EntryResult = EntryResult(
    commit: string,
    behavior: Behavior,
    subsystem: Option<string>,
    found: bool,
    status: Status,
    attribution: Option<Attribution>,
    suppressedWithNoFindings: bool,
    versioned: bool,
    matched: Option<Matched>,
    missReason: Option<MissReason>,
    dismissedByStage: Option<string>)

  // ---- what each counter counts ----

  datatype Kind =
    | KDetected | KPartial | KMissed | KSuppressed | KFalsePositive | KNotReviewed | KEvaluationFailed | KSkipped
    | KDetectionFailed | KSuppressionFailed | KSuppressedWithNoFindings
    | KExpected | KAttributed | KWrong | KMissing | KUnexpected | KAcceptable | KAcceptableOnExpected
    | KNotRaised | KWronglyDismissed | KPreexistingFiltered | KReviewFailed

  predicate Suppresses(r: EntryResult) {
    r.behavior == SuppressFalsePositive
  }

  predicate Expects(r: EntryResult) {
    r.behavior == DetectWithAttribution
  }

  predicate IsScored(r: EntryResult) {
    if r.versioned then r.status != Skipped
    else r.status in {Detected, PartiallyDetected, Missed, Suppressed, FalsePositive}
  }

  /** Never judged. */
  predicate IsFailure(s: Status) {
    s == NotReviewed || s == NotFoundInDb || s == Unknown
  }

  predicate Is(k: Kind, r: EntryResult) {
    match k
    case KDetected => r.status == Detected
    case KPartial => r.status == PartiallyDetected
    case KMissed => r.status == Missed
    case KSuppressed => r.status == Suppressed
    case KFalsePositive => r.status == FalsePositive
    case KNotReviewed => r.status == NotReviewed || r.status == NotFoundInDb
    case KEvaluationFailed => r.status == Unknown
    case KSkipped => r.status == Skipped
    case KDetectionFailed => r.versioned && IsFailure(r.status) && !Suppresses(r)
    case KSuppressionFailed => r.versioned && IsFailure(r.status) && Suppresses(r)
    case KSuppressedWithNoFindings => IsScored(r) && Suppresses(r) && r.suppressedWithNoFindings
    case KExpected => IsScored(r) && Expects(r)
    case KAttributed => IsScored(r) && Expects(r) && r.attribution == Some(Correct)
    case KWrong => IsScored(r) && Expects(r) && r.attribution == Some(Wrong)
    case KMissing => IsScored(r) && Expects(r) && (r.attribution == None || r.attribution == Some(Missing))
    case KUnexpected => IsScored(r) && !Expects(r) && r.attribution == Some(Wrong)
    case KAcceptable => IsScored(r) && r.attribution == Some(Acceptable)
    case KAcceptableOnExpected => IsScored(r) && Expects(r) && r.attribution == Some(Acceptable)
    case KNotRaised => r.status == Missed && (r.missReason.None? || r.missReason.value.OtherReason?)
    case KWronglyDismissed => r.status == Missed && r.missReason == Some(WronglyDismissed)
    case KPreexistingFiltered => r.status == Missed && r.missReason == Some(PreexistingFiltered)
    case KReviewFailed => (r.status == Missed && r.missReason == Some(ReviewFailed))
                          || r.status == NotReviewed || r.status == NotFoundInDb
  }

  /** The positions of the results a counter counts. */
  function Positions(k: Kind, rs: seq<EntryResult>): set<nat> {
    set i: nat | i < |rs| && Is(k, rs[i])
  }

  function Count(k: Kind, rs: seq<EntryResult>): nat {
    |Positions(k, rs)|
  }

  datatype Counters = Counters(
    detected: nat, partial: nat, missed: nat, suppressed: nat, falsePositives: nat,
    notReviewed: nat, evaluationFailed: nat, skipped: nat,
    detectionFailed: nat, suppressionFailed: nat, suppressedWithNoFindings: nat,
    expected: nat, attributed: nat, wrong: nat, missing: nat, unexpected: nat,
    acceptable: nat, acceptableOnExpected: nat,
    notRaised: nat, wronglyDismissed: nat, preexistingFiltered: nat, reviewFailed: nat)
  {
    function At(k: Kind): nat {
      match k
      case KDetected => detected
      case KPartial => partial
      case KMissed => missed
      case KSuppressed => suppressed
      case KFalsePositive => falsePositives
      case KNotReviewed => notReviewed
      case KEvaluationFailed => evaluationFailed
      case KSkipped => skipped
      case KDetectionFailed => detectionFailed
      case KSuppressionFailed => suppressionFailed
      case KSuppressedWithNoFindings => suppressedWithNoFindings
      case KExpected => expected
      case KAttributed => attributed
      case KWrong => wrong
      case KMissing => missing
      case KUnexpected => unexpected
      case KAcceptable => acceptable
      case KAcceptableOnExpected => acceptableOnExpected
      case KNotRaised => notRaised
      case KWronglyDismissed => wronglyDismissed
      case KPreexistingFiltered => preexistingFiltered
      case KReviewFailed => reviewFailed
    }
  }

  /** A counter that a result's status or reason moves, rather than its scoring. */
  predicate ByStatus(k: Kind) {
    match k
    case KDetected | KPartial | KMissed | KSuppressed | KFalsePositive | KNotReviewed | KEvaluationFailed
      | KSkipped => true
    case KNotRaised | KWronglyDismissed | KPreexistingFiltered | KReviewFailed => true
    case _ => false
  }

  function Zero(): Counters {
    Counters(0, 0, 0, 0, 0, 0, 0, 0, 0, 0, 0, 0, 0, 0, 0, 0, 0, 0, 0, 0, 0, 0)
  }

  function Bit(b: bool): nat {
    if b then 1 else 0
  }

  /** The counters after the attribution of one scored result. */
  function AddAttribution(c: Counters, r: EntryResult): Counters {
    match (Expects(r), r.attribution)
    case (true, Some(Correct)) => c.(expected := c.expected + 1, attributed := c.attributed + 1)
    case (true, Some(Wrong)) => c.(expected := c.expected + 1, wrong := c.wrong + 1)
    case (true, Some(Acceptable)) =>
      c.(expected := c.expected + 1, acceptable := c.acceptable + 1, acceptableOnExpected := c.acceptableOnExpected + 1)
    case (true, _) => c.(expected := c.expected + 1, missing := c.missing + 1)
    case (false, Some(Acceptable)) => c.(acceptable := c.acceptable + 1)
    case (false, Some(Wrong)) => c.(unexpected := c.unexpected + 1)
    case (false, _) => c
  }

  /** The counters after the failure, if any, of one scored result. */
  function AddFailure(c: Counters, r: EntryResult): Counters {
    var failed := r.versioned && IsFailure(r.status);
    c.(detectionFailed := c.detectionFailed + Bit(failed && !Suppresses(r)),
       suppressionFailed := c.suppressionFailed + Bit(failed && Suppresses(r)),
       suppressedWithNoFindings := c.suppressedWithNoFindings + Bit(Suppresses(r) && r.suppressedWithNoFindings))
  }

  function AddMiss(c: Counters, reason: Option<MissReason>): Counters {
    match reason
    case Some(WronglyDismissed) => c.(missed := c.missed + 1, wronglyDismissed := c.wronglyDismissed + 1)
    case Some(PreexistingFiltered) => c.(missed := c.missed + 1, preexistingFiltered := c.preexistingFiltered + 1)
    case Some(ReviewFailed) => c.(missed := c.missed + 1, reviewFailed := c.reviewFailed + 1)
    case _ => c.(missed := c.missed + 1, notRaised := c.notRaised + 1)
  }

  /** The counters after the status of one result. */
  function AddStatus(c: Counters, r: EntryResult): Counters {
    match r.status
    case Detected => c.(detected := c.detected + 1)
    case PartiallyDetected => c.(partial := c.partial + 1)
    case Missed => AddMiss(c, r.missReason)
    case Suppressed => c.(suppressed := c.suppressed + 1)
    case FalsePositive => c.(falsePositives := c.falsePositives + 1)
    case NotReviewed => c.(notReviewed := c.notReviewed + 1, reviewFailed := c.reviewFailed + 1)
    case NotFoundInDb => c.(notReviewed := c.notReviewed + 1, reviewFailed := c.reviewFailed + 1)
    case Unknown => c.(evaluationFailed := c.evaluationFailed + 1)
    case Skipped => c.(skipped := c.skipped + 1)
    case Other(_) => c
  }

  function Add(c: Counters, r: EntryResult): Counters {
    AddStatus(if IsScored(r) then AddFailure(AddAttribution(c, r), r) else c, r)
  }

  lemma AddStatusAt(c: Counters, r: EntryResult, k: Kind)
    ensures AddStatus(c, r).At(k) == c.At(k) + Bit(ByStatus(k) && Is(k, r))
  {
  }

  lemma AddScoredAt(c: Counters, r: EntryResult, k: Kind)
    ensures (if IsScored(r) then AddFailure(AddAttribution(c, r), r) else c).At(k)
         == c.At(k) + Bit(!ByStatus(k) && Is(k, r))
  {
  }

  lemma AddAt(c: Counters, r: EntryResult, k: Kind)
    ensures Add(c, r).At(k) == c.At(k) + Bit(Is(k, r))
  {
    hide Is, ByStatus, AddStatus, AddAttribution, AddFailure, IsScored;
    AddScoredAt(c, r, k);
    AddStatusAt(if IsScored(r) then AddFailure(AddAttribution(c, r), r) else c, r, k);
  }

  lemma CountSnoc(k: Kind, rs: seq<EntryResult>, r: EntryResult)
    ensures Count(k, rs + [r]) == Count(k, rs) + Bit(Is(k, r))
  {
    hide Is;
    var all := rs + [r];
    var before, after := Positions(k, rs), Positions(k, all);
    forall i: nat ensures i in after <==> i in before || (i == |rs| && Is(k, r)) {
      if i < |rs| {
        assert all[i] == rs[i];
      }
    }
    if Is(k, r) {
      assert after == before + {|rs|};
    } else {
      assert after == before;
    }
  }

  lemma CountNone(k: Kind)
    ensures Count(k, []) == 0
  {
    assert Positions(k, []) == {};
  }

  method CountAttribution(c: Counters, r: EntryResult) returns (d: Counters)
    ensures d == AddAttribution(c, r)
  {
    d := c;
    if Expects(r) {
      d := d.(expected := d.expected + 1);
    }
    match (Expects(r), r.attribution) {
      case (true, Some(Correct)) => d := d.(attributed := d.attributed + 1);
      case (true, Some(Wrong)) => d := d.(wrong := d.wrong + 1);
      case (true, Some(Acceptable)) =>
        d := d.(acceptable := d.acceptable + 1, acceptableOnExpected := d.acceptableOnExpected + 1);
      case (false, Some(Acceptable)) => d := d.(acceptable := d.acceptable + 1);
      case (true, _) => d := d.(missing := d.missing + 1);
      case (false, Some(Wrong)) => d := d.(unexpected := d.unexpected + 1);
      case (false, _) =>
    }
  }

  method CountFailure(c: Counters, r: EntryResult) returns (d: Counters)
    ensures d == AddFailure(c, r)
  {
    d := c;
    var failed := r.versioned && IsFailure(r.status);
    if Suppresses(r) {
      if failed {
        d := d.(suppressionFailed := d.suppressionFailed + 1);
      }
      if r.suppressedWithNoFindings {
        d := d.(suppressedWithNoFindings := d.suppressedWithNoFindings + 1);
      }
    } else if failed {
      d := d.(detectionFailed := d.detectionFailed + 1);
    }
  }

  /** total, detected, partially detected and missed of one subsystem */
  datatype Bucket = Bucket(total: nat, detected: nat, partial: nat, missed: nat)

  function BucketAt(buckets: map<string, Bucket>, name: string): Bucket {
    if name in buckets then buckets[name] else Bucket(0, 0, 0, 0)
  }

  function Subsystem(r: EntryResult): string {
    match r.subsystem
    case Some(s) => if Trim(s) != "" then Trim(s) else "unspecified"
    case None => "unspecified"
  }

  function Stage(r: EntryResult): string {
    r.dismissedByStage.GetOr("verification")
  }

  datatype Breakdown = Breakdown(subsystems: map<string, Bucket>, dismissals: map<string, nat>)

  /** How many of the results are of kind `k` and in subsystem, or stage, `name`. */
  function CountIn(k: Kind, rs: seq<EntryResult>, name: string, byStage: bool): nat {
    |InGroup(k, rs, name, byStage)|
  }

  function InGroup(k: Kind, rs: seq<EntryResult>, name: string, byStage: bool): set<nat> {
    set i: nat | i < |rs| && Is(k, rs[i]) && Group(rs[i], byStage) == name
  }

  function Group(r: EntryResult, byStage: bool): string {
    if byStage then Stage(r) else Subsystem(r)
  }

  function TallyAt(m: map<string, nat>, name: string): nat {
    if name in m then m[name] else 0
  }

  method CountStatus(c: Counters, b: Breakdown, r: EntryResult) returns (d: Counters, e: Breakdown)
    ensures d == AddStatus(c, r)
    ensures e.subsystems == if r.status == Detected || r.status == PartiallyDetected || r.status == Missed
                            then b.subsystems[Subsystem(r) := Bumped(BucketAt(b.subsystems, Subsystem(r)), r)]
                            else b.subsystems
    ensures e.dismissals == if r.status == Missed && r.missReason == Some(WronglyDismissed)
                            then b.dismissals[Stage(r) := TallyAt(b.dismissals, Stage(r)) + 1]
                            else b.dismissals
  {
    hide Trim;
    d, e := c, b;
    var name := Subsystem(r);
    match r.status
    case Detected =>
      var bucket := BucketAt(e.subsystems, name);
      d := d.(detected := d.detected + 1);
      e := e.(subsystems := e.subsystems[name := bucket.(total := bucket.total + 1, detected := bucket.detected + 1)]);
    case PartiallyDetected =>
      var bucket := BucketAt(e.subsystems, name);
      d := d.(partial := d.partial + 1);
      e := e.(subsystems := e.subsystems[name := bucket.(total := bucket.total + 1, partial := bucket.partial + 1)]);
    case Missed =>
      var bucket := BucketAt(e.subsystems, name);
      d := d.(missed := d.missed + 1);
      e := e.(subsystems := e.subsystems[name := bucket.(total := bucket.total + 1, missed := bucket.missed + 1)]);
      match r.missReason {
        case Some(WronglyDismissed) =>
          d := d.(wronglyDismissed := d.wronglyDismissed + 1);
          e := e.(dismissals := e.dismissals[Stage(r) := TallyAt(e.dismissals, Stage(r)) + 1]);
        case Some(PreexistingFiltered) => d := d.(preexistingFiltered := d.preexistingFiltered + 1);
        case Some(ReviewFailed) => d := d.(reviewFailed := d.reviewFailed + 1);
        case _ => d := d.(notRaised := d.notRaised + 1);
      }
    case Suppressed => d := d.(suppressed := d.suppressed + 1);
    case FalsePositive => d := d.(falsePositives := d.falsePositives + 1);
    case NotReviewed => d := d.(notReviewed := d.notReviewed + 1, reviewFailed := d.reviewFailed + 1);
    case NotFoundInDb => d := d.(notReviewed := d.notReviewed + 1, reviewFailed := d.reviewFailed + 1);
    case Unknown => d := d.(evaluationFailed := d.evaluationFailed + 1);
    case Skipped => d := d.(skipped := d.skipped + 1);
    case Other(_) =>
  }

  function Bumped(b: Bucket, r: EntryResult): Bucket {
    Bucket(b.total + 1,
           b.detected + if r.status == Detected then 1 else 0,
           b.partial + if r.status == PartiallyDetected then 1 else 0,
           b.missed + if r.status == Missed then 1 else 0)
  }

  // ---- the pass over the results ----

  lemma CountInSnoc(k: Kind, rs: seq<EntryResult>, r: EntryResult, name: string, byStage: bool)
    ensures CountIn(k, rs + [r], name, byStage)
         == CountIn(k, rs, name, byStage) + Bit(Is(k, r) && Group(r, byStage) == name)
  {
    hide Is, Group;
    var all := rs + [r];
    var before, after := InGroup(k, rs, name, byStage), InGroup(k, all, name, byStage);
    forall i: nat ensures i in after <==> i in before || (i == |rs| && Is(k, r) && Group(r, byStage) == name) {
      if i < |rs| {
        assert all[i] == rs[i];
      }
    }
    if Is(k, r) && Group(r, byStage) == name {
      assert after == before + {|rs|};
    } else {
      assert after == before;
    }
  }

  function SubsystemBucket(rs: seq<EntryResult>, name: string): Bucket {
    var detected, partial := CountIn(KDetected, rs, name, false), CountIn(KPartial, rs, name, false);
    var missed := CountIn(KMissed, rs, name, false);
    Bucket(detected + partial + missed, detected, partial, missed)
  }

  /** Every bucket counts its own results. */
  ghost predicate IsBreakdown(b: Breakdown, rs: seq<EntryResult>) {
    && (forall name :: BucketAt(b.subsystems, name) == SubsystemBucket(rs, name))
    && (forall stage :: TallyAt(b.dismissals, stage) == CountIn(KWronglyDismissed, rs, stage, true))
  }

  lemma SubsystemSnoc(rs: seq<EntryResult>, r: EntryResult, name: string)
    ensures SubsystemBucket(rs + [r], name)
         == if Subsystem(r) == name && (r.status == Detected || r.status == PartiallyDetected || r.status == Missed)
            then Bumped(SubsystemBucket(rs, name), r) else SubsystemBucket(rs, name)
  {
    hide Subsystem, CountIn;
    CountInSnoc(KDetected, rs, r, name, false);
    CountInSnoc(KPartial, rs, r, name, false);
    CountInSnoc(KMissed, rs, r, name, false);
  }

  lemma BreakdownSnoc(b: Breakdown, e: Breakdown, rs: seq<EntryResult>, r: EntryResult)
    requires IsBreakdown(b, rs)
    requires e.subsystems == if r.status == Detected || r.status == PartiallyDetected || r.status == Missed
                             then b.subsystems[Subsystem(r) := Bumped(BucketAt(b.subsystems, Subsystem(r)), r)]
                             else b.subsystems
    requires e.dismissals == if r.status == Missed && r.missReason == Some(WronglyDismissed)
                             then b.dismissals[Stage(r) := TallyAt(b.dismissals, Stage(r)) + 1]
                             else b.dismissals
    ensures IsBreakdown(e, rs + [r])
  {
    hide CountIn, Subsystem, Bumped, SubsystemBucket, Stage;
    forall name ensures BucketAt(e.subsystems, name) == SubsystemBucket(rs + [r], name) {
      SubsystemSnoc(rs, r, name);
    }
    forall stage ensures TallyAt(e.dismissals, stage) == CountIn(KWronglyDismissed, rs + [r], stage, true) {
      CountInSnoc(KWronglyDismissed, rs, r, stage, true);
    }
  }

  ghost predicate Counts(c: Counters, rs: seq<EntryResult>) {
    forall k :: c.At(k) == Count(k, rs)
  }

  lemma CountsSnoc(c: Counters, rs: seq<EntryResult>, r: EntryResult)
    requires Counts(c, rs)
    ensures Counts(Add(c, r), rs + [r])
  {
    hide Count, Add, Is;
    forall k ensures Add(c, r).At(k) == Count(k, rs + [r]) {
      AddAt(c, r, k);
      CountSnoc(k, rs, r);
    }
  }

  method CountResults(results: seq<EntryResult>) returns (c: Counters, b: Breakdown)
    ensures Counts(c, results) && IsBreakdown(b, results)
  {
    hide Counts, IsBreakdown, AddStatus, AddAttribution, AddFailure, IsScored, Subsystem, Stage, Bumped;
    c, b := Zero(), Breakdown(map[], map[]);
    NothingCounted();
    for i := 0 to |results|
      invariant Counts(c, results[..i]) && IsBreakdown(b, results[..i])
    {
      var r := results[i];
      ghost var c0, b0 := c, b;
      if IsScored(r) {
        c := CountAttribution(c, r);
        c := CountFailure(c, r);
      }
      c, b := CountStatus(c, b, r);
      CountsSnoc(c0, results[..i], r);
      BreakdownSnoc(b0, b, results[..i], r);
      assert results[..i + 1] == results[..i] + [r];
    }
    assert results[..|results|] == results;
  }

  lemma NothingCounted()
    ensures Counts(Zero(), []) && IsBreakdown(Breakdown(map[], map[]), [])
  {
    forall k ensures Zero().At(k) == Count(k, []) {
      CountNone(k);
    }
    forall k, name, byStage ensures CountIn(k, [], name, byStage) == 0 {
      assert InGroup(k, [], name, byStage) == {};
    }
  }

  // ---- the books balance ----

  /** What all the results add up to. */
  function Total(rs: seq<EntryResult>): Counters {
    if rs == [] then Zero() else Add(Total(rs[..|rs| - 1]), rs[|rs| - 1])
  }

  lemma {:induction false} TotalCounts(rs: seq<EntryResult>)
    ensures Counts(Total(rs), rs)
  {
    hide Add, Counts;
    if rs == [] {
      NothingCounted();
    } else {
      var front, last := rs[..|rs| - 1], rs[|rs| - 1];
      TotalCounts(front);
      assert rs == front + [last];
      CountsSnoc(Total(front), front, last);
    }
  }

  lemma CountsAreTotal(c: Counters, rs: seq<EntryResult>)
    requires Counts(c, rs)
    ensures c == Total(rs)
  {
    hide Count, Total;
    TotalCounts(rs);
    SameCounters(c, Total(rs));
  }

  lemma SameCounters(c: Counters, t: Counters)
    requires forall k :: c.At(k) == t.At(k)
    ensures c == t
  {
    assert c.At(KDetected) == t.At(KDetected);
    assert c.At(KPartial) == t.At(KPartial);
    assert c.At(KMissed) == t.At(KMissed);
    assert c.At(KSuppressed) == t.At(KSuppressed);
    assert c.At(KFalsePositive) == t.At(KFalsePositive);
    assert c.At(KNotReviewed) == t.At(KNotReviewed);
    assert c.At(KEvaluationFailed) == t.At(KEvaluationFailed);
    assert c.At(KSkipped) == t.At(KSkipped);
    assert c.At(KDetectionFailed) == t.At(KDetectionFailed);
    assert c.At(KSuppressionFailed) == t.At(KSuppressionFailed);
    assert c.At(KSuppressedWithNoFindings) == t.At(KSuppressedWithNoFindings);
    assert c.At(KExpected) == t.At(KExpected);
    assert c.At(KAttributed) == t.At(KAttributed);
    assert c.At(KWrong) == t.At(KWrong);
    assert c.At(KMissing) == t.At(KMissing);
    assert c.At(KUnexpected) == t.At(KUnexpected);
    assert c.At(KAcceptable) == t.At(KAcceptable);
    assert c.At(KAcceptableOnExpected) == t.At(KAcceptableOnExpected);
    assert c.At(KNotRaised) == t.At(KNotRaised);
    assert c.At(KWronglyDismissed) == t.At(KWronglyDismissed);
    assert c.At(KPreexistingFiltered) == t.At(KPreexistingFiltered);
    assert c.At(KReviewFailed) == t.At(KReviewFailed);
  }

  function MissReasons(c: Counters): nat {
    c.notRaised + c.wronglyDismissed + c.preexistingFiltered + c.reviewFailed
  }

  function Outcomes(c: Counters): nat {
    c.detected + c.partial + c.missed + c.suppressed + c.falsePositives + c.notReviewed + c.evaluationFailed + c.skipped
  }

  function Evaluated(c: Counters): nat {
    c.detected + c.partial + c.missed + c.detectionFailed
  }

  function SuppressionEvaluated(c: Counters): nat {
    c.suppressed + c.falsePositives + c.suppressionFailed
  }

  function Scored(c: Counters): nat {
    Evaluated(c) + SuppressionEvaluated(c) + c.skipped
  }

  function Verdicts(c: Counters): nat {
    c.attributed + c.wrong + c.missing + c.acceptableOnExpected
  }

  /** The identities that hold of any counters the pass can reach. */
  predicate Balanced(c: Counters) {
    && MissReasons(c) == c.missed + c.notReviewed
    && c.expected == Verdicts(c)
    && c.acceptableOnExpected <= c.acceptable
  }

  lemma StatusSums(c: Counters, r: EntryResult)
    ensures Balanced(c) ==> Balanced(AddStatus(c, r))
    ensures Outcomes(AddStatus(c, r)) == Outcomes(c) + Bit(!r.status.Other?)
    ensures Scored(AddStatus(c, r)) == Scored(c) + Bit(!r.status.Other? && !IsFailure(r.status))
  {
    hide Balanced;
    StatusBalances(c, r);
  }

  lemma StatusBalances(c: Counters, r: EntryResult)
    ensures Balanced(c) ==> Balanced(AddStatus(c, r))
  {
  }

  lemma AttributionSums(c: Counters, r: EntryResult)
    ensures var d := AddAttribution(c, r);
      (Balanced(c) ==> Balanced(d)) && Outcomes(d) == Outcomes(c) && Scored(d) == Scored(c)
  {
  }

  lemma FailureSums(c: Counters, r: EntryResult)
    ensures var d := AddFailure(c, r);
      (Balanced(c) ==> Balanced(d)) && Outcomes(d) == Outcomes(c)
      && Scored(d) == Scored(c) + Bit(r.versioned && IsFailure(r.status))
  {
    hide Suppresses;
  }

  lemma AddSums(c: Counters, r: EntryResult)
    ensures Balanced(c) ==> Balanced(Add(c, r))
    ensures Outcomes(Add(c, r)) == Outcomes(c) + Bit(!r.status.Other?)
    ensures Scored(Add(c, r)) == Scored(c) + Bit(!r.status.Other? && (r.versioned || !IsFailure(r.status)))
  {
    hide AddStatus, AddAttribution, AddFailure, Balanced, Outcomes, Scored;
    AttributionSums(c, r);
    FailureSums(AddAttribution(c, r), r);
    StatusSums(if IsScored(r) then AddFailure(AddAttribution(c, r), r) else c, r);
  }

  lemma ZeroSums(z: Counters)
    requires z == Zero()
    ensures Balanced(z) && Outcomes(z) == 0 && Scored(z) == 0
  {
    hide Zero;
    ZeroFields(z);
  }

  lemma ZeroFields(z: Counters)
    requires z == Zero()
    ensures z.detected == z.partial == z.missed == z.suppressed == z.falsePositives == z.notReviewed == 0
    ensures z.evaluationFailed == z.skipped == z.detectionFailed == z.suppressionFailed == 0
    ensures z.expected == z.attributed == z.wrong == z.missing == z.acceptable == z.acceptableOnExpected == 0
    ensures z.notRaised == z.wronglyDismissed == z.preexistingFiltered == z.reviewFailed == 0
  {
  }

  /** Every miss has one reason, and every expected attribution one verdict, whatever the
      results are. */
  lemma {:induction false} MissesAndAttributionsBalance(rs: seq<EntryResult>)
    ensures Balanced(Total(rs))
  {
    hide Add, Balanced, Zero;
    if rs == [] {
      ZeroSums(Total(rs));
    } else {
      MissesAndAttributionsBalance(rs[..|rs| - 1]);
      AddSums(Total(rs[..|rs| - 1]), rs[|rs| - 1]);
    }
  }

  predicate AllRecognised(rs: seq<EntryResult>) {
    forall r :: r in rs ==> !r.status.Other?
  }

  predicate OnlyVersionedFail(rs: seq<EntryResult>) {
    forall r :: r in rs ==> r.versioned || !IsFailure(r.status)
  }

  /** The eight outcome counters sum to the number of results exactly when every status is
      a recognised one. The scored entries and the skipped ones do exactly when, besides,
      only versioned entries failed to be judged. Neither sum ever exceeds it. */
  lemma {:induction false} OutcomesSumToTotal(rs: seq<EntryResult>)
    ensures Outcomes(Total(rs)) <= |rs| && (Outcomes(Total(rs)) == |rs| <==> AllRecognised(rs))
    ensures Scored(Total(rs)) <= |rs| && (Scored(Total(rs)) == |rs| <==> AllRecognised(rs) && OnlyVersionedFail(rs))
  {
    hide Add, IsFailure, Outcomes, Scored, Zero;
    if rs == [] {
      ZeroSums(Total(rs));
    } else {
      var front, last := rs[..|rs| - 1], rs[|rs| - 1];
      OutcomesSumToTotal(front);
      AddSums(Total(front), last);
      assert rs == front + [last];
      assert AllRecognised(rs) <==> AllRecognised(front) && !last.status.Other?;
      assert OnlyVersionedFail(rs) <==> OnlyVersionedFail(front) && (last.versioned || !IsFailure(last.status));
    }
  }

  /** An entry that is not versioned and was never judged is neither scored nor skipped. */
  lemma UnjudgedClassicEntryIsNowhere(r: EntryResult)
    requires IsFailure(r.status) && !r.versioned
    ensures Outcomes(Total([r])) == 1 && Scored(Total([r])) == 0
  {
    hide Add, Outcomes, Scored, Zero;
    assert [r][..0] == [];
    ZeroSums(Total([]));
    AddSums(Total([]), r);
  }

  /** What the summary reports adds up. */
  lemma SummaryBalances(c: Counters, rs: seq<EntryResult>)
    requires Counts(c, rs)
    ensures c.notRaised + c.wronglyDismissed + c.preexistingFiltered + c.reviewFailed == c.missed + c.notReviewed
    ensures c.expected - c.acceptableOnExpected == c.attributed + c.wrong + c.missing
    ensures Outcomes(c) == |rs| <==> AllRecognised(rs)
    ensures (forall r :: r in rs ==> r.versioned) ==>
      (|rs| == Evaluated(c) + SuppressionEvaluated(c) + c.skipped <==> AllRecognised(rs))
  {
    hide Counts, Total;
    CountsAreTotal(c, rs);
    MissesAndAttributionsBalance(rs);
    OutcomesSumToTotal(rs);
  }

  ghost function Sum(m: map<string, nat>, names: set<string>): nat
    decreases names
  {
    if names == {} then 0
    else
      var name :| name in names;
      TallyAt(m, name) + Sum(m, names - {name})
  }

  lemma {:induction false} SumWithout(m: map<string, nat>, names: set<string>, x: string)
    requires x in names
    ensures Sum(m, names) == TallyAt(m, x) + Sum(m, names - {x})
    decreases names
  {
    var name :| name in names && Sum(m, names) == TallyAt(m, name) + Sum(m, names - {name});
    if name != x {
      SumWithout(m, names - {name}, x);
      SumWithout(m, names - {x}, name);
      assert names - {name} - {x} == names - {x} - {name};
    }
  }

  function InGroups(k: Kind, rs: seq<EntryResult>, names: set<string>, byStage: bool): set<nat> {
    set i: nat | i < |rs| && Is(k, rs[i]) && Group(rs[i], byStage) in names
  }

  lemma InGroupsSplit(k: Kind, rs: seq<EntryResult>, names: set<string>, x: string, byStage: bool)
    requires x in names
    ensures |InGroups(k, rs, names, byStage)| == |InGroup(k, rs, x, byStage)| + |InGroups(k, rs, names - {x}, byStage)|
  {
    hide Is, Group;
    var all, mine, rest := InGroups(k, rs, names, byStage), InGroup(k, rs, x, byStage),
      InGroups(k, rs, names - {x}, byStage);
    assert all == mine + rest && mine !! rest;
  }

  lemma {:induction false} SumOfCounts(k: Kind, rs: seq<EntryResult>, m: map<string, nat>, names: set<string>,
          byStage: bool)
    requires forall name :: name in names ==> TallyAt(m, name) == CountIn(k, rs, name, byStage)
    ensures Sum(m, names) == |InGroups(k, rs, names, byStage)|
    decreases names
  {
    hide Is, Group, InGroup, InGroups, TallyAt;
    if names == {} {
      assert InGroups(k, rs, names, byStage) == {} by {
        NoGroups(k, rs, byStage);
      }
    } else {
      var x :| x in names;
      SumWithout(m, names, x);
      SumOfCounts(k, rs, m, names - {x}, byStage);
      InGroupsSplit(k, rs, names, x, byStage);
    }
  }

  lemma NoGroups(k: Kind, rs: seq<EntryResult>, byStage: bool)
    ensures InGroups(k, rs, {}, byStage) == {}
  {
  }

  /** Every wrongly dismissed miss is under exactly one stage. */
  lemma DismissalsSumToCounter(b: Breakdown, rs: seq<EntryResult>)
    requires IsBreakdown(b, rs)
    ensures Sum(b.dismissals, b.dismissals.Keys) == Count(KWronglyDismissed, rs)
  {
    hide Group, SubsystemBucket, Is;
    SumOfCounts(KWronglyDismissed, rs, b.dismissals, b.dismissals.Keys, true);
    forall i: nat | i < |rs| && Is(KWronglyDismissed, rs[i]) ensures Group(rs[i], true) in b.dismissals {
      var stage := Group(rs[i], true);
      assert i in InGroup(KWronglyDismissed, rs, stage, true);
      assert CountIn(KWronglyDismissed, rs, stage, true) > 0;
    }
    assert Positions(KWronglyDismissed, rs) == InGroups(KWronglyDismissed, rs, b.dismissals.Keys, true);
  }
}
