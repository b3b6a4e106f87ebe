/** What the benchmark's results and counters mean, case by case. */
module BenchmarkResults {
  import opened Options
  import opened Text
  import opened Benchmark
  import opened BenchmarkCommits
  import opened BenchmarkEvaluation

  // ---- one entry ----

  ghost predicate Undescribed(e: Entry) {
    e.description.None? || Trim(e.description.value) == ""
  }

  /** The review says nothing at all about a claim that ought to be suppressed. */
  ghost predicate Silent(e: Entry, data: CommitData) {
    e.behavior == SuppressFalsePositive && data.findings == []
  }

  /** The status of an entry: not judged without a description, a patch, a completed review or a
      verdict; a claim to be suppressed is suppressed unless the judge finds it raised; anything
      else is what the judge says. */
  lemma StatusIs(e: Entry, data: Option<CommitData>, verdict: Option<Verdict>, score: Score)
    ensures var s := Evaluate(e, data, verdict, score).status;
      if Undescribed(e) then s == Skipped
      else if data.None? || !data.value.hasPatch then s == NotFoundInDb
      else if !data.value.completed then s == NotReviewed
      else if Silent(e, data.value) then s == Suppressed
      else if verdict.None? then s == Unknown
      else
        match verdict.value.judgement
        case JMissed => s == if e.behavior == SuppressFalsePositive then Suppressed else Missed
        case JDetected => s == if e.behavior == SuppressFalsePositive then FalsePositive else Detected
        case JPartial => s == if e.behavior == SuppressFalsePositive then FalsePositive else PartiallyDetected
  {
    hide Trim;
  }

  /** Found is what was detected, in part or whole, and what was rightly suppressed. */
  lemma FoundIs(e: Entry, data: Option<CommitData>, verdict: Option<Verdict>, score: Score)
    ensures var r := Evaluate(e, data, verdict, score);
      (r.found <==> r.status == Detected || r.status == PartiallyDetected || r.status == Suppressed)
      && (r.suppressedWithNoFindings <==>
            !Undescribed(e) && data.Some? && data.value.hasPatch && data.value.completed && Silent(e, data.value))
      && r.commit == e.commit && r.behavior == e.behavior && r.subsystem == e.subsystem && r.versioned == e.versioned
  {
    hide Trim;
  }

  /** The finding the judge names by number, the first of that number; or the only one, when it
      names none. */
  ghost predicate IsMatch(v: Verdict, fs: seq<Finding>, m: Matched) {
    && v.judgement != JMissed
    && match v.matchedIndex
       case None => |fs| == 1 && m == Matched(fs[0].index, fs[0].preexisting)
       case Some(index) =>
         exists i :: 0 <= i < |fs| && fs[i].index == index && m == Matched(index, fs[i].preexisting)
                     && forall j :: 0 <= j < i ==> fs[j].index != index
  }

  lemma {:induction false} FindIndexIsFirst(fs: seq<Finding>, index: nat)
    ensures FindIndex(fs, index).Some? ==>
      exists i :: 0 <= i < |fs| && fs[i].index == index && FindIndex(fs, index).value == fs[i]
                  && forall j :: 0 <= j < i ==> fs[j].index != index
    ensures FindIndex(fs, index).None? ==> forall j :: 0 <= j < |fs| ==> fs[j].index != index
  {
    if fs != [] && fs[0].index != index {
      FindIndexIsFirst(fs[1..], index);
      if FindIndex(fs, index).Some? {
        var i :| 0 <= i < |fs[1..]| && fs[1..][i].index == index && FindIndex(fs[1..], index).value == fs[1..][i]
          && forall j :: 0 <= j < i ==> fs[1..][j].index != index;
        assert fs[i + 1] == fs[1..][i];
        forall j | 0 <= j < i + 1 ensures fs[j].index != index {
          assert j > 0 ==> fs[j] == fs[1..][j - 1];
        }
      } else {
        forall j | 0 <= j < |fs| ensures fs[j].index != index {
          assert j > 0 ==> fs[j] == fs[1..][j - 1];
        }
      }
    }
  }

  /** A judged entry matches exactly that finding, and nothing where there is none; an entry
      that was not judged matches nothing. */
  lemma MatchedIs(e: Entry, data: Option<CommitData>, verdict: Option<Verdict>, score: Score)
    ensures var r := Evaluate(e, data, verdict, score);
      var judged := !Undescribed(e) && data.Some? && data.value.hasPatch && data.value.completed
                    && !Silent(e, data.value) && verdict.Some?;
      (r.matched.Some? ==> judged && IsMatch(verdict.value, data.value.findings, r.matched.value))
      && (r.matched.None? ==> !judged || forall m :: !IsMatch(verdict.value, data.value.findings, m))
  {
    hide Trim, FindIndex;
    if data.Some? && verdict.Some? && verdict.value.matchedIndex.Some? {
      FindIndexIsFirst(data.value.findings, verdict.value.matchedIndex.value);
    }
  }

  /** A miss has the judge's reason and stage, "not_raised" where it gives no reason; an entry
      whose review is missing or incomplete has "review_failed"; nothing else has either. */
  lemma MissIs(e: Entry, data: Option<CommitData>, verdict: Option<Verdict>, score: Score)
    ensures var r := Evaluate(e, data, verdict, score);
      (r.status == Missed ==>
         verdict.Some? && r.missReason == Some(verdict.value.missReason.GetOr(OtherReason("not_raised")))
         && r.dismissedByStage == verdict.value.dismissedByStage)
      && (r.status == NotFoundInDb || r.status == NotReviewed ==> r.missReason == Some(ReviewFailed))
      && (r.status !in {Missed, NotFoundInDb, NotReviewed} ==> r.missReason == None)
      && (r.status != Missed ==> r.dismissedByStage == None)
  {
    hide Trim;
  }

  /** Attribution is scored for a bug the judge ruled on, on the finding it matched; where one
      was expected and none was scored it is missing. */
  lemma AttributionIs(e: Entry, data: Option<CommitData>, verdict: Option<Verdict>, score: Score)
    ensures var r := Evaluate(e, data, verdict, score);
      (r.status == Detected || r.status == PartiallyDetected || r.status == Missed ==>
         data.Some? && verdict.Some?
         && var scored := score(e, MatchedRecord(verdict.value, data.value.findings));
            r.attribution == if scored.None? && e.behavior == DetectWithAttribution then Some(Missing) else scored)
      && (r.status !in {Detected, PartiallyDetected, Missed} ==>
            r.attribution == if e.behavior == DetectWithAttribution then Some(Missing) else None)
  {
    hide Trim, MatchedRecord;
  }

  // ---- the counters ----

  /** How many of the results are such. */
  ghost function Number(rs: seq<EntryResult>, such: EntryResult -> bool): nat {
    |set i: nat | i < |rs| && such(rs[i])|
  }

  lemma NumberIs(k: Kind, rs: seq<EntryResult>, such: EntryResult -> bool)
    requires forall r :: such(r) <==> Is(k, r)
    ensures Number(rs, such) == Count(k, rs)
  {
    hide Is;
    assert (set i: nat | i < |rs| && such(rs[i])) == Positions(k, rs);
  }

  /** Each outcome counter is the number of results of its status. */
  lemma OutcomeCountersAre(c: Counters, rs: seq<EntryResult>)
    requires Counts(c, rs)
    ensures c.detected == Number(rs, (r: EntryResult) => r.status == Detected)
    ensures c.partial == Number(rs, (r: EntryResult) => r.status == PartiallyDetected)
    ensures c.missed == Number(rs, (r: EntryResult) => r.status == Missed)
    ensures c.suppressed == Number(rs, (r: EntryResult) => r.status == Suppressed)
    ensures c.falsePositives == Number(rs, (r: EntryResult) => r.status == FalsePositive)
    ensures c.notReviewed == Number(rs, (r: EntryResult) => r.status == NotReviewed || r.status == NotFoundInDb)
    ensures c.evaluationFailed == Number(rs, (r: EntryResult) => r.status == Unknown)
    ensures c.skipped == Number(rs, (r: EntryResult) => r.status == Skipped)
  {
    hide Number, Count;
    assert c.At(KDetected) == Count(KDetected, rs);
    NumberIs(KDetected, rs, (r: EntryResult) => r.status == Detected);
    assert c.At(KPartial) == Count(KPartial, rs);
    NumberIs(KPartial, rs, (r: EntryResult) => r.status == PartiallyDetected);
    assert c.At(KMissed) == Count(KMissed, rs);
    NumberIs(KMissed, rs, (r: EntryResult) => r.status == Missed);
    assert c.At(KSuppressed) == Count(KSuppressed, rs);
    NumberIs(KSuppressed, rs, (r: EntryResult) => r.status == Suppressed);
    assert c.At(KFalsePositive) == Count(KFalsePositive, rs);
    NumberIs(KFalsePositive, rs, (r: EntryResult) => r.status == FalsePositive);
    assert c.At(KNotReviewed) == Count(KNotReviewed, rs);
    NumberIs(KNotReviewed, rs, (r: EntryResult) => r.status == NotReviewed || r.status == NotFoundInDb);
    assert c.At(KEvaluationFailed) == Count(KEvaluationFailed, rs);
    NumberIs(KEvaluationFailed, rs, (r: EntryResult) => r.status == Unknown);
    assert c.At(KSkipped) == Count(KSkipped, rs);
    NumberIs(KSkipped, rs, (r: EntryResult) => r.status == Skipped);
  }

  /** Counted in rates: whatever was judged, and of versioned entries also what failed to be. */
  predicate Rated(r: EntryResult) {
    if r.versioned then r.status != Skipped
    else r.status == Detected || r.status == PartiallyDetected || r.status == Missed || r.status == Suppressed
         || r.status == FalsePositive
  }

  predicate Unjudged(r: EntryResult) {
    r.versioned && (r.status == NotReviewed || r.status == NotFoundInDb || r.status == Unknown)
  }

  predicate SilentlySuppressed(r: EntryResult) {
    Rated(r) && r.behavior == SuppressFalsePositive && r.suppressedWithNoFindings
  }

  lemma FailureCountersAre(c: Counters, rs: seq<EntryResult>)
    requires Counts(c, rs)
    ensures c.detectionFailed == Number(rs, (r: EntryResult) => Unjudged(r) && r.behavior != SuppressFalsePositive)
    ensures c.suppressionFailed == Number(rs, (r: EntryResult) => Unjudged(r) && r.behavior == SuppressFalsePositive)
    ensures c.suppressedWithNoFindings == Number(rs, (r: EntryResult) => SilentlySuppressed(r))
  {
    hide Number, Count;
    assert c.At(KDetectionFailed) == Count(KDetectionFailed, rs);
    NumberIs(KDetectionFailed, rs, (r: EntryResult) => Unjudged(r) && r.behavior != SuppressFalsePositive);
    assert c.At(KSuppressionFailed) == Count(KSuppressionFailed, rs);
    NumberIs(KSuppressionFailed, rs, (r: EntryResult) => Unjudged(r) && r.behavior == SuppressFalsePositive);
    assert c.At(KSuppressedWithNoFindings) == Count(KSuppressedWithNoFindings, rs);
    NumberIs(KSuppressedWithNoFindings, rs, (r: EntryResult) => SilentlySuppressed(r));
  }

  /** A rated result of which attribution was expected, with this attribution. */
  predicate Attributes(r: EntryResult, expected: bool, a: Attribution) {
    Rated(r) && (r.behavior == DetectWithAttribution <==> expected) && r.attribution == Some(a)
  }

  predicate LacksAttribution(r: EntryResult) {
    Rated(r) && r.behavior == DetectWithAttribution && (r.attribution == None || r.attribution == Some(Missing))
  }

  lemma AttributionCountersAre(c: Counters, rs: seq<EntryResult>)
    requires Counts(c, rs)
    ensures c.expected == Number(rs, (r: EntryResult) => Rated(r) && r.behavior == DetectWithAttribution)
    ensures c.attributed == Number(rs, (r: EntryResult) => Attributes(r, true, Correct))
    ensures c.wrong == Number(rs, (r: EntryResult) => Attributes(r, true, Wrong))
    ensures c.missing == Number(rs, (r: EntryResult) => LacksAttribution(r))
    ensures c.unexpected == Number(rs, (r: EntryResult) => Attributes(r, false, Wrong))
    ensures c.acceptable == Number(rs, (r: EntryResult) => Rated(r) && r.attribution == Some(Acceptable))
    ensures c.acceptableOnExpected == Number(rs, (r: EntryResult) => Attributes(r, true, Acceptable))
  {
    hide Number, Count;
    assert c.At(KExpected) == Count(KExpected, rs);
    NumberIs(KExpected, rs, (r: EntryResult) => Rated(r) && r.behavior == DetectWithAttribution);
    assert c.At(KAttributed) == Count(KAttributed, rs);
    NumberIs(KAttributed, rs, (r: EntryResult) => Attributes(r, true, Correct));
    assert c.At(KWrong) == Count(KWrong, rs);
    NumberIs(KWrong, rs, (r: EntryResult) => Attributes(r, true, Wrong));
    assert c.At(KMissing) == Count(KMissing, rs);
    NumberIs(KMissing, rs, (r: EntryResult) => LacksAttribution(r));
    assert c.At(KUnexpected) == Count(KUnexpected, rs);
    NumberIs(KUnexpected, rs, (r: EntryResult) => Attributes(r, false, Wrong));
    assert c.At(KAcceptable) == Count(KAcceptable, rs);
    NumberIs(KAcceptable, rs, (r: EntryResult) => Rated(r) && r.attribution == Some(Acceptable));
    assert c.At(KAcceptableOnExpected) == Count(KAcceptableOnExpected, rs);
    NumberIs(KAcceptableOnExpected, rs, (r: EntryResult) => Attributes(r, true, Acceptable));
  }

  predicate MissedFor(r: EntryResult, reason: MissReason) {
    r.status == Missed && r.missReason == Some(reason)
  }

  predicate NotReviewedAtAll(r: EntryResult) {
    r.status == NotReviewed || r.status == NotFoundInDb
  }

  predicate MissedOtherwise(r: EntryResult) {
    r.status == Missed && (r.missReason == None || r.missReason.value.OtherReason?)
  }

  lemma MissCountersAre(c: Counters, rs: seq<EntryResult>)
    requires Counts(c, rs)
    ensures c.wronglyDismissed == Number(rs, (r: EntryResult) => MissedFor(r, WronglyDismissed))
    ensures c.preexistingFiltered == Number(rs, (r: EntryResult) => MissedFor(r, PreexistingFiltered))
    ensures c.reviewFailed == Number(rs, (r: EntryResult) => MissedFor(r, ReviewFailed) || NotReviewedAtAll(r))
    ensures c.notRaised == Number(rs, (r: EntryResult) => MissedOtherwise(r))
  {
    hide Number, Count;
    assert c.At(KWronglyDismissed) == Count(KWronglyDismissed, rs);
    NumberIs(KWronglyDismissed, rs, (r: EntryResult) => MissedFor(r, WronglyDismissed));
    assert c.At(KPreexistingFiltered) == Count(KPreexistingFiltered, rs);
    NumberIs(KPreexistingFiltered, rs, (r: EntryResult) => MissedFor(r, PreexistingFiltered));
    assert c.At(KReviewFailed) == Count(KReviewFailed, rs);
    NumberIs(KReviewFailed, rs, (r: EntryResult) => MissedFor(r, ReviewFailed) || NotReviewedAtAll(r));
    assert c.At(KNotRaised) == Count(KNotRaised, rs);
    NumberIs(KNotRaised, rs, (r: EntryResult) => MissedOtherwise(r));
  }

  /** The subsystem a result is counted under. */
  predicate InSubsystem(r: EntryResult, name: string) {
    if r.subsystem.Some? && Trim(r.subsystem.value) != "" then name == Trim(r.subsystem.value)
    else name == "unspecified"
  }

  /** Each subsystem's bucket is the number of its results, of each status and together. */
  lemma BucketsAre(b: Breakdown, rs: seq<EntryResult>, name: string)
    requires IsBreakdown(b, rs)
    ensures var bucket := BucketAt(b.subsystems, name);
      bucket.detected == Number(rs, (r: EntryResult) => r.status == Detected && InSubsystem(r, name))
      && bucket.partial == Number(rs, (r: EntryResult) => r.status == PartiallyDetected && InSubsystem(r, name))
      && bucket.missed == Number(rs, (r: EntryResult) => r.status == Missed && InSubsystem(r, name))
      && bucket.total == bucket.detected + bucket.partial + bucket.missed
  {
    hide Trim, Number, CountIn;
    GroupNumberIs(KDetected, rs, name, false, (r: EntryResult) => r.status == Detected && InSubsystem(r, name));
    GroupNumberIs(KPartial, rs, name, false, (r: EntryResult) => r.status == PartiallyDetected && InSubsystem(r, name));
    GroupNumberIs(KMissed, rs, name, false, (r: EntryResult) => r.status == Missed && InSubsystem(r, name));
    assert BucketAt(b.subsystems, name) == SubsystemBucket(rs, name);
  }

  /** The stage is to blame for the miss; verification is when none is named. */
  predicate Blames(r: EntryResult, stage: string) {
    r.status == Missed && r.missReason == Some(WronglyDismissed)
    && match r.dismissedByStage case Some(s) => s == stage case None => stage == "verification"
  }

  /** So is each stage's number of wrong dismissals. */
  lemma DismissalsAre(b: Breakdown, rs: seq<EntryResult>, stage: string)
    requires IsBreakdown(b, rs)
    ensures TallyAt(b.dismissals, stage) == Number(rs, (r: EntryResult) => Blames(r, stage))
  {
    hide Trim, Number, CountIn;
    GroupNumberIs(KWronglyDismissed, rs, stage, true, (r: EntryResult) => Blames(r, stage));
    assert TallyAt(b.dismissals, stage) == CountIn(KWronglyDismissed, rs, stage, true);
  }

  lemma GroupNumberIs(k: Kind, rs: seq<EntryResult>, name: string, byStage: bool, such: EntryResult -> bool)
    requires forall r :: such(r) <==> Is(k, r) && Group(r, byStage) == name
    ensures Number(rs, such) == CountIn(k, rs, name, byStage)
  {
    hide Is, Group;
    assert (set i: nat | i < |rs| && such(rs[i])) == InGroup(k, rs, name, byStage);
  }

  // ---- the commits ----

  /** A commit whose review is known and complete. */
  ghost predicate IsReviewed(data: map<string, CommitData>, commit: string) {
    commit in data && data[commit].completed
  }

  ghost function Sum(commits: seq<string>, amount: string -> nat): nat {
    if commits == [] then 0 else Sum(commits[..|commits| - 1], amount) + amount(commits[|commits| - 1])
  }

  /** Findings of a reviewed commit. */
  ghost function FindingsOf(data: map<string, CommitData>, commit: string, preexisting: bool): nat {
    if IsReviewed(data, commit)
    then |FindingsAt(data[commit].findings, preexisting)|
    else 0
  }

  /** The distinct numbers of its findings that results match. */
  ghost function HitsOf(data: map<string, CommitData>, rs: seq<EntryResult>, commit: string, patchOnly: bool): nat {
    if IsReviewed(data, commit)
    then |set i: nat | i < |rs| && rs[i].found && rs[i].matched.Some? && Trim(rs[i].commit) == commit
                       && (patchOnly ==> !rs[i].matched.value.preexisting) :: rs[i].matched.value.index|
    else 0
  }

  /** Findings of the patch itself that no result matches, or none if more are matched. */
  ghost function ExtraOf(data: map<string, CommitData>, rs: seq<EntryResult>, commit: string): nat {
    var all, hit := FindingsOf(data, commit, false), HitsOf(data, rs, commit, true);
    if hit <= all then all - hit else 0
  }

  /** Something was hit, and nothing is extra. */
  ghost predicate IsClean(data: map<string, CommitData>, rs: seq<EntryResult>, commit: string) {
    IsReviewed(data, commit) && HitsOf(data, rs, commit, false) > 0 && ExtraOf(data, rs, commit) == 0
  }

  /** The places of the findings of one kind. */
  function FindingsAt(fs: seq<Finding>, preexisting: bool): set<nat> {
    set i: nat | i < |fs| && fs[i].preexisting == preexisting
  }

  lemma {:induction false} FindingsAre(fs: seq<Finding>)
    ensures PatchFindings(fs) == |FindingsAt(fs, false)| && Preexisting(fs) == |FindingsAt(fs, true)|
    decreases |fs|
  {
    hide FindingsAt;
    if fs == [] {
      NoFindings();
    } else {
      FindingsAre(fs[..|fs| - 1]);
      FindingsSnoc(fs[..|fs| - 1], fs[|fs| - 1], false);
      FindingsSnoc(fs[..|fs| - 1], fs[|fs| - 1], true);
      assert fs == fs[..|fs| - 1] + [fs[|fs| - 1]];
    }
  }

  lemma NoFindings()
    ensures FindingsAt([], false) == FindingsAt([], true) == {}
  {
  }

  lemma FindingsSnoc(front: seq<Finding>, last: Finding, preexisting: bool)
    ensures |FindingsAt(front + [last], preexisting)|
         == |FindingsAt(front, preexisting)| + if last.preexisting == preexisting then 1 else 0
  {
    var before := FindingsAt(front, preexisting);
    assert |front| !in before;
    assert FindingsAt(front + [last], preexisting)
        == before + if last.preexisting == preexisting then {|front|} else {};
  }

  lemma HitsAre(data: map<string, CommitData>, rs: seq<EntryResult>, commit: string, patchOnly: bool)
    requires IsReviewed(data, commit)
    ensures |Claimed(rs, commit, patchOnly)| == HitsOf(data, rs, commit, patchOnly)
  {
    hide Trim;
    var hits := set i: nat | i < |rs| && rs[i].found && rs[i].matched.Some? && Trim(rs[i].commit) == commit
                             && (patchOnly ==> !rs[i].matched.value.preexisting) :: rs[i].matched.value.index;
    assert Claimed(rs, commit, patchOnly) == hits;
  }

  /** The totals, each over the reviewed commits. */
  lemma {:induction false} TotalsAre(commits: seq<string>, data: map<string, CommitData>, rs: seq<EntryResult>)
    ensures var t := TotalsOf(commits, data, rs);
      && t.reviewed == Sum(commits, c => if IsReviewed(data, c) then 1 else 0)
      && t.patchFindings == Sum(commits, c => FindingsOf(data, c, false))
      && t.preexisting == Sum(commits, c => FindingsOf(data, c, true))
      && t.matched == Sum(commits, c => HitsOf(data, rs, c, false))
      && t.extra == Sum(commits, c => ExtraOf(data, rs, c))
      && t.clean == Sum(commits, c => if IsClean(data, rs, c) then 1 else 0)
    decreases |commits|
  {
    hide HitsOf, Claimed, PatchFindings, Preexisting;
    if commits != [] {
      var c := commits[|commits| - 1];
      TotalsAre(commits[..|commits| - 1], data, rs);
      if IsReviewed(data, c) {
        FindingsAre(data[c].findings);
        HitsAre(data, rs, c, false);
        HitsAre(data, rs, c, true);
      } else {
        NoHits(data, rs, c);
      }
    }
  }

  lemma NoHits(data: map<string, CommitData>, rs: seq<EntryResult>, commit: string)
    requires !IsReviewed(data, commit)
    ensures HitsOf(data, rs, commit, false) == 0 && HitsOf(data, rs, commit, true) == 0
  {
  }
}
