/** Where findings get their numbers and results their matches, so that the books of
    `Benchmark` and `BenchmarkCommits` close. The judge and the attribution scoring are
    oracles. */
module BenchmarkEvaluation {
  import opened Options
  import opened Text
  import opened Benchmark
  import opened BenchmarkCommits

  // ---- numbering ----

  /** A finding as a review output, a findings row or a bug holds it. */
  datatype Raw = Raw(problem: string, preexisting: bool)

  function Problems(fs: seq<Finding>): set<string> {
    set f | f in fs :: Lower(Trim(f.problem))
  }

  /** What the rows are compared by; a blank problem is none. */
  function Keys(rows: seq<Raw>): seq<Option<string>> {
    seq(|rows|, i requires 0 <= i < |rows| =>
      var problem := Trim(rows[i].problem);
      if problem == "" then None else Some(Lower(problem)))
  }

  function Stating(output: seq<Raw>): seq<Raw> {
    if output == [] then []
    else
      var before, last := Stating(output[..|output| - 1]), output[|output| - 1];
      if Trim(last.problem) != "" then before + [last] else before
  }

  /** `out` is `fs` and then one finding for each of `added`, in order. */
  ghost predicate Appends(fs: seq<Finding>, added: seq<Raw>, out: seq<Finding>) {
    && fs <= out && |out| == |fs| + |added|
    && forall k :: 0 <= k < |added| ==> out[|fs| + k] == Finding(|fs| + k + 1, added[k].problem, added[k].preexisting)
  }

  lemma AppendsSnoc(fs: seq<Finding>, added: seq<Raw>, out: seq<Finding>, r: Raw)
    requires Appends(fs, added, out)
    ensures Appends(fs, added + [r], out + [Finding(|out| + 1, r.problem, r.preexisting)])
    ensures Numbered(fs) ==> Numbered(out)
  {
    forall i | Numbered(fs) && 0 <= i < |out| ensures out[i].index == i + 1 {
      if i < |fs| {
        assert out[i] == fs[i];
      } else {
        var k := i - |fs|;
        assert out[|fs| + k] == Finding(|fs| + k + 1, added[k].problem, added[k].preexisting);
      }
    }
  }

  function TrimmedRows(rows: seq<Raw>): seq<Raw> {
    seq(|rows|, i requires 0 <= i < |rows| => rows[i].(problem := Trim(rows[i].problem)))
  }

  /** Appends the findings of a review output that state a problem: these and no others,
      in order. */
  method PopulateFindings(fs: seq<Finding>, output: seq<Raw>) returns (out: seq<Finding>)
    ensures Appends(fs, TrimmedRows(Stating(output)), out) && (Numbered(fs) ==> Numbered(out))
  {
    hide Trim, Appends, Numbered;
    out := fs;
    AppendsNothing(fs);
    assert TrimmedRows(Stating(output[..0])) == [];
    for i := 0 to |output|
      invariant Appends(fs, TrimmedRows(Stating(output[..i])), out)
    {
      assert output[..i + 1][..i] == output[..i];
      var problem := Trim(output[i].problem);
      if problem != "" {
        var r := output[i].(problem := problem);
        ghost var stating := Stating(output[..i]);
        AppendsSnoc(fs, TrimmedRows(stating), out, r);
        assert TrimmedRows(stating + [output[i]]) == TrimmedRows(stating) + [r];
        out := out + [Finding(|out| + 1, problem, output[i].preexisting)];
      }
    }
    assert output[..|output|] == output;
    AppendsSnoc(fs, TrimmedRows(Stating(output)), out, Raw("", false));
  }

  lemma AppendsNothing(fs: seq<Finding>)
    ensures Appends(fs, [], fs)
  {
  }

  /** Bugs are always preexisting, and their problem is kept trimmed. */
  function Loaded(r: Raw, bug: bool): Raw {
    if bug then Raw(Trim(r.problem), true) else r
  }

  /** The rows at these positions. */
  function Taken(rows: seq<Raw>, picks: seq<nat>, bugs: bool): seq<Raw>
    requires forall p :: p in picks ==> p < |rows|
  {
    seq(|picks|, k requires 0 <= k < |picks| => assert picks[k] in picks; Loaded(rows[picks[k]], bugs))
  }

  /** The rows whose problem is new, ignoring case and outer blanks. */
  function NewRows(fs: seq<Finding>, rows: seq<Raw>, bugs: bool): seq<Raw> {
    var picks := Firsts(Keys(rows), Problems(fs));
    FirstsAre(Keys(rows), Problems(fs));
    Taken(rows, picks, bugs)
  }

  lemma NewRowsSnoc(fs: seq<Finding>, rows: seq<Raw>, bugs: bool, r: Raw)
    ensures var key := Keys([r])[0];
      NewRows(fs, rows + [r], bugs) == NewRows(fs, rows, bugs)
        + if key.Some? && key.value !in Problems(fs) && key !in Keys(rows) then [Loaded(r, bugs)] else []
  {
    hide Trim, Lower, Problems, Loaded;
    var keys := Keys(rows + [r]);
    assert keys[..|rows|] == Keys(rows) && keys[|rows|] == Keys([r])[0];
    FirstsAre(Keys(rows), Problems(fs));
    FirstsAre(keys, Problems(fs));
    var picks := Firsts(Keys(rows), Problems(fs));
    assert forall k :: 0 <= k < |picks| ==> picks[k] in picks;
  }

  /** Appends the rows whose problem is new: these and no others, in order. */
  method LoadNew(fs: seq<Finding>, rows: seq<Raw>, bugs: bool) returns (out: seq<Finding>)
    ensures Appends(fs, NewRows(fs, rows, bugs), out) && (Numbered(fs) ==> Numbered(out))
  {
    hide Trim, Lower, Appends, Numbered, Problems, NewRows;
    out := fs;
    var seen := Problems(fs);
    AppendsNothing(fs);
    NoNewRows(fs, bugs);
    for i := 0 to |rows|
      invariant forall s :: s in seen <==> s in Problems(fs) || Some(s) in Keys(rows[..i])
      invariant Appends(fs, NewRows(fs, rows[..i], bugs), out)
    {
      var problem := Trim(rows[i].problem);
      ghost var before := rows[..i];
      assert rows[..i + 1] == before + [rows[i]];
      NewRowsSnoc(fs, before, bugs, rows[i]);
      ghost var key := Keys([rows[i]])[0];
      assert key == if problem == "" then None else Some(Lower(problem));
      assert Keys(before + [rows[i]]) == Keys(before) + [key];
      if problem != "" && Lower(problem) !in seen {
        AppendsSnoc(fs, NewRows(fs, before, bugs), out, Loaded(rows[i], bugs));
        out := out + [Finding(|out| + 1, if bugs then problem else rows[i].problem, bugs || rows[i].preexisting)];
        seen := seen + {Lower(problem)};
      } else {
        assert NewRows(fs, before, bugs) + [] == NewRows(fs, before, bugs);
      }
    }
    assert rows[..|rows|] == rows;
    AppendsSnoc(fs, NewRows(fs, rows, bugs), out, Raw("", false));
  }

  lemma NoNewRows(fs: seq<Finding>, bugs: bool)
    ensures NewRows(fs, [], bugs) == []
  {
  }

  /** Every problem of the rows is known afterwards, and none that was loaded twice. */
  lemma LoadedOnce(fs: seq<Finding>, rows: seq<Raw>, bugs: bool, out: seq<Finding>)
    requires Appends(fs, NewRows(fs, rows, bugs), out)
    ensures Problems(out) == Problems(fs) + set r | r in rows && Trim(r.problem) != "" :: Lower(Trim(r.problem))
    ensures forall i, j :: |fs| <= j < |out| && 0 <= i < j ==>
      Lower(Trim(out[i].problem)) != Lower(Trim(out[j].problem))
  {
    hide Trim, Lower, Firsts;
    var keys, seen := Keys(rows), Problems(fs);
    var picks := Firsts(keys, seen);
    FirstsAre(keys, seen);
    forall k | 0 <= k < |picks|
      ensures picks[k] in picks && Some(Lower(Trim(out[|fs| + k].problem))) == keys[picks[k]]
    {
      assert picks[k] in picks;
      TrimTwice(rows[picks[k]].problem);
      assert NewRows(fs, rows, bugs)[k] == Loaded(rows[picks[k]], bugs);
      assert out[|fs| + k].problem == Loaded(rows[picks[k]], bugs).problem;
    }
    forall f | f in out
      ensures f in fs
        || exists r :: r in rows && Trim(r.problem) != "" && Lower(Trim(r.problem)) == Lower(Trim(f.problem))
    {
      var i :| 0 <= i < |out| && out[i] == f;
      if i < |fs| {
        assert out[i] == fs[i];
      } else {
        var p := picks[i - |fs|];
        assert out[|fs| + (i - |fs|)] == f && keys[p].Some?;
        assert rows[p] in rows;
      }
    }
    forall i, j | |fs| <= j < |out| && 0 <= i < j
      ensures Lower(Trim(out[i].problem)) != Lower(Trim(out[j].problem))
    {
      var q := picks[j - |fs|];
      assert out[|fs| + (j - |fs|)] == out[j];
      if i < |fs| {
        assert out[i] == fs[i] && fs[i] in fs;
      } else {
        var p := picks[i - |fs|];
        assert out[|fs| + (i - |fs|)] == out[i];
        assert keys[p] == keys[..q][p];
      }
    }
    forall r | r in rows && Trim(r.problem) != "" ensures Lower(Trim(r.problem)) in Problems(out) {
      var i :| 0 <= i < |rows| && rows[i] == r;
      assert keys[i] == Some(Lower(Trim(r.problem)));
      if keys[i].value !in seen {
        FirstIsPicked(keys, seen, i);
        var p :| p in picks && keys[p] == keys[i];
        var k :| 0 <= k < |picks| && picks[k] == p;
        assert out[|fs| + k] in out;
      } else {
        var f :| f in fs && Lower(Trim(f.problem)) == keys[i].value;
        assert f in out;
      }
    }
  }

  lemma TrimTwice(s: string)
    ensures Trim(Trim(s)) == Trim(s)
  {
    hide Trim;
    TrimIsTrimmed(s);
    TrimmedIsFixed(Trim(s));
  }

  function NonBlank(commits: seq<string>): seq<Option<string>> {
    seq(|commits|, i requires 0 <= i < |commits| =>
      var commit := Trim(commits[i]);
      if commit == "" then None else Some(commit))
  }

  lemma NonBlankSnoc(commits: seq<string>, commit: string)
    ensures NonBlank(commits + [commit]) == NonBlank(commits) + NonBlank([commit])
    ensures forall c :: Some(c) in NonBlank(commits) <==>
      c != "" && exists k :: 0 <= k < |commits| && Trim(commits[k]) == c
  {
    hide Trim;
    forall k | 0 <= k < |commits| && Trim(commits[k]) != "" ensures NonBlank(commits)[k] == Some(Trim(commits[k])) {
    }
  }

  /** The distinct commits of the entries, in the order they first occur. */
  method DeduplicateCommits(commits: seq<string>) returns (unique: seq<string>)
    ensures AreFirsts(NonBlank(commits), unique)
    ensures forall i, j :: 0 <= i < j < |unique| ==> unique[i] != unique[j]
    ensures forall c :: c in unique <==> c != "" && exists k :: 0 <= k < |commits| && Trim(commits[k]) == c
  {
    hide Trim, AreFirsts;
    unique := [];
    NoFirsts<string>();
    assert NonBlank(commits[..0]) == [];
    for i := 0 to |commits|
      invariant AreFirsts(NonBlank(commits[..i]), unique)
    {
      var trimmed := Trim(commits[i]);
      assert commits[..i + 1] == commits[..i] + [commits[i]];
      NonBlankSnoc(commits[..i], commits[i]);
      ghost var key := if trimmed == "" then None else Some(trimmed);
      assert NonBlank([commits[i]]) == [key];
      FirstsSnoc(NonBlank(commits[..i]), key, unique);
      if trimmed != "" && trimmed !in unique {
        unique := unique + [trimmed];
      }
    }
    assert commits[..|commits|] == commits;
    NonBlankSnoc(commits, "");
    FirstsAreDistinct(NonBlank(commits), unique);
  }

  // ---- one entry ----

  datatype Entry = Entry(commit: string, behavior: Behavior, subsystem: Option<string>, versioned: bool,
                         description: Option<string>)

  datatype Judgement = JDetected | JPartial | JMissed

  datatype Verdict = Verdict(judgement: Judgement, matchedIndex: Option<nat>, missReason: Option<MissReason>,
                             dismissedByStage: Option<string>)

  type Score = (Entry, Option<Finding>) -> Option<Attribution>

  function StatusOf(j: Judgement): Status {
    match j
    case JDetected => Detected
    case JPartial => PartiallyDetected
    case JMissed => Missed
  }

  predicate IsFound(s: Status) {
    s == Detected || s == PartiallyDetected || s == Suppressed
  }

  function Expected(e: Entry, attribution: Option<Attribution>): Option<Attribution> {
    if attribution.None? && e.behavior == DetectWithAttribution then Some(Missing) else attribution
  }

  function EmptyResult(e: Entry, status: Status, reason: Option<MissReason>): EntryResult {
    EntryResult(e.commit, e.behavior, e.subsystem, false, status, Expected(e, None), false, e.versioned, None,
                reason, None)
  }

  function BuildResult(e: Entry, status: Status, attribution: Option<Attribution>, matched: Option<Matched>,
                       reason: Option<MissReason>, stage: Option<string>): EntryResult {
    EntryResult(e.commit, e.behavior, e.subsystem, IsFound(status), status, Expected(e, attribution), false,
                e.versioned, matched, reason, stage)
  }

  function FindIndex(fs: seq<Finding>, index: nat): Option<Finding> {
    if fs == [] then None else if fs[0].index == index then Some(fs[0]) else FindIndex(fs[1..], index)
  }

  /** The finding a positive verdict names, or the only one when it names none. */
  function MatchedRecord(v: Verdict, fs: seq<Finding>): Option<Finding> {
    if v.judgement == JMissed then None
    else
      match v.matchedIndex
      case Some(index) => FindIndex(fs, index)
      case None => if |fs| == 1 then Some(fs[0]) else None
  }

  /** The result of one entry; no verdict means that the judge failed. */
  function Evaluate(e: Entry, data: Option<CommitData>, verdict: Option<Verdict>, score: Score): EntryResult {
    if e.description.None? || Trim(e.description.value) == "" then EmptyResult(e, Skipped, None)
    else if data.None? || !data.value.hasPatch then EmptyResult(e, NotFoundInDb, Some(ReviewFailed))
    else if !data.value.completed then BuildResult(e, NotReviewed, None, None, Some(ReviewFailed), None)
    else if e.behavior == SuppressFalsePositive && data.value.findings == [] then
      BuildResult(e, Suppressed, None, None, None, None).(suppressedWithNoFindings := true)
    else if verdict.None? then BuildResult(e, Unknown, None, None, None, None)
    else
      var v := verdict.value;
      var record := MatchedRecord(v, data.value.findings);
      var matched := if record.Some? then Some(Matched(record.value.index, record.value.preexisting)) else None;
      if e.behavior == SuppressFalsePositive then
        BuildResult(e, if v.judgement == JMissed then Suppressed else FalsePositive, None, matched, None, None)
      else
        var missed := v.judgement == JMissed;
        BuildResult(e, StatusOf(v.judgement), score(e, record), matched,
                    if missed then Some(v.missReason.GetOr(OtherReason("not_raised"))) else None,
                    if missed then v.dismissedByStage else None)
  }

  lemma {:induction false} FoundRecord(fs: seq<Finding>, index: nat)
    ensures FindIndex(fs, index).Some? ==> FindIndex(fs, index).value in fs && FindIndex(fs, index).value.index == index
    ensures FindIndex(fs, index).None? ==> forall f :: f in fs ==> f.index != index
  {
    if fs != [] {
      FoundRecord(fs[1..], index);
    }
  }

  function Lookup(data: map<string, CommitData>, e: Entry): Option<CommitData> {
    if Trim(e.commit) in data then Some(data[Trim(e.commit)]) else None
  }

  /** An evaluated entry has a recognised status, misses with a reason, and matches only
      what its review found. */
  lemma EvaluatedIsFaithful(data: map<string, CommitData>, e: Entry, verdict: Option<Verdict>, score: Score)
    ensures var r := Evaluate(e, Lookup(data, e), verdict, score);
      Faithful(data, r) && !r.status.Other? && (r.status == Missed ==> r.missReason.Some?)
      && (Expects(r) ==> r.attribution.Some?) && r.versioned == e.versioned && r.commit == e.commit
  {
    hide Trim;
    var found := Lookup(data, e);
    var r := Evaluate(e, found, verdict, score);
    if r.matched.Some? {
      var record := MatchedRecord(verdict.value, found.value.findings);
      if verdict.value.matchedIndex.Some? {
        FoundRecord(found.value.findings, verdict.value.matchedIndex.value);
      }
      assert record.value in data[Trim(e.commit)].findings;
    }
  }

  // ---- all entries, judged in any order ----

  /** The results as they complete, each with the position of its entry. */
  ghost predicate IsArrival(arrivals: seq<(nat, EntryResult)>, n: nat) {
    && |arrivals| == n
    && (forall k :: 0 <= k < n ==> arrivals[k].0 < n)
    && (forall j, k :: 0 <= j < k < n ==> arrivals[j].0 != arrivals[k].0)
  }

  function Below(n: nat): (s: set<nat>)
    ensures |s| == n && forall i: nat :: i in s <==> i < n
  {
    if n == 0 then {} else Below(n - 1) + {n - 1}
  }

  lemma {:induction false} SlotsSize(arrivals: seq<(nat, EntryResult)>, k: nat)
    requires k <= |arrivals| && forall i, j :: 0 <= i < j < |arrivals| ==> arrivals[i].0 != arrivals[j].0
    ensures |set j | 0 <= j < k :: arrivals[j].0| == k
  {
    if k > 0 {
      SlotsSize(arrivals, k - 1);
      var before, last := set j | 0 <= j < k - 1 :: arrivals[j].0, arrivals[k - 1].0;
      assert (set j | 0 <= j < k :: arrivals[j].0) == before + {last} && last !in before;
    }
  }

  /** Every slot is filled. */
  lemma EverySlot(arrivals: seq<(nat, EntryResult)>, n: nat, i: nat)
    requires IsArrival(arrivals, n) && i < n
    ensures exists k :: 0 <= k < n && arrivals[k].0 == i
  {
    var slots := set k | 0 <= k < n :: arrivals[k].0;
    SlotsSize(arrivals, n);
    if i !in slots {
      SmallerSet(slots, Below(n) - {i});
    }
  }

  /** Puts the results back into the order of the entries. */
  method InEntryOrder(arrivals: seq<(nat, EntryResult)>, n: nat) returns (results: seq<EntryResult>)
    requires IsArrival(arrivals, n)
    ensures |results| == n && forall k :: 0 <= k < n ==> results[arrivals[k].0] == arrivals[k].1
  {
    var slots := new Option<EntryResult>[n](_ => None);
    for k := 0 to n
      invariant forall j :: 0 <= j < k ==> slots[arrivals[j].0] == Some(arrivals[j].1)
    {
      slots[arrivals[k].0] := Some(arrivals[k].1);
    }
    forall i | 0 <= i < n ensures slots[i].Some? {
      EverySlot(arrivals, n, i);
    }
    results := [];
    for i := 0 to n
      invariant |results| == i && forall j :: 0 <= j < i ==> slots[j] == Some(results[j])
    {
      if slots[i].Some? {
        results := results + [slots[i].value];
      }
    }
  }

  /** Entry `i` judged with `verdicts[i]`, whenever its turn came. */
  ghost predicate IsEvaluation(entries: seq<Entry>, data: map<string, CommitData>, verdicts: seq<Option<Verdict>>,
                               score: Score, results: seq<EntryResult>)
  {
    |results| == |entries| == |verdicts|
    && forall i :: 0 <= i < |entries| ==>
         results[i] == Evaluate(entries[i], Lookup(data, entries[i]), verdicts[i], score)
  }

  method EvaluateAll(entries: seq<Entry>, data: map<string, CommitData>, verdicts: seq<Option<Verdict>>, score: Score,
                     turns: seq<nat>) returns (results: seq<EntryResult>)
    requires |verdicts| == |turns| == |entries| && forall k :: 0 <= k < |turns| ==> turns[k] < |entries|
    requires forall j, k :: 0 <= j < k < |turns| ==> turns[j] != turns[k]
    ensures IsEvaluation(entries, data, verdicts, score, results)
  {
    hide Evaluate, Lookup;
    var arrivals: seq<(nat, EntryResult)> := [];
    for k := 0 to |turns|
      invariant |arrivals| == k
      invariant forall j :: 0 <= j < k ==>
        arrivals[j] == (turns[j],
                        Evaluate(entries[turns[j]], Lookup(data, entries[turns[j]]), verdicts[turns[j]], score))
    {
      var i := turns[k];
      arrivals := arrivals + [(i, Evaluate(entries[i], Lookup(data, entries[i]), verdicts[i], score))];
    }
    results := InEntryOrder(arrivals, |entries|);
    forall i: nat | i < |entries|
      ensures results[i] == Evaluate(entries[i], Lookup(data, entries[i]), verdicts[i], score)
    {
      EverySlot(arrivals, |entries|, i);
    }
  }

  /** The books of any evaluated run close: every result is counted once, and the patch
      findings of the reviewed commits are the matched and the extra ones. */
  lemma EvaluatedRunBalances(entries: seq<Entry>, data: map<string, CommitData>, verdicts: seq<Option<Verdict>>,
                             score: Score, results: seq<EntryResult>, commits: seq<string>, c: Counters)
    requires IsEvaluation(entries, data, verdicts, score, results) && Counts(c, results)
    requires forall k :: k in data ==> Numbered(data[k].findings)
    ensures Outcomes(c) == |entries|
    ensures (forall e :: e in entries ==> e.versioned) ==>
      Evaluated(c) + SuppressionEvaluated(c) + c.skipped == |entries|
    ensures var t := TotalsOf(commits, data, results); t.patchFindings == MatchedPatch(commits, data, results) + t.extra
  {
    hide Evaluate, Lookup, Counts, Outcomes, TotalsOf, Faithful, Numbered, Covered;
    forall r | r in results ensures Faithful(data, r) && !r.status.Other? {
      var i :| 0 <= i < |results| && results[i] == r;
      EvaluatedIsFaithful(data, entries[i], verdicts[i], score);
    }
    if forall e :: e in entries ==> e.versioned {
      forall r | r in results ensures r.versioned {
        var i :| 0 <= i < |results| && results[i] == r;
        EvaluatedIsFaithful(data, entries[i], verdicts[i], score);
        assert entries[i] in entries;
      }
    }
    SummaryBalances(c, results);
    forall k | k in commits ensures Covered(data, results, k) {
      FaithfulIsCovered(data, results, k);
    }
    FindingsSplit(commits, data, results);
  }
}
