/** The pass over the reviewed commits: findings against what the results matched. */
module BenchmarkCommits {
  import opened Options
  import opened Numbers
  import opened Text
  import opened Benchmark

  datatype Finding = Finding(index: nat, problem: string, preexisting: bool)

  datatype CommitData = CommitData(hasPatch: bool, completed: bool, findings: seq<Finding>)

  /** A commit's findings are numbered 1..n. */
  predicate Numbered(fs: seq<Finding>) {
    forall i :: 0 <= i < |fs| ==> fs[i].index == i + 1
  }

  function PatchFindings(fs: seq<Finding>): nat {
    if fs == [] then 0 else PatchFindings(fs[..|fs| - 1]) + if fs[|fs| - 1].preexisting then 0 else 1
  }

  function Preexisting(fs: seq<Finding>): nat {
    if fs == [] then 0 else Preexisting(fs[..|fs| - 1]) + if fs[|fs| - 1].preexisting then 1 else 0
  }

  function PatchIndexes(fs: seq<Finding>): set<nat> {
    set f | f in fs && !f.preexisting :: f.index
  }

  lemma {:induction false} PatchFindingsAreIndexes(fs: seq<Finding>)
    requires Numbered(fs)
    ensures |PatchIndexes(fs)| == PatchFindings(fs)
  {
    if fs == [] {
      assert PatchIndexes(fs) == {};
    } else {
      var front, last := fs[..|fs| - 1], fs[|fs| - 1];
      PatchFindingsAreIndexes(front);
      assert fs == front + [last];
      assert last.index == |fs| && forall f :: f in front ==> f.index < |fs|;
      assert PatchIndexes(fs) == PatchIndexes(front) + if last.preexisting then {} else {last.index};
    }
  }

  // ---- what the results matched ----

  predicate Claims(r: EntryResult, commit: string, patchOnly: bool) {
    r.found && r.matched.Some? && Trim(r.commit) == commit && !(patchOnly && r.matched.value.preexisting)
  }

  /** The distinct findings of a commit that the results matched. */
  function Claimed(rs: seq<EntryResult>, commit: string, patchOnly: bool): set<nat> {
    set i: nat | i < |rs| && Claims(rs[i], commit, patchOnly) :: rs[i].matched.value.index
  }

  function SetAt(m: map<string, set<nat>>, commit: string): set<nat> {
    if commit in m then m[commit] else {}
  }

  lemma ClaimedSnoc(rs: seq<EntryResult>, r: EntryResult, commit: string, patchOnly: bool)
    ensures Claimed(rs + [r], commit, patchOnly)
         == Claimed(rs, commit, patchOnly) + if Claims(r, commit, patchOnly) then {r.matched.value.index} else {}
  {
    hide Trim;
    var all := rs + [r];
    assert all[|rs|] == r && forall i :: 0 <= i < |rs| ==> all[i] == rs[i];
  }

  method CollectMatches(rs: seq<EntryResult>) returns (matched: map<string, set<nat>>, patch: map<string, set<nat>>)
    ensures forall commit :: SetAt(matched, commit) == Claimed(rs, commit, false)
    ensures forall commit :: SetAt(patch, commit) == Claimed(rs, commit, true)
  {
    hide Trim, Claimed;
    matched, patch := map[], map[];
    NothingClaimed();
    for i := 0 to |rs|
      invariant forall commit :: SetAt(matched, commit) == Claimed(rs[..i], commit, false)
      invariant forall commit :: SetAt(patch, commit) == Claimed(rs[..i], commit, true)
    {
      var r := rs[i];
      ghost var m0, p0 := matched, patch;
      if r.found && r.matched.Some? {
        var key, index := Trim(r.commit), r.matched.value.index;
        matched := matched[key := SetAt(matched, key) + {index}];
        if !r.matched.value.preexisting {
          patch := patch[key := SetAt(patch, key) + {index}];
        }
      }
      assert rs[..i + 1] == rs[..i] + [r];
      forall commit ensures SetAt(matched, commit) == Claimed(rs[..i + 1], commit, false) {
        ClaimedSnoc(rs[..i], r, commit, false);
        assert SetAt(m0, commit) == Claimed(rs[..i], commit, false);
      }
      forall commit ensures SetAt(patch, commit) == Claimed(rs[..i + 1], commit, true) {
        ClaimedSnoc(rs[..i], r, commit, true);
        assert SetAt(p0, commit) == Claimed(rs[..i], commit, true);
      }
    }
    assert rs[..|rs|] == rs;
  }

  lemma NothingClaimed()
    ensures forall commit, patchOnly :: Claimed([], commit, patchOnly) == {}
  {
  }

  // ---- totals ----

  datatype Totals = Totals(reviewed: nat, patchFindings: nat, preexisting: nat, matched: nat, extra: nat, clean: nat)

  predicate Reviewed(data: map<string, CommitData>, commit: string) {
    commit in data && data[commit].completed
  }

  function TotalsOf(commits: seq<string>, data: map<string, CommitData>, rs: seq<EntryResult>): Totals {
    if commits == [] then Totals(0, 0, 0, 0, 0, 0)
    else
      var t, c := TotalsOf(commits[..|commits| - 1], data, rs), commits[|commits| - 1];
      if !Reviewed(data, c) then t
      else
        var fs := data[c].findings;
        var hits := |Claimed(rs, c, false)|;
        var extra := SaturatingSub(PatchFindings(fs), |Claimed(rs, c, true)|);
        Totals(t.reviewed + 1, t.patchFindings + PatchFindings(fs), t.preexisting + Preexisting(fs),
               t.matched + hits, t.extra + extra, t.clean + if hits > 0 && extra == 0 then 1 else 0)
  }

  method CountFindings(fs: seq<Finding>) returns (patch: nat, preexisting: nat)
    ensures patch == PatchFindings(fs) && preexisting == Preexisting(fs) && patch + preexisting == |fs|
  {
    patch, preexisting := 0, 0;
    for i := 0 to |fs|
      invariant patch == PatchFindings(fs[..i]) && preexisting == Preexisting(fs[..i]) && patch + preexisting == i
    {
      assert fs[..i + 1][..i] == fs[..i];
      if fs[i].preexisting {
        preexisting := preexisting + 1;
      } else {
        patch := patch + 1;
      }
    }
    assert fs[..|fs|] == fs;
  }

  method SumCommits(commits: seq<string>, data: map<string, CommitData>, rs: seq<EntryResult>,
                    matched: map<string, set<nat>>, patch: map<string, set<nat>>) returns (t: Totals)
    requires forall commit :: SetAt(matched, commit) == Claimed(rs, commit, false)
    requires forall commit :: SetAt(patch, commit) == Claimed(rs, commit, true)
    ensures t == TotalsOf(commits, data, rs)
  {
    hide Claimed, PatchFindings, Preexisting;
    t := Totals(0, 0, 0, 0, 0, 0);
    for i := 0 to |commits|
      invariant t == TotalsOf(commits[..i], data, rs)
    {
      var c := commits[i];
      assert commits[..i + 1][..i] == commits[..i];
      if Reviewed(data, c) {
        var patchFindings, preexisting := CountFindings(data[c].findings);
        var hits := |SetAt(matched, c)|;
        var extra := SaturatingSub(patchFindings, |SetAt(patch, c)|);
        t := Totals(t.reviewed + 1, t.patchFindings + patchFindings, t.preexisting + preexisting, t.matched + hits,
                    t.extra + extra, if hits > 0 && extra == 0 then t.clean + 1 else t.clean);
      }
    }
    assert commits[..|commits|] == commits;
  }

  // ---- matched and extra findings account for all ----

  /** No more patch findings are matched than the commit has. */
  predicate Covered(data: map<string, CommitData>, rs: seq<EntryResult>, commit: string) {
    Reviewed(data, commit) ==> |Claimed(rs, commit, true)| <= PatchFindings(data[commit].findings)
  }

  function MatchedPatch(commits: seq<string>, data: map<string, CommitData>, rs: seq<EntryResult>): nat {
    if commits == [] then 0
    else
      var c := commits[|commits| - 1];
      MatchedPatch(commits[..|commits| - 1], data, rs) + if Reviewed(data, c) then |Claimed(rs, c, true)| else 0
  }

  /** Patch findings are the matched and the extra ones, exactly when the subtraction
      never saturates. */
  lemma {:induction false} FindingsSplit(commits: seq<string>, data: map<string, CommitData>, rs: seq<EntryResult>)
    ensures var t := TotalsOf(commits, data, rs);
      t.patchFindings <= MatchedPatch(commits, data, rs) + t.extra
      && (t.patchFindings == MatchedPatch(commits, data, rs) + t.extra <==>
        forall c :: c in commits ==> Covered(data, rs, c))
  {
    hide Claimed, PatchFindings;
    if commits != [] {
      var front, last := commits[..|commits| - 1], commits[|commits| - 1];
      FindingsSplit(front, data, rs);
      assert commits == front + [last];
      assert (forall c :: c in commits ==> Covered(data, rs, c))
        <==> (forall c :: c in front ==> Covered(data, rs, c)) && Covered(data, rs, last);
    }
  }

  /** A result matches nothing, or a finding its commit's review has. */
  predicate Faithful(data: map<string, CommitData>, r: EntryResult) {
    r.found && r.matched.Some? ==>
      Trim(r.commit) in data
      && exists f :: f in data[Trim(r.commit)].findings && f.index == r.matched.value.index
                     && f.preexisting == r.matched.value.preexisting
  }

  /** Numbered findings and faithful results never saturate it. */
  lemma FaithfulIsCovered(data: map<string, CommitData>, rs: seq<EntryResult>, commit: string)
    requires forall r :: r in rs ==> Faithful(data, r)
    requires forall c :: c in data ==> Numbered(data[c].findings)
    ensures Covered(data, rs, commit)
  {
    hide Trim, PatchFindings;
    if Reviewed(data, commit) {
      var fs := data[commit].findings;
      PatchFindingsAreIndexes(fs);
      assert Claimed(rs, commit, true) <= PatchIndexes(fs) by {
        forall x | x in Claimed(rs, commit, true) ensures x in PatchIndexes(fs) {
          var i: nat :| i < |rs| && Claims(rs[i], commit, true) && rs[i].matched.value.index == x;
          assert rs[i] in rs && Faithful(data, rs[i]);
        }
      }
      SmallerSet(Claimed(rs, commit, true), PatchIndexes(fs));
    }
  }
}
