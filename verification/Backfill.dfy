/** Upstream grants: which sections they give access to, and when two sets of them are
    the same. */
module Grants {
  import opened Options
  import opened Text

  datatype Grant = Grant(section: string, paths: seq<string>)

  /** The loaded MAINTAINERS index, as far as grants go. An empty index has none, since
      a grant whose section is not found is dropped. */
  datatype Index = Index(empty: bool, grants: seq<Grant>)

  type Fingerprint = multiset<(string, set<string>)>

  /** Whether a trimmed path pattern matches a file. */
  type Pattern = (string, string) -> bool

  function TrimmedPaths(g: Grant): set<string> {
    set p | p in g.paths :: Trim(p)
  }

  predicate Covers(pattern: Pattern, paths: set<string>, file: string) {
    exists p :: p in paths && pattern(p, file)
  }

  predicate CoversAny(pattern: Pattern, paths: set<string>, files: seq<string>) {
    exists f :: f in files && Covers(pattern, paths, f)
  }

  predicate Confers(pattern: Pattern, index: Index, section: string, files: seq<string>) {
    exists g :: g in index.grants && g.section == section && CoversAny(pattern, TrimmedPaths(g), files)
  }

  function Fingerprints(grants: seq<Grant>): Fingerprint {
    if grants == [] then multiset{}
    else Fingerprints(grants[1..]) + multiset{(grants[0].section, TrimmedPaths(grants[0]))}
  }

  function FingerprintOf(index: Index): Fingerprint {
    Fingerprints(index.grants)
  }

  /** The section titles as they are stored: trimmed, without empty ones. */
  function Stored(sections: seq<string>): set<string> {
    set s | s in sections && Trim(s) != "" :: Trim(s)
  }

  /** The rows the grants give something touching `files`. */
  ghost function Derived(pattern: Pattern, index: Index, files: seq<string>): set<string> {
    set g | g in index.grants && Confers(pattern, index, g.section, files) && Trim(g.section) != "" :: Trim(g.section)
  }

  /** The section of every grant that covers some file. */
  function Covering(pattern: Pattern, grants: seq<Grant>, files: seq<string>): seq<Option<string>> {
    seq(|grants|, i requires 0 <= i < |grants| =>
      if CoversAny(pattern, TrimmedPaths(grants[i]), files) then Some(grants[i].section) else None)
  }

  lemma CoveringSnoc(pattern: Pattern, grants: seq<Grant>, grant: Grant, files: seq<string>)
    ensures Covering(pattern, grants + [grant], files) == Covering(pattern, grants, files)
      + [if CoversAny(pattern, TrimmedPaths(grant), files) then Some(grant.section) else None]
  {
    hide CoversAny, TrimmedPaths;
  }

  lemma OrderConfers(pattern: Pattern, index: Index, files: seq<string>, out: seq<string>)
    requires AreFirsts(Covering(pattern, index.grants, files), out)
    ensures forall s :: s in out <==> Confers(pattern, index, s, files)
  {
    hide CoversAny, TrimmedPaths, AreFirsts;
    var keys := Covering(pattern, index.grants, files);
    FirstsAreDistinct(keys, out);
    forall s | Confers(pattern, index, s, files) ensures Some(s) in keys {
      var g :| g in index.grants && g.section == s && CoversAny(pattern, TrimmedPaths(g), files);
      var i :| 0 <= i < |index.grants| && index.grants[i] == g;
      assert keys[i] == Some(s);
    }
  }

  /** In grant order and without duplicates. */
  method UpstreamGrantSections(pattern: Pattern, index: Index, files: seq<string>) returns (out: seq<string>)
    ensures AreFirsts(Covering(pattern, index.grants, files), out)
    ensures forall s :: s in out <==> Confers(pattern, index, s, files)
    ensures forall i, j :: 0 <= i < j < |out| ==> out[i] != out[j]
    ensures Stored(out) == Derived(pattern, index, files)
  {
    hide CoversAny, TrimmedPaths, AreFirsts;
    out := [];
    NoFirsts<string>();
    assert Covering(pattern, index.grants[..0], files) == [];
    for i := 0 to |index.grants|
      invariant AreFirsts(Covering(pattern, index.grants[..i], files), out)
    {
      var grant := index.grants[i];
      assert index.grants[..i + 1] == index.grants[..i] + [grant];
      CoveringSnoc(pattern, index.grants[..i], grant, files);
      ghost var section := if CoversAny(pattern, TrimmedPaths(grant), files) then Some(grant.section) else None;
      FirstsSnoc(Covering(pattern, index.grants[..i], files), section, out);
      if grant.section !in out && CoversAny(pattern, TrimmedPaths(grant), files) {
        out := out + [grant.section];
      }
    }
    assert index.grants[..|index.grants|] == index.grants;
    OrderConfers(pattern, index, files, out);
    FirstsAreDistinct(Covering(pattern, index.grants, files), out);
  }

  /** A path of the grant, without outer blanks, matches one of the files. */
  ghost predicate Reaches(pattern: Pattern, g: Grant, files: seq<string>) {
    exists p, f :: p in g.paths && f in files && pattern(Trim(p), f)
  }

  lemma CoversAnyReaches(pattern: Pattern, g: Grant, files: seq<string>)
    ensures CoversAny(pattern, TrimmedPaths(g), files) <==> Reaches(pattern, g, files)
  {
    hide Trim;
    if p, f :| p in g.paths && f in files && pattern(Trim(p), f) {
      assert Trim(p) in TrimmedPaths(g);
      assert Covers(pattern, TrimmedPaths(g), f);
    }
    if CoversAny(pattern, TrimmedPaths(g), files) {
      var f :| f in files && Covers(pattern, TrimmedPaths(g), f);
      var t :| t in TrimmedPaths(g) && pattern(t, f);
      var p :| p in g.paths && Trim(p) == t;
    }
  }

  /** The rows are exactly the trimmed, non-empty titles of the grants that reach some file. */
  lemma DerivedIs(pattern: Pattern, index: Index, files: seq<string>, row: string)
    ensures row in Derived(pattern, index, files) <==>
      exists g :: g in index.grants && Reaches(pattern, g, files) && Trim(g.section) == row && row != ""
  {
    hide Trim, CoversAny, TrimmedPaths, Reaches;
    forall g ensures CoversAny(pattern, TrimmedPaths(g), files) <==> Reaches(pattern, g, files) {
      CoversAnyReaches(pattern, g, files);
    }
    if g :| g in index.grants && Reaches(pattern, g, files) && Trim(g.section) == row && row != "" {
      assert Confers(pattern, index, g.section, files);
    }
  }

  lemma {:induction false} InFingerprint(grants: seq<Grant>, section: string, paths: set<string>)
    ensures (section, paths) in Fingerprints(grants) <==>
      exists g :: g in grants && g.section == section && TrimmedPaths(g) == paths
  {
    if grants != [] {
      InFingerprint(grants[1..], section, paths);
    }
  }

  /** The fingerprint tells all that matters: equal fingerprints derive equal rows. */
  lemma FingerprintDetermines(pattern: Pattern, a: Index, b: Index, files: seq<string>)
    requires FingerprintOf(a) == FingerprintOf(b)
    ensures Derived(pattern, a, files) == Derived(pattern, b, files)
  {
    GrantsCarryOver(pattern, a, b, files);
    GrantsCarryOver(pattern, b, a, files);
  }

  lemma GrantsCarryOver(pattern: Pattern, a: Index, b: Index, files: seq<string>)
    requires FingerprintOf(a) == FingerprintOf(b)
    ensures Derived(pattern, a, files) <= Derived(pattern, b, files)
  {
    hide CoversAny, TrimmedPaths;
    forall s | s in Derived(pattern, a, files) ensures s in Derived(pattern, b, files) {
      var g :| g in a.grants && Confers(pattern, a, g.section, files) && Trim(g.section) == s && s != "";
      var h :| h in a.grants && h.section == g.section && CoversAny(pattern, TrimmedPaths(h), files);
      InFingerprint(a.grants, h.section, TrimmedPaths(h));
      InFingerprint(b.grants, h.section, TrimmedPaths(h));
    }
  }

  lemma NoGrantsDeriveNothing(pattern: Pattern, index: Index, files: seq<string>)
    requires index.grants == []
    ensures Derived(pattern, index, files) == {}
  {
  }
}

/** Re-deriving the stored grant rows when the grants change.

    A database call that fails, or the death of the process, ends a run anywhere; the
    call it ends in may or may not have been applied. */
module Backfill {
  import opened Options
  import opened Text
  import opened Grants

  const PAGE: nat := 500

  datatype Store = Store(
    bugs: map<int, seq<string>>,             // attributable files, empty when none are recorded
    patchsets: map<int, seq<seq<string>>>,   // the files of each part's diff
    bugGrants: map<int, set<string>>,
    patchsetGrants: map<int, set<string>>,
    fingerprint: Option<Fingerprint>)
  {
    /** Row ids are automatically incremented from 1. */
    predicate Valid() {
      && bugGrants.Keys == bugs.Keys && patchsetGrants.Keys == patchsets.Keys
      && (forall id :: id in bugs ==> id >= 1) && (forall id :: id in patchsets ==> id >= 1)
    }

    function PatchsetFiles(): map<int, seq<string>> {
      map id | id in patchsets :: Concat(patchsets[id])
    }
  }

  // ---- pages ----

  function Least(ids: set<int>): (low: int)
    requires ids != {}
    ensures low in ids && forall id :: id in ids ==> low <= id
  {
    LeastExists(ids);
    var low :| low in ids && forall id :: id in ids ==> low <= id;
    low
  }

  lemma {:induction false} LeastExists(ids: set<int>)
    requires ids != {}
    ensures exists low :: low in ids && forall id :: id in ids ==> low <= id
  {
    assert (forall x :: x !in ids) ==> ids == {};
    var x :| x in ids;
    if ids - {x} != {} {
      LeastExists(ids - {x});
      var low :| low in ids - {x} && forall id :: id in ids - {x} ==> low <= id;
      assert forall id :: id in ids ==> id == x || id in ids - {x};
      if low <= x {
        assert low in ids && forall id :: id in ids ==> low <= id;
      } else {
        assert x in ids && forall id :: id in ids ==> x <= id;
      }
    } else {
      assert ids == {x};
    }
  }

  function Above(ids: set<int>, afterId: int): set<int> {
    set id | id in ids && id > afterId
  }

  /** `WHERE id > afterId ORDER BY id ASC LIMIT limit`. */
  function IdsAfter(ids: set<int>, afterId: int, limit: nat): (page: seq<int>)
    ensures |page| <= limit
    ensures forall i :: 0 <= i < |page| ==> page[i] in ids && page[i] > afterId
    ensures forall i, j :: 0 <= i < j < |page| ==> page[i] < page[j]
    ensures forall id :: id in ids && id > afterId ==>
      (id in page || (|page| == limit && forall i :: 0 <= i < |page| ==> page[i] < id))
    decreases limit
  {
    assert forall id :: id in Above(ids, afterId) <==> id in ids && id > afterId;
    if limit == 0 || Above(ids, afterId) == {} then []
    else
      var low := Least(Above(ids, afterId));
      [low] + IdsAfter(ids, low, limit - 1)
  }

  // ---- what a walk leaves ----

  /** The rows once every id up to `upTo` is re-derived. */
  ghost function Rewrite(pattern: Pattern, index: Index, rows: map<int, set<string>>, files: map<int, seq<string>>,
          upTo: int)
      : map<int, set<string>>
    requires rows.Keys == files.Keys
  {
    map id | id in rows :: if id <= upTo then Derived(pattern, index, files[id]) else rows[id]
  }

  ghost function Walked(pattern: Pattern, index: Index, s: Store, bug: int, patchset: int): Store
    requires s.Valid()
  {
    s.(bugGrants := Rewrite(pattern, index, s.bugGrants, s.bugs, bug),
       patchsetGrants := Rewrite(pattern, index, s.patchsetGrants, s.PatchsetFiles(), patchset))
  }

  ghost predicate Whole(ids: set<int>, upTo: int) {
    forall id :: id in ids ==> id <= upTo
  }

  /** Every row is what the grants give the files it stands for. */
  ghost predicate Consistent(pattern: Pattern, index: Index, s: Store)
    requires s.Valid()
  {
    && (forall id :: id in s.bugs ==> s.bugGrants[id] == Derived(pattern, index, s.bugs[id]))
    && (forall id :: id in s.patchsets ==> s.patchsetGrants[id] == Derived(pattern, index, s.PatchsetFiles()[id]))
  }

  /** The store after a run that got as far as `bug` and `patchset`. Patchsets come after
      all bugs, and the fingerprint after all patchsets. */
  ghost predicate Ran(pattern: Pattern, index: Index, s: Store, ok: bool, bug: int, patchset: int, t: Store)
    requires s.Valid()
  {
    if index.empty || s.fingerprint == Some(FingerprintOf(index)) then t == s
    else
      var whole := Whole(s.bugs.Keys, bug) && Whole(s.patchsets.Keys, patchset);
      && (patchset != 0 ==> Whole(s.bugs.Keys, bug))
      && (ok ==> whole && t.fingerprint == Some(FingerprintOf(index)))
      && (t.fingerprint != s.fingerprint ==> whole && t.fingerprint == Some(FingerprintOf(index)))
      && t == Walked(pattern, index, s, bug, patchset).(fingerprint := t.fingerprint)
  }

  /** Ids visited in ascending order, each of `ids` up to `upTo` exactly once. */
  ghost predicate Visits(visited: seq<int>, ids: set<int>, upTo: int) {
    && (forall i, j :: 0 <= i < j < |visited| ==> visited[i] < visited[j])
    && (forall id :: id in visited <==> id in ids && id <= upTo)
  }

  lemma VisitsPage(visited: seq<int>, ids: set<int>, afterId: int, page: seq<int>)
    requires Visits(visited, ids, afterId) && page == IdsAfter(ids, afterId, PAGE) && page != []
    ensures Visits(visited + page, ids, page[|page| - 1])
    ensures Above(ids, page[|page| - 1]) < Above(ids, afterId)
  {
    hide IdsAfter;
    var last := page[|page| - 1];
    assert last in page && last in Above(ids, afterId) && last !in Above(ids, last);
    PageIsNext(ids, afterId, page);
    var all := visited + page;
    forall i, j | 0 <= i < j < |all| ensures all[i] < all[j] {
      if i < |visited| <= j {
        assert visited[i] in visited && page[j - |visited|] in page;
      }
    }
    forall id ensures id in all <==> id in ids && id <= last {
      assert id in all <==> id in visited || id in page;
    }
  }

  /** A page holds every id from the last page to its own end. */
  lemma PageIsNext(ids: set<int>, afterId: int, page: seq<int>)
    requires page == IdsAfter(ids, afterId, PAGE) && page != []
    ensures afterId < page[|page| - 1]
    ensures forall id :: id in page <==> id in ids && afterId < id <= page[|page| - 1]
  {
    hide IdsAfter;
    var last := page[|page| - 1];
    forall id | id in page ensures id in ids && afterId < id <= last {
      var i :| 0 <= i < |page| && page[i] == id;
    }
  }

  function Written(rows: map<int, set<string>>, batch: seq<(int, seq<string>)>): map<int, set<string>> {
    if batch == [] then rows
    else Written(rows, batch[..|batch| - 1])[batch[|batch| - 1].0 := Stored(batch[|batch| - 1].1)]
  }

  ghost predicate IsBatch(pattern: Pattern, index: Index, files: map<int, seq<string>>, page: seq<int>,
          batch: seq<(int, seq<string>)>)
  {
    && |batch| == |page|
    && forall i :: 0 <= i < |page| ==>
         page[i] in files && batch[i].0 == page[i] && Stored(batch[i].1) == Derived(pattern, index, files[page[i]])
  }

  lemma {:induction false} WrittenIs(pattern: Pattern, index: Index, rows: map<int, set<string>>,
          files: map<int, seq<string>>, page: seq<int>, batch: seq<(int, seq<string>)>)
    requires rows.Keys == files.Keys && IsBatch(pattern, index, files, page, batch)
    ensures Written(rows, batch) == map id | id in rows ::
      if id in page then Derived(pattern, index, files[id]) else rows[id]
  {
    hide Derived, Stored;
    if batch != [] {
      var n := |batch| - 1;
      WrittenIs(pattern, index, rows, files, page[..n], batch[..n]);
      assert page == page[..n] + [page[n]];
    }
  }

  lemma PageRewrites(pattern: Pattern, index: Index, rows: map<int, set<string>>, files: map<int, seq<string>>,
                     afterId: int, page: seq<int>, batch: seq<(int, seq<string>)>)
    requires rows.Keys == files.Keys && page == IdsAfter(files.Keys, afterId, PAGE) && page != []
    requires IsBatch(pattern, index, files, page, batch)
    ensures Written(Rewrite(pattern, index, rows, files, afterId), batch)
      == Rewrite(pattern, index, rows, files, page[|page| - 1])
  {
    hide Derived, Stored, IdsAfter, IsBatch, Written;
    var before := Rewrite(pattern, index, rows, files, afterId);
    WrittenIs(pattern, index, before, files, page, batch);
    PageIsNext(files.Keys, afterId, page);
  }

  lemma BatchSnoc(pattern: Pattern, index: Index, files: map<int, seq<string>>, page: seq<int>,
                  batch: seq<(int, seq<string>)>, id: int, sections: seq<string>)
    requires IsBatch(pattern, index, files, page, batch)
    requires id in files && Stored(sections) == Derived(pattern, index, files[id])
    ensures IsBatch(pattern, index, files, page + [id], batch + [(id, sections)])
  {
    hide Derived, Stored;
  }

  /** The ids among these with no files. */
  function Fileless(files: map<int, seq<string>>, ids: seq<int>): set<int> {
    set id | id in ids && id in files && files[id] == []
  }

  // ---- the runs ----

  class Database {
    var store: Store
    var callsLeft: nat      // calls that still succeed
    const torn: bool        // whether the write that fails is applied all the same
    const pattern: Pattern

    constructor (store: Store, callsLeft: nat, torn: bool, pattern: Pattern)
      ensures this.store == store && this.callsLeft == callsLeft && this.torn == torn && this.pattern == pattern
    {
      this.store, this.callsLeft, this.torn, this.pattern := store, callsLeft, torn, pattern;
    }

    method Call() returns (ok: bool)
      modifies this`callsLeft
      ensures ok <==> old(callsLeft) > 0
      ensures callsLeft == if ok then old(callsLeft) - 1 else 0
    {
      ok := callsLeft > 0;
      callsLeft := if ok then callsLeft - 1 else 0;
    }

    method ReplaceBugRows(batch: seq<(int, seq<string>)>) returns (ok: bool)
      modifies this
      ensures ok <==> old(callsLeft) > 0
      ensures callsLeft == if ok then old(callsLeft) - 1 else 0
      ensures store == old(store).(bugGrants :=
        if ok || torn then Written(old(store).bugGrants, batch) else old(store).bugGrants)
    {
      ok := Call();
      if ok || torn {
        store := store.(bugGrants := Written(store.bugGrants, batch));
      }
    }

    method ReplacePatchsetRows(batch: seq<(int, seq<string>)>) returns (ok: bool)
      modifies this
      ensures ok <==> old(callsLeft) > 0
      ensures callsLeft == if ok then old(callsLeft) - 1 else 0
      ensures store == old(store).(patchsetGrants := if ok || torn then Written(old(store).patchsetGrants, batch)
                                                     else old(store).patchsetGrants)
    {
      ok := Call();
      if ok || torn {
        store := store.(patchsetGrants := Written(store.patchsetGrants, batch));
      }
    }

    method ClearRows() returns (ok: bool)
      modifies this
      ensures ok <==> old(callsLeft) > 0
      ensures callsLeft == if ok then old(callsLeft) - 1 else 0
      ensures store == if ok || torn then
          old(store).(bugGrants := map id | id in old(store).bugGrants :: {},
                      patchsetGrants := map id | id in old(store).patchsetGrants :: {})
        else old(store)
    {
      ok := Call();
      if ok || torn {
        store := store.(bugGrants := map id | id in store.bugGrants :: {},
                        patchsetGrants := map id | id in store.patchsetGrants :: {});
      }
    }

    method SetFingerprint(fingerprint: Fingerprint) returns (ok: bool)
      modifies this
      ensures ok <==> old(callsLeft) > 0
      ensures callsLeft == if ok then old(callsLeft) - 1 else 0
      ensures store == if ok || torn then old(store).(fingerprint := Some(fingerprint)) else old(store)
    {
      ok := Call();
      if ok || torn {
        store := store.(fingerprint := Some(fingerprint));
      }
    }

    /** Walks the bugs page by page. `upTo` is how far the rows got. */
    method ReconcileBugs(index: Index)
        returns (ok: bool, walked: nat, skipped: nat, ghost visited: seq<int>, ghost upTo: int)
      requires store.Valid()
      modifies this
      ensures store == old(store).(bugGrants := Rewrite(pattern, index, old(store).bugGrants, old(store).bugs, upTo))
      ensures ok ==> Whole(store.bugs.Keys, upTo) && Visits(visited, store.bugs.Keys, upTo) && walked == |visited|
                     && skipped == |Fileless(store.bugs, visited)|
      ensures old(callsLeft) <= callsLeft + 3 * |store.bugs.Keys| + 1 && (!ok ==> callsLeft == 0)
    {
      hide Derived, IdsAfter, Written, Visits, Rewrite, Fileless, Whole, IsBatch;
      var afterId := 0;
      walked, skipped, visited, upTo := 0, 0, [], 0;
      ghost var s := store;
      RewriteNothing(pattern, index, s.bugGrants, s.bugs);
      VisitsNothing(s.bugs.Keys);
      assert Fileless(s.bugs, []) == {} by { NothingFileless(s.bugs); }
      while true
        invariant store == s.(bugGrants := Rewrite(pattern, index, s.bugGrants, s.bugs, afterId))
        invariant upTo == afterId && Visits(visited, s.bugs.Keys, afterId)
        invariant walked == |visited| && skipped == |Fileless(s.bugs, visited)|
        invariant old(callsLeft) <= callsLeft + 3 * |visited|
        decreases Above(s.bugs.Keys, afterId)
      {
        VisitedAtMost(visited, s.bugs.Keys, afterId);
        ok := Call();
        if !ok {
          return;
        }
        var ids := IdsAfter(store.bugs.Keys, afterId, PAGE);
        if ids == [] {
          LastPage(s.bugs.Keys, visited, afterId);
          return;
        }
        VisitsPage(visited, s.bugs.Keys, afterId, ids);
        VisitedAtMost(visited + ids, s.bugs.Keys, ids[|ids| - 1]);
        var batch: seq<(int, seq<string>)> := [];
        var more, missing;
        ok, batch, more, missing := DeriveBugs(index, ids);
        if !ok {
          return;
        }
        FilelessAdd(s.bugs, visited, afterId, ids);
        walked, skipped := walked + more, skipped + missing;
        visited := visited + ids;
        PageRewrites(pattern, index, s.bugGrants, s.bugs, afterId, ids, batch);
        ok := ReplaceBugRows(batch);
        if ok || torn {
          upTo := ids[|ids| - 1];
        }
        if !ok {
          return;
        }
        afterId := ids[|ids| - 1];
      }
    }

    /** The rows of one page of bugs. */
    method DeriveBugs(index: Index, ids: seq<int>)
        returns (ok: bool, batch: seq<(int, seq<string>)>, walked: nat, skipped: nat)
      requires forall i :: 0 <= i < |ids| ==> ids[i] in store.bugs
      requires forall i, j :: 0 <= i < j < |ids| ==> ids[i] < ids[j]
      modifies this`callsLeft
      ensures ok ==> IsBatch(pattern, index, store.bugs, ids, batch)
      ensures ok ==> walked == |ids| && skipped == |Fileless(store.bugs, ids)|
      ensures old(callsLeft) <= callsLeft + |ids| && (!ok ==> callsLeft == 0)
    {
      hide Derived, Stored, IsBatch, AreFirsts, Confers;
      batch, walked, skipped := [], 0, 0;
      assert IsBatch(pattern, index, store.bugs, [], []) by {
        NoBatch(pattern, index, store.bugs);
      }
      for i := 0 to |ids|
        invariant IsBatch(pattern, index, store.bugs, ids[..i], batch)
        invariant walked == i && skipped == |Fileless(store.bugs, ids[..i])|
        invariant old(callsLeft) <= callsLeft + i
      {
        ok := Call();
        if !ok {
          return;
        }
        var files := store.bugs[ids[i]];
        walked := walked + 1;
        assert ids[..i + 1] == ids[..i] + [ids[i]];
        FilelessSnoc(store.bugs, ids[..i], ids[i]);
        if files == [] {
          skipped := skipped + 1;
        }
        var sections := UpstreamGrantSections(pattern, index, files);
        BatchSnoc(pattern, index, store.bugs, ids[..i], batch, ids[i], sections);
        batch := batch + [(ids[i], sections)];
      }
      ok := true;
      assert ids[..|ids|] == ids;
    }

    /** Walks the patchsets page by page. */
    method ReconcilePatchsets(index: Index) returns (ok: bool, walked: nat, ghost visited: seq<int>, ghost upTo: int)
      requires store.Valid()
      modifies this
      ensures store == old(store).(patchsetGrants :=
        Rewrite(pattern, index, old(store).patchsetGrants, old(store).PatchsetFiles(), upTo))
      ensures ok ==>
        Whole(store.patchsets.Keys, upTo) && Visits(visited, store.patchsets.Keys, upTo) && walked == |visited|
      ensures old(callsLeft) <= callsLeft + 3 * |store.patchsets.Keys| + 1 && (!ok ==> callsLeft == 0)
    {
      hide Derived, IdsAfter, Written, Visits, Concat, Rewrite, Whole, IsBatch;
      var afterId := 0;
      walked, visited, upTo := 0, [], 0;
      ghost var s, files := store, store.PatchsetFiles();
      assert files.Keys == s.patchsets.Keys;
      RewriteNothing(pattern, index, s.patchsetGrants, files);
      VisitsNothing(files.Keys);
      while true
        invariant store == s.(patchsetGrants := Rewrite(pattern, index, s.patchsetGrants, files, afterId))
        invariant upTo == afterId && Visits(visited, files.Keys, afterId) && walked == |visited|
        invariant old(callsLeft) <= callsLeft + 3 * |visited|
        decreases Above(files.Keys, afterId)
      {
        VisitedAtMost(visited, files.Keys, afterId);
        ok := Call();
        if !ok {
          return;
        }
        var ids := IdsAfter(store.patchsets.Keys, afterId, PAGE);
        if ids == [] {
          LastPage(files.Keys, visited, afterId);
          return;
        }
        VisitsPage(visited, files.Keys, afterId, ids);
        VisitedAtMost(visited + ids, files.Keys, ids[|ids| - 1]);
        var batch: seq<(int, seq<string>)> := [];
        ok, batch := DerivePatchsets(index, ids);
        if !ok {
          return;
        }
        walked := walked + |ids|;
        visited := visited + ids;
        PageRewrites(pattern, index, s.patchsetGrants, files, afterId, ids, batch);
        ok := ReplacePatchsetRows(batch);
        if ok || torn {
          upTo := ids[|ids| - 1];
        }
        if !ok {
          return;
        }
        afterId := ids[|ids| - 1];
      }
    }

    /** The rows of one page of patchsets. */
    method DerivePatchsets(index: Index, ids: seq<int>) returns (ok: bool, batch: seq<(int, seq<string>)>)
      requires forall i :: 0 <= i < |ids| ==> ids[i] in store.patchsets
      modifies this`callsLeft
      ensures ok ==> IsBatch(pattern, index, store.PatchsetFiles(), ids, batch)
      ensures old(callsLeft) <= callsLeft + |ids| && (!ok ==> callsLeft == 0)
    {
      hide Derived, Stored, IsBatch, AreFirsts, Confers;
      batch := [];
      NoBatch(pattern, index, store.PatchsetFiles());
      for i := 0 to |ids|
        invariant IsBatch(pattern, index, store.PatchsetFiles(), ids[..i], batch)
        invariant old(callsLeft) <= callsLeft + i
      {
        ok := Call();
        if !ok {
          return;
        }
        var diffs := store.patchsets[ids[i]];
        var files: seq<string> := [];
        ghost var left := callsLeft;
        for j := 0 to |diffs|
          invariant files == Concat(diffs[..j]) && callsLeft == left
        {
          ConcatAppend(diffs[..j], [diffs[j]]);
          assert diffs[..j + 1] == diffs[..j] + [diffs[j]];
          assert Concat([diffs[j]]) == diffs[j];
          files := files + diffs[j];
        }
        assert diffs[..|diffs|] == diffs;
        var sections := UpstreamGrantSections(pattern, index, files);
        assert ids[..i + 1] == ids[..i] + [ids[i]];
        BatchSnoc(pattern, index, store.PatchsetFiles(), ids[..i], batch, ids[i], sections);
        batch := batch + [(ids[i], sections)];
      }
      ok := true;
      assert ids[..|ids|] == ids;
    }

    /** One boot's attempt: `bug` and `patchset` are how far the rows got. It fails only when a
        call does, and makes no more than three calls a row and four besides. */
    method ReconcileUpstreamGrantSections(index: Index) returns (ok: bool, ghost bug: int, ghost patchset: int)
      requires store.Valid()
      modifies this
      ensures store.Valid() && Ran(pattern, index, old(store), ok, bug, patchset, store)
      ensures !ok ==> callsLeft == 0
      ensures old(callsLeft) > 3 * (|store.bugs.Keys| + |store.patchsets.Keys|) + 4 ==> ok
    {
      hide Derived, Visits, Whole, FingerprintOf;
      bug, patchset := 0, 0;
      ghost var s := store;
      WalkedNothing(pattern, index, s);
      if index.empty {
        return true, bug, patchset;
      }
      ok := Call();
      if !ok {
        return;
      }
      if store.fingerprint == Some(FingerprintOf(index)) {
        return;
      }
      if index.grants != [] {
        var walked, skipped;
        ghost var visited;
        ok, walked, skipped, visited, bug := ReconcileBugs(index);
        WalkedSplit(pattern, index, s, bug, 0);
        if !ok {
          return;
        }
        ok, walked, visited, patchset := ReconcilePatchsets(index);
        WalkedSplit(pattern, index, s, bug, patchset);
        if !ok {
          return;
        }
      } else {
        bug, patchset := ClearedIsWalked(pattern, index, s);
        ok := ClearRows();
        if !ok {
          if !torn {
            bug, patchset := 0, 0;
          }
          return;
        }
      }
      ok := SetFingerprint(FingerprintOf(index));
    }
  }

  lemma VisitedAtMost(visited: seq<int>, ids: set<int>, upTo: int)
    requires Visits(visited, ids, upTo)
    ensures |visited| <= |ids|
  {
    var members := set i | i in visited;
    AscendingSize(visited);
    assert members <= ids;
    SmallerSet(members, ids);
  }

  lemma {:induction false} AscendingSize(ids: seq<int>)
    requires forall i, j :: 0 <= i < j < |ids| ==> ids[i] < ids[j]
    ensures |set i | i in ids| == |ids|
  {
    if ids == [] {
      assert (set i | i in ids) == {};
    } else {
      var front, last := ids[..|ids| - 1], ids[|ids| - 1];
      AscendingSize(front);
      assert ids == front + [last];
      assert (set i | i in ids) == (set i | i in front) + {last};
    }
  }

  lemma WalkedNothing(pattern: Pattern, index: Index, s: Store)
    requires s.Valid()
    ensures Walked(pattern, index, s, 0, 0) == s
  {
    RewriteNothing(pattern, index, s.bugGrants, s.bugs);
    RewriteNothing(pattern, index, s.patchsetGrants, s.PatchsetFiles());
  }

  /** Bugs first, patchsets after them. */
  lemma WalkedSplit(pattern: Pattern, index: Index, s: Store, bug: int, patchset: int)
    requires s.Valid()
    ensures var t := s.(bugGrants := Rewrite(pattern, index, s.bugGrants, s.bugs, bug));
      t.Valid() && t.PatchsetFiles() == s.PatchsetFiles()
      && Walked(pattern, index, s, bug, patchset)
         == t.(patchsetGrants := Rewrite(pattern, index, s.patchsetGrants, s.PatchsetFiles(), patchset))
      && Walked(pattern, index, s, bug, 0) == t
      && Walked(pattern, index, s, bug, patchset).Valid()
  {
    hide Derived;
    RewriteNothing(pattern, index, s.patchsetGrants, s.PatchsetFiles());
  }

  lemma {:induction false} Bound(ids: set<int>) returns (top: int)
    ensures Whole(ids, top)
  {
    top := 0;
    if ids != {} {
      var low := Least(ids);
      top := Bound(ids - {low});
      top := if top < low then low else top;
      forall id | id in ids ensures id <= top {
        assert id == low || id in ids - {low};
      }
    }
  }

  /** Without grants, deriving everything and clearing everything are the same. */
  lemma ClearedIsWalked(pattern: Pattern, index: Index, s: Store) returns (bug: int, patchset: int)
    requires s.Valid() && index.grants == []
    ensures Whole(s.bugs.Keys, bug) && Whole(s.patchsets.Keys, patchset)
    ensures Walked(pattern, index, s, bug, patchset)
         == s.(bugGrants := map id | id in s.bugGrants :: {}, patchsetGrants := map id | id in s.patchsetGrants :: {})
  {
    bug := Bound(s.bugs.Keys);
    patchset := Bound(s.patchsets.Keys);
    forall files ensures Derived(pattern, index, files) == {} {
      NoGrantsDeriveNothing(pattern, index, files);
    }
  }

  lemma NoBatch(pattern: Pattern, index: Index, files: map<int, seq<string>>)
    ensures IsBatch(pattern, index, files, [], [])
  {
  }

  lemma NothingFileless(files: map<int, seq<string>>)
    ensures Fileless(files, []) == {}
  {
  }

  lemma FilelessSnoc(files: map<int, seq<string>>, ids: seq<int>, id: int)
    requires id !in ids && id in files
    ensures |Fileless(files, ids + [id])| == |Fileless(files, ids)| + if files[id] == [] then 1 else 0
  {
    assert Fileless(files, ids + [id]) == Fileless(files, ids) + if files[id] == [] then {id} else {};
  }

  lemma RewriteNothing(pattern: Pattern, index: Index, rows: map<int, set<string>>, files: map<int, seq<string>>)
    requires rows.Keys == files.Keys && forall id :: id in rows ==> id >= 1
    ensures Rewrite(pattern, index, rows, files, 0) == rows
  {
  }

  lemma VisitsNothing(ids: set<int>)
    requires forall id :: id in ids ==> id >= 1
    ensures Visits([], ids, 0)
  {
  }

  lemma LastPage(ids: set<int>, visited: seq<int>, afterId: int)
    requires IdsAfter(ids, afterId, PAGE) == [] && Visits(visited, ids, afterId)
    ensures Whole(ids, afterId) && forall id :: id in visited ==> id in ids
  {
  }

  lemma FilelessAdd(files: map<int, seq<string>>, visited: seq<int>, afterId: int, page: seq<int>)
    requires Visits(visited, files.Keys, afterId) && page == IdsAfter(files.Keys, afterId, PAGE)
    ensures |Fileless(files, visited + page)| == |Fileless(files, visited)| + |Fileless(files, page)|
  {
    hide IdsAfter;
    var a, b := Fileless(files, visited), Fileless(files, page);
    assert Fileless(files, visited + page) == a + b;
    assert a !! b;
  }
}
