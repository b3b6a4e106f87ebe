/** Boots, crashes and restarts around the reconciliation of `Backfill`.

    A boot may attribute things, reconciles once, and then ingests until the next boot;
    whatever it attributes gets the grants of its own index, which may be the empty one. */
module BackfillRuns {
  import opened Options
  import opened Text
  import opened Grants
  import opened Backfill

  datatype Touched = Touched(bugs: set<int>, patchsets: set<int>)

  /** `early` and `late` are what is attributed before and after the call. */
  datatype Boot = Boot(index: Index, early: Touched, before: Store, ok: bool, bug: int, patchset: int,
                       after: Store, late: Touched)

  /** What was touched has the rows of `index`; everything else is as it was. */
  ghost predicate Rewritten(pattern: Pattern, index: Index, s: Store, t: Store, touched: Touched) {
    && s.Valid() && t.Valid()
    && (forall id :: id in t.bugs ==>
          if id in touched.bugs then t.bugGrants[id] == Derived(pattern, index, t.bugs[id])
          else id in s.bugs && t.bugs[id] == s.bugs[id] && t.bugGrants[id] == s.bugGrants[id])
    && (forall id :: id in t.patchsets ==>
          if id in touched.patchsets then t.patchsetGrants[id] == Derived(pattern, index, t.PatchsetFiles()[id])
          else id in s.patchsets && t.PatchsetFiles()[id] == s.PatchsetFiles()[id]
               && t.patchsetGrants[id] == s.patchsetGrants[id])
  }

  ghost predicate Ingested(pattern: Pattern, index: Index, s: Store, t: Store, touched: Touched) {
    Rewritten(pattern, index, s, t, touched) && t.fingerprint == s.fingerprint
  }

  ghost predicate IsBoot(pattern: Pattern, s: Store, b: Boot, t: Store) {
    && Ingested(pattern, b.index, s, b.before, b.early)
    && Ran(pattern, b.index, b.before, b.ok, b.bug, b.patchset, b.after)
    && Ingested(pattern, b.index, b.after, t, b.late)
  }

  /** `stores[i]` is the store boot `i` finds. */
  ghost predicate Boots(pattern: Pattern, stores: seq<Store>, boots: seq<Boot>) {
    && |stores| == |boots| + 1
    && stores[0].Valid()
    && forall i :: 0 <= i < |boots| ==> IsBoot(pattern, stores[i], boots[i], stores[i + 1])
  }

  /** The ids whose rows a call re-derives; none if it has nothing to do. */
  function Rederived(index: Index, s: Store, bug: int, patchset: int): Touched {
    if index.empty || s.fingerprint == Some(FingerprintOf(index)) then Touched({}, {})
    else Touched(set id | id in s.bugs && id <= bug, set id | id in s.patchsets && id <= patchset)
  }

  function Union(x: Touched, y: Touched): Touched {
    Touched(x.bugs + y.bugs, x.patchsets + y.patchsets)
  }

  /** Everything a boot attributes or re-derives. */
  function TouchedBy(b: Boot): Touched {
    Union(Union(b.early, Rederived(b.index, b.before, b.bug, b.patchset)), b.late)
  }

  /** Nothing that was touched gets other rows from `a` than it got from `b`. */
  ghost predicate Agrees(pattern: Pattern, a: Index, b: Index, t: Store, touched: Touched) {
    && (forall id :: id in t.bugs && id in touched.bugs ==>
      Derived(pattern, a, t.bugs[id]) == Derived(pattern, b, t.bugs[id]))
    && (forall id :: id in t.patchsets && id in touched.patchsets ==>
          Derived(pattern, a, t.PatchsetFiles()[id]) == Derived(pattern, b, t.PatchsetFiles()[id]))
  }

  /** The fingerprint of `index`, if recorded, is to be trusted. */
  ghost predicate Trusted(pattern: Pattern, index: Index, s: Store)
    requires s.Valid()
  {
    s.fingerprint == Some(FingerprintOf(index)) ==> Consistent(pattern, index, s)
  }

  // ---- one boot ----

  lemma SameDerived(pattern: Pattern, a: Index, b: Index)
    requires FingerprintOf(a) == FingerprintOf(b)
    ensures forall files :: Derived(pattern, a, files) == Derived(pattern, b, files)
  {
    hide FingerprintOf, Derived;
    forall files ensures Derived(pattern, a, files) == Derived(pattern, b, files) {
      FingerprintDetermines(pattern, a, b, files);
    }
  }

  /** The same grants, however they are written down, agree on everything. */
  lemma UnchangedGrantsAgree(pattern: Pattern, a: Index, b: Index, t: Store, touched: Touched)
    requires FingerprintOf(a) == FingerprintOf(b)
    ensures Agrees(pattern, a, b, t, touched)
  {
    hide FingerprintOf, Derived;
    SameDerived(pattern, a, b);
  }

  lemma WholeWalkIsConsistent(pattern: Pattern, index: Index, s: Store, bug: int, patchset: int)
    requires s.Valid() && Whole(s.bugs.Keys, bug) && Whole(s.patchsets.Keys, patchset)
    ensures Walked(pattern, index, s, bug, patchset).Valid()
    ensures Consistent(pattern, index, Walked(pattern, index, s, bug, patchset))
  {
    hide Derived;
    var t := Walked(pattern, index, s, bug, patchset);
    assert t.PatchsetFiles() == s.PatchsetFiles();
  }

  lemma RanRewrites(pattern: Pattern, index: Index, s: Store, ok: bool, bug: int, patchset: int, t: Store)
    requires s.Valid() && Ran(pattern, index, s, ok, bug, patchset, t)
    ensures Rewritten(pattern, index, s, t, Rederived(index, s, bug, patchset))
  {
    hide Derived, FingerprintOf;
    WalkedSplit(pattern, index, s, bug, patchset);
    assert t.PatchsetFiles() == s.PatchsetFiles();
  }

  lemma RewrittenChain(pattern: Pattern, index: Index, s: Store, t: Store, u: Store, x: Touched, y: Touched)
    requires Rewritten(pattern, index, s, t, x) && Rewritten(pattern, index, t, u, y)
    ensures Rewritten(pattern, index, s, u, Union(x, y))
  {
    hide Derived;
  }

  lemma BootRewrites(pattern: Pattern, s: Store, b: Boot, t: Store)
    requires IsBoot(pattern, s, b, t)
    ensures Rewritten(pattern, b.index, s, t, TouchedBy(b))
  {
    hide Derived, Rewritten, Ran, Rederived, Union;
    RewrittenIsValid(pattern, b.index, s, b.before, b.early);
    RanRewrites(pattern, b.index, b.before, b.ok, b.bug, b.patchset, b.after);
    var walked := Rederived(b.index, b.before, b.bug, b.patchset);
    RewrittenChain(pattern, b.index, s, b.before, b.after, b.early, walked);
    RewrittenChain(pattern, b.index, s, b.after, t, Union(b.early, walked), b.late);
  }

  lemma RewrittenIsValid(pattern: Pattern, index: Index, s: Store, t: Store, touched: Touched)
    requires Rewritten(pattern, index, s, t, touched)
    ensures s.Valid() && t.Valid()
  {
  }

  lemma RewrittenIsConsistentExactly(pattern: Pattern, a: Index, b: Index, s: Store, t: Store, touched: Touched)
    requires s.Valid() && Consistent(pattern, a, s) && Rewritten(pattern, b, s, t, touched)
    ensures Consistent(pattern, a, t) <==> Agrees(pattern, a, b, t, touched)
  {
    hide Derived;
  }

  /** A whole boot under any index, the empty one included, and however it ends, leaves rows
      that were right under `a` right exactly when `a` gives everything it touched the rows
      it got. */
  lemma BootKeepsConsistentExactly(pattern: Pattern, a: Index, s: Store, b: Boot, t: Store)
    requires s.Valid() && IsBoot(pattern, s, b, t) && Consistent(pattern, a, s)
    ensures t.Valid() && (Consistent(pattern, a, t) <==> Agrees(pattern, a, b.index, t, TouchedBy(b)))
  {
    hide Derived, Rewritten, Ran, TouchedBy, Consistent, Agrees;
    BootRewrites(pattern, s, b, t);
    RewrittenIsValid(pattern, b.index, s, t, TouchedBy(b));
    RewrittenIsConsistentExactly(pattern, a, b.index, s, t, TouchedBy(b));
  }

  /** Exactly when a successful call leaves every row right: the recorded fingerprint was
      another one, or the rows were right already. */
  lemma SuccessIsConsistentExactly(pattern: Pattern, index: Index, s: Store, bug: int, patchset: int, t: Store)
    requires s.Valid() && !index.empty && Ran(pattern, index, s, true, bug, patchset, t)
    ensures t.Valid() && t.fingerprint == Some(FingerprintOf(index))
    ensures Consistent(pattern, index, t) <==>
      s.fingerprint != Some(FingerprintOf(index)) || Consistent(pattern, index, s)
  {
    hide Derived, FingerprintOf;
    WalkedSplit(pattern, index, s, bug, patchset);
    if s.fingerprint != Some(FingerprintOf(index)) {
      WholeWalkIsConsistent(pattern, index, s, bug, patchset);
      assert t.PatchsetFiles() == s.PatchsetFiles();
    }
  }

  /** Grants `a`, a whole boot under any index, and a successful call under `a` again: every
      row is right exactly when the boot recorded another fingerprint, so that the call
      walks, or `a` gives everything the boot touched the rows it got. */
  lemma ReturningGrantsExactly(pattern: Pattern, a: Index, s: Store, b: Boot, t: Store, bug: int, patchset: int,
          u: Store)
    requires s.Valid() && Consistent(pattern, a, s) && IsBoot(pattern, s, b, t)
    requires !a.empty && Ran(pattern, a, t, true, bug, patchset, u)
    ensures u.Valid() && (Consistent(pattern, a, u) <==>
      t.fingerprint != Some(FingerprintOf(a)) || Agrees(pattern, a, b.index, t, TouchedBy(b)))
  {
    hide Derived, FingerprintOf, Ran, TouchedBy, Consistent, Agrees, IsBoot;
    BootKeepsConsistentExactly(pattern, a, s, b, t);
    SuccessIsConsistentExactly(pattern, a, t, bug, patchset, u);
  }

  // ---- whole runs ----

  ghost predicate AllAgree(pattern: Pattern, a: Index, stores: seq<Store>, boots: seq<Boot>)
    requires |stores| == |boots| + 1
  {
    forall i :: 0 <= i < |boots| ==> Agrees(pattern, a, boots[i].index, stores[i + 1], TouchedBy(boots[i]))
  }

  lemma BootsAreValid(pattern: Pattern, stores: seq<Store>, boots: seq<Boot>)
    requires Boots(pattern, stores, boots)
    ensures forall i :: 0 <= i < |stores| ==> stores[i].Valid()
  {
    hide Rewritten, Ran;
    forall i | 0 < i < |stores| ensures stores[i].Valid() {
      assert IsBoot(pattern, stores[i - 1], boots[i - 1], stores[i]);
      RewrittenIsValid(pattern, boots[i - 1].index, boots[i - 1].after, stores[i], boots[i - 1].late);
    }
  }

  /** From a store whose rows are right, over any boots: they stay right throughout exactly
      when every boot agrees with the grants on all it touches. */
  lemma {:induction false} StaysConsistentExactly(pattern: Pattern, a: Index, stores: seq<Store>, boots: seq<Boot>)
    requires Boots(pattern, stores, boots) && Consistent(pattern, a, stores[0])
    ensures forall i :: 0 <= i < |stores| ==> stores[i].Valid()
    ensures (forall i :: 0 <= i < |stores| ==> Consistent(pattern, a, stores[i])) <==>
      AllAgree(pattern, a, stores, boots)
    decreases |boots|
  {
    hide Derived, FingerprintOf, Consistent, IsBoot, Agrees, TouchedBy;
    BootsAreValid(pattern, stores, boots);
    if boots != [] {
      var n := |boots| - 1;
      var front := stores[..n + 1];
      assert forall i :: 0 <= i < n ==> boots[..n][i] == boots[i];
      StaysConsistentExactly(pattern, a, front, boots[..n]);
      assert forall i :: 0 <= i <= n ==> front[i] == stores[i];
      assert AllAgree(pattern, a, stores, boots) <==>
        (AllAgree(pattern, a, front, boots[..n])
         && Agrees(pattern, a, boots[n].index, stores[n + 1], TouchedBy(boots[n])));
      if Consistent(pattern, a, stores[n]) {
        BootKeepsConsistentExactly(pattern, a, stores[n], boots[n], stores[n + 1]);
      }
    }
  }

  /** A boot that reconciles with these grants, and gets through. */
  predicate Succeeds(index: Index, b: Boot) {
    b.ok && !b.index.empty && FingerprintOf(b.index) == FingerprintOf(index)
  }

  /** A call under these grants, however it ends, keeps their fingerprint trusted, and a
      successful one leaves every row right. */
  lemma CallKeepsTrust(pattern: Pattern, index: Index, mine: Index, s: Store, ok: bool, bug: int, patchset: int,
          t: Store)
    requires s.Valid() && !mine.empty && FingerprintOf(mine) == FingerprintOf(index)
    requires Ran(pattern, mine, s, ok, bug, patchset, t) && Trusted(pattern, index, s)
    ensures t.Valid() && Trusted(pattern, index, t)
    ensures ok ==> Consistent(pattern, index, t)
  {
    hide Derived, FingerprintOf;
    WalkedSplit(pattern, mine, s, bug, patchset);
    SameDerived(pattern, mine, index);
    if s.fingerprint != Some(FingerprintOf(mine)) && t.fingerprint == Some(FingerprintOf(mine)) {
      WholeWalkIsConsistent(pattern, mine, s, bug, patchset);
      assert t.PatchsetFiles() == s.PatchsetFiles();
    }
  }

  /** Attribution under the same grants keeps rows right. */
  lemma SameGrantsKeepConsistent(pattern: Pattern, index: Index, mine: Index, s: Store, t: Store, touched: Touched)
    requires FingerprintOf(mine) == FingerprintOf(index) && Ingested(pattern, mine, s, t, touched)
    ensures Consistent(pattern, index, s) ==> Consistent(pattern, index, t)
  {
    hide Derived, FingerprintOf, Consistent, Agrees;
    if Consistent(pattern, index, s) {
      UnchangedGrantsAgree(pattern, index, mine, t, touched);
      RewrittenIsConsistentExactly(pattern, index, mine, s, t, touched);
    }
  }

  lemma BootKeepsTrust(pattern: Pattern, index: Index, s: Store, b: Boot, t: Store)
    requires s.Valid() && IsBoot(pattern, s, b, t) && Trusted(pattern, index, s)
    requires Agrees(pattern, index, b.index, t, TouchedBy(b))
    ensures t.Valid() && Trusted(pattern, index, t)
    ensures Consistent(pattern, index, s) || Succeeds(index, b) ==> Consistent(pattern, index, t)
  {
    hide Derived, FingerprintOf, Consistent, Rewritten, Agrees, TouchedBy;
    BootRewrites(pattern, s, b, t);
    RewrittenIsValid(pattern, b.index, s, t, TouchedBy(b));
    if Consistent(pattern, index, s) {
      BootKeepsConsistentExactly(pattern, index, s, b, t);
    } else if !b.index.empty && FingerprintOf(b.index) == FingerprintOf(index) {
      RewrittenIsValid(pattern, b.index, s, b.before, b.early);
      CallKeepsTrust(pattern, index, b.index, b.before, b.ok, b.bug, b.patchset, b.after);
      SameGrantsKeepConsistent(pattern, index, b.index, b.after, t, b.late);
    }
  }

  /** Any boots, crashes and restarts, each under these grants or agreeing with them on all
      it touches: from the first successful call under them on, every bug and patchset row
      is what they derive from its files. */
  lemma {:induction false} CrashSafe(pattern: Pattern, index: Index, stores: seq<Store>, boots: seq<Boot>)
    requires Boots(pattern, stores, boots) && Trusted(pattern, index, stores[0])
    requires forall i :: 0 <= i < |boots| ==>
      FingerprintOf(boots[i].index) == FingerprintOf(index)
      || Agrees(pattern, index, boots[i].index, stores[i + 1], TouchedBy(boots[i]))
    ensures forall i :: 0 <= i < |stores| ==> stores[i].Valid() && Trusted(pattern, index, stores[i])
    ensures forall i, j :: 0 <= i < j < |stores| && Succeeds(index, boots[i]) ==> Consistent(pattern, index, stores[j])
    decreases |boots|
  {
    hide Derived, FingerprintOf, Consistent, IsBoot, Agrees, TouchedBy, Succeeds;
    if boots != [] {
      var n := |boots| - 1;
      var front := stores[..n + 1];
      assert forall i :: 0 <= i < n ==> boots[..n][i] == boots[i];
      CrashSafe(pattern, index, front, boots[..n]);
      assert stores[n] == front[n] && stores == front + [stores[n + 1]];
      if FingerprintOf(boots[n].index) == FingerprintOf(index) {
        UnchangedGrantsAgree(pattern, index, boots[n].index, stores[n + 1], TouchedBy(boots[n]));
      }
      BootKeepsTrust(pattern, index, stores[n], boots[n], stores[n + 1]);
      forall i, j | 0 <= i < j < |stores| && Succeeds(index, boots[i]) ensures Consistent(pattern, index, stores[j]) {
        if j <= n {
          assert Succeeds(index, boots[..n][i]) && front[j] == stores[j];
        } else if i < n {
          assert Succeeds(index, boots[..n][i]) && Consistent(pattern, index, front[n]);
        }
      }
    }
  }

  // ---- inputs for which returning grants leave stale rows ----

  function AnyFile(): Pattern {
    (p: string, f: string) => true
  }

  lemma OneGrantDerives(a: Index, grant: Grant, file: string)
    requires a.grants == [grant] && grant.paths != [] && Trim(grant.section) != ""
    ensures Derived(AnyFile(), a, [file]) == {Trim(grant.section)}
  {
    hide Trim;
    assert Trim(grant.paths[0]) in TrimmedPaths(grant) by {
      assert grant.paths[0] in grant.paths;
    }
    assert Covers(AnyFile(), TrimmedPaths(grant), file) by {
      assert AnyFile()(Trim(grant.paths[0]), file);
    }
    assert file in [file];
    assert CoversAny(AnyFile(), TrimmedPaths(grant), [file]);
    assert grant in a.grants && Confers(AnyFile(), a, grant.section, [file]);
  }

  lemma OneGrantDiffers(a: Index, b: Index)
    requires |a.grants| == 1 && b.grants == []
    ensures FingerprintOf(a) != FingerprintOf(b)
  {
    hide TrimmedPaths;
    assert (a.grants[0].section, TrimmedPaths(a.grants[0])) in FingerprintOf(a);
  }

  /** `s` is right under `a`, its recorded grants. After boot `b` the next call under `a`
      succeeds, changes nothing, and leaves some row wrong. */
  ghost predicate GoesStale(pattern: Pattern, a: Index, s: Store, b: Boot, t: Store) {
    && s.Valid() && t.Valid() && !a.empty
    && s.fingerprint == Some(FingerprintOf(a)) && Consistent(pattern, a, s)
    && IsBoot(pattern, s, b, t) && Ran(pattern, a, t, true, 0, 0, t) && !Consistent(pattern, a, t)
  }

  /** An unfinished walk under other grants. */
  lemma StaleAfterReturn(pattern: Pattern, a: Index, b: Index, files: seq<string>)
          returns (s: Store, boot: Boot, t: Store)
    requires !a.empty && !b.empty && FingerprintOf(a) != FingerprintOf(b)
    requires Derived(pattern, a, files) != Derived(pattern, b, files)
    ensures GoesStale(pattern, a, s, boot, t) && boot.index == b && !boot.ok && boot.after != boot.before
  {
    hide Derived, FingerprintOf;
    s := Store(map[1 := files], map[], map[1 := Derived(pattern, a, files)], map[], Some(FingerprintOf(a)));
    t := s.(bugGrants := map[1 := Derived(pattern, b, files)]);
    boot := Boot(b, Touched({}, {}), s, false, 1, 0, t, Touched({}, {}));
    assert s.PatchsetFiles() == map[] && t.PatchsetFiles() == map[];
    assert Rewrite(pattern, b, s.bugGrants, s.bugs, 1) == t.bugGrants;
    assert Rewrite(pattern, b, s.patchsetGrants, s.PatchsetFiles(), 0) == map[];
    assert Walked(pattern, b, s, 1, 0) == t;
    assert 1 in t.bugs && t.bugGrants[1] != Derived(pattern, a, t.bugs[1]);
  }

  /** A bug that arrives while another index is loaded: the empty one, under which the call
      has nothing to do and succeeds, or one whose call fails before its first write. */
  lemma StaleArrival(pattern: Pattern, a: Index, b: Index, files: seq<string>) returns (s: Store, boot: Boot, t: Store)
    requires !a.empty && Derived(pattern, a, files) != Derived(pattern, b, files)
    requires b.empty || FingerprintOf(a) != FingerprintOf(b)
    ensures GoesStale(pattern, a, s, boot, t) && boot.index == b && (boot.ok <==> b.empty)
    ensures boot.after == boot.before == s
  {
    hide Derived, FingerprintOf;
    s := Store(map[], map[], map[], map[], Some(FingerprintOf(a)));
    t := s.(bugs := map[1 := files], bugGrants := map[1 := Derived(pattern, b, files)]);
    boot := Boot(b, Touched({}, {}), s, b.empty, 0, 0, s, Touched({1}, {}));
    assert s.PatchsetFiles() == map[] && t.PatchsetFiles() == map[];
    assert Walked(pattern, b, s, 0, 0) == s by {
      WalkedNothing(pattern, b, s);
    }
    assert 1 in t.bugs && t.bugGrants[1] != Derived(pattern, a, t.bugs[1]);
  }

  /** It does go wrong, in three ways: one grant, and a boot that dies after clearing its
      rows, one that dies before it touches any, and one without a MAINTAINERS file. */
  lemma ReturningGrantsCanLeaveStaleRows()
    ensures exists pattern: Pattern, a: Index, s: Store, b: Boot, t: Store ::
      GoesStale(pattern, a, s, b, t) && !b.ok && b.after != b.before
    ensures exists pattern: Pattern, a: Index, s: Store, b: Boot, t: Store ::
      GoesStale(pattern, a, s, b, t) && !b.ok && b.after == b.before
    ensures exists pattern: Pattern, a: Index, s: Store, b: Boot, t: Store ::
      GoesStale(pattern, a, s, b, t) && b.ok && b.index == Index(true, [])
  {
    hide *;
    var grant := Grant("S", ["p"]);
    var a, none, missing := Index(false, [grant]), Index(false, []), Index(true, []);
    TrimmedName();
    OneGrantDerives(a, grant, "f");
    OneGrantDiffers(a, none);
    NoGrantsDeriveNothing(AnyFile(), none, ["f"]);
    NoGrantsDeriveNothing(AnyFile(), missing, ["f"]);
    var s, b, t := StaleAfterReturn(AnyFile(), a, none, ["f"]);
    var s1, b1, t1 := StaleArrival(AnyFile(), a, none, ["f"]);
    var s2, b2, t2 := StaleArrival(AnyFile(), a, missing, ["f"]);
  }

  lemma TrimmedName()
    ensures Trim("S") == "S"
  {
    hide Trim;
    TrimmedIsFixed("S");
  }
}
