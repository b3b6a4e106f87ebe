/** Bare addresses and the order-preserving deduplication of To and Cc lists. */
module Addresses {
  import opened Options
  import opened Text

  predicate IsOpen(c: char) {
    c == '<'
  }

  predicate IsClose(c: char) {
    c == '>'
  }

  /** The lowercase address of `Name <local@domain>` or of a bare `local@domain`. */
  function Bare(raw: string): string {
    var t := Trim(raw);
    var i := Find(t, IsOpen);
    if i == |t| then Lower(t)
    else
      var inner := t[i + 1..];
      var j := Find(inner, IsClose);
      if j == |inner| then Lower(t) else Lower(Trim(inner[..j]))
  }

  /** The address in the first angle brackets counts, whatever name stands before it and
      whatever follows. */
  lemma BareOfNamed(name: string, address: string, rest: string)
    requires '<' !in name && '>' !in address
    ensures Bare(name + "<" + address + ">" + rest) == Lower(Trim(address))
  {
    hide TrimStart, TrimEnd, Find, Lower, Trim, IsSpace, Blank;
    var raw, core := name + "<" + address + ">" + rest, "<" + address + ">";
    assert raw == name + core + rest;
    var front := TrimStart(name);
    assert '<' !in front by {
      SuffixWithout(name, front, '<');
    }
    assert Trim(raw) == front + core + TrimEnd(rest) by {
      AngleIsSolid();
      TrimAround(name, core, rest);
    }
    BareOfFront(raw, front, address, TrimEnd(rest));
  }

  lemma AngleIsSolid()
    ensures !IsSpace('<') && !IsSpace('>')
  {
  }

  lemma SuffixWithout(whole: string, s: string, c: char)
    requires c !in whole && |s| <= |whole| && s == whole[|whole| - |s|..]
    ensures c !in s
  {
    assert forall i :: 0 <= i < |s| ==> s[i] == whole[|whole| - |s| + i];
  }

  lemma BareOfFront(raw: string, front: string, address: string, rest: string)
    requires Trim(raw) == front + ("<" + address + ">") + rest && '<' !in front && '>' !in address
    ensures Bare(raw) == Lower(Trim(address))
  {
    hide Trim, Find, Lower;
    var t := Trim(raw);
    FindUnique(t, IsOpen, |front|);
    var inner := t[|front| + 1..];
    assert inner == address + ">" + rest;
    FindUnique(inner, IsClose, |address|);
    assert inner[..|address|] == address;
  }

  lemma TrimAround(a: string, core: string, b: string)
    requires core != "" && !IsSpace(core[0]) && !IsSpace(core[|core| - 1])
    ensures Trim(a + core + b) == TrimStart(a) + core + TrimEnd(b)
  {
    hide TrimStart, TrimEnd, IsSpace, Blank;
    var whole, front := a + (core + b), TrimStart(a) + core;
    Assoc(a, core, b);
    TrimStartBefore(a, core + b);
    Assoc(TrimStart(a), core, b);
    assert TrimStart(whole) == front + b;
    assert front[|front| - 1] == core[|core| - 1];
    TrimEndBehind(front, b);
  }

  lemma {:induction false} TrimStartBefore(a: string, s: string)
    requires s != "" && !IsSpace(s[0])
    ensures TrimStart(a + s) == TrimStart(a) + s
  {
    if a == "" {
      assert a + s == s;
    } else {
      assert (a + s)[1..] == a[1..] + s;
      if IsSpace(a[0]) {
        TrimStartBefore(a[1..], s);
      }
    }
  }

  lemma {:induction false} TrimEndBehind(s: string, b: string)
    requires s != "" && !IsSpace(s[|s| - 1])
    ensures TrimEnd(s + b) == s + TrimEnd(b)
    decreases |b|
  {
    if b == "" {
      assert s + b == s;
    } else {
      assert (s + b)[..|s + b| - 1] == s + b[..|b| - 1];
      if IsSpace(b[|b| - 1]) {
        TrimEndBehind(s, b[..|b| - 1]);
      }
    }
  }

  /** Without brackets, or with one that nothing closes, all of it does. */
  lemma BareOfUnnamed(raw: string)
    requires '<' !in raw || '>' !in raw
    ensures Bare(raw) == Lower(Trim(raw))
  {
    hide TrimStart, TrimEnd, Find, Lower;
    var t := Trim(raw);
    assert forall i :: 0 <= i < |t| ==> t[i] in raw;
    var i := Find(t, IsOpen);
    if i < |t| {
      var inner := t[i + 1..];
      assert forall j :: 0 <= j < |inner| ==> inner[j] == t[i + 1 + j];
      FindUnique(inner, IsClose, |inner|);
    }
  }

  function Bares(addrs: seq<string>): set<string> {
    set a | a in addrs :: Bare(a)
  }

  /** Whether a mail to these addresses is addressed to the list. */
  predicate Matches(incoming: seq<string>, listBare: string) {
    exists a :: a in incoming && Bare(a) == listBare
  }

  predicate Named(addr: string) {
    '<' in addr
  }

  /** The tests a candidate passes before it is compared with the ones kept. */
  predicate Survives(addr: string, bot: string, excluded: set<string>) {
    var t := Trim(addr);
    && t != "" && Bare(t) != ""
    && !(bot != "" && (Bare(t) == bot || Contains(Lower(t), bot)))
    && Bare(t) !in excluded
  }

  function Survivors(addrs: seq<string>, bot: string, excluded: set<string>): seq<string> {
    if addrs == [] then []
    else
      var before := Survivors(addrs[..|addrs| - 1], bot, excluded);
      var last := addrs[|addrs| - 1];
      if Survives(last, bot, excluded) then before + [Trim(last)] else before
  }

  /** Where `kept` holds an address with this bare form, or its length. */
  function IndexOf(kept: seq<string>, bare: string): (i: nat)
    ensures i <= |kept|
  {
    hide Bare;
    if kept == [] || Bare(kept[0]) == bare then 0 else 1 + IndexOf(kept[1..], bare)
  }

  /** Keeping one more candidate: a named form replaces an unnamed one in place. */
  function Keep(kept: seq<string>, addr: string): seq<string> {
    var i := IndexOf(kept, Bare(addr));
    if i == |kept| then kept + [addr]
    else if !Named(kept[i]) && Named(addr) then kept[i := addr]
    else kept
  }

  function Dedup(addrs: seq<string>): seq<string> {
    if addrs == [] then [] else Keep(Dedup(addrs[..|addrs| - 1]), addrs[|addrs| - 1])
  }

  /** `index` locates every kept address by its bare form. */
  ghost predicate Indexes(index: map<string, nat>, kept: seq<string>) {
    && index.Keys == Bares(kept)
    && forall b :: b in index ==> index[b] < |kept| && IndexOf(kept, b) == index[b]
  }

  lemma {:induction false} IndexFinds(kept: seq<string>, bare: string)
    ensures var i := IndexOf(kept, bare);
      (i < |kept| ==> Bare(kept[i]) == bare) && forall j :: 0 <= j < i ==> Bare(kept[j]) != bare
  {
    hide Bare;
    if kept != [] && Bare(kept[0]) != bare {
      IndexFinds(kept[1..], bare);
    }
  }

  lemma IndexKept(index: map<string, nat>, kept: seq<string>, addr: string)
    requires Indexes(index, kept)
    ensures Bare(addr) in index <==> IndexOf(kept, Bare(addr)) < |kept|
    ensures Bare(addr) in index ==>
      Indexes(index, kept[index[Bare(addr)] := addr]) && kept[IndexOf(kept, Bare(addr))] in kept
    ensures Bare(addr) !in index ==> Indexes(index[Bare(addr) := |kept|], kept + [addr])
  {
    hide Bare;
    var b := Bare(addr);
    IndexFinds(kept, b);
    if b in index {
      var kept' := kept[index[b] := addr];
      forall c | c in index ensures IndexOf(kept', c) == index[c] {
        IndexFinds(kept, c);
        IndexUnique(kept', c, index[c]);
      }
      assert Bares(kept') == Bares(kept) by {
        forall a | a in kept ensures Bare(a) in Bares(kept') {
          var j :| 0 <= j < |kept| && kept[j] == a;
          assert kept'[j] in kept' && Bare(kept'[j]) == Bare(a);
        }
        assert kept[index[b]] in kept;
      }
    } else {
      var kept' := kept + [addr];
      assert Bares(kept') == Bares(kept) + {b} by {
        assert addr in kept' && forall a :: a in kept ==> a in kept';
      }
      assert b !in Bares(kept);
      forall c | c in Bares(kept') ensures IndexOf(kept', c) == index[b := |kept|][c] {
        IndexFinds(kept, c);
        IndexUnique(kept', c, index[b := |kept|][c]);
      }
      assert forall j :: 0 <= j < |kept| ==> kept[j] in kept;
    }
  }

  lemma {:induction false} IndexUnique(kept: seq<string>, bare: string, i: nat)
    requires i < |kept| && Bare(kept[i]) == bare && forall j :: 0 <= j < i ==> Bare(kept[j]) != bare
    ensures IndexOf(kept, bare) == i
  {
    hide Bare;
    IndexFinds(kept, bare);
  }

  lemma SurvivorsStep(addrs: seq<string>, i: nat, bot: string, excluded: set<string>)
    requires i < |addrs|
    ensures Survivors(addrs[..i + 1], bot, excluded)
         == Survivors(addrs[..i], bot, excluded) + if Survives(addrs[i], bot, excluded) then [Trim(addrs[i])] else []
  {
    hide Survives, Trim;
    assert addrs[..i + 1][..i] == addrs[..i];
  }

  lemma DedupStep(addrs: seq<string>, last: string)
    ensures Dedup(addrs + [last]) == Keep(Dedup(addrs), last)
  {
    hide Keep;
    assert (addrs + [last])[..|addrs|] == addrs;
  }

  lemma NoneKept()
    ensures Survivors([], "", {}) == [] && Dedup([]) == [] && Bares([]) == {} && Indexes(map[], [])
  {
  }

  method DedupAddresses(candidates: seq<string>, bot: string, exclude: Option<set<string>>)
      returns (result: seq<string>, seen: set<string>)
    ensures result == Dedup(Survivors(candidates, bot, exclude.GetOr({})))
    ensures seen == Bares(result)
  {
    hide Bare, Contains, Lower, Trim, Dedup, Bares;
    result, seen := [], {};
    NoneKept();
    var indexByBare: map<string, nat> := map[];
    for i := 0 to |candidates|
      invariant result == Dedup(Survivors(candidates[..i], bot, exclude.GetOr({})))
      invariant Indexes(indexByBare, result) && seen == indexByBare.Keys
    {
      var trimmed := Trim(candidates[i]);
      ghost var before := Survivors(candidates[..i], bot, exclude.GetOr({}));
      SurvivorsStep(candidates, i, bot, exclude.GetOr({}));
      assert before + [] == before;
      if trimmed == "" {
        continue;
      }
      var bare := Bare(trimmed);
      if bare == "" {
        continue;
      }
      if bot != "" && (bare == bot || Contains(Lower(trimmed), bot)) {
        continue;
      }
      if exclude.Some? && bare in exclude.value {
        continue;
      }
      DedupStep(before, trimmed);
      IndexKept(indexByBare, result, trimmed);
      if bare in indexByBare {
        var idx := indexByBare[bare];
        if !Named(result[idx]) && Named(trimmed) {
          result := result[idx := trimmed];
        }
      } else {
        indexByBare := indexByBare[bare := |result|];
        seen := seen + {bare};
        result := result + [trimmed];
      }
    }
    assert candidates[..|candidates|] == candidates;
  }

  // ---- what deduplication promises -----------------------------------------

  ghost predicate Distinct(kept: seq<string>) {
    forall i, j :: 0 <= i < j < |kept| ==> Bare(kept[i]) != Bare(kept[j])
  }

  /** The candidate that stands for a bare address: its first named form, or its first
      form when none is named. */
  ghost predicate Represents(addrs: seq<string>, kept: string) {
    exists i :: RepresentsAt(addrs, kept, i)
  }

  ghost predicate RepresentsAt(addrs: seq<string>, kept: string, i: int) {
    && 0 <= i < |addrs| && addrs[i] == kept
    && if Named(kept) then forall j :: 0 <= j < i && Bare(addrs[j]) == Bare(kept) ==> !Named(addrs[j])
       else
         && (forall j :: 0 <= j < i ==> Bare(addrs[j]) != Bare(kept))
         && (forall j :: 0 <= j < |addrs| && Bare(addrs[j]) == Bare(kept) ==> !Named(addrs[j]))
  }

  /** Kept addresses stand in the order in which their bare forms first appear. */
  ghost predicate InFirstOrder(addrs: seq<string>, kept: seq<string>) {
    forall i, j :: 0 <= i < j < |kept| ==> IndexOf(addrs, Bare(kept[i])) < IndexOf(addrs, Bare(kept[j]))
  }

  lemma IndexOfLonger(addrs: seq<string>, last: string, bare: string)
    ensures IndexOf(addrs, bare) < |addrs| ==> IndexOf(addrs + [last], bare) == IndexOf(addrs, bare)
    ensures IndexOf(addrs, bare) == |addrs| && Bare(last) == bare ==> IndexOf(addrs + [last], bare) == |addrs|
  {
    hide Bare;
    IndexFinds(addrs, bare);
    if IndexOf(addrs, bare) < |addrs| {
      IndexUnique(addrs + [last], bare, IndexOf(addrs, bare));
    } else if Bare(last) == bare {
      IndexUnique(addrs + [last], bare, |addrs|);
    }
  }

  lemma BaresOf(addrs: seq<string>, bare: string)
    ensures bare in Bares(addrs) <==> IndexOf(addrs, bare) < |addrs|
  {
    hide Bare;
    IndexFinds(addrs, bare);
    if IndexOf(addrs, bare) < |addrs| {
      assert addrs[IndexOf(addrs, bare)] in addrs;
    }
  }

  lemma BaresSnoc(addrs: seq<string>, last: string)
    ensures Bares(addrs + [last]) == Bares(addrs) + {Bare(last)}
  {
    hide Bare;
    assert last in addrs + [last] && forall a :: a in addrs ==> a in addrs + [last];
  }

  lemma BaresReplaced(kept: seq<string>, i: nat, addr: string)
    requires i < |kept| && Bare(kept[i]) == Bare(addr)
    ensures Bares(kept[i := addr]) == Bares(kept)
  {
    hide Bare;
    var kept' := kept[i := addr];
    forall a | a in kept ensures Bare(a) in Bares(kept') {
      var j :| 0 <= j < |kept| && kept[j] == a;
      assert kept'[j] in kept' && Bare(kept'[j]) == Bare(a);
    }
    assert kept[i] in kept;
  }

  ghost predicate IsDedup(addrs: seq<string>, kept: seq<string>) {
    && Distinct(kept) && Bares(kept) == Bares(addrs) && InFirstOrder(addrs, kept)
    && forall i :: 0 <= i < |kept| ==> Represents(addrs, kept[i])
  }

  lemma RepresentsLonger(addrs: seq<string>, last: string, kept: string)
    requires Represents(addrs, kept) && (Bare(last) == Bare(kept) ==> Named(kept) || !Named(last))
    ensures Represents(addrs + [last], kept)
  {
    hide Bare, Named;
    var i :| RepresentsAt(addrs, kept, i);
    assert RepresentsAt(addrs + [last], kept, i);
  }

  lemma NamedReplaces(addrs: seq<string>, last: string, kept: string)
    requires Represents(addrs, kept) && Bare(kept) == Bare(last) && !Named(kept) && Named(last)
    ensures Represents(addrs + [last], last)
  {
    hide Bare, Named;
    var i :| RepresentsAt(addrs, kept, i);
    assert RepresentsAt(addrs + [last], last, |addrs|);
  }

  lemma FirstRepresents(addrs: seq<string>, last: string)
    requires Bare(last) !in Bares(addrs)
    ensures Represents(addrs + [last], last)
  {
    hide Bare, Named;
    forall j | 0 <= j < |addrs| ensures Bare(addrs[j]) != Bare(last) {
      assert addrs[j] in addrs;
    }
    assert RepresentsAt(addrs + [last], last, |addrs|);
  }

  lemma KeepIsDedup(addrs: seq<string>, kept: seq<string>, last: string)
    requires IsDedup(addrs, kept)
    ensures IsDedup(addrs + [last], Keep(kept, last))
  {
    hide Bare, Named, Represents;
    var idx, kept' := IndexOf(kept, Bare(last)), Keep(kept, last);
    IndexFinds(kept, Bare(last));
    BaresOf(kept, Bare(last));
    BaresSnoc(addrs, last);
    BaresSnoc(kept, last);
    if idx < |kept| {
      BaresReplaced(kept, idx, last);
    }
    forall i | 0 <= i < |kept'| ensures Represents(addrs + [last], kept'[i]) {
      if i == |kept| {
        FirstRepresents(addrs, last);
      } else if i == idx && !Named(kept[idx]) && Named(last) {
        NamedReplaces(addrs, last, kept[i]);
      } else {
        RepresentsLonger(addrs, last, kept[i]);
      }
    }
    forall i, j | 0 <= i < j < |kept'|
      ensures Bare(kept'[i]) != Bare(kept'[j])
      ensures IndexOf(addrs + [last], Bare(kept'[i])) < IndexOf(addrs + [last], Bare(kept'[j]))
    {
      forall k | 0 <= k < |kept|
        ensures IndexOf(addrs + [last], Bare(kept[k])) == IndexOf(addrs, Bare(kept[k])) < |addrs|
      {
        assert kept[k] in kept;
        BaresOf(addrs, Bare(kept[k]));
        IndexOfLonger(addrs, last, Bare(kept[k]));
      }
      BaresOf(addrs, Bare(last));
      IndexOfLonger(addrs, last, Bare(last));
    }
  }

  /** Deduplication keeps one address per bare form, in first-occurrence order, and
      represents every candidate by its first named form if it has one. */
  lemma {:induction false} DedupIsDedup(addrs: seq<string>)
    ensures IsDedup(addrs, Dedup(addrs))
    decreases |addrs|
  {
    hide Bare, Named, Represents, Keep;
    if addrs != [] {
      DedupIsDedup(addrs[..|addrs| - 1]);
      KeepIsDedup(addrs[..|addrs| - 1], Dedup(addrs[..|addrs| - 1]), addrs[|addrs| - 1]);
      assert addrs == addrs[..|addrs| - 1] + [addrs[|addrs| - 1]];
    }
  }

  lemma {:induction false} SurvivorsAre(addrs: seq<string>, bot: string, excluded: set<string>, a: string)
    ensures a in Survivors(addrs, bot, excluded) <==>
      exists c :: c in addrs && Survives(c, bot, excluded) && Trim(c) == a
    decreases |addrs|
  {
    hide Survives, Trim;
    if addrs != [] {
      var front, last := addrs[..|addrs| - 1], addrs[|addrs| - 1];
      SurvivorsAre(front, bot, excluded, a);
      assert addrs == front + [last];
    }
  }
}
