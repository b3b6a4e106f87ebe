/** What the two resolvers promise about the addresses they mail. */
module RouterSafety {
  import opened Options
  import opened Text
  import opened Addresses
  import opened Router

  // ---- the order of the lists ----------------------------------------------

  lemma {:induction false} LexTotal(a: string, b: string)
    ensures LexLe(a, b) || LexLe(b, a)
    ensures LexLe(a, b) && LexLe(b, a) ==> a == b
  {
    if a != "" && b != "" && a[0] == b[0] {
      LexTotal(a[1..], b[1..]);
      assert a == [a[0]] + a[1..] && b == [b[0]] + b[1..];
    }
  }

  lemma {:induction false} LexTransitive(a: string, b: string, c: string)
    requires LexLe(a, b) && LexLe(b, c)
    ensures LexLe(a, c)
  {
    if a != "" && b[0] == a[0] && c[0] == a[0] {
      LexTransitive(a[1..], b[1..], c[1..]);
    }
  }

  ghost predicate Ascending(entries: seq<Entry>) {
    forall i, j :: 0 <= i < j < |entries| ==> LexLe(entries[i].bare, entries[j].bare)
  }

  lemma {:induction false} InsertPermutes(e: Entry, sorted: seq<Entry>)
    ensures multiset(InsertByBare(e, sorted)) == multiset(sorted) + multiset{e}
  {
    hide LexLe;
    if sorted != [] && LexLe(sorted[0].bare, e.bare) {
      InsertPermutes(e, sorted[1..]);
      assert sorted == [sorted[0]] + sorted[1..];
    }
  }

  lemma {:induction false} InsertSorts(e: Entry, sorted: seq<Entry>)
    requires Ascending(sorted)
    ensures Ascending(InsertByBare(e, sorted))
  {
    hide LexLe;
    if sorted == [] || !LexLe(sorted[0].bare, e.bare) {
      if sorted != [] {
        LexTotal(sorted[0].bare, e.bare);
        forall j | 0 < j < |sorted| ensures LexLe(e.bare, sorted[j].bare) {
          LexTransitive(e.bare, sorted[0].bare, sorted[j].bare);
        }
      }
    } else {
      var tail := InsertByBare(e, sorted[1..]);
      InsertSorts(e, sorted[1..]);
      InsertMembers(e, sorted[1..]);
      forall j | 0 <= j < |tail| ensures LexLe(sorted[0].bare, tail[j].bare) {
        assert tail[j] in tail;
      }
    }
  }

  lemma {:induction false} SortSorts(entries: seq<Entry>)
    ensures Ascending(SortByBare(entries)) && multiset(SortByBare(entries)) == multiset(entries)
    decreases |entries|
  {
    hide LexLe, InsertByBare;
    if entries != [] {
      var front, last := entries[..|entries| - 1], entries[|entries| - 1];
      SortSorts(front);
      InsertSorts(last, SortByBare(front));
      InsertPermutes(last, SortByBare(front));
      assert entries == front + [last];
    }
  }

  ghost predicate DistinctBares(entries: seq<Entry>) {
    forall i, j :: 0 <= i < j < |entries| ==> entries[i].bare != entries[j].bare
  }

  lemma {:induction false} InsertMembers(e: Entry, sorted: seq<Entry>)
    ensures forall x :: x in InsertByBare(e, sorted) <==> x in sorted || x == e
    ensures DistinctBares(sorted) && (forall x :: x in sorted ==> x.bare != e.bare) ==>
      DistinctBares(InsertByBare(e, sorted))
  {
    hide LexLe;
    if sorted != [] && LexLe(sorted[0].bare, e.bare) {
      InsertMembers(e, sorted[1..]);
      assert sorted == [sorted[0]] + sorted[1..];
      var tail := InsertByBare(e, sorted[1..]);
      if DistinctBares(sorted) && (forall x :: x in sorted ==> x.bare != e.bare) {
        forall j | 0 <= j < |tail| ensures tail[j].bare != sorted[0].bare {
          assert tail[j] in tail;
        }
      }
    }
  }

  lemma {:induction false} SortMembers(entries: seq<Entry>)
    ensures forall x :: x in SortByBare(entries) <==> x in entries
    ensures DistinctBares(entries) ==> DistinctBares(SortByBare(entries))
    decreases |entries|
  {
    hide LexLe, InsertByBare;
    if entries != [] {
      var front, last := entries[..|entries| - 1], entries[|entries| - 1];
      SortMembers(front);
      InsertMembers(last, SortByBare(front));
      assert entries == front + [last];
    }
  }

  lemma SameHead(a: seq<Entry>, b: seq<Entry>)
    requires Ascending(a) && Ascending(b) && DistinctBares(a) && a != [] && b != []
    requires forall x :: x in a <==> x in b
    ensures a[0] == b[0]
  {
    hide LexLe;
    assert a[0] in b && b[0] in a;
    var i :| 0 <= i < |b| && b[i] == a[0];
    var j :| 0 <= j < |a| && a[j] == b[0];
    LexTotal(a[0].bare, b[0].bare);
    LexTotal(a[0].bare, a[0].bare);
    assert a[0].bare == a[j].bare;
  }

  lemma HeadIsMember<T>(s: seq<T>)
    ensures s != [] ==> s[0] in s
  {
  }

  /** Two ascending lists of the same entries are the same list when no two entries
      share a bare address. */
  lemma {:induction false} AscendingUnique(a: seq<Entry>, b: seq<Entry>)
    requires Ascending(a) && Ascending(b) && DistinctBares(a) && DistinctBares(b)
    requires forall x :: x in a <==> x in b
    ensures a == b
  {
    hide LexLe;
    if a != [] {
      assert a[0] in b;
      SameHead(a, b);
      assert a == [a[0]] + a[1..] && b == [b[0]] + b[1..];
      assert a[0] !in a[1..] && b[0] !in b[1..];
      forall x ensures x in a[1..] <==> x in b[1..] {
        assert x in a[1..] <==> x in a && x != a[0];
        assert x in b[1..] <==> x in b && x != b[0];
      }
      AscendingUnique(a[1..], b[1..]);
    } else {
      HeadIsMember(b);
    }
  }

  lemma {:induction false} MatchingMembers(policy: Policy, mail: Mail, order: seq<string>, e: Entry)
    requires forall k :: k in order ==> k in policy.lists
    ensures e in Matching(policy, mail, order) <==>
      exists k :: k in order && Matches(Incoming(mail), Bare(k)) && e == Entry(Bare(k), policy.lists[k])
    decreases |order|
  {
    hide Bare, Matches;
    if order != [] {
      MatchingMembers(policy, mail, order[..|order| - 1], e);
      assert order == order[..|order| - 1] + [order[|order| - 1]];
    }
  }

  /** The entries a resolver visits, whatever order the map is iterated in. */
  lemma VisitedMembers(policy: Policy, mail: Mail, order: seq<string>, e: Entry)
    requires Enumerates(order, policy.lists.Keys)
    ensures e in Visited(policy, mail, order) <==>
      exists k :: k in policy.lists && Matches(Incoming(mail), Bare(k)) && e == Entry(Bare(k), policy.lists[k])
  {
    hide Bare, Matches, SortByBare;
    SortMembers(Matching(policy, mail, order));
    MatchingMembers(policy, mail, order, e);
  }

  /** No two configured list keys name the same address. */
  ghost predicate KeysDistinct(policy: Policy) {
    forall k, l :: k in policy.lists && l in policy.lists && Bare(k) == Bare(l) ==> k == l
  }

  lemma {:induction false} MatchingDistinct(policy: Policy, mail: Mail, order: seq<string>)
    requires KeysDistinct(policy) && (forall k :: k in order ==> k in policy.lists)
    requires forall i, j :: 0 <= i < j < |order| ==> order[i] != order[j]
    ensures DistinctBares(Matching(policy, mail, order))
    decreases |order|
  {
    hide Bare, Matches;
    if order != [] {
      var front, last := order[..|order| - 1], order[|order| - 1];
      MatchingDistinct(policy, mail, front);
      forall i | 0 <= i < |Matching(policy, mail, front)| ensures Matching(policy, mail, front)[i].bare != Bare(last) {
        var e := Matching(policy, mail, front)[i];
        MatchingMembers(policy, mail, front, e);
        var k :| k in front && Matches(Incoming(mail), Bare(k)) && e == Entry(Bare(k), policy.lists[k]);
        assert k != last;
      }
    }
  }

  lemma VisitedIgnoresMapOrder(policy: Policy, mail: Mail, order: seq<string>, order': seq<string>)
    requires KeysDistinct(policy) && Enumerates(order, policy.lists.Keys) && Enumerates(order', policy.lists.Keys)
    ensures Visited(policy, mail, order) == Visited(policy, mail, order')
  {
    hide Bare, Matches, SortByBare;
    var a, b := Visited(policy, mail, order), Visited(policy, mail, order');
    forall e ensures e in a <==> e in b {
      VisitedMembers(policy, mail, order, e);
      VisitedMembers(policy, mail, order', e);
    }
    SortSorts(Matching(policy, mail, order));
    SortSorts(Matching(policy, mail, order'));
    MatchingDistinct(policy, mail, order);
    MatchingDistinct(policy, mail, order');
    SortMembers(Matching(policy, mail, order));
    SortMembers(Matching(policy, mail, order'));
    AscendingUnique(a, b);
  }

  /** Sorting makes a review's addresses, and their order, independent of the order in
      which the map of lists is iterated, when no two lists share an address. */
  lemma RouteIgnoresMapOrder(policy: Policy, dir: Directory, mail: Mail, bot: string, order: seq<string>,
          order': seq<string>)
    requires KeysDistinct(policy) && Enumerates(order, policy.lists.Keys) && Enumerates(order', policy.lists.Keys)
    ensures Route(policy, dir, mail, bot, Visited(policy, mail, order))
      == Route(policy, dir, mail, bot, Visited(policy, mail, order'))
  {
    hide *;
    VisitedIgnoresMapOrder(policy, mail, order, order');
  }

  /** The same of a review without findings. */
  lemma RoutePositiveIgnoresMapOrder(policy: Policy, dir: Directory, mail: Mail, bot: string, review: Action,
          order: seq<string>, order': seq<string>)
    requires KeysDistinct(policy) && Enumerates(order, policy.lists.Keys) && Enumerates(order', policy.lists.Keys)
    ensures RoutePositive(policy, dir, mail, bot, review, Visited(policy, mail, order))
      == RoutePositive(policy, dir, mail, bot, review, Visited(policy, mail, order'))
  {
    hide *;
    VisitedIgnoresMapOrder(policy, mail, order, order');
  }

  // ---- a positive review reaches no one new --------------------------------

  lemma {:induction false} TallyMembers(d: Defaults, entries: seq<Entry>)
    ensures var t := TallyLists(d, entries);
      && (t.includeAuthor <==> exists e :: e in entries && Author in ReplyTo(d, e))
      && (t.includeRecipients <==> exists e :: e in entries && Recipients in ReplyTo(d, e))
      && (forall b :: b in t.allowed <==> exists e :: e in entries && List in ReplyTo(d, e) && e.bare == b)
      && (forall c :: c in t.staticCc <==> exists e :: e in entries && c in e.policy.cc)
    decreases |entries|
  {
    hide ReplyTo;
    if entries != [] {
      var front, last := entries[..|entries| - 1], entries[|entries| - 1];
      TallyMembers(d, front);
      assert entries == front + [last];
      assert last in entries && forall e :: e in entries <==> e in front || e == last;
      var t, u := TallyLists(d, entries), TallyLists(d, front);
      assert t.staticCc == u.staticCc + last.policy.cc;
    }
  }

  lemma {:induction false} TallyPositiveMembers(d: Defaults, entries: seq<Entry>)
    ensures var t := TallyPositive(d, entries);
      && !t.allLists && !t.muteAll && t.positive == Nobody
      && (t.includeAuthor <==> exists e :: e in entries && Positive(d, e) != Nobody && Author in ReplyTo(d, e))
      && (t.includeRecipients <==> exists e :: e in entries && Positive(d, e) == All && Recipients in ReplyTo(d, e))
      && (forall b :: b in t.allowed <==>
            exists e :: e in entries && Positive(d, e) == All && List in ReplyTo(d, e) && e.bare == b)
      && (forall c :: c in t.staticCc <==> exists e :: e in entries && Positive(d, e) == All && c in e.policy.cc)
    decreases |entries|
  {
    hide ReplyTo, Positive;
    if entries != [] {
      var front, last := entries[..|entries| - 1], entries[|entries| - 1];
      TallyPositiveMembers(d, front);
      assert entries == front + [last];
      assert last in entries && forall e :: e in entries <==> e in front || e == last;
      var t, u := TallyPositive(d, entries), TallyPositive(d, front);
      assert t.staticCc == u.staticCc + if Positive(d, last) == All then last.policy.cc else [];
    }
  }

  /** `p` asks for nothing that `t` does not ask for. */
  ghost predicate Below(p: Tally, t: Tally) {
    && (p.includeAuthor ==> t.includeAuthor)
    && (p.includeRecipients ==> t.includeRecipients)
    && (p.allLists ==> t.allLists)
    && p.allowed <= t.allowed
    && (forall c :: c in p.staticCc ==> c in t.staticCc)
  }

  lemma PositiveBelow(d: Defaults, entries: seq<Entry>, entries': seq<Entry>)
    requires forall e :: e in entries <==> e in entries'
    ensures Below(TallyPositive(d, entries'), TallyLists(d, entries))
  {
    hide ReplyTo, TallyLists, TallyPositive;
    TallyMembers(d, entries);
    TallyPositiveMembers(d, entries');
  }

  /** The cap can only be tighter on the side that asks for less: fewer addresses are
      exempt from being counted. */
  lemma CappedBelow(policy: Policy, dir: Directory, mail: Mail, bot: string, p: Tally, t: Tally)
    requires Below(p, t)
    ensures Below(Capped(policy, dir, mail, bot, p), Capped(policy, dir, mail, bot, t))
  {
    hide Bare, IsList;
    var pc, tc := p.staticCc + policy.defaults.cc, t.staticCc + policy.defaults.cc;
    var pa := if p.includeAuthor then Some(Bare(mail.author)) else None;
    var ta := if t.includeAuthor then Some(Bare(mail.author)) else None;
    assert Bares(pc) <= Bares(tc);
    assert Individuals(policy, dir, mail, bot, ta, tc) <= Individuals(policy, dir, mail, bot, pa, pc);
    SmallerSet(Individuals(policy, dir, mail, bot, ta, tc), Individuals(policy, dir, mail, bot, pa, pc));
  }

  lemma {:induction false} PicksMembers(policy: Policy, dir: Directory, t: Tally, addrs: seq<string>, a: string)
    ensures a in Picks(policy, dir, t, addrs) <==> a in addrs && Picked(policy, dir, t, a)
    decreases |addrs|
  {
    hide Picked;
    if addrs != [] {
      PicksMembers(policy, dir, t, addrs[..|addrs| - 1], a);
      assert addrs == addrs[..|addrs| - 1] + [addrs[|addrs| - 1]];
    }
  }

  /** Every address either resolver considers mailing. */
  function Raw(policy: Policy, dir: Directory, mail: Mail, t: Tally): seq<string> {
    RawTo(policy, dir, mail, t) + RawCc(policy, dir, mail, t)
  }

  lemma RawBelow(policy: Policy, dir: Directory, mail: Mail, p: Tally, t: Tally, a: string)
    requires Below(p, t) && a in Raw(policy, dir, mail, p)
    ensures a in Raw(policy, dir, mail, t)
  {
    hide IsList, Picks, Trim, Bare;
    PicksMembers(policy, dir, p, mail.to, a);
    PicksMembers(policy, dir, t, mail.to, a);
    PicksMembers(policy, dir, p, mail.cc, a);
    PicksMembers(policy, dir, t, mail.cc, a);
  }

  lemma BareOfTrim(a: string)
    ensures Bare(Trim(a)) == Bare(a)
  {
    hide TrimStart, TrimEnd, Trim, Find, Lower;
    TrimIsTrimmed(a);
    TrimmedIsFixed(Trim(a));
  }

  lemma SurvivorBares(addrs: seq<string>, bot: string, excluded: set<string>, b: string)
    ensures b in Bares(Survivors(addrs, bot, excluded)) <==>
      exists c :: c in addrs && Survives(c, bot, excluded) && Bare(c) == b
  {
    hide Survives, Trim, Bare, Survivors;
    if b in Bares(Survivors(addrs, bot, excluded)) {
      var a :| a in Survivors(addrs, bot, excluded) && Bare(a) == b;
      SurvivorsAre(addrs, bot, excluded, a);
      var c :| c in addrs && Survives(c, bot, excluded) && Trim(c) == a;
      BareOfTrim(c);
    }
    forall c | c in addrs && Survives(c, bot, excluded) && Bare(c) == b
      ensures b in Bares(Survivors(addrs, bot, excluded))
    {
      BareOfTrim(c);
      SurvivorsAre(addrs, bot, excluded, Trim(c));
    }
  }

  /** The bare addresses a tally finally mails, in To or Cc. */
  function Mailed(policy: Policy, dir: Directory, mail: Mail, bot: string, t: Tally): set<string> {
    Bares(FinalTo(policy, dir, mail, bot, t)) + Bares(FinalCc(policy, dir, mail, bot, t))
  }

  lemma ExcludedOnly(c: string, bot: string, excluded: set<string>)
    ensures Survives(c, bot, excluded) <==> Survives(c, bot, {}) && Bare(c) !in excluded
  {
    hide Bare, Contains, Lower;
    BareOfTrim(c);
  }

  /** Nothing that survives the tests is dropped, and nothing else is mailed. */
  lemma MailedIsSurvivors(policy: Policy, dir: Directory, mail: Mail, bot: string, t: Tally, b: string)
    ensures b in Mailed(policy, dir, mail, bot, t) <==>
      exists c :: c in Raw(policy, dir, mail, t) && Survives(c, bot, {}) && Bare(c) == b
  {
    hide Survives, Bare, Survivors, Dedup, RawTo, RawCc, Bares;
    var to, rawTo, rawCc := FinalTo(policy, dir, mail, bot, t), RawTo(policy, dir, mail, t),
      RawCc(policy, dir, mail, t);
    DedupIsDedup(Survivors(rawTo, bot, {}));
    DedupIsDedup(Survivors(rawCc, bot, Bares(to)));
    SurvivorBares(rawTo, bot, {}, b);
    SurvivorBares(rawCc, bot, Bares(to), b);
    forall c ensures Survives(c, bot, Bares(to)) <==> Survives(c, bot, {}) && Bare(c) !in Bares(to) {
      ExcludedOnly(c, bot, Bares(to));
    }
  }

  lemma MailedBelow(policy: Policy, dir: Directory, mail: Mail, bot: string, p: Tally, t: Tally)
    requires Below(p, t)
    ensures Mailed(policy, dir, mail, bot, p) <= Mailed(policy, dir, mail, bot, t)
  {
    hide Survives, Bare, Mailed, Raw, Below;
    forall b | b in Mailed(policy, dir, mail, bot, p) ensures b in Mailed(policy, dir, mail, bot, t) {
      MailedIsSurvivors(policy, dir, mail, bot, p, b);
      MailedIsSurvivors(policy, dir, mail, bot, t, b);
      var c :| c in Raw(policy, dir, mail, p) && Survives(c, bot, {}) && Bare(c) == b;
      RawBelow(policy, dir, mail, p, t, c);
    }
  }

  /** When the policy for positive reviews is `All`, nobody gets the positive review who
      would not have got a review with findings, in whatever order each resolver
      iterates the map of lists, and across the cap on individuals. */
  lemma PositiveReachesNoOneNew(
      policy: Policy, dir: Directory, mail: Mail, bot: string, order: seq<string>, order': seq<string>)
    requires Enumerates(order, policy.lists.Keys) && Enumerates(order', policy.lists.Keys)
    ensures var review := Route(policy, dir, mail, bot, Visited(policy, mail, order));
      var positive := RoutePositive(policy, dir, mail, bot, review, Visited(policy, mail, order'));
      review.Send? && review.positive == All && positive.Some? ==>
        Bares(positive.value.0) + Bares(positive.value.1) <= Bares(review.to) + Bares(review.cc)
  {
    hide Bare, Visited, FinalTo, FinalCc, Capped, TallyLists, TallyPositive, Below, IsIgnored, FromBot, Bares;
    var a, b := Visited(policy, mail, order), Visited(policy, mail, order');
    forall e ensures e in a <==> e in b {
      VisitedMembers(policy, mail, order, e);
      VisitedMembers(policy, mail, order', e);
    }
    if b != [] {
      assert b[0] in a;
      var p, t := TallyPositive(policy.defaults, b), TallyLists(policy.defaults, a);
      PositiveBelow(policy.defaults, a, b);
      CappedBelow(policy, dir, mail, bot, p, t);
      MailedBelow(policy, dir, mail, bot, Capped(policy, dir, mail, bot, p), Capped(policy, dir, mail, bot, t));
    }
  }

  // ---- the final lists -----------------------------------------------------

  /** To and Cc name nobody twice, not even across the two, and never the bot. */
  lemma NobodyTwiceAndNeverTheBot(policy: Policy, dir: Directory, mail: Mail, bot: string, t: Tally)
    ensures Distinct(FinalTo(policy, dir, mail, bot, t)) && Distinct(FinalCc(policy, dir, mail, bot, t))
    ensures Bares(FinalTo(policy, dir, mail, bot, t)) !! Bares(FinalCc(policy, dir, mail, bot, t))
    ensures bot !in Mailed(policy, dir, mail, bot, t)
  {
    hide Bare, Survivors, Dedup, RawTo, RawCc, Contains, Lower;
    var to, rawTo, rawCc := FinalTo(policy, dir, mail, bot, t), RawTo(policy, dir, mail, t),
      RawCc(policy, dir, mail, t);
    DedupIsDedup(Survivors(rawTo, bot, {}));
    DedupIsDedup(Survivors(rawCc, bot, Bares(to)));
    forall b | b in Bares(Survivors(rawCc, bot, Bares(to))) ensures b !in Bares(to) && b != bot {
      SurvivorBares(rawCc, bot, Bares(to), b);
      var c :| c in rawCc && Survives(c, bot, Bares(to)) && Bare(c) == b;
      BareOfTrim(c);
    }
    forall b | b in Bares(Survivors(rawTo, bot, {})) ensures b != bot {
      SurvivorBares(rawTo, bot, {}, b);
      var c :| c in rawTo && Survives(c, bot, {}) && Bare(c) == b;
      BareOfTrim(c);
    }
  }

  /** Beyond the lists, the author when included, and the configured cc addresses, at
      most 128 addresses are mailed. */
  lemma AtMost128Individuals(policy: Policy, dir: Directory, mail: Mail, bot: string, asked: Tally, people: set<string>)
    requires var t := Capped(policy, dir, mail, bot, asked);
      people <= Mailed(policy, dir, mail, bot, t)
      && (forall b :: b in people ==> (!IsList(policy, dir, b) && b !in Bares(t.staticCc)
                                       && !(t.includeAuthor && b == Bare(mail.author))))
    ensures |people| <= MAX_RELAYED_RECIPIENTS
  {
    hide Bare, IsList, Mailed, Contains, Lower, Trim;
    var t := Capped(policy, dir, mail, bot, asked);
    var author := if t.includeAuthor then Some(Bare(mail.author)) else None;
    var counted := Individuals(policy, dir, mail, bot, author, t.staticCc);
    forall b | b in people ensures t.includeRecipients && b in counted {
      MailedIsSurvivors(policy, dir, mail, bot, t, b);
      var c :| c in Raw(policy, dir, mail, t) && Survives(c, bot, {}) && Bare(c) == b;
      BareOfTrim(c);
      PicksMembers(policy, dir, t, mail.to, c);
      PicksMembers(policy, dir, t, mail.cc, c);
      assert c in Incoming(mail);
    }
    if people != {} {
      assert |counted| <= MAX_RELAYED_RECIPIENTS;
      SmallerSet(people, counted);
    }
  }

  // ---- recipients do not depend on the map order ---------------------------

  /** The same but for the order of the configured cc addresses. */
  ghost predicate SameAsked(t: Tally, u: Tally) {
    t.(staticCc := []) == u.(staticCc := []) && forall c :: c in t.staticCc <==> c in u.staticCc
  }

  lemma {:induction false} TallyStrongest(d: Defaults, entries: seq<Entry>)
    ensures var t := TallyLists(d, entries);
      && !t.allLists
      && (t.muteAll <==> exists e :: e in entries && e.policy.muteAll.GetOr(d.muteAll))
      && (forall e :: e in entries ==> Rank(Positive(d, e)) <= Rank(t.positive))
      && (t.positive == Nobody || exists e :: e in entries && Positive(d, e) == t.positive)
    decreases |entries|
  {
    hide ReplyTo, Positive;
    if entries != [] {
      var front, last := entries[..|entries| - 1], entries[|entries| - 1];
      TallyStrongest(d, front);
      assert entries == front + [last];
      assert last in entries && forall e :: e in entries <==> e in front || e == last;
    }
  }

  lemma TallyIgnoresOrder(d: Defaults, a: seq<Entry>, b: seq<Entry>)
    requires forall e :: e in a <==> e in b
    ensures SameAsked(TallyLists(d, a), TallyLists(d, b)) && SameAsked(TallyPositive(d, a), TallyPositive(d, b))
  {
    hide ReplyTo, Positive, TallyLists, TallyPositive;
    TallyMembers(d, a);
    TallyMembers(d, b);
    TallyStrongest(d, a);
    TallyStrongest(d, b);
    TallyPositiveMembers(d, a);
    TallyPositiveMembers(d, b);
    assert TallyLists(d, a).allowed == TallyLists(d, b).allowed;
    assert TallyPositive(d, a).allowed == TallyPositive(d, b).allowed;
  }

  lemma CappedIgnoresOrder(policy: Policy, dir: Directory, mail: Mail, bot: string, t: Tally, u: Tally)
    requires SameAsked(t, u)
    ensures SameAsked(Capped(policy, dir, mail, bot, t), Capped(policy, dir, mail, bot, u))
  {
    hide Bare, IsList;
    var tc, uc := t.staticCc + policy.defaults.cc, u.staticCc + policy.defaults.cc;
    var author := if t.includeAuthor then Some(Bare(mail.author)) else None;
    assert Bares(tc) == Bares(uc);
    assert Individuals(policy, dir, mail, bot, author, tc) == Individuals(policy, dir, mail, bot, author, uc);
  }

  lemma {:induction false} PicksIgnoreOrder(policy: Policy, dir: Directory, t: Tally, u: Tally, addrs: seq<string>)
    requires SameAsked(t, u)
    ensures Picks(policy, dir, t, addrs) == Picks(policy, dir, u, addrs)
    decreases |addrs|
  {
    hide Bare, IsList;
    if addrs != [] {
      PicksIgnoreOrder(policy, dir, t, u, addrs[..|addrs| - 1]);
    }
  }

  lemma CcMembers(policy: Policy, dir: Directory, mail: Mail, bot: string, t: Tally, b: string)
    ensures b in Bares(FinalCc(policy, dir, mail, bot, t)) <==>
      exists c :: c in RawCc(policy, dir, mail, t)
        && Survives(c, bot, Bares(FinalTo(policy, dir, mail, bot, t))) && Bare(c) == b
  {
    hide Survives, Bare, Survivors, Dedup, RawCc, Bares, FinalTo;
    var raw, excluded := RawCc(policy, dir, mail, t), Bares(FinalTo(policy, dir, mail, bot, t));
    DedupIsDedup(Survivors(raw, bot, excluded));
    SurvivorBares(raw, bot, excluded, b);
  }

  /** The To list is the same, and Cc names the same addresses. */
  lemma MailedIgnoresOrder(policy: Policy, dir: Directory, mail: Mail, bot: string, t: Tally, u: Tally)
    requires SameAsked(t, u)
    ensures FinalTo(policy, dir, mail, bot, t) == FinalTo(policy, dir, mail, bot, u)
    ensures Bares(FinalCc(policy, dir, mail, bot, t)) == Bares(FinalCc(policy, dir, mail, bot, u))
    ensures FinalCc(policy, dir, mail, bot, t) == [] <==> FinalCc(policy, dir, mail, bot, u) == []
  {
    hide Survives, Bare, Survivors, Dedup, Picks, Trim, FinalCc;
    PicksIgnoreOrder(policy, dir, t, u, mail.to);
    PicksIgnoreOrder(policy, dir, t, u, mail.cc);
    assert RawTo(policy, dir, mail, t) == RawTo(policy, dir, mail, u);
    forall c ensures c in RawCc(policy, dir, mail, t) <==> c in RawCc(policy, dir, mail, u) {
    }
    var tc, uc := FinalCc(policy, dir, mail, bot, t), FinalCc(policy, dir, mail, bot, u);
    forall b ensures b in Bares(tc) <==> b in Bares(uc) {
      CcMembers(policy, dir, mail, bot, t, b);
      CcMembers(policy, dir, mail, bot, u, b);
    }
    NoBares(tc);
    NoBares(uc);
  }

  lemma NoBares(addrs: seq<string>)
    ensures Bares(addrs) == {} <==> addrs == []
  {
    hide Bare;
    if addrs != [] {
      assert Bare(addrs[0]) in Bares(addrs);
    }
  }

  /** Muted both, or sent with the same To list, the same addresses in Cc and the same
      policy for positive reviews. */
  ghost predicate SameAction(x: Action, y: Action) {
    match x
    case Mute => y.Mute?
    case Send(to, cc, positive) => y.Send? && y.to == to && Bares(y.cc) == Bares(cc) && y.positive == positive
  }

  /** Whatever lists are configured, two of them with one address included: who gets a
      review does not depend on the order in which the map of lists is iterated. */
  lemma RecipientsIgnoreMapOrder(policy: Policy, dir: Directory, mail: Mail, bot: string, order: seq<string>,
          order': seq<string>)
    requires Enumerates(order, policy.lists.Keys) && Enumerates(order', policy.lists.Keys)
    ensures SameAction(Route(policy, dir, mail, bot, Visited(policy, mail, order)),
                       Route(policy, dir, mail, bot, Visited(policy, mail, order')))
  {
    hide Bare, Visited, FinalTo, FinalCc, Capped, TallyLists, IsIgnored, FromBot, Bares;
    var a, b := Visited(policy, mail, order), Visited(policy, mail, order');
    SameVisited(policy, mail, order, order');
    var t, u := Chosen(policy, a), Chosen(policy, b);
    TallyIgnoresOrder(policy.defaults, a, b);
    CappedIgnoresOrder(policy, dir, mail, bot, t, u);
    MailedIgnoresOrder(policy, dir, mail, bot, Capped(policy, dir, mail, bot, t), Capped(policy, dir, mail, bot, u));
  }

  lemma SameVisited(policy: Policy, mail: Mail, order: seq<string>, order': seq<string>)
    requires Enumerates(order, policy.lists.Keys) && Enumerates(order', policy.lists.Keys)
    ensures forall e :: e in Visited(policy, mail, order) <==> e in Visited(policy, mail, order')
    ensures Visited(policy, mail, order) == [] <==> Visited(policy, mail, order') == []
  {
    hide Bare, Matches, Visited;
    var a, b := Visited(policy, mail, order), Visited(policy, mail, order');
    forall e ensures e in a <==> e in b {
      VisitedMembers(policy, mail, order, e);
      VisitedMembers(policy, mail, order', e);
    }
    HeadIsMember(a);
    HeadIsMember(b);
  }

  ghost predicate SameRecipients(x: Option<(seq<string>, seq<string>)>, y: Option<(seq<string>, seq<string>)>) {
    match x
    case None => y.None?
    case Some((to, cc)) => y.Some? && y.value.0 == to && Bares(y.value.1) == Bares(cc)
  }

  /** Nor does who gets a review without findings, though the two resolvers iterate the map
      separately. */
  lemma PositiveRecipientsIgnoreMapOrder(policy: Policy, dir: Directory, mail: Mail, bot: string, review: Action,
          review': Action, order: seq<string>, order': seq<string>)
    requires Enumerates(order, policy.lists.Keys) && Enumerates(order', policy.lists.Keys)
    requires SameAction(review, review')
    ensures SameRecipients(RoutePositive(policy, dir, mail, bot, review, Visited(policy, mail, order)),
                           RoutePositive(policy, dir, mail, bot, review', Visited(policy, mail, order')))
  {
    hide Bare, Visited, FinalTo, FinalCc, Capped, TallyPositive, Bares, Trim, Dedup, Survivors;
    var a, b := Visited(policy, mail, order), Visited(policy, mail, order');
    SameVisited(policy, mail, order, order');
    var t, u := TallyPositive(policy.defaults, a), TallyPositive(policy.defaults, b);
    TallyIgnoresOrder(policy.defaults, a, b);
    CappedIgnoresOrder(policy, dir, mail, bot, t, u);
    MailedIgnoresOrder(policy, dir, mail, bot, Capped(policy, dir, mail, bot, t), Capped(policy, dir, mail, bot, u));
  }

  // ---- two lists of one address --------------------------------------------

  /** A trimmed address without a display name. */
  predicate Plain(a: string) {
    a != "" && Trimmed(a) && '<' !in a
  }

  lemma PlainIsBare(a: string)
    requires Plain(a)
    ensures Trim(a) == a && Bare(a) == Lower(a) && Survives(a, "", {})
  {
    hide Trim;
    TrimmedIsFixed(a);
    FindUnique(a, IsOpen, |a|);
  }

  /** Two keys that differ in case alone, one copying `x` and one copying `y`. */
  function Twins(x: string, y: string): Policy {
    Policy(Defaults({}, Nobody, false, [], []),
           map["A@b.c" := ListPolicy(None, None, None, [x], []), "a@b.c" := ListPolicy(None, None, None, [y], [])])
  }

  function ToTwins(): Mail {
    Mail(["a@b.c"], [], "me@b.c")
  }

  lemma TwinBares()
    ensures Bare("A@b.c") == "a@b.c" == Bare("a@b.c")
  {
    hide Bare, Lower, Plain, Trim, Survives;
    PlainTwins();
    PlainIsBare("A@b.c");
    PlainIsBare("a@b.c");
    LowerTwins();
  }

  lemma PlainTwins()
    ensures Plain("A@b.c") && Plain("a@b.c")
  {
  }

  lemma LowerTwins()
    ensures Lower("A@b.c") == "a@b.c" == Lower("a@b.c")
  {
  }

  /** Both lists match, and the stable sort leaves them as the map yields them. */
  lemma TwinsVisited(policy: Policy, k: string, l: string)
    requires k in policy.lists && l in policy.lists && Bare(k) == Bare(l) == Bare("a@b.c")
    ensures Visited(policy, ToTwins(), [k, l]) == [Entry(Bare(k), policy.lists[k]), Entry(Bare(l), policy.lists[l])]
  {
    hide Bare, Matching, SortByBare;
    TwinsMatch(policy, k, l);
    TwinsStay(Entry(Bare(k), policy.lists[k]), Entry(Bare(l), policy.lists[l]));
  }

  lemma TwinsMatch(policy: Policy, k: string, l: string)
    requires k in policy.lists && l in policy.lists && Bare(k) == Bare(l) == Bare("a@b.c")
    ensures Matching(policy, ToTwins(), [k, l]) == [Entry(Bare(k), policy.lists[k]), Entry(Bare(l), policy.lists[l])]
  {
    hide Bare, Matches;
    assert Matches(Incoming(ToTwins()), Bare("a@b.c")) by {
      TwinsAddressed();
    }
    assert [k, l][..1] == [k] && [k][..0] == [];
    assert Matching(policy, ToTwins(), [k]) == [Entry(Bare(k), policy.lists[k])];
  }

  lemma TwinsAddressed()
    ensures Matches(Incoming(ToTwins()), Bare("a@b.c"))
  {
    hide Bare;
    assert Incoming(ToTwins())[0] == "a@b.c";
  }

  lemma TwinsStay(e1: Entry, e2: Entry)
    requires e1.bare == e2.bare
    ensures SortByBare([e1, e2]) == [e1, e2]
  {
    hide LexLe;
    LexTotal(e1.bare, e2.bare);
    assert [e1, e2][..1] == [e1] && [e1][..0] == [];
    assert SortByBare([e1]) == [e1] && [e1][1..] == [];
    assert InsertByBare(e2, [e1]) == [e1, e2];
  }

  /** Nothing but the configured copies is mailed. */
  lemma TwinsRoute(policy: Policy, dir: Directory, x: string, y: string, a: string, b: string, entries: seq<Entry>)
    requires policy == Twins(x, y) && Bare("A@b.c") == Bare("a@b.c")
    requires |entries| == 2 && entries[0].policy == ListPolicy(None, None, None, [a], [])
    requires entries[1].policy == ListPolicy(None, None, None, [b], [])
    requires Plain(a) && Plain(b)
    ensures Route(policy, dir, ToTwins(), "", entries) == Send([], Dedup([a, b]), Nobody)
  {
    hide Bare, Dedup, Survivors, Plain, TallyLists, Capped, RawTo, RawCc, Contains;
    var t := EmptyTally().(staticCc := [a, b]);
    TwinsTally(policy.defaults, entries, a, b);
    TwinsRaw(policy, dir, x, y, t);
    NothingKept();
    assert Bares([]) == {};
    PairSurvives(a, b);
    PairKept(a, b);
  }

  lemma TwinsTally(d: Defaults, entries: seq<Entry>, a: string, b: string)
    requires d == Defaults({}, Nobody, false, [], [])
    requires |entries| == 2 && entries[0].policy == ListPolicy(None, None, None, [a], [])
    requires entries[1].policy == ListPolicy(None, None, None, [b], [])
    ensures TallyLists(d, entries) == EmptyTally().(staticCc := [a, b])
  {
    var first := entries[..1];
    assert first[..0] == [];
    assert TallyLists(d, first) == EmptyTally().(staticCc := [a]);
  }

  /** Nobody in To, and the configured copies in Cc. */
  lemma TwinsRaw(policy: Policy, dir: Directory, x: string, y: string, t: Tally)
    requires policy == Twins(x, y) && t == EmptyTally().(staticCc := t.staticCc)
    ensures Capped(policy, dir, ToTwins(), "", t) == t
    ensures RawTo(policy, dir, ToTwins(), t) == [] && RawCc(policy, dir, ToTwins(), t) == t.staticCc
  {
    hide Bare, TooManyIndividuals, Trim, KnownList;
    assert t.staticCc + policy.defaults.cc == t.staticCc;
    assert "a@b.c" in policy.lists && IsList(policy, dir, Bare("a@b.c"));
    assert !Picked(policy, dir, t, "a@b.c");
    assert ToTwins().to == ["a@b.c"] && ["a@b.c"][..0] == [];
    assert Picks(policy, dir, t, ["a@b.c"]) == [] == Picks(policy, dir, t, []);
  }

  lemma NothingKept()
    ensures Dedup(Survivors([], "", {})) == []
  {
  }

  lemma PairSurvives(a: string, b: string)
    requires Plain(a) && Plain(b)
    ensures Survivors([a, b], "", {}) == [a, b]
  {
    hide Survives, Trim;
    PlainIsBare(a);
    PlainIsBare(b);
    assert [a, b][..1] == [a] && [a][..0] == [];
    assert Survivors([a], "", {}) == [a];
  }

  lemma PairKept(a: string, b: string)
    requires Plain(a) && Plain(b)
    ensures Dedup([a, b]) == if Bare(a) == Bare(b) then [a] else [a, b]
  {
    hide Bare, Trimmed;
    assert [a, b][..1] == [a] && [a][..0] == [];
    assert Dedup([a]) == [a];
    assert [a][1..] == [];
  }

  /** Where two lists share an address and copy different people, or one person under two
      spellings, what a review's Cc looks like is left to the order of the map. */
  lemma TwinsLeaveCcToTheMap(dir: Directory, x: string, y: string)
    requires Plain(x) && Plain(y) && x != y
    ensures var order, order' := ["A@b.c", "a@b.c"], ["a@b.c", "A@b.c"];
      Enumerates(order, Twins(x, y).lists.Keys) && Enumerates(order', Twins(x, y).lists.Keys)
      && Route(Twins(x, y), dir, ToTwins(), "", Visited(Twins(x, y), ToTwins(), order))
         != Route(Twins(x, y), dir, ToTwins(), "", Visited(Twins(x, y), ToTwins(), order'))
  {
    hide Bare, Visited, Route, Plain, Dedup;
    var policy := Twins(x, y);
    TwinBares();
    TwinsVisited(policy, "A@b.c", "a@b.c");
    TwinsVisited(policy, "a@b.c", "A@b.c");
    TwinsRoute(policy, dir, x, y, x, y, Visited(policy, ToTwins(), ["A@b.c", "a@b.c"]));
    TwinsRoute(policy, dir, x, y, y, x, Visited(policy, ToTwins(), ["a@b.c", "A@b.c"]));
    PairKept(x, y);
    PairKept(y, x);
    assert "A@b.c"[0] != "a@b.c"[0];
  }
}
