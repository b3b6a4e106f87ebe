/** Who is mailed, told from the policy and the mail alone. */
module RouterRecipients {
  import opened Options
  import opened Text
  import opened Addresses
  import opened Router
  import opened RouterSafety

  // ---- who asks for what ----

  /** The mail is addressed to list `k`. */
  ghost predicate Addressed(mail: Mail, k: string) {
    exists a :: a in mail.to + mail.cc && Bare(a) == Bare(k)
  }

  /** The lists that have a say. */
  ghost predicate Speaks(policy: Policy, mail: Mail, k: string) {
    k in policy.lists && Addressed(mail, k)
  }

  ghost predicate Unmatched(policy: Policy, mail: Mail) {
    forall k :: !Speaks(policy, mail, k)
  }

  /** List `k` wants `target` mailed; with `clean`, a review without findings. */
  ghost predicate Wants(policy: Policy, k: string, target: ReplyTarget, clean: bool)
    requires k in policy.lists
  {
    && target in policy.lists[k].replyTo.GetOr(policy.defaults.replyTo)
    && (clean ==>
          var positive := policy.lists[k].positiveReview.GetOr(policy.defaults.positiveReview);
          positive == All || (positive == AuthorOnly && target == Author))
  }

  /** The lists the mail is addressed to decide; the defaults do when there are none. */
  ghost predicate Asked(policy: Policy, mail: Mail, target: ReplyTarget, clean: bool) {
    if Unmatched(policy, mail) then target in policy.defaults.replyTo
    else exists k :: Speaks(policy, mail, k) && Wants(policy, k, target, clean)
  }

  /** A list answers for its own address only, the defaults for those of all lists. */
  ghost predicate ListAsked(policy: Policy, mail: Mail, bare: string, clean: bool) {
    if Unmatched(policy, mail) then List in policy.defaults.replyTo
    else exists k :: Speaks(policy, mail, k) && Wants(policy, k, List, clean) && Bare(k) == bare
  }

  /** A configured copy. */
  ghost predicate CopyAsked(policy: Policy, mail: Mail, c: string, clean: bool) {
    || c in policy.defaults.cc
    || (exists k :: Speaks(policy, mail, k) && c in policy.lists[k].cc
          && (clean ==> policy.lists[k].positiveReview.GetOr(policy.defaults.positiveReview) == All))
  }

  // ---- addresses ----

  /** A configured list, a known list, or any address at a domain of lists. */
  ghost predicate OnList(policy: Policy, dir: Directory, bare: string) {
    || (exists k :: k in policy.lists && Bare(k) == bare)
    || bare in dir.addresses
    || (exists i :: 0 <= i < |bare| && bare[i] == '@' && '@' !in bare[..i] && bare[i + 1..] in dir.domains)
  }

  /** Neither blank nor the bot, by name or by address. */
  ghost predicate Deliverable(c: string, bot: string) {
    && Trim(c) != "" && Bare(c) != ""
    && (bot != "" ==> Bare(c) != bot && !Contains(Lower(Trim(c)), bot))
  }

  /** The people named in To and Cc who count against the cap. */
  ghost predicate Counts(policy: Policy, dir: Directory, mail: Mail, bot: string, clean: bool, bare: string) {
    && (exists a :: a in mail.to + mail.cc && Bare(a) == bare)
    && !OnList(policy, dir, bare) && bare != "" && bare != bot
    && !(Asked(policy, mail, Author, clean) && bare == Bare(mail.author))
    && !(exists c :: CopyAsked(policy, mail, c, clean) && Bare(c) == bare)
  }

  /** People are relayed to when somebody asks for that and they are no more than 128. */
  ghost predicate Relays(policy: Policy, dir: Directory, mail: Mail, bot: string, clean: bool) {
    && Asked(policy, mail, Recipients, clean)
    && exists people: set<string> ::
         |people| <= 128 && forall b :: b in people <==> Counts(policy, dir, mail, bot, clean, b)
  }

  /** An address of the mail that is to be answered. */
  ghost predicate Answered(policy: Policy, dir: Directory, mail: Mail, bot: string, clean: bool, c: string) {
    if OnList(policy, dir, Bare(c)) then ListAsked(policy, mail, Bare(c), clean)
    else Relays(policy, dir, mail, bot, clean)
  }

  ghost predicate BelongsInTo(policy: Policy, dir: Directory, mail: Mail, bot: string, clean: bool, bare: string) {
    exists c :: Deliverable(c, bot) && Bare(c) == bare
      && ((c == mail.author && Asked(policy, mail, Author, clean))
          || (c in mail.to && Answered(policy, dir, mail, bot, clean, c)))
  }

  ghost predicate BelongsInCc(policy: Policy, dir: Directory, mail: Mail, bot: string, clean: bool, bare: string) {
    exists c :: Deliverable(c, bot) && Bare(c) == bare
      && (CopyAsked(policy, mail, c, clean)
          || (c in mail.cc && Answered(policy, dir, mail, bot, clean, c)))
  }

  // ---- what the resolvers tally ----

  /** `t` is what is asked for, before the default copies and the cap. */
  ghost predicate IsAsked(policy: Policy, mail: Mail, clean: bool, t: Tally) {
    && (t.includeAuthor <==> Asked(policy, mail, Author, clean))
    && (t.includeRecipients <==> Asked(policy, mail, Recipients, clean))
    && (forall b :: t.allLists || b in t.allowed <==> ListAsked(policy, mail, b, clean))
    && (forall c :: c in t.staticCc + policy.defaults.cc <==> CopyAsked(policy, mail, c, clean))
  }

  lemma VisitedSpeak(policy: Policy, mail: Mail, order: seq<string>)
    requires Enumerates(order, policy.lists.Keys)
    ensures forall k :: Speaks(policy, mail, k) ==> Entry(Bare(k), policy.lists[k]) in Visited(policy, mail, order)
    ensures forall e :: e in Visited(policy, mail, order) ==>
      exists k :: Speaks(policy, mail, k) && e == Entry(Bare(k), policy.lists[k])
    ensures Visited(policy, mail, order) == [] <==> Unmatched(policy, mail)
  {
    hide Bare, Visited;
    var entries := Visited(policy, mail, order);
    forall k | Speaks(policy, mail, k) ensures Entry(Bare(k), policy.lists[k]) in entries {
      VisitedMembers(policy, mail, order, Entry(Bare(k), policy.lists[k]));
    }
    forall e | e in entries ensures exists k :: Speaks(policy, mail, k) && e == Entry(Bare(k), policy.lists[k]) {
      VisitedMembers(policy, mail, order, e);
      var k :| k in policy.lists && Matches(Incoming(mail), Bare(k)) && e == Entry(Bare(k), policy.lists[k]);
      assert Speaks(policy, mail, k);
    }
    if entries != [] {
      assert entries[0] in entries;
    }
  }

  lemma DefaultsAsked(policy: Policy, mail: Mail, clean: bool)
    requires Unmatched(policy, mail)
    ensures IsAsked(policy, mail, clean, DefaultTally(policy.defaults))
  {
    hide Bare;
  }

  lemma ListsAsked(policy: Policy, mail: Mail, entries: seq<Entry>)
    requires !Unmatched(policy, mail)
    requires forall k :: Speaks(policy, mail, k) ==> Entry(Bare(k), policy.lists[k]) in entries
    requires forall e :: e in entries ==> exists k :: Speaks(policy, mail, k) && e == Entry(Bare(k), policy.lists[k])
    ensures IsAsked(policy, mail, false, TallyLists(policy.defaults, entries))
  {
    hide Bare, TallyLists, Speaks, Unmatched;
    TallyMembers(policy.defaults, entries);
    TallyStrongest(policy.defaults, entries);
  }

  lemma PositiveAsked(policy: Policy, mail: Mail, entries: seq<Entry>)
    requires !Unmatched(policy, mail)
    requires forall k :: Speaks(policy, mail, k) ==> Entry(Bare(k), policy.lists[k]) in entries
    requires forall e :: e in entries ==> exists k :: Speaks(policy, mail, k) && e == Entry(Bare(k), policy.lists[k])
    ensures IsAsked(policy, mail, true, TallyPositive(policy.defaults, entries))
  {
    hide Bare, TallyPositive, Speaks, Unmatched;
    TallyPositiveMembers(policy.defaults, entries);
  }

  // ---- what is mailed for it ----

  lemma IsListMeansOnList(policy: Policy, dir: Directory, bare: string)
    ensures IsList(policy, dir, bare) <==> OnList(policy, dir, bare)
  {
    hide Bare;
    forall i | 0 <= i < |bare| && bare[i] == '@' && '@' !in bare[..i] ensures Find(bare, IsAt) == i {
      assert forall j :: 0 <= j < i ==> bare[..i][j] == bare[j];
      FindUnique(bare, IsAt, i);
    }
    var i := Find(bare, IsAt);
    if i < |bare| {
      assert '@' !in bare[..i];
    }
  }

  /** Counting them by set gives the same answer as the resolvers' cap. */
  lemma CapMeansRelays(policy: Policy, dir: Directory, mail: Mail, bot: string, clean: bool, t: Tally)
    requires IsAsked(policy, mail, clean, t)
    ensures Capped(policy, dir, mail, bot, t).includeRecipients <==> Relays(policy, dir, mail, bot, clean)
  {
    hide Bare, IsList, OnList, ListAsked, Asked, CopyAsked, Counts;
    var staticCc := t.staticCc + policy.defaults.cc;
    var author := if t.includeAuthor then Some(Bare(mail.author)) else None;
    var counted := Individuals(policy, dir, mail, bot, author, staticCc);
    forall b ensures b in counted <==> Counts(policy, dir, mail, bot, clean, b) {
      CountedCounts(policy, dir, mail, bot, clean, t, b);
    }
    if people: set<string> :| |people| <= 128 && forall b :: b in people <==> Counts(policy, dir, mail, bot, clean, b) {
      assert people == counted;
    }
  }

  lemma CountedCounts(policy: Policy, dir: Directory, mail: Mail, bot: string, clean: bool, t: Tally, b: string)
    requires IsAsked(policy, mail, clean, t)
    ensures
      var author := if t.includeAuthor then Some(Bare(mail.author)) else None;
      b in Individuals(policy, dir, mail, bot, author, t.staticCc + policy.defaults.cc)
      <==> Counts(policy, dir, mail, bot, clean, b)
  {
    hide Bare, IsList, OnList, ListAsked, Asked, CopyAsked;
    IsListMeansOnList(policy, dir, b);
  }

  lemma PickedMeansAnswered(policy: Policy, dir: Directory, mail: Mail, bot: string, clean: bool, t: Tally, c: string)
    requires IsAsked(policy, mail, clean, t)
    ensures Picked(policy, dir, Capped(policy, dir, mail, bot, t), c) <==> Answered(policy, dir, mail, bot, clean, c)
  {
    hide Bare, IsList, OnList, ListAsked, Asked, CopyAsked, Relays, TooManyIndividuals;
    IsListMeansOnList(policy, dir, Bare(c));
    CapMeansRelays(policy, dir, mail, bot, clean, t);
  }

  lemma SurvivesMeansDeliverable(c: string, bot: string)
    ensures Survives(c, bot, {}) <==> Deliverable(c, bot)
  {
    hide Bare, Contains, Lower, Trim;
    BareOfTrim(c);
  }

  /** A tally of what is asked for mails exactly who belongs in To. */
  lemma ToIsExact(policy: Policy, dir: Directory, mail: Mail, bot: string, clean: bool, t: Tally, b: string)
    requires IsAsked(policy, mail, clean, t)
    ensures b in Bares(FinalTo(policy, dir, mail, bot, Capped(policy, dir, mail, bot, t)))
      <==> BelongsInTo(policy, dir, mail, bot, clean, b)
  {
    hide Bare, Picked, Answered, Survives, Survivors, Dedup, Deliverable, Asked, ListAsked, CopyAsked, Bares, Picks;
    hide TooManyIndividuals;
    var u := Capped(policy, dir, mail, bot, t);
    var raw := RawTo(policy, dir, mail, u);
    DedupIsDedup(Survivors(raw, bot, {}));
    SurvivorBares(raw, bot, {}, b);
    forall c ensures c in raw && Survives(c, bot, {}) <==>
      Deliverable(c, bot) && ((c == mail.author && Asked(policy, mail, Author, clean))
                              || (c in mail.to && Answered(policy, dir, mail, bot, clean, c)))
    {
      SurvivesMeansDeliverable(c, bot);
      DeliverableIsNotBlank(c, bot);
      PicksMembers(policy, dir, u, mail.to, c);
      PickedMeansAnswered(policy, dir, mail, bot, clean, t, c);
    }
  }

  lemma DeliverableIsNotBlank(c: string, bot: string)
    ensures Deliverable(c, bot) ==> Trim(c) != ""
  {
  }

  /** And in Cc. */
  lemma CcIsExact(policy: Policy, dir: Directory, mail: Mail, bot: string, clean: bool, t: Tally, b: string)
    requires IsAsked(policy, mail, clean, t)
    ensures b in Bares(FinalCc(policy, dir, mail, bot, Capped(policy, dir, mail, bot, t)))
      <==> BelongsInCc(policy, dir, mail, bot, clean, b) && !BelongsInTo(policy, dir, mail, bot, clean, b)
  {
    hide Bare, Picked, Answered, Survives, Survivors, Dedup, Deliverable, Asked, ListAsked, CopyAsked, Bares, Picks;
    hide TooManyIndividuals, FinalTo, BelongsInTo;
    var u := Capped(policy, dir, mail, bot, t);
    var raw, excluded := RawCc(policy, dir, mail, u), Bares(FinalTo(policy, dir, mail, bot, u));
    CcMembers(policy, dir, mail, bot, u, b);
    ToIsExact(policy, dir, mail, bot, clean, t, b);
    forall c ensures c in raw && Survives(c, bot, excluded) <==>
      Deliverable(c, bot) && Bare(c) !in excluded
      && (CopyAsked(policy, mail, c, clean) || (c in mail.cc && Answered(policy, dir, mail, bot, clean, c)))
    {
      SurvivesMeansDeliverable(c, bot);
      ExcludedOnly(c, bot, excluded);
      PicksMembers(policy, dir, u, mail.cc, c);
      PickedMeansAnswered(policy, dir, mail, bot, clean, t, c);
    }
  }

  // ---- a review with findings ----

  /** The author is on somebody's list of the ignored, or the bot itself. */
  ghost predicate Unwelcome(policy: Policy, author: string, bot: string) {
    || (exists e :: e in policy.defaults.ignoredEmails && Contains(Lower(author), Lower(e)))
    || (exists k, e :: k in policy.lists && e in policy.lists[k].ignoredEmails && Contains(Lower(author), Lower(e)))
    || (bot != "" && Bare(author) != "" && (Bare(author) == bot || Contains(Lower(author), bot)))
  }

  ghost predicate MuteAsked(policy: Policy, mail: Mail) {
    if Unmatched(policy, mail) then policy.defaults.muteAll
    else exists k :: Speaks(policy, mail, k) && policy.lists[k].muteAll.GetOr(policy.defaults.muteAll)
  }

  function PositiveOf(policy: Policy, k: string): PositiveReview
    requires k in policy.lists
  {
    policy.lists[k].positiveReview.GetOr(policy.defaults.positiveReview)
  }

  /** The most any list allows for a review without findings. */
  ghost predicate IsMostPositive(policy: Policy, mail: Mail, positive: PositiveReview) {
    if Unmatched(policy, mail) then positive == policy.defaults.positiveReview
    else
      match positive
      case All => exists k :: Speaks(policy, mail, k) && PositiveOf(policy, k) == All
      case AuthorOnly =>
        (exists k :: Speaks(policy, mail, k) && PositiveOf(policy, k) == AuthorOnly)
        && forall k :: Speaks(policy, mail, k) ==> PositiveOf(policy, k) != All
      case Nobody => forall k :: Speaks(policy, mail, k) ==> PositiveOf(policy, k) == Nobody
  }

  lemma ChosenIsAsked(policy: Policy, mail: Mail, order: seq<string>)
    requires Enumerates(order, policy.lists.Keys)
    ensures var t := Chosen(policy, Visited(policy, mail, order));
      IsAsked(policy, mail, false, t) && (t.muteAll <==> MuteAsked(policy, mail))
      && IsMostPositive(policy, mail, t.positive)
  {
    hide Bare, Visited, TallyLists, IsAsked;
    var entries := Visited(policy, mail, order);
    VisitedSpeak(policy, mail, order);
    if entries == [] {
      DefaultsAsked(policy, mail, false);
    } else {
      ListsAsked(policy, mail, entries);
      TallyStrongest(policy.defaults, entries);
      StrongestIsMost(policy, mail, entries, TallyLists(policy.defaults, entries).positive);
    }
  }

  lemma StrongestIsMost(policy: Policy, mail: Mail, entries: seq<Entry>, positive: PositiveReview)
    requires !Unmatched(policy, mail)
    requires forall k :: Speaks(policy, mail, k) ==> Entry(Bare(k), policy.lists[k]) in entries
    requires forall e :: e in entries ==> exists k :: Speaks(policy, mail, k) && e == Entry(Bare(k), policy.lists[k])
    requires forall e :: e in entries ==> Rank(Positive(policy.defaults, e)) <= Rank(positive)
    requires positive == Nobody || exists e :: e in entries && Positive(policy.defaults, e) == positive
    ensures IsMostPositive(policy, mail, positive)
  {
    hide Bare, Addressed, Unmatched;
    forall k | Speaks(policy, mail, k) ensures Rank(PositiveOf(policy, k)) <= Rank(positive) {
      assert Positive(policy.defaults, Entry(Bare(k), policy.lists[k])) == PositiveOf(policy, k);
    }
    if positive != Nobody {
      var e :| e in entries && Positive(policy.defaults, e) == positive;
      var k :| Speaks(policy, mail, k) && e == Entry(Bare(k), policy.lists[k]);
      assert PositiveOf(policy, k) == positive;
    }
  }

  /** A review is mailed to exactly the addresses that belong in To and in Cc; whoever
      belongs in both is in To. */
  lemma ReviewReachesExactly(policy: Policy, dir: Directory, mail: Mail, bot: string, order: seq<string>, b: string)
    requires Enumerates(order, policy.lists.Keys)
    ensures var action := Route(policy, dir, mail, bot, Visited(policy, mail, order));
      action.Send? ==>
        (b in Bares(action.to) <==> BelongsInTo(policy, dir, mail, bot, false, b))
        && (b in Bares(action.cc) <==>
              BelongsInCc(policy, dir, mail, bot, false, b) && !BelongsInTo(policy, dir, mail, bot, false, b))
        && IsMostPositive(policy, mail, action.positive)
  {
    hide Bare, Visited, FinalTo, FinalCc, Capped, Chosen, IsIgnored, FromBot, Bares, BelongsInTo, BelongsInCc, IsAsked;
    hide IsMostPositive;
    ChosenIsAsked(policy, mail, order);
    var t := Chosen(policy, Visited(policy, mail, order));
    ToIsExact(policy, dir, mail, bot, false, t, b);
    CcIsExact(policy, dir, mail, bot, false, t, b);
  }

  /** Nothing is sent exactly when the author is unwelcome, somebody asked for silence, or
      there is nobody to send it to. */
  lemma MutedExactly(policy: Policy, dir: Directory, mail: Mail, bot: string, order: seq<string>)
    requires Enumerates(order, policy.lists.Keys)
    ensures Route(policy, dir, mail, bot, Visited(policy, mail, order)).Mute? <==>
      Unwelcome(policy, mail.author, bot) || MuteAsked(policy, mail)
      || forall b :: !BelongsInTo(policy, dir, mail, bot, false, b) && !BelongsInCc(policy, dir, mail, bot, false, b)
  {
    hide Bare, Visited, FinalTo, FinalCc, Capped, Chosen, Bares, BelongsInTo, BelongsInCc, IsAsked, Contains, Lower;
    hide MuteAsked, IsMostPositive;
    ChosenIsAsked(policy, mail, order);
    NobodyBelongs(policy, dir, mail, bot, false, Chosen(policy, Visited(policy, mail, order)));
  }

  lemma NobodyBelongs(policy: Policy, dir: Directory, mail: Mail, bot: string, clean: bool, t: Tally)
    requires IsAsked(policy, mail, clean, t)
    ensures var u := Capped(policy, dir, mail, bot, t);
      FinalTo(policy, dir, mail, bot, u) == [] && FinalCc(policy, dir, mail, bot, u) == []
      <==> forall b :: !BelongsInTo(policy, dir, mail, bot, clean, b) && !BelongsInCc(policy, dir, mail, bot, clean, b)
  {
    hide Bare, FinalTo, FinalCc, Capped, BelongsInTo, BelongsInCc, IsAsked, Bares;
    var u := Capped(policy, dir, mail, bot, t);
    var to, cc := FinalTo(policy, dir, mail, bot, u), FinalCc(policy, dir, mail, bot, u);
    NoBares(to);
    NoBares(cc);
    forall b
      ensures b in Bares(to) <==> BelongsInTo(policy, dir, mail, bot, clean, b)
      ensures b in Bares(cc) <==>
        BelongsInCc(policy, dir, mail, bot, clean, b) && !BelongsInTo(policy, dir, mail, bot, clean, b)
    {
      ToIsExact(policy, dir, mail, bot, clean, t, b);
      CcIsExact(policy, dir, mail, bot, clean, t, b);
    }
  }

  // ---- a review without findings ----

  lemma PositiveTallyIsAsked(policy: Policy, mail: Mail, order: seq<string>)
    requires Enumerates(order, policy.lists.Keys)
    ensures var entries := Visited(policy, mail, order);
      IsAsked(policy, mail, true, if entries == [] then DefaultTally(policy.defaults)
                                  else TallyPositive(policy.defaults, entries))
  {
    hide Bare, Visited, TallyPositive, IsAsked;
    VisitedSpeak(policy, mail, order);
    if Visited(policy, mail, order) == [] {
      DefaultsAsked(policy, mail, true);
    } else {
      PositiveAsked(policy, mail, Visited(policy, mail, order));
    }
  }

  /** Under the policy `All` a review without findings, where a review would be sent, reaches
      exactly those who belong in To and Cc when only the lists that want it count. */
  lemma CleanReviewReachesExactly(policy: Policy, dir: Directory, mail: Mail, bot: string, order: seq<string>,
          order': seq<string>, b: string)
    requires Enumerates(order, policy.lists.Keys) && Enumerates(order', policy.lists.Keys)
    ensures var review := Route(policy, dir, mail, bot, Visited(policy, mail, order));
      var sent := RoutePositive(policy, dir, mail, bot, review, Visited(policy, mail, order'));
      review.Send? && review.positive == All ==>
        (sent.None? <==> forall x ::
           !BelongsInTo(policy, dir, mail, bot, true, x) && !BelongsInCc(policy, dir, mail, bot, true, x))
        && (sent.Some? ==>
              (b in Bares(sent.value.0) <==> BelongsInTo(policy, dir, mail, bot, true, b))
              && (b in Bares(sent.value.1) <==>
                    BelongsInCc(policy, dir, mail, bot, true, b) && !BelongsInTo(policy, dir, mail, bot, true, b)))
  {
    hide Bare, Visited, FinalTo, FinalCc, Capped, IsIgnored, FromBot, Bares, BelongsInTo, BelongsInCc, IsAsked;
    hide TallyLists, TallyPositive, DefaultTally, Unmatched;
    VisitedSpeak(policy, mail, order);
    VisitedSpeak(policy, mail, order');
    PositiveTallyIsAsked(policy, mail, order');
    var entries := Visited(policy, mail, order');
    var t := if entries == [] then DefaultTally(policy.defaults) else TallyPositive(policy.defaults, entries);
    ToIsExact(policy, dir, mail, bot, true, t, b);
    CcIsExact(policy, dir, mail, bot, true, t, b);
    NobodyBelongs(policy, dir, mail, bot, true, t);
  }

  /** Otherwise it reaches nobody, or the author alone. */
  lemma CleanReviewReachesAuthor(policy: Policy, dir: Directory, mail: Mail, bot: string, review: Action,
          entries: seq<Entry>)
    ensures review.Mute? || review.positive == Nobody ==>
      RoutePositive(policy, dir, mail, bot, review, entries).None?
    ensures review.Send? && review.positive == AuthorOnly ==>
      var sent := RoutePositive(policy, dir, mail, bot, review, entries);
      (sent.Some? <==> Deliverable(mail.author, bot))
      && (sent.Some? ==> sent.value == ([Trim(mail.author)], []))
  {
    hide Bare, Contains, Lower, Trim, Survives;
    BareOfTrim(mail.author);
    TrimTwice(mail.author);
    OnlyOne(Trim(mail.author), bot);
    SurvivesMeansDeliverable(Trim(mail.author), bot);
  }

  lemma TrimTwice(a: string)
    ensures Trim(Trim(a)) == Trim(a)
  {
    hide Trim;
    TrimIsTrimmed(a);
    TrimmedIsFixed(Trim(a));
  }

  lemma OnlyOne(a: string, bot: string)
    requires Trim(a) == a
    ensures Dedup(Survivors([a], bot, {})) == if Survives(a, bot, {}) then [a] else []
  {
    hide Bare, Trim, Survives;
    assert [a][..0] == [];
    assert Survivors([a], bot, {}) == if Survives(a, bot, {}) then [a] else [];
  }

  // ---- in what order ----

  lemma {:induction false} SurvivorsConcat(a: seq<string>, b: seq<string>, bot: string, excluded: set<string>)
    ensures Survivors(a + b, bot, excluded) == Survivors(a, bot, excluded) + Survivors(b, bot, excluded)
    decreases |b|
  {
    hide Survives, Trim;
    if b == [] {
      assert a + b == a;
    } else {
      assert (a + b)[..|a + b| - 1] == a + b[..|b| - 1];
      SurvivorsConcat(a, b[..|b| - 1], bot, excluded);
    }
  }

  lemma {:induction false} PicksConcat(policy: Policy, dir: Directory, t: Tally, a: seq<string>, b: seq<string>)
    ensures Picks(policy, dir, t, a + b) == Picks(policy, dir, t, a) + Picks(policy, dir, t, b)
    decreases |b|
  {
    hide Picked;
    if b == [] {
      assert a + b == a;
    } else {
      assert (a + b)[..|a + b| - 1] == a + b[..|b| - 1];
      PicksConcat(policy, dir, t, a, b[..|b| - 1]);
    }
  }

  /** Addresses among the first candidates come before those that are not. */
  lemma EarlierComeFirst(a: seq<string>, b: seq<string>, bot: string, excluded: set<string>, i: nat, j: nat)
    requires var kept := Dedup(Survivors(a + b, bot, excluded));
      i < |kept| && j < |kept| && Bare(kept[i]) in Bares(Survivors(a, bot, excluded))
      && Bare(kept[j]) !in Bares(Survivors(a, bot, excluded))
    ensures i < j
  {
    hide Bare, Survivors, Dedup, Bares, Represents;
    var early, late := Survivors(a, bot, excluded), Survivors(b, bot, excluded);
    SurvivorsConcat(a, b, bot, excluded);
    var all := early + late;
    var kept := Dedup(all);
    DedupIsDedup(all);
    EarlyIndex(early, late, Bare(kept[i]));
    EarlyIndex(early, late, Bare(kept[j]));
  }

  lemma EarlyIndex(early: seq<string>, late: seq<string>, bare: string)
    ensures bare in Bares(early) <==> Addresses.IndexOf(early + late, bare) < |early|
  {
    hide Bare, Bares;
    var all := early + late;
    assert forall k :: 0 <= k < |early| ==> all[k] == early[k];
    BaresOf(early, bare);
    IndexFinds(all, bare);
    IndexFinds(early, bare);
    var i := Addresses.IndexOf(early, bare);
    if i < |early| {
      IndexUnique(all, bare, i);
    }
  }

  /** The author, or an answered address among the first ones of To. */
  ghost predicate EarlyInTo(policy: Policy, dir: Directory, mail: Mail, bot: string, first: seq<string>, bare: string) {
    exists c :: Deliverable(c, bot) && Bare(c) == bare
      && ((c == mail.author && Asked(policy, mail, Author, false))
          || (c in first && Answered(policy, dir, mail, bot, false, c)))
  }

  /** To begins with the author, and keeps the order of the mail: whoever is among the first
      comes before whoever is not. */
  lemma ToKeepsOrder(policy: Policy, dir: Directory, mail: Mail, bot: string, order: seq<string>,
          first: seq<string>, rest: seq<string>, i: nat, j: nat)
    requires Enumerates(order, policy.lists.Keys) && mail.to == first + rest
    requires var action := Route(policy, dir, mail, bot, Visited(policy, mail, order));
      action.Send? && i < |action.to| && j < |action.to|
      && EarlyInTo(policy, dir, mail, bot, first, Bare(action.to[i]))
      && !EarlyInTo(policy, dir, mail, bot, first, Bare(action.to[j]))
    ensures i < j
  {
    hide Bare, Visited, Dedup, Survivors, Bares, Picks, Capped, Chosen, IsIgnored, FromBot, EarlyInTo, FinalCc, IsAsked;
    hide Trim;
    ChosenIsAsked(policy, mail, order);
    var t := Chosen(policy, Visited(policy, mail, order));
    var u := Capped(policy, dir, mail, bot, t);
    assert u.includeAuthor == t.includeAuthor by { CapKeepsAuthor(policy, dir, mail, bot, t); }
    var author := if u.includeAuthor && Trim(mail.author) != "" then [mail.author] else [];
    var early, late := author + Picks(policy, dir, u, first), Picks(policy, dir, u, rest);
    PicksConcat(policy, dir, u, first, rest);
    assert RawTo(policy, dir, mail, u) == early + late;
    var to := FinalTo(policy, dir, mail, bot, u);
    forall b ensures b in Bares(Survivors(early, bot, {})) <==> EarlyInTo(policy, dir, mail, bot, first, b) {
      EarlySurvives(policy, dir, mail, bot, t, author, first, b);
    }
    EarlierComeFirst(early, late, bot, {}, i, j);
  }

  lemma CapKeepsAuthor(policy: Policy, dir: Directory, mail: Mail, bot: string, t: Tally)
    ensures Capped(policy, dir, mail, bot, t).includeAuthor == t.includeAuthor
  {
    hide TooManyIndividuals, Bare;
  }

  lemma EarlySurvives(policy: Policy, dir: Directory, mail: Mail, bot: string, t: Tally, author: seq<string>,
          first: seq<string>, b: string)
    requires IsAsked(policy, mail, false, t)
    requires author == if t.includeAuthor && Trim(mail.author) != "" then [mail.author] else []
    ensures b in Bares(Survivors(author + Picks(policy, dir, Capped(policy, dir, mail, bot, t), first), bot, {}))
      <==> EarlyInTo(policy, dir, mail, bot, first, b)
  {
    hide Bare, Picked, Answered, Survives, Survivors, Deliverable, Asked, ListAsked, CopyAsked, Bares, Picks, Capped;
    var u := Capped(policy, dir, mail, bot, t);
    var early := author + Picks(policy, dir, u, first);
    SurvivorBares(early, bot, {}, b);
    forall c ensures c in early && Survives(c, bot, {}) <==>
      Deliverable(c, bot) && ((c == mail.author && Asked(policy, mail, Author, false))
                              || (c in first && Answered(policy, dir, mail, bot, false, c)))
    {
      SurvivesMeansDeliverable(c, bot);
      DeliverableIsNotBlank(c, bot);
      PicksMembers(policy, dir, u, first, c);
      PickedMeansAnswered(policy, dir, mail, bot, false, t, c);
    }
  }
}
