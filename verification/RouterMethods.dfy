/** The two resolvers as the router runs them, each with its own loops. */
module RouterMethods {
  import opened Options
  import opened Text
  import opened Addresses
  import opened Router

  lemma Front<T>(s: seq<T>, i: nat)
    requires i < |s|
    ensures s[..i + 1] != [] && s[..i + 1][..|s[..i + 1]| - 1] == s[..i] && s[..i + 1][|s[..i + 1]| - 1] == s[i]
  {
  }

  /** Collects the lists the mail is addressed to, then sorts them. */
  method MatchLists(policy: Policy, mail: Mail, order: seq<string>) returns (matched: seq<Entry>)
    requires Enumerates(order, policy.lists.Keys)
    ensures matched == Visited(policy, mail, order)
  {
    hide Bare, Matches, SortByBare;
    var collected: seq<Entry> := [];
    for i := 0 to |order|
      invariant collected == Matching(policy, mail, order[..i])
    {
      Front(order, i);
      assert order[i] in order;
      var bare := Bare(order[i]);
      if Matches(Incoming(mail), bare) {
        collected := collected + [Entry(bare, policy.lists[order[i]])];
      }
    }
    assert order[..|order|] == order;
    matched := SortByBare(collected);
  }

  method PickAddresses(policy: Policy, dir: Directory, t: Tally, addrs: seq<string>) returns (raw: seq<string>)
    ensures raw == Picks(policy, dir, t, addrs)
  {
    hide Bare, IsList;
    raw := [];
    for i := 0 to |addrs|
      invariant raw == Picks(policy, dir, t, addrs[..i])
    {
      Front(addrs, i);
      if IsList(policy, dir, Bare(addrs[i])) {
        var bare := Bare(addrs[i]);
        if t.allLists || bare in t.allowed {
          raw := raw + [addrs[i]];
        }
      } else if t.includeRecipients {
        raw := raw + [addrs[i]];
      }
    }
    assert addrs[..|addrs|] == addrs;
  }

  /** Caps the individuals, collects To and Cc, and deduplicates across both. */
  method Deliver(policy: Policy, dir: Directory, mail: Mail, bot: string, asked: Tally)
      returns (to: seq<string>, cc: seq<string>)
    ensures var c := Capped(policy, dir, mail, bot, asked);
      to == FinalTo(policy, dir, mail, bot, c) && cc == FinalCc(policy, dir, mail, bot, c)
  {
    hide Bare, Trim, TooManyIndividuals, Dedup, Survivors;
    var t := asked.(staticCc := asked.staticCc + policy.defaults.cc);
    var rawTo, rawCc: seq<string> := [], [];
    if t.includeAuthor && Trim(mail.author) != "" {
      rawTo := rawTo + [mail.author];
    }
    if t.includeRecipients
      && TooManyIndividuals(policy, dir, mail, bot,
                            if t.includeAuthor then Some(Bare(mail.author)) else None, t.staticCc)
    {
      t := t.(includeRecipients := false);
    }
    var picked := PickAddresses(policy, dir, t, mail.to);
    rawTo := rawTo + picked;
    picked := PickAddresses(policy, dir, t, mail.cc);
    rawCc := rawCc + picked;
    assert [] + picked == picked;
    rawCc := rawCc + t.staticCc;
    assert t == Capped(policy, dir, mail, bot, asked);
    assert rawTo == RawTo(policy, dir, mail, t) && rawCc == RawCc(policy, dir, mail, t);
    var toBares, ccBares;
    to, toBares := DedupAddresses(rawTo, bot, None);
    cc, ccBares := DedupAddresses(rawCc, bot, Some(toBares));
  }

  method ResolveRecipients(policy: Policy, dir: Directory, mail: Mail, sashikoAddress: string, order: seq<string>)
      returns (action: Action)
    requires Enumerates(order, policy.lists.Keys)
    ensures action == Route(policy, dir, mail, Bare(sashikoAddress), Visited(policy, mail, order))
  {
    hide Bare, IsIgnored, FromBot, Visited, FinalTo, FinalCc, Capped;
    var bot := Bare(sashikoAddress);
    if IsIgnored(policy, mail.author) || FromBot(mail.author, bot) {
      return Mute;
    }
    var matched := MatchLists(policy, mail, order);
    var d := policy.defaults;
    var t := EmptyTally();
    if matched == [] {
      if d.muteAll {
        return Mute;
      }
      if Author in d.replyTo {
        t := t.(includeAuthor := true);
      }
      if List in d.replyTo {
        t := t.(allLists := true);
      }
      if Recipients in d.replyTo {
        t := t.(includeRecipients := true);
      }
      t := t.(positive := d.positiveReview);
    } else {
      t := TallyMatched(d, matched);
    }
    if t.muteAll {
      return Mute;
    }
    var to, cc := Deliver(policy, dir, mail, bot, t);
    if to == [] && cc == [] {
      return Mute;
    }
    return Send(to, cc, t.positive);
  }

  lemma NothingTallied(d: Defaults)
    ensures TallyLists(d, []) == EmptyTally()
  {
  }

  /** One step of the tally, field by field. */
  lemma TallySnoc(d: Defaults, matched: seq<Entry>, i: nat)
    requires i < |matched|
    ensures var t, e := TallyLists(d, matched[..i]), matched[i];
      TallyLists(d, matched[..i + 1]) == Tally(
        t.muteAll || e.policy.muteAll.GetOr(d.muteAll),
        t.includeAuthor || Author in ReplyTo(d, e),
        t.includeRecipients || Recipients in ReplyTo(d, e),
        t.allLists,
        if List in ReplyTo(d, e) then t.allowed + {e.bare} else t.allowed,
        if Rank(Positive(d, e)) > Rank(t.positive) then Positive(d, e) else t.positive,
        t.staticCc + e.policy.cc)
  {
    hide Rank;
    Front(matched, i);
  }

  method TallyMatched(d: Defaults, matched: seq<Entry>) returns (t: Tally)
    ensures t == TallyLists(d, matched)
  {
    hide TallyLists, Rank;
    var muteAll, includeAuthor, includeRecipients := false, false, false;
    var allowed: set<string> := {};
    var positive := Nobody;
    var staticCc: seq<string> := [];
    NothingTallied(d);
    for i := 0 to |matched|
      invariant Tally(muteAll, includeAuthor, includeRecipients, false, allowed, positive, staticCc)
             == TallyLists(d, matched[..i])
    {
      TallySnoc(d, matched, i);
      var e := matched[i];
      if e.policy.muteAll.GetOr(d.muteAll) {
        muteAll := true;
      }
      var replyTo := e.policy.replyTo.GetOr(d.replyTo);
      if Author in replyTo {
        includeAuthor := true;
      }
      if List in replyTo {
        allowed := allowed + {e.bare};
      }
      if Recipients in replyTo {
        includeRecipients := true;
      }
      var listPos := e.policy.positiveReview.GetOr(d.positiveReview);
      if Rank(listPos) > Rank(positive) {
        positive := listPos;
      }
      staticCc := staticCc + e.policy.cc;
    }
    assert matched[..|matched|] == matched;
    t := Tally(muteAll, includeAuthor, includeRecipients, false, allowed, positive, staticCc);
  }

  method TallyMatchedPositive(d: Defaults, matched: seq<Entry>) returns (t: Tally)
    ensures t == TallyPositive(d, matched)
  {
    t := EmptyTally();
    for i := 0 to |matched|
      invariant t == TallyPositive(d, matched[..i])
    {
      Front(matched, i);
      var e := matched[i];
      var listPos := e.policy.positiveReview.GetOr(d.positiveReview);
      var replyTo := e.policy.replyTo.GetOr(d.replyTo);
      if listPos == All {
        if Author in replyTo {
          t := t.(includeAuthor := true);
        }
        if List in replyTo {
          t := t.(allowed := t.allowed + {e.bare});
        }
        if Recipients in replyTo {
          t := t.(includeRecipients := true);
        }
        t := t.(staticCc := t.staticCc + e.policy.cc);
      } else if listPos == AuthorOnly && Author in replyTo {
        t := t.(includeAuthor := true);
      }
    }
    assert matched[..|matched|] == matched;
  }

  method ResolvePositiveRecipients(
      policy: Policy, dir: Directory, mail: Mail, sashikoAddress: string, order: seq<string>, order': seq<string>)
      returns (recipients: Option<(seq<string>, seq<string>)>)
    requires Enumerates(order, policy.lists.Keys) && Enumerates(order', policy.lists.Keys)
    ensures var bot := Bare(sashikoAddress);
      recipients == RoutePositive(policy, dir, mail, bot,
        Route(policy, dir, mail, bot, Visited(policy, mail, order)), Visited(policy, mail, order'))
  {
    hide Bare, Route, Visited, FinalTo, FinalCc, Capped, Trim, Dedup, Survivors;
    var review := ResolveRecipients(policy, dir, mail, sashikoAddress, order);
    if review.Mute? {
      return None;
    }
    var bot := Bare(sashikoAddress);
    match review.positive
    case Nobody => return None;
    case AuthorOnly =>
      var author := Trim(mail.author);
      if author == "" {
        return None;
      }
      var to, bares := DedupAddresses([author], bot, None);
      return if to == [] then None else Some((to, []));
    case All =>
      var matched := MatchLists(policy, mail, order');
      if matched == [] {
        return Some((review.to, review.cc));
      }
      var t := TallyMatchedPositive(policy.defaults, matched);
      var to, cc := Deliver(policy, dir, mail, bot, t);
      return if to == [] && cc == [] then None else Some((to, cc));
  }
}
