/** Where a series is reported to and at which severities, told from the configuration and the
    mail alone. */
module PatchworkTargets {
  import opened Options
  import opened Text
  import opened Addresses
  import opened Severities
  import opened Patchwork
  import Router

  // ---- severities ----

  /** From the mildest to the gravest. */
  ghost predicate AtMost(a: Severity, b: Severity) {
    match a
    case Unknown => true
    case Low => b in {Low, Medium, High, Critical}
    case Medium => b in {Medium, High, Critical}
    case High => b in {High, Critical}
    case Critical => b == Critical
  }

  lemma RankIsAtMost(a: Severity, b: Severity)
    ensures Rank(a) <= Rank(b) <==> AtMost(a, b)
  {
  }

  /** "Critical" in any case is critical; whatever else begins with a name means it. */
  lemma ParseReadsNames(s: string)
    ensures var t := Lower(Trim(s));
      (t == "critical" ==> Parse(s) == Critical)
      && (|t| >= 4 && t[..4] == "high" ==> Parse(s) == High)
      && (|t| >= 6 && t[..6] == "medium" ==> Parse(s) == Medium)
      && (|t| >= 3 && t[..3] == "low" ==> Parse(s) == Low)
  {
    hide Trim, Lower;
    var t := Lower(Trim(s));
    assert "high"[0] == 'h' && "medium"[0] == 'm' && "low"[0] == 'l' && "critical"[0] == 'c';
    assert |t| >= 4 && t[..4] == "high" ==> "high" <= t && t[0] == 'h';
    assert |t| >= 6 && t[..6] == "medium" ==> "medium" <= t && t[0] == 'm';
    assert |t| >= 3 && t[..3] == "low" ==> "low" <= t && t[0] == 'l';
  }

  // ---- who has a say ----

  ghost predicate Speaks(config: Config, incoming: seq<string>, k: string) {
    k in config.lists && exists a :: a in incoming && Bare(a) == Bare(k)
  }

  /** The lists the mail is addressed to, or the defaults when there are none. */
  ghost predicate Contributes(config: Config, incoming: seq<string>, p: Policy) {
    if exists k :: Speaks(config, incoming, k)
    then exists k :: Speaks(config, incoming, k) && config.lists[k] == p
    else p == config.defaults
  }

  lemma {:induction false} ListedAre(config: Config, incoming: seq<string>, order: seq<string>, p: Policy)
    ensures p in FlatMap(Listed(config, incoming), order) <==>
      exists k :: k in order && Speaks(config, incoming, k) && config.lists[k] == p
  {
    hide Bare;
    if order != [] {
      ListedAre(config, incoming, order[1..], p);
      assert Listed(config, incoming)(order[0])
        == if Speaks(config, incoming, order[0]) then [config.lists[order[0]]] else [];
    }
  }

  lemma ContributingAre(config: Config, incoming: seq<string>, order: seq<string>, p: Policy)
    requires Router.Enumerates(order, config.lists.Keys)
    ensures p in Contributing(config, incoming, order) <==> Contributes(config, incoming, p)
  {
    hide Bare, FlatMap, Listed;
    var matched := FlatMap(Listed(config, incoming), order);
    ListedAre(config, incoming, order, p);
    if matched != [] {
      ListedAre(config, incoming, order, matched[0]);
      assert matched[0] in matched;
    } else if k :| Speaks(config, incoming, k) {
      ListedAre(config, incoming, order, config.lists[k]);
    }
  }

  lemma {:induction false} OffersAre(ps: seq<Policy>, t: Target, o: Policy)
    ensures o in Offers(ps, t) <==> exists p :: p in ps && Offered(t, p) == [o]
  {
    hide Offered;
    if ps != [] {
      OffersAre(ps[1..], t, o);
      assert Offered(t, ps[0]) == [] || |Offered(t, ps[0])| == 1 by {
        OfferIsOne(t, ps[0]);
      }
      assert Offers(ps, t) == Offered(t, ps[0]) + Offers(ps[1..], t);
    }
  }

  lemma OfferIsOne(t: Target, p: Policy)
    ensures |Offered(t, p)| <= 1
  {
  }

  // ---- targets ----

  ghost predicate ServerWanted(config: Config, incoming: seq<string>, url: string) {
    exists q :: Contributes(config, incoming, q) && q.enabled && q.apiUrl == Some(url)
  }

  ghost predicate MailWanted(config: Config, incoming: seq<string>, address: string) {
    exists q :: Contributes(config, incoming, q) && q.enabled && q.email == Some(address)
  }

  /** Exactly the servers and addresses that some enabled policy names are reported to, each
      by itself. */
  lemma TargetsExactly(config: Config, incoming: seq<string>, order: seq<string>, final: seq<Policy>)
    requires Router.Enumerates(order, config.lists.Keys) && Resolves(Contributing(config, incoming, order), final)
    ensures forall url :: (exists p :: p in final && p.apiUrl == Some(url)) <==> ServerWanted(config, incoming, url)
    ensures forall a :: (exists p :: p in final && p.email == Some(a)) <==> MailWanted(config, incoming, a)
    ensures forall p :: p in final ==>
      p.enabled && ((p.apiUrl.Some? && p.email.None?) || (p.apiUrl.None? && p.email.Some? && p.token.None?))
  {
    hide Contributing, Offers, Merged, Contributes;
    var ps := Contributing(config, incoming, order);
    forall p | p in final
      ensures p.enabled && ((p.apiUrl.Some? && p.email.None?) || (p.apiUrl.None? && p.email.Some? && p.token.None?))
      ensures p.apiUrl.Some? ==> ServerWanted(config, incoming, p.apiUrl.value)
      ensures p.email.Some? ==> MailWanted(config, incoming, p.email.value)
    {
      FinalIsOffered(config, incoming, order, final, p);
    }
    forall url | ServerWanted(config, incoming, url) ensures exists p :: p in final && p.apiUrl == Some(url) {
      var q :| Contributes(config, incoming, q) && q.enabled && q.apiUrl == Some(url);
      ContributingAre(config, incoming, order, q);
      OffersAre(ps, Api(url), q.(email := None));
      var p :| p in final && TargetOf(p) == Api(url);
    }
    forall a | MailWanted(config, incoming, a) ensures exists p :: p in final && p.email == Some(a) {
      var q :| Contributes(config, incoming, q) && q.enabled && q.email == Some(a);
      ContributingAre(config, incoming, order, q);
      OffersAre(ps, Email(a), q.(apiUrl := None, token := None));
      var p :| p in final && TargetOf(p) == Email(a);
      FinalIsOffered(config, incoming, order, final, p);
    }
  }

  lemma FinalIsOffered(config: Config, incoming: seq<string>, order: seq<string>, final: seq<Policy>, p: Policy)
    requires Router.Enumerates(order, config.lists.Keys) && Resolves(Contributing(config, incoming, order), final)
    requires p in final
    ensures p.enabled && ((p.apiUrl.Some? && p.email.None?) || (p.apiUrl.None? && p.email.Some? && p.token.None?))
    ensures p.apiUrl.Some? ==> ServerWanted(config, incoming, p.apiUrl.value)
    ensures p.email.Some? ==> MailWanted(config, incoming, p.email.value)
  {
    hide Contributing, Offers, Merged, Contributes;
    var ps, t := Contributing(config, incoming, order), TargetOf(p);
    var offers := Offers(ps, t);
    OfferedTo(ps, t);
    MergedKeepsTarget(offers);
    if t.Email? {
      MailHasNoToken(ps, t);
    }
    assert offers[0] in offers;
    OffersAre(ps, t, offers[0]);
    var q :| q in ps && Offered(t, q) == [offers[0]];
    ContributingAre(config, incoming, order, q);
  }

  lemma MailHasNoToken(ps: seq<Policy>, t: Target)
    requires t.Email? && Offers(ps, t) != []
    ensures Merged(Offers(ps, t)).token.None?
  {
    hide Merged, Offers;
    OfferedTo(ps, t);
    MergedTakesFirstToken(Offers(ps, t));
    SomeToken(Offers(ps, t));
  }

  // ---- severities and token of a target ----

  /** `q` is one of those that name the target of `p`. */
  ghost predicate Names(config: Config, incoming: seq<string>, q: Policy, p: Policy) {
    && Contributes(config, incoming, q) && q.enabled
    && if p.apiUrl.Some? then q.apiUrl == p.apiUrl else q.email == p.email
  }

  /** What `q` asks for, and its token where one is needed, is what the offer `o` says. */
  ghost predicate SameTerms(q: Policy, o: Policy, p: Policy) {
    q.failSeverity == o.failSeverity && q.minSeverity == o.minSeverity && (p.apiUrl.Some? ==> q.token == o.token)
  }

  lemma FinalIsMerged(config: Config, incoming: seq<string>, order: seq<string>, final: seq<Policy>, p: Policy)
    requires Resolves(Contributing(config, incoming, order), final) && p in final
    ensures var offers := Offers(Contributing(config, incoming, order), TargetOf(p));
      offers != [] && p == Merged(offers)
  {
  }

  lemma OfferHasName(config: Config, incoming: seq<string>, order: seq<string>, final: seq<Policy>, p: Policy,
          o: Policy) returns (q: Policy)
    requires Router.Enumerates(order, config.lists.Keys) && Resolves(Contributing(config, incoming, order), final)
    requires p in final && o in Offers(Contributing(config, incoming, order), TargetOf(p))
    ensures Names(config, incoming, q, p) && SameTerms(q, o, p)
  {
    hide Contributing, Offers, Merged, Contributes;
    var ps, t := Contributing(config, incoming, order), TargetOf(p);
    FinalIsOffered(config, incoming, order, final, p);
    OffersAre(ps, t, o);
    q :| q in ps && Offered(t, q) == [o];
    ContributingAre(config, incoming, order, q);
  }

  lemma NameHasOffer(config: Config, incoming: seq<string>, order: seq<string>, final: seq<Policy>, p: Policy,
          q: Policy) returns (o: Policy)
    requires Router.Enumerates(order, config.lists.Keys) && Resolves(Contributing(config, incoming, order), final)
    requires p in final && Names(config, incoming, q, p)
    ensures o in Offers(Contributing(config, incoming, order), TargetOf(p)) && SameTerms(q, o, p)
  {
    hide Contributing, Offers, Merged, Contributes;
    var ps, t := Contributing(config, incoming, order), TargetOf(p);
    FinalIsOffered(config, incoming, order, final, p);
    ContributingAre(config, incoming, order, q);
    o := Offered(t, q)[0];
    assert Offered(t, q) == [o];
    OffersAre(ps, t, o);
  }

  /** A target fails at the mildest severity at which any policy that names it fails. */
  lemma TargetFailsAtMildest(config: Config, incoming: seq<string>, order: seq<string>, final: seq<Policy>, p: Policy)
    requires Router.Enumerates(order, config.lists.Keys) && Resolves(Contributing(config, incoming, order), final)
    requires p in final
    ensures forall q :: Names(config, incoming, q, p) ==> AtMost(Parse(p.failSeverity), Parse(q.failSeverity))
    ensures exists q :: Names(config, incoming, q, p) && Parse(q.failSeverity) == Parse(p.failSeverity)
  {
    hide Contributing, Offers, Merged, Parse, Names, AtMost, Rank, Resolves, Fails, Floors, TargetOf;
    var offers := Offers(Contributing(config, incoming, order), TargetOf(p));
    FinalIsMerged(config, incoming, order, final, p);
    MergedFailsAtLowest(offers);
    forall q | Names(config, incoming, q, p) ensures AtMost(Parse(p.failSeverity), Parse(q.failSeverity)) {
      var o := NameHasOffer(config, incoming, order, final, p, q);
      FailsAre(offers, Parse(o.failSeverity));
      RankIsAtMost(Parse(p.failSeverity), Parse(q.failSeverity));
    }
    FailsAre(offers, Parse(p.failSeverity));
    var o :| o in offers && Parse(o.failSeverity) == Parse(p.failSeverity);
    var q := OfferHasName(config, incoming, order, final, p, o);
  }

  /** It is told everything when one of them tells everything, and otherwise what is at least
      as grave as the mildest floor. */
  lemma TargetReportsFromMildest(config: Config, incoming: seq<string>, order: seq<string>, final: seq<Policy>,
          p: Policy)
    requires Router.Enumerates(order, config.lists.Keys) && Resolves(Contributing(config, incoming, order), final)
    requires p in final
    ensures p.minSeverity.Some? <==> forall q :: Names(config, incoming, q, p) ==> q.minSeverity.Some?
    ensures p.minSeverity.Some? ==>
      forall q :: Names(config, incoming, q, p) ==> AtMost(Parse(p.minSeverity.value), Parse(q.minSeverity.value))
    ensures p.minSeverity.Some? ==>
      exists q :: Names(config, incoming, q, p) && Parse(q.minSeverity.value) == Parse(p.minSeverity.value)
  {
    hide Contributing, Offers, Merged, Parse, Names, AtMost, Rank, Resolves, Fails, Floors, TargetOf;
    var offers := Offers(Contributing(config, incoming, order), TargetOf(p));
    FinalIsMerged(config, incoming, order, final, p);
    MergedReportsFromLowest(offers);
    if p.minSeverity.Some? {
      forall q | Names(config, incoming, q, p) ensures q.minSeverity.Some?
        ensures AtMost(Parse(p.minSeverity.value), Parse(q.minSeverity.value))
      {
        var o := NameHasOffer(config, incoming, order, final, p, q);
        FloorsAre(offers, Parse(o.minSeverity.value));
        RankIsAtMost(Parse(p.minSeverity.value), Parse(q.minSeverity.value));
      }
      FloorsAre(offers, Parse(p.minSeverity.value));
      var o :| o in offers && Parse(o.minSeverity.value) == Parse(p.minSeverity.value);
      var q := OfferHasName(config, incoming, order, final, p, o);
    } else {
      var o :| o in offers && o.minSeverity.None?;
      var q := OfferHasName(config, incoming, order, final, p, o);
    }
  }

  /** A server's token is that of one of them, if any has one. */
  lemma ServerHasToken(config: Config, incoming: seq<string>, order: seq<string>, final: seq<Policy>, p: Policy)
    requires Router.Enumerates(order, config.lists.Keys) && Resolves(Contributing(config, incoming, order), final)
    requires p in final && p.apiUrl.Some?
    ensures p.token.Some? ==> exists q :: Names(config, incoming, q, p) && q.token == p.token
    ensures p.token.None? ==> forall q :: Names(config, incoming, q, p) ==> q.token.None?
  {
    hide Contributing, Offers, Merged, Names, Resolves;
    var offers := Offers(Contributing(config, incoming, order), TargetOf(p));
    FinalIsMerged(config, incoming, order, final, p);
    MergedTakesFirstToken(offers);
    SomeToken(offers);
    FirstTokenIsOne(offers);
    if p.token.Some? {
      var o :| o in offers && o.token == p.token;
      var q := OfferHasName(config, incoming, order, final, p, o);
    }
    forall q | p.token.None? && Names(config, incoming, q, p) ensures q.token.None? {
      var o := NameHasOffer(config, incoming, order, final, p, q);
    }
  }

  lemma {:induction false} FirstTokenIsOne(ps: seq<Policy>)
    ensures FirstToken(ps).Some? ==> exists p :: p in ps && p.token == FirstToken(ps)
  {
    if ps != [] {
      FirstTokenIsOne(ps[1..]);
      if ps[0].token.Some? {
        assert ps[0] in ps;
      }
    }
  }
}
