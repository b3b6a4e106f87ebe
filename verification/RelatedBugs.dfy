/** Whether a review mentions related pre-existing bugs, and from which severity up. */
module RelatedBugs {
  import opened Options
  import opened Addresses
  import Router

  datatype Floor = Low | Medium | High | Critical

  datatype Related = Related(enabled: bool, minSeverity: Floor)

  datatype Override = Override(enabled: Option<bool>, minSeverity: Option<Floor>)

  datatype Config = Config(defaults: Related, lists: map<string, Override>)

  function Rank(f: Floor): nat {
    match f
    case Low => 0
    case Medium => 1
    case High => 2
    case Critical => 3
  }

  /** The configured lists among the addresses. */
  function Matched(config: Config, addresses: seq<string>): set<string> {
    set key | key in config.lists && Bare(key) in Bares(addresses)
  }

  function Effective(config: Config, key: string): Related
    requires key in config.lists
  {
    Related(config.lists[key].enabled.GetOr(config.defaults.enabled),
            config.lists[key].minSeverity.GetOr(config.defaults.minSeverity))
  }

  /** Every list of `keys` enables the feature, and the strictest floor is `r`'s. */
  ghost predicate Strictest(config: Config, keys: set<string>, r: Related)
    requires keys <= config.lists.Keys
  {
    && (r.enabled <==> forall k :: k in keys ==> Effective(config, k).enabled)
    && (forall k :: k in keys ==> Rank(Effective(config, k).minSeverity) <= Rank(r.minSeverity))
    && (exists k :: k in keys && Effective(config, k).minSeverity == r.minSeverity)
  }

  ghost predicate IsResolved(config: Config, addresses: seq<string>, r: Related) {
    if Matched(config, addresses) == {} then r == config.defaults
    else Strictest(config, Matched(config, addresses), r)
  }

  method RelatedPreexistingFor(config: Config, addresses: seq<string>, order: seq<string>) returns (r: Related)
    requires Router.Enumerates(order, config.lists.Keys)
    ensures IsResolved(config, addresses, r)
  {
    hide Bare;
    var bares := Bares(addresses);
    var resolved: Option<Related> := None;
    ghost var seen: set<string> := {};
    for i := 0 to |order|
      invariant seen == set k | k in order[..i] && Bare(k) in bares
      invariant seen <= config.lists.Keys
      invariant if resolved.None? then seen == {} else Strictest(config, seen, resolved.value)
    {
      var key := order[i];
      assert order[..i + 1] == order[..i] + [key];
      assert key in order;
      if Bare(key) in bares {
        var mine := Effective(config, key);
        resolved := Some(match resolved
                         case None => mine
                         case Some(acc) => Related(acc.enabled && mine.enabled,
                                                   if Rank(mine.minSeverity) > Rank(acc.minSeverity)
                                                   then mine.minSeverity else acc.minSeverity));
        seen := seen + {key};
        assert Effective(config, key) == mine;
      }
    }
    assert order[..|order|] == order;
    assert seen == Matched(config, addresses);
    r := resolved.GetOr(config.defaults);
  }

  lemma RankIsInjective(a: Floor, b: Floor)
    requires Rank(a) == Rank(b)
    ensures a == b
  {
  }

  /** The answer does not depend on the order the lists are visited in. */
  lemma ResolvedIsUnique(config: Config, addresses: seq<string>, r: Related, r': Related)
    requires IsResolved(config, addresses, r) && IsResolved(config, addresses, r')
    ensures r == r'
  {
    hide Bare, Rank;
    if Matched(config, addresses) != {} {
      RankIsInjective(r.minSeverity, r'.minSeverity);
    }
  }

  ghost predicate Addressed(config: Config, addresses: seq<string>, k: string) {
    k in config.lists && exists a :: a in addresses && Bare(a) == Bare(k)
  }

  /** A list says so itself, or the defaults do. */
  ghost predicate Enables(config: Config, k: string)
    requires k in config.lists
  {
    match config.lists[k].enabled case Some(b) => b case None => config.defaults.enabled
  }

  ghost predicate HasFloor(config: Config, k: string, floor: Floor)
    requires k in config.lists
  {
    match config.lists[k].minSeverity case Some(f) => f == floor case None => config.defaults.minSeverity == floor
  }

  /** From the laxest to the strictest. */
  ghost predicate AtMost(a: Floor, b: Floor) {
    match a
    case Low => true
    case Medium => b in {Medium, High, Critical}
    case High => b in {High, Critical}
    case Critical => b == Critical
  }

  /** Without a list among the addresses the defaults decide; otherwise every one of them has
      to enable the feature, and the strictest of their floors counts. */
  lemma ResolvedIs(config: Config, addresses: seq<string>, r: Related)
    requires IsResolved(config, addresses, r)
    ensures (forall k :: !Addressed(config, addresses, k)) ==> r == config.defaults
    ensures forall k :: Addressed(config, addresses, k) ==>
      (r.enabled ==> Enables(config, k)) && forall floor :: HasFloor(config, k, floor) ==> AtMost(floor, r.minSeverity)
    ensures (exists k :: Addressed(config, addresses, k)) ==>
      (exists k :: Addressed(config, addresses, k) && HasFloor(config, k, r.minSeverity))
      && ((forall k :: Addressed(config, addresses, k) ==> Enables(config, k)) ==> r.enabled)
  {
    hide Bare;
    forall k ensures k in Matched(config, addresses) <==> Addressed(config, addresses, k) {
    }
    if k :| Addressed(config, addresses, k) {
      assert k in Matched(config, addresses);
    }
  }

  predicate AtLeastAsStrict(r: Related, r': Related) {
    (r'.enabled ==> r.enabled) && Rank(r.minSeverity) <= Rank(r'.minSeverity)
  }

  /** More lists only make the policy stricter, exactly when one had matched already or
      none matches now or the defaults are no stricter than what they give way to. */
  lemma MoreListsAreStricter(config: Config, fewer: seq<string>, more: seq<string>, r: Related, r': Related)
    requires Matched(config, fewer) <= Matched(config, more)
    requires IsResolved(config, fewer, r) && IsResolved(config, more, r')
    ensures Matched(config, fewer) != {} ==> AtLeastAsStrict(r, r')
    ensures Matched(config, fewer) == {} ==> (AtLeastAsStrict(r, r') <==>
      (Matched(config, more) == {}
       || ((config.defaults.enabled || exists k :: k in Matched(config, more) && !Effective(config, k).enabled)
           && exists k :: k in Matched(config, more)
                && Rank(config.defaults.minSeverity) <= Rank(Effective(config, k).minSeverity))))
  {
    hide Bare, Rank;
    if Matched(config, fewer) == {} && Matched(config, more) != {} {
      var k :| k in Matched(config, more) && Effective(config, k).minSeverity == r'.minSeverity;
    }
  }

  /** One list that enables what the defaults disable loosens the policy of a patch that
      matched no list before. */
  lemma FirstListCanLoosen()
    ensures exists config: Config, fewer: seq<string>, more: seq<string>, r: Related, r': Related ::
      Matched(config, fewer) <= Matched(config, more) && IsResolved(config, fewer, r) && IsResolved(config, more, r')
      && !AtLeastAsStrict(r, r')
  {
    hide Bare;
    var defaults, loose := Related(false, High), Related(true, Low);
    var config := Config(defaults, map["a@b" := Override(Some(true), Some(Low))]);
    assert Matched(config, []) == {};
    assert Bare("a@b") in Bares(["a@b"]);
    assert Matched(config, ["a@b"]) == {"a@b"};
    assert Effective(config, "a@b") == loose;
    assert Strictest(config, {"a@b"}, loose);
    assert IsResolved(config, [], defaults) && IsResolved(config, ["a@b"], loose) && !AtLeastAsStrict(defaults, loose);
  }
}
