/** Severity names as the database and the policies spell them. */
module Severities {
  import opened Text

  datatype Severity = Unknown | Low | Medium | High | Critical

  function Rank(s: Severity): nat {
    match s
    case Unknown => 0
    case Low => 1
    case Medium => 2
    case High => 3
    case Critical => 4
  }

  /** The severity a trimmed name in lowercase means. */
  function Named(t: string): Severity {
    if t == "critical" then Critical
    else if "high" <= t then High
    else if "medium" <= t then Medium
    else if "low" <= t then Low
    else Unknown
  }

  function Parse(s: string): Severity {
    Named(Lower(Trim(s)))
  }

  function Show(s: Severity): string {
    match s
    case Unknown => "Unknown"
    case Low => "Low"
    case Medium => "Medium"
    case High => "High"
    case Critical => "Critical"
  }

  function Min(a: Severity, b: Severity): Severity {
    if Rank(b) < Rank(a) then b else a
  }

  function LowerName(s: Severity): string {
    match s
    case Unknown => "unknown"
    case Low => "low"
    case Medium => "medium"
    case High => "high"
    case Critical => "critical"
  }

  lemma LowerOfShow(s: Severity)
    ensures Trimmed(Show(s)) && Lower(Show(s)) == LowerName(s)
  {
  }

  lemma NamedByName(s: Severity)
    ensures Named(LowerName(s)) == s
  {
    var t := LowerName(s);
    assert "high"[0] == 'h' && "medium"[0] == 'm' && "low"[0] == 'l' && "critical"[0] == 'c';
    match s
    case Unknown => assert t[0] == 'u';
    case Low => assert t[0] == 'l';
    case Medium => assert t[0] == 'm';
    case High => assert t[0] == 'h';
    case Critical =>
  }

  lemma ParseShow(s: Severity)
    ensures Parse(Show(s)) == s
  {
    hide Trim, Lower, Show, Named, LowerName, Trimmed;
    LowerOfShow(s);
    TrimmedIsFixed(Show(s));
    NamedByName(s);
  }
}

/** Which Patchwork servers and mail addresses a series is reported to. */
module Patchwork {
  import opened Options
  import opened Text
  import opened Addresses
  import opened Severities
  import Router

  datatype Policy = Policy(
    enabled: bool,
    apiUrl: Option<string>,
    token: Option<string>,
    email: Option<string>,
    minSeverity: Option<string>,  // None reports everything
    failSeverity: string)

  datatype Config = Config(defaults: Policy, lists: map<string, Policy>)

  datatype Target = Api(url: string) | Email(address: string)

  // ---- merging two policies for one target ----

  function MergeSeverity(a: Option<string>, b: Option<string>): Option<string> {
    if a.Some? && b.Some? then Some(Show(Min(Parse(a.value), Parse(b.value)))) else None
  }

  function Merge(a: Policy, b: Policy): Policy {
    a.(minSeverity := MergeSeverity(a.minSeverity, b.minSeverity),
       failSeverity := Show(Min(Parse(a.failSeverity), Parse(b.failSeverity))),
       token := if a.token.None? && b.token.Some? then b.token else a.token)
  }

  function Merged(ps: seq<Policy>): Policy
    requires ps != []
  {
    if |ps| == 1 then ps[0] else Merge(Merged(ps[..|ps| - 1]), ps[|ps| - 1])
  }

  // ---- who contributes to a target ----

  /** A list the mail is addressed to contributes its policy. */
  function Listed(config: Config, incoming: seq<string>): string -> seq<Policy> {
    key => if key in config.lists && Matches(incoming, Bare(key)) then [config.lists[key]] else []
  }

  /** An enabled policy offers its server and its address, each without the other. */
  function Offered(target: Target, p: Policy): seq<Policy> {
    match target
    case Api(url) => if p.enabled && p.apiUrl == Some(url) then [p.(email := None)] else []
    case Email(address) => if p.enabled && p.email == Some(address) then [p.(apiUrl := None, token := None)] else []
  }

  function Offer(target: Target): Policy -> seq<Policy> {
    (p: Policy) => Offered(target, p)
  }

  function Contributing(config: Config, incoming: seq<string>, order: seq<string>): seq<Policy> {
    var matched := FlatMap(Listed(config, incoming), order);
    if matched == [] then [config.defaults] else matched
  }

  function Offers(ps: seq<Policy>, target: Target): seq<Policy> {
    FlatMap(Offer(target), ps)
  }

  function TargetOf(p: Policy): Target {
    if p.apiUrl.Some? then Api(p.apiUrl.value) else Email(p.email.GetOr(""))
  }

  /** One policy for every target offered, and no other. */
  ghost predicate Resolves(ps: seq<Policy>, final: seq<Policy>) {
    && (forall p :: p in final ==> Offers(ps, TargetOf(p)) != [] && p == Merged(Offers(ps, TargetOf(p))))
    && (forall t :: Offers(ps, t) != [] ==> exists p :: p in final && TargetOf(p) == t)
    && (forall i, j :: 0 <= i < j < |final| ==> TargetOf(final[i]) != TargetOf(final[j]))
  }

  lemma FlatMapSnoc<A, B>(f: A -> seq<B>, xs: seq<A>, x: A)
    ensures FlatMap(f, xs + [x]) == FlatMap(f, xs) + f(x)
  {
    FlatMapAround(f, xs, x, []);
    assert xs + [x] + [] == xs + [x] && FlatMap(f, []) == [];
  }

  lemma {:induction false} OfferedTo(ps: seq<Policy>, t: Target)
    ensures forall p :: p in Offers(ps, t) ==> TargetOf(p) == t && p.enabled
    ensures forall p :: p in Offers(ps, t) ==>
      match t
      case Api(url) => p.apiUrl == Some(url) && p.email == None
      case Email(a) => p.apiUrl == None && p.email == Some(a) && p.token == None
  {
    if ps != [] {
      OfferedTo(ps[1..], t);
    }
  }

  lemma {:induction false} MergedKeepsTarget(ps: seq<Policy>)
    requires ps != []
    ensures Merged(ps).apiUrl == ps[0].apiUrl && Merged(ps).email == ps[0].email && Merged(ps).enabled == ps[0].enabled
  {
    if |ps| > 1 {
      MergedKeepsTarget(ps[..|ps| - 1]);
    }
  }

  // ---- the resolver ----

  function Key(server: bool, key: string): Target {
    if server then Api(key) else Email(key)
  }

  /** The targets of one kind, merged so far. */
  ghost predicate Holds(ps: seq<Policy>, server: bool, targets: map<string, Policy>) {
    && (forall k :: k in targets <==> Offers(ps, Key(server, k)) != [])
    && (forall k :: k in targets ==> targets[k] == Merged(Offers(ps, Key(server, k))))
  }

  function Put(targets: map<string, Policy>, key: string, p: Policy): map<string, Policy> {
    targets[key := if key in targets then Merge(targets[key], p) else p]
  }

  lemma MergedSnoc(ps: seq<Policy>, p: Policy)
    ensures Merged(ps + [p]) == if ps == [] then p else Merge(Merged(ps), p)
  {
    hide Merge;
    if ps == [] {
      assert ps + [p] == [p];
    } else {
      assert (ps + [p])[..|ps|] == ps;
    }
  }

  lemma OffersSnoc(ps: seq<Policy>, p: Policy, t: Target)
    ensures Offers(ps + [p], t) == Offers(ps, t) + Offered(t, p)
    ensures Offered(t, p) != [] ==>
      (Merged(Offers(ps + [p], t))
       == if Offers(ps, t) == [] then Offered(t, p)[0] else Merge(Merged(Offers(ps, t)), Offered(t, p)[0]))
  {
    hide Merge, Merged;
    FlatMapSnoc(Offer(t), ps, p);
    if Offered(t, p) != [] {
      assert Offered(t, p) == [Offered(t, p)[0]];
      MergedSnoc(Offers(ps, t), Offered(t, p)[0]);
    }
  }

  function KeyOf(server: bool, p: Policy): Option<string> {
    if !p.enabled then None else if server then p.apiUrl else p.email
  }

  function Narrowed(server: bool, p: Policy): Policy {
    if server then p.(email := None) else p.(apiUrl := None, token := None)
  }

  lemma HoldsSnoc(ps: seq<Policy>, p: Policy, server: bool, targets: map<string, Policy>)
    requires Holds(ps, server, targets)
    ensures Holds(ps + [p], server, match KeyOf(server, p)
                                    case None => targets
                                    case Some(k) => Put(targets, k, Narrowed(server, p)))
  {
    hide Merge, Merged, Offers;
    forall k | KeyOf(server, p) != Some(k) ensures Offers(ps + [p], Key(server, k)) == Offers(ps, Key(server, k)) {
      OffersSnoc(ps, p, Key(server, k));
    }
    if KeyOf(server, p).Some? {
      var t := Key(server, KeyOf(server, p).value);
      OffersSnoc(ps, p, t);
      assert Offered(t, p) == [Narrowed(server, p)];
    }
  }

  method MatchPolicies(config: Config, incoming: seq<string>, order: seq<string>) returns (matched: seq<Policy>)
    ensures matched == Contributing(config, incoming, order)
  {
    hide Bare, Matches;
    matched := [];
    for i := 0 to |order|
      invariant matched == FlatMap(Listed(config, incoming), order[..i])
    {
      FlatMapSnoc(Listed(config, incoming), order[..i], order[i]);
      assert order[..i + 1] == order[..i] + [order[i]];
      if order[i] in config.lists && Matches(incoming, Bare(order[i])) {
        matched := matched + [config.lists[order[i]]];
      }
    }
    assert order[..|order|] == order;
    if matched == [] {
      matched := [config.defaults];
    }
  }

  method Values(targets: map<string, Policy>) returns (vs: seq<Policy>, ghost keys: seq<string>)
    ensures |keys| == |vs| && forall i :: 0 <= i < |vs| ==> keys[i] in targets && vs[i] == targets[keys[i]]
    ensures forall i, j :: 0 <= i < j < |keys| ==> keys[i] != keys[j]
    ensures forall k :: k in targets ==> k in keys
  {
    vs, keys := [], [];
    var rest := targets.Keys;
    while rest != {}
      invariant rest <= targets.Keys && forall k :: k in targets ==> (k in keys <==> k !in rest)
      invariant |keys| == |vs| && forall i :: 0 <= i < |vs| ==> keys[i] in targets && vs[i] == targets[keys[i]]
      invariant forall i, j :: 0 <= i < j < |keys| ==> keys[i] != keys[j]
    {
      var k :| k in rest;
      rest := rest - {k};
      vs, keys := vs + [targets[k]], keys + [k];
    }
  }

  method MergeTargets(matched: seq<Policy>) returns (api: map<string, Policy>, email: map<string, Policy>)
    ensures Holds(matched, true, api) && Holds(matched, false, email)
  {
    hide Merge, Holds;
    api, email := map[], map[];
    NoOffers();
    for i := 0 to |matched|
      invariant Holds(matched[..i], true, api) && Holds(matched[..i], false, email)
    {
      var p := matched[i];
      HoldsSnoc(matched[..i], p, true, api);
      HoldsSnoc(matched[..i], p, false, email);
      assert matched[..i + 1] == matched[..i] + [p];
      if p.enabled {
        if p.apiUrl.Some? {
          api := Put(api, p.apiUrl.value, p.(email := None));
        }
        if p.email.Some? {
          email := Put(email, p.email.value, p.(apiUrl := None, token := None));
        }
      }
    }
    assert matched[..|matched|] == matched;
  }

  method ResolvePatchwork(config: Config, incoming: seq<string>, order: seq<string>) returns (final: seq<Policy>)
    requires Router.Enumerates(order, config.lists.Keys)
    ensures Resolves(Contributing(config, incoming, order), final)
  {
    hide Merge, Contributing, Offers, Merged;
    var matched := MatchPolicies(config, incoming, order);
    var api, email := MergeTargets(matched);
    var servers, urls := Values(api);
    var addresses, emails := Values(email);
    final := servers + addresses;
    TargetsAreKeys(matched, true, api);
    TargetsAreKeys(matched, false, email);
    forall t | Offers(matched, t) != [] ensures exists p :: p in final && TargetOf(p) == t {
      match t
      case Api(url) => assert Key(true, url) == t && api[url] in servers;
      case Email(a) => assert Key(false, a) == t && email[a] in addresses;
    }
  }

  lemma NoOffers()
    ensures Holds([], true, map[]) && Holds([], false, map[])
  {
  }

  lemma TargetsAreKeys(ps: seq<Policy>, server: bool, targets: map<string, Policy>)
    requires Holds(ps, server, targets)
    ensures forall k :: k in targets ==> TargetOf(targets[k]) == Key(server, k)
  {
    hide Merge, Offers, Merged;
    forall k | k in targets ensures TargetOf(targets[k]) == Key(server, k) {
      OfferedTo(ps, Key(server, k));
      MergedKeepsTarget(Offers(ps, Key(server, k)));
    }
  }

  // ---- what a merged policy is ----

  function FirstToken(ps: seq<Policy>): Option<string> {
    if ps == [] then None else if ps[0].token.Some? then ps[0].token else FirstToken(ps[1..])
  }

  ghost predicate IsLowest(low: Severity, all: seq<Severity>) {
    low in all && forall s :: s in all ==> Rank(low) <= Rank(s)
  }

  function Fails(ps: seq<Policy>): seq<Severity> {
    seq(|ps|, i requires 0 <= i < |ps| => Parse(ps[i].failSeverity))
  }

  function Floors(ps: seq<Policy>): seq<Severity>
    requires forall p :: p in ps ==> p.minSeverity.Some?
  {
    seq(|ps|, i requires 0 <= i < |ps| => Parse(ps[i].minSeverity.value))
  }

  lemma LowestSnoc(low: Severity, all: seq<Severity>, s: Severity)
    requires IsLowest(low, all)
    ensures IsLowest(Min(low, s), all + [s])
  {
    assert (all + [s])[|all|] == s;
    assert low in all + [s];
  }

  /** The failing threshold is the lowest of the contributors'. */
  lemma {:induction false} MergedFailsAtLowest(ps: seq<Policy>)
    requires ps != []
    ensures IsLowest(Parse(Merged(ps).failSeverity), Fails(ps))
    ensures |ps| > 1 ==> Merged(ps).failSeverity == Show(Parse(Merged(ps).failSeverity))
  {
    hide Parse, Show, Min;
    if |ps| > 1 {
      var front, last := ps[..|ps| - 1], ps[|ps| - 1];
      MergedFailsAtLowest(front);
      LowestSnoc(Parse(Merged(front).failSeverity), Fails(front), Parse(last.failSeverity));
      assert Fails(ps) == Fails(front) + [Parse(last.failSeverity)];
      ParseShow(Min(Parse(Merged(front).failSeverity), Parse(last.failSeverity)));
    } else {
      assert Fails(ps)[0] == Parse(Merged(ps).failSeverity);
    }
  }

  /** Everything is reported when some contributor reports everything; otherwise the
      lowest floor counts. */
  lemma {:induction false} MergedReportsFromLowest(ps: seq<Policy>)
    requires ps != []
    ensures Merged(ps).minSeverity.Some? <==> forall p :: p in ps ==> p.minSeverity.Some?
    ensures Merged(ps).minSeverity.Some? ==> IsLowest(Parse(Merged(ps).minSeverity.value), Floors(ps))
    ensures |ps| > 1 && Merged(ps).minSeverity.Some? ==>
      Merged(ps).minSeverity.value == Show(Parse(Merged(ps).minSeverity.value))
  {
    hide Parse, Show, Min;
    if |ps| > 1 {
      var front, last := ps[..|ps| - 1], ps[|ps| - 1];
      MergedReportsFromLowest(front);
      assert ps == front + [last];
      if Merged(front).minSeverity.Some? && last.minSeverity.Some? {
        var low := Parse(Merged(front).minSeverity.value);
        LowestSnoc(low, Floors(front), Parse(last.minSeverity.value));
        assert Floors(ps) == Floors(front) + [Parse(last.minSeverity.value)];
        ParseShow(Min(low, Parse(last.minSeverity.value)));
      }
    } else if ps[0].minSeverity.Some? {
      assert Floors(ps)[0] == Parse(Merged(ps).minSeverity.value);
    }
  }

  lemma {:induction false} FirstTokenSnoc(ps: seq<Policy>, p: Policy)
    ensures FirstToken(ps + [p]) == if FirstToken(ps).Some? then FirstToken(ps) else p.token
  {
    if ps != [] {
      assert (ps + [p])[1..] == ps[1..] + [p];
      FirstTokenSnoc(ps[1..], p);
    }
  }

  lemma {:induction false} MergedTakesFirstToken(ps: seq<Policy>)
    requires ps != []
    ensures Merged(ps).token == FirstToken(ps)
  {
    hide Show, Parse, MergeSeverity, FirstToken;
    var front, last := ps[..|ps| - 1], ps[|ps| - 1];
    FirstTokenSnoc(front, last);
    assert front + [last] == ps;
    NoToken();
    if |ps| > 1 {
      MergedTakesFirstToken(front);
    }
  }

  lemma NoToken()
    ensures FirstToken([]) == None
  {
  }

  lemma {:induction false} SomeToken(ps: seq<Policy>)
    ensures FirstToken(ps).Some? <==> exists p :: p in ps && p.token.Some?
  {
    if ps != [] {
      SomeToken(ps[1..]);
    }
  }

  // ---- map order ----

  lemma SameLowest(a: Severity, b: Severity, all: seq<Severity>, others: seq<Severity>)
    requires IsLowest(a, all) && IsLowest(b, others) && forall s :: s in all <==> s in others
    ensures a == b
  {
  }

  lemma SameMembers<T>(a: seq<T>, b: seq<T>)
    requires multiset(a) == multiset(b)
    ensures |a| == |b| && forall x :: x in a <==> x in b
  {
    assert |multiset(a)| == |a| && |multiset(b)| == |b|;
    forall x ensures x in a <==> x in b {
      assert x in a <==> x in multiset(a);
      assert x in b <==> x in multiset(b);
    }
  }

  lemma SameSeverities(a: seq<Policy>, b: seq<Policy>)
    requires forall x :: x in a <==> x in b
    ensures forall s :: s in Fails(a) <==> s in Fails(b)
    ensures (forall p :: p in a ==> p.minSeverity.Some?) ==> forall s :: s in Floors(a) <==> s in Floors(b)
  {
    hide Parse;
    forall s ensures s in Fails(a) <==> exists p :: p in a && Parse(p.failSeverity) == s {
      FailsAre(a, s);
    }
    forall s ensures s in Fails(b) <==> exists p :: p in b && Parse(p.failSeverity) == s {
      FailsAre(b, s);
    }
    if forall p :: p in a ==> p.minSeverity.Some? {
      forall s ensures s in Floors(a) <==> s in Floors(b) {
        FloorsAre(a, s);
        FloorsAre(b, s);
      }
    }
  }

  lemma FailsAre(a: seq<Policy>, s: Severity)
    ensures s in Fails(a) <==> exists p :: p in a && Parse(p.failSeverity) == s
  {
    hide Parse;
    if p :| p in a && Parse(p.failSeverity) == s {
      var i :| 0 <= i < |a| && a[i] == p;
      assert Fails(a)[i] == s;
    }
  }

  lemma FloorsAre(a: seq<Policy>, s: Severity)
    requires forall p :: p in a ==> p.minSeverity.Some?
    ensures s in Floors(a) <==> exists p :: p in a && Parse(p.minSeverity.value) == s
  {
    hide Parse;
    if p :| p in a && Parse(p.minSeverity.value) == s {
      var i :| 0 <= i < |a| && a[i] == p;
      assert Floors(a)[i] == s;
    }
  }

  /** Contributors to one target merge to the same policy in any order, but for which
      of their tokens is kept. */
  lemma MergedIgnoresOrder(a: seq<Policy>, b: seq<Policy>)
    requires a != [] && multiset(a) == multiset(b)
    requires forall p, q :: p in a && q in a ==> p.apiUrl == q.apiUrl && p.email == q.email && p.enabled == q.enabled
    ensures b != [] && Merged(a).(token := None) == Merged(b).(token := None)
    ensures Merged(a).token.Some? <==> Merged(b).token.Some?
  {
    hide Merged, Parse, Show;
    SameMembers(a, b);
    assert b[0] in a && a[0] in b;
    if |a| == 1 {
      assert a == b;
    } else {
      SameSeverities(a, b);
      MergedFailsAtLowest(a);
      MergedFailsAtLowest(b);
      SameLowest(Parse(Merged(a).failSeverity), Parse(Merged(b).failSeverity), Fails(a), Fails(b));
      MergedReportsFromLowest(a);
      MergedReportsFromLowest(b);
      if Merged(a).minSeverity.Some? {
        SameLowest(Parse(Merged(a).minSeverity.value), Parse(Merged(b).minSeverity.value), Floors(a), Floors(b));
      }
      MergedKeepsTarget(a);
      MergedKeepsTarget(b);
      MergedTakesFirstToken(a);
      MergedTakesFirstToken(b);
      SomeToken(a);
      SomeToken(b);
    }
  }

  lemma WithoutHead<T>(a: seq<T>, before: seq<T>, after: seq<T>)
    requires a != [] && multiset(a) == multiset(before + [a[0]] + after)
    ensures multiset(a[1..]) == multiset(before + after)
  {
    assert a == [a[0]] + a[1..];
    assert multiset(a) == multiset{a[0]} + multiset(a[1..]);
    assert multiset(before + [a[0]] + after) == multiset{a[0]} + multiset(before + after);
    assert multiset(a[1..]) == multiset(a) - multiset{a[0]};
    assert multiset(before + after) == multiset(before + [a[0]] + after) - multiset{a[0]};
  }

  lemma {:induction false} FlatMapPermutes<A, B>(f: A -> seq<B>, a: seq<A>, b: seq<A>)
    requires multiset(a) == multiset(b)
    ensures multiset(FlatMap(f, a)) == multiset(FlatMap(f, b))
    decreases |a|
  {
    SameMembers(a, b);
    if a != [] {
      assert a[0] in b;
      var i :| 0 <= i < |b| && b[i] == a[0];
      var before, after := b[..i], b[i + 1..];
      assert b == before + [a[0]] + after;
      WithoutHead(a, before, after);
      FlatMapPermutes(f, a[1..], before + after);
      FlatMapAround(f, before, a[0], after);
      FlatMapAppend(f, before, after);
    } else {
      assert b == [];
    }
  }

  lemma {:induction false} FlatMapAppend<A, B>(f: A -> seq<B>, a: seq<A>, b: seq<A>)
    ensures FlatMap(f, a + b) == FlatMap(f, a) + FlatMap(f, b)
    decreases |a|
  {
    if a == [] {
      assert a + b == b;
    } else {
      assert (a + b)[1..] == a[1..] + b;
      FlatMapAppend(f, a[1..], b);
    }
  }

  lemma {:induction false} CountsOnce(order: seq<string>, keys: set<string>)
    requires Router.Enumerates(order, keys)
    ensures multiset(order) == multiset(keys)
  {
    if order == [] {
      assert keys == {};
    } else {
      var front, last := order[..|order| - 1], order[|order| - 1];
      assert order == front + [last];
      assert last !in front;
      CountsOnce(front, keys - {last});
      assert keys == (keys - {last}) + {last};
    }
  }

  lemma SameOffers(config: Config, incoming: seq<string>, o1: seq<string>, o2: seq<string>, t: Target)
    requires Router.Enumerates(o1, config.lists.Keys) && Router.Enumerates(o2, config.lists.Keys)
    ensures multiset(Offers(Contributing(config, incoming, o1), t))
      == multiset(Offers(Contributing(config, incoming, o2), t))
  {
    CountsOnce(o1, config.lists.Keys);
    CountsOnce(o2, config.lists.Keys);
    FlatMapPermutes(Listed(config, incoming), o1, o2);
    var m1, m2 := FlatMap(Listed(config, incoming), o1), FlatMap(Listed(config, incoming), o2);
    SameMembers(m1, m2);
    FlatMapPermutes(Offer(t), Contributing(config, incoming, o1), Contributing(config, incoming, o2));
  }

  /** Two iteration orders of the lists resolve to the same policies for the same
      targets, but for which token is kept. */
  lemma ResolutionIgnoresMapOrder(config: Config, incoming: seq<string>, o1: seq<string>, o2: seq<string>,
                                  f1: seq<Policy>, f2: seq<Policy>, p: Policy)
    requires Router.Enumerates(o1, config.lists.Keys) && Router.Enumerates(o2, config.lists.Keys)
    requires Resolves(Contributing(config, incoming, o1), f1) && Resolves(Contributing(config, incoming, o2), f2)
    requires p in f1
    ensures exists q :: q in f2 && q.(token := None) == p.(token := None) && (q.token.Some? <==> p.token.Some?)
  {
    hide Contributing, Offers, Merged;
    var t := TargetOf(p);
    var a := Offers(Contributing(config, incoming, o1), t);
    var b := Offers(Contributing(config, incoming, o2), t);
    SameOffers(config, incoming, o1, o2, t);
    OfferedTo(Contributing(config, incoming, o1), t);
    MergedIgnoresOrder(a, b);
    var q :| q in f2 && TargetOf(q) == t;
  }
}
