/** How much a speaker's word counts, from the MAINTAINERS sections a patch touches. The
    mailmap and the file patterns are oracles. */
module Authority {
  import opened Options

  datatype Section = Section(name: string, maintainers: seq<string>, reviewers: seq<string>, catchAll: bool)

  type Index = seq<Section>

  /** The canonical address of a MAINTAINERS entry, if it has one. */
  type Canonical = string -> Option<string>

  /** The names of the sections that match a file. */
  type Match = string -> seq<string>

  // ---- who is listed where, by scanning every section ----

  predicate Lists(canonical: Canonical, entries: seq<string>, email: string) {
    exists raw :: raw in entries && canonical(raw) == Some(email)
  }

  function Maintained(index: Index, canonical: Canonical, email: string): set<string> {
    set s | s in index && Lists(canonical, s.maintainers, email) :: s.name
  }

  function Reviewed(index: Index, canonical: Canonical, email: string): set<string> {
    set s | s in index && Lists(canonical, s.reviewers, email) :: s.name
  }

  // ---- the inverse index ----

  datatype View = View(m: map<string, set<string>>, r: map<string, set<string>>)

  function At(m: map<string, set<string>>, email: string): set<string> {
    if email in m then m[email] else {}
  }

  function Insert(m: map<string, set<string>>, email: string, name: string): map<string, set<string>> {
    m[email := At(m, email) + {name}]
  }

  ghost predicate Inverts(m: map<string, set<string>>, index: Index, canonical: Canonical, reviewers: bool) {
    forall email ::
      (email in m <==> exists s ::
         s in index && Lists(canonical, if reviewers then s.reviewers else s.maintainers, email))
      && At(m, email) == if reviewers then Reviewed(index, canonical, email) else Maintained(index, canonical, email)
  }

  /** `n` is `m` with `name` entered for everyone the entries list. */
  ghost predicate Entered(m: map<string, set<string>>, n: map<string, set<string>>, name: string, entries: seq<string>,
                          canonical: Canonical)
  {
    && (forall email :: At(n, email) == At(m, email) + if Lists(canonical, entries, email) then {name} else {})
    && (forall email :: email in n <==> email in m || Lists(canonical, entries, email))
  }

  lemma EnteredSnoc(m: map<string, set<string>>, n: map<string, set<string>>, name: string, entries: seq<string>,
                    canonical: Canonical, raw: string)
    requires Entered(m, n, name, entries, canonical)
    ensures Entered(m, if canonical(raw).Some? then Insert(n, canonical(raw).value, name) else n,
                    name, entries + [raw], canonical)
  {
    forall email
      ensures Lists(canonical, entries + [raw], email) <==>
        Lists(canonical, entries, email) || canonical(raw) == Some(email)
    {
      assert raw in entries + [raw];
    }
    hide Lists;
  }

  /** Enters one section's entries. */
  method Enter(m: map<string, set<string>>, name: string, entries: seq<string>, canonical: Canonical)
      returns (n: map<string, set<string>>)
    ensures Entered(m, n, name, entries, canonical)
  {
    hide Entered;
    n := m;
    NothingEntered(m, name, canonical);
    for i := 0 to |entries|
      invariant Entered(m, n, name, entries[..i], canonical)
    {
      EnteredSnoc(m, n, name, entries[..i], canonical, entries[i]);
      assert entries[..i + 1] == entries[..i] + [entries[i]];
      var canon := canonical(entries[i]);
      if canon.Some? {
        n := Insert(n, canon.value, name);
      }
    }
    assert entries[..|entries|] == entries;
  }

  lemma NothingEntered(m: map<string, set<string>>, name: string, canonical: Canonical)
    ensures Entered(m, m, name, [], canonical)
  {
  }

  lemma InvertsSnoc(m: map<string, set<string>>, n: map<string, set<string>>, index: Index, s: Section,
          canonical: Canonical, reviewers: bool)
    requires Inverts(m, index, canonical, reviewers)
    requires Entered(m, n, s.name, if reviewers then s.reviewers else s.maintainers, canonical)
    ensures Inverts(n, index + [s], canonical, reviewers)
  {
    hide Lists;
    forall email ensures
      (email in n <==> exists t ::
         t in index + [s] && Lists(canonical, if reviewers then t.reviewers else t.maintainers, email))
      && At(n, email) == if reviewers then Reviewed(index + [s], canonical, email)
        else Maintained(index + [s], canonical, email)
    {
      ListedSnoc(index, s, canonical, email);
      assert s in index + [s] && forall t :: t in index ==> t in index + [s];
    }
  }

  lemma ListedSnoc(index: Index, s: Section, canonical: Canonical, email: string)
    ensures Maintained(index + [s], canonical, email)
         == Maintained(index, canonical, email) + if Lists(canonical, s.maintainers, email) then {s.name} else {}
    ensures Reviewed(index + [s], canonical, email)
         == Reviewed(index, canonical, email) + if Lists(canonical, s.reviewers, email) then {s.name} else {}
  {
    hide Lists;
    assert s in index + [s] && forall t :: t in index ==> t in index + [s];
  }

  method Build(index: Index, canonical: Canonical) returns (view: View)
    ensures Inverts(view.m, index, canonical, false) && Inverts(view.r, index, canonical, true)
  {
    hide Inverts, Lists;
    view := View(map[], map[]);
    NothingListed(canonical);
    for i := 0 to |index|
      invariant Inverts(view.m, index[..i], canonical, false) && Inverts(view.r, index[..i], canonical, true)
    {
      var s := index[i];
      assert index[..i + 1] == index[..i] + [s];
      var m := Enter(view.m, s.name, s.maintainers, canonical);
      InvertsSnoc(view.m, m, index[..i], s, canonical, false);
      var r := Enter(view.r, s.name, s.reviewers, canonical);
      InvertsSnoc(view.r, r, index[..i], s, canonical, true);
      view := View(m, r);
    }
    assert index[..|index|] == index;
  }

  lemma NothingListed(canonical: Canonical)
    ensures Inverts(map[], [], canonical, false) && Inverts(map[], [], canonical, true)
  {
  }

  // ---- roles and tiers ----

  datatype MaintainerRole = SubsystemMaintainer | DesignatedReviewer | OtherSubsystemMaintainer | NoRole

  datatype SpeakerRole = Reviewer | PatchAuthor | AutomatedBot

  datatype Tier = Low | Moderate | High

  function Classify(view: View, email: string, touched: set<string>): (MaintainerRole, set<string>) {
    var m, r := At(view.m, email) * touched, At(view.r, email) * touched;
    if m != {} then (SubsystemMaintainer, m)
    else if r != {} then (DesignatedReviewer, r)
    else if email in view.m || email in view.r then (OtherSubsystemMaintainer, {})
    else (NoRole, {})
  }

  predicate Touching(canonical: Canonical, s: Section, entries: seq<string>, email: string, touched: set<string>) {
    s.name in touched && Lists(canonical, entries, email)
  }

  /** The view gives the role, and the sections, that scanning all sections would. */
  lemma ViewAgreesWithScan(view: View, index: Index, canonical: Canonical, email: string, touched: set<string>)
    requires Inverts(view.m, index, canonical, false) && Inverts(view.r, index, canonical, true)
    ensures var (role, hits) := Classify(view, email, touched);
      (role == SubsystemMaintainer <==> exists s :: s in index && Touching(canonical, s, s.maintainers, email, touched))
      && (role == DesignatedReviewer || role == SubsystemMaintainer <==>
          exists s :: s in index && (Touching(canonical, s, s.maintainers, email, touched)
                                     || Touching(canonical, s, s.reviewers, email, touched)))
      && (role != NoRole <==>
          exists s :: s in index && (Lists(canonical, s.maintainers, email) || Lists(canonical, s.reviewers, email)))
    ensures var (role, hits) := Classify(view, email, touched);
      forall name :: name in hits <==>
        exists s :: s in index && s.name == name
          && if role == SubsystemMaintainer then Touching(canonical, s, s.maintainers, email, touched)
             else role == DesignatedReviewer && Touching(canonical, s, s.reviewers, email, touched)
  {
    hide Lists;
    var (role, hits) := Classify(view, email, touched);
    forall s | s in index ensures
      (Touching(canonical, s, s.maintainers, email, touched) ==> s.name in At(view.m, email) * touched)
      && (Touching(canonical, s, s.reviewers, email, touched) ==> s.name in At(view.r, email) * touched)
    {
    }
  }

  function TierOf(role: MaintainerRole, speaker: SpeakerRole, trustedBot: bool): Tier {
    if speaker == AutomatedBot then if trustedBot then High else Low
    else
      match role
      case SubsystemMaintainer => High
      case DesignatedReviewer => High
      case OtherSubsystemMaintainer => Moderate
      case NoRole => Low
  }

  /** Trust in a claim the code cannot decide: an author's own word counts only as a
      maintainer's. */
  function ClaimTrust(tier: Tier, speaker: SpeakerRole, role: MaintainerRole): Tier {
    if speaker != PatchAuthor then tier
    else if role == SubsystemMaintainer || role == DesignatedReviewer then High else Low
  }

  function Rank(t: Tier): nat {
    match t
    case Low => 0
    case Moderate => 1
    case High => 2
  }

  datatype Standing = Standing(tier: Tier, role: MaintainerRole, claimTrust: Tier)

  function StandingOf(view: View, email: string, touched: set<string>, speaker: SpeakerRole,
          trustedBot: bool): Standing {
    var role := Classify(view, email, touched).0;
    var tier := TierOf(role, speaker, trustedBot);
    Standing(tier, role, ClaimTrust(tier, speaker, role))
  }

  // ---- responsible sections ----

  function CatchAlls(index: Index): set<string> {
    set s | s in index && s.catchAll :: s.name
  }

  function Specific(matching: Match, catchAlls: set<string>, file: string): set<string> {
    set name | name in matching(file) && name !in catchAlls
  }

  predicate Uncovered(matching: Match, catchAlls: set<string>, files: seq<string>) {
    exists f :: f in files && Specific(matching, catchAlls, f) == {}
  }

  /** The specific sections of every file, and the catch-alls when one has none. */
  ghost predicate IsResponsible(matching: Match, catchAlls: set<string>, files: seq<string>, out: set<string>) {
    forall name :: name in out <==>
      (exists f :: f in files && name in Specific(matching, catchAlls, f))
      || (name in catchAlls && Uncovered(matching, catchAlls, files))
  }

  method ResponsibleSections(matching: Match, catchAlls: set<string>, files: seq<string>) returns (out: set<string>)
    ensures IsResponsible(matching, catchAlls, files, out)
  {
    out := {};
    for i := 0 to |files|
      invariant IsResponsible(matching, catchAlls, files[..i], out)
    {
      assert files[..i + 1] == files[..i] + [files[i]];
      var specific := Specific(matching, catchAlls, files[i]);
      ghost var before := out;
      if specific == {} {
        out := out + catchAlls;
      } else {
        out := out + specific;
      }
      IsResponsibleSnoc(matching, catchAlls, files[..i], files[i], before);
    }
    assert files[..|files|] == files;
  }

  lemma IsResponsibleSnoc(matching: Match, catchAlls: set<string>, files: seq<string>, file: string, out: set<string>)
    requires IsResponsible(matching, catchAlls, files, out)
    ensures IsResponsible(matching, catchAlls, files + [file],
      out + if Specific(matching, catchAlls, file) == {} then catchAlls else Specific(matching, catchAlls, file))
  {
    hide Specific;
    var more := files + [file];
    assert file in more && forall f :: f in more <==> f in files || f == file;
  }

  /** Sections of a union of file lists are the union of their sections. */
  lemma ResponsibleDistributes(matching: Match, catchAlls: set<string>, a: seq<string>, b: seq<string>,
          outA: set<string>, outB: set<string>)
    requires IsResponsible(matching, catchAlls, a, outA) && IsResponsible(matching, catchAlls, b, outB)
    ensures IsResponsible(matching, catchAlls, a + b, outA + outB)
  {
    hide Specific;
    assert forall f :: f in a + b <==> f in a || f in b;
  }

  /** Catch-alls are responsible, all together, exactly when some file has no specific
      section, and the answer is the only one. */
  lemma CatchAllsExactly(matching: Match, catchAlls: set<string>, files: seq<string>, out: set<string>,
          other: set<string>)
    requires IsResponsible(matching, catchAlls, files, out)
    ensures out * catchAlls == if Uncovered(matching, catchAlls, files) then catchAlls else {}
    ensures IsResponsible(matching, catchAlls, files, other) ==> other == out
  {
  }

  lemma MoreSectionsNeverLower(view: View, email: string, speaker: SpeakerRole, trustedBot: bool, fewer: set<string>,
          more: set<string>)
    requires fewer <= more
    ensures var s := StandingOf(view, email, fewer, speaker, trustedBot);
      var t := StandingOf(view, email, more, speaker, trustedBot);
      Rank(s.tier) <= Rank(t.tier) && Rank(s.claimTrust) <= Rank(t.claimTrust)
  {
    var m, r := At(view.m, email), At(view.r, email);
    assert m * fewer <= m * more && r * fewer <= r * more;
  }

  /** Touching more files never lowers a speaker's tier, nor the trust in what they claim. */
  lemma MoreFilesNeverLower(index: Index, matching: Match, view: View, email: string, speaker: SpeakerRole,
          trustedBot: bool, files: seq<string>, more: seq<string>, a: set<string>, b: set<string>)
    requires IsResponsible(matching, CatchAlls(index), files, a) && IsResponsible(matching, CatchAlls(index), more, b)
    requires forall f :: f in files ==> f in more
    ensures var s := StandingOf(view, email, a, speaker, trustedBot);
      var t := StandingOf(view, email, b, speaker, trustedBot);
      Rank(s.tier) <= Rank(t.tier) && Rank(s.claimTrust) <= Rank(t.claimTrust)
  {
    hide Specific, CatchAlls, StandingOf;
    MoreSectionsNeverLower(view, email, speaker, trustedBot, a, b);
  }

  /** What an authenticated repository association adds. */
  function WithForgeAssociation(s: Standing, speaker: SpeakerRole, repoMaintainer: bool): Standing {
    if !repoMaintainer || speaker == AutomatedBot then s
    else
      var role := if s.role == NoRole || s.role == OtherSubsystemMaintainer then SubsystemMaintainer else s.role;
      Standing(High, role, ClaimTrust(High, speaker, role))
  }

  /** An association never lowers a standing, a bot's does not move, and anyone else who
      has one ends with the highest. */
  lemma AssociationOnlyRaises(view: View, email: string, touched: set<string>, speaker: SpeakerRole, trustedBot: bool,
          repoMaintainer: bool)
    ensures var s := StandingOf(view, email, touched, speaker, trustedBot);
      var t := WithForgeAssociation(s, speaker, repoMaintainer);
      Rank(s.tier) <= Rank(t.tier) && Rank(s.claimTrust) <= Rank(t.claimTrust)
      && (speaker == AutomatedBot ==> t == s)
      && (repoMaintainer && speaker != AutomatedBot ==> t.tier == High && t.claimTrust == High)
  {
    hide Classify;
  }
}
