/** Which addresses a review, and a positive review, are mailed to. */
module Router {
  import opened Options
  import opened Text
  import opened Addresses

  const MAX_RELAYED_RECIPIENTS: nat := 128

  datatype ReplyTarget = Author | List | Recipients

  /** In ascending order. */
  datatype PositiveReview = Nobody | AuthorOnly | All

  datatype ListPolicy = ListPolicy(
    replyTo: Option<set<ReplyTarget>>,
    positiveReview: Option<PositiveReview>,
    muteAll: Option<bool>,
    cc: seq<string>,
    ignoredEmails: seq<string>)

  datatype Defaults = Defaults(
    replyTo: set<ReplyTarget>,
    positiveReview: PositiveReview,
    muteAll: bool,
    cc: seq<string>,
    ignoredEmails: seq<string>)

  datatype Policy = Policy(defaults: Defaults, lists: map<string, ListPolicy>)

  /** The built-in tables of public list addresses and list domains, in lowercase. */
  datatype Directory = Directory(addresses: set<string>, domains: set<string>)

  datatype Mail = Mail(to: seq<string>, cc: seq<string>, author: string)

  datatype Action = Mute | Send(to: seq<string>, cc: seq<string>, positive: PositiveReview)

  datatype Entry = Entry(bare: string, policy: ListPolicy)

  // ---- matching lists ------------------------------------------------------

  function Incoming(mail: Mail): seq<string> {
    mail.to + mail.cc
  }

  /** `order` is one iteration order of the map. */
  ghost predicate Enumerates(order: seq<string>, keys: set<string>) {
    && (forall k :: k in order <==> k in keys)
    && forall i, j :: 0 <= i < j < |order| ==> order[i] != order[j]
  }

  function Matching(policy: Policy, mail: Mail, order: seq<string>): seq<Entry>
    requires forall k :: k in order ==> k in policy.lists
  {
    if order == [] then []
    else
      var key := order[|order| - 1];
      var before := Matching(policy, mail, order[..|order| - 1]);
      if Matches(Incoming(mail), Bare(key)) then before + [Entry(Bare(key), policy.lists[key])] else before
  }

  /** `str` ordering: bytewise, a prefix first. */
  predicate LexLe(a: string, b: string) {
    a == "" || (b != "" && (a[0] < b[0] || (a[0] == b[0] && LexLe(a[1..], b[1..]))))
  }

  function InsertByBare(e: Entry, sorted: seq<Entry>): seq<Entry> {
    if sorted == [] || !LexLe(sorted[0].bare, e.bare) then [e] + sorted
    else [sorted[0]] + InsertByBare(e, sorted[1..])
  }

  /** The stable sort of the matched lists by bare address. */
  function SortByBare(entries: seq<Entry>): seq<Entry> {
    if entries == [] then []
    else InsertByBare(entries[|entries| - 1], SortByBare(entries[..|entries| - 1]))
  }

  function Visited(policy: Policy, mail: Mail, order: seq<string>): seq<Entry>
    requires forall k :: k in order ==> k in policy.lists
  {
    SortByBare(Matching(policy, mail, order))
  }

  // ---- what the matched lists ask for --------------------------------------

  datatype Tally = Tally(
    muteAll: bool,
    includeAuthor: bool,
    includeRecipients: bool,
    allLists: bool,
    allowed: set<string>,
    positive: PositiveReview,
    staticCc: seq<string>)

  function Rank(p: PositiveReview): nat {
    match p case Nobody => 0 case AuthorOnly => 1 case All => 2
  }

  function DefaultTally(d: Defaults): Tally {
    Tally(d.muteAll, Author in d.replyTo, Recipients in d.replyTo, List in d.replyTo, {}, d.positiveReview, [])
  }

  function EmptyTally(): Tally {
    Tally(false, false, false, false, {}, Nobody, [])
  }

  function ReplyTo(d: Defaults, e: Entry): set<ReplyTarget> {
    e.policy.replyTo.GetOr(d.replyTo)
  }

  function Positive(d: Defaults, e: Entry): PositiveReview {
    e.policy.positiveReview.GetOr(d.positiveReview)
  }

  function TallyLists(d: Defaults, entries: seq<Entry>): Tally {
    if entries == [] then EmptyTally()
    else
      var t, e := TallyLists(d, entries[..|entries| - 1]), entries[|entries| - 1];
      Tally(
        t.muteAll || e.policy.muteAll.GetOr(d.muteAll),
        t.includeAuthor || Author in ReplyTo(d, e),
        t.includeRecipients || Recipients in ReplyTo(d, e),
        false,
        if List in ReplyTo(d, e) then t.allowed + {e.bare} else t.allowed,
        if Rank(Positive(d, e)) > Rank(t.positive) then Positive(d, e) else t.positive,
        t.staticCc + e.policy.cc)
  }

  /** What the lists that take positive reviews ask for. */
  function TallyPositive(d: Defaults, entries: seq<Entry>): Tally {
    if entries == [] then EmptyTally()
    else
      var t, e := TallyPositive(d, entries[..|entries| - 1]), entries[|entries| - 1];
      match Positive(d, e)
      case All =>
        t.(includeAuthor := t.includeAuthor || Author in ReplyTo(d, e),
           includeRecipients := t.includeRecipients || Recipients in ReplyTo(d, e),
           allowed := if List in ReplyTo(d, e) then t.allowed + {e.bare} else t.allowed,
           staticCc := t.staticCc + e.policy.cc)
      case AuthorOnly => t.(includeAuthor := t.includeAuthor || Author in ReplyTo(d, e))
      case Nobody => t
  }

  // ---- recipients ----------------------------------------------------------

  predicate IsAt(c: char) {
    c == '@'
  }

  predicate KnownList(dir: Directory, bare: string) {
    bare in dir.addresses || (Find(bare, IsAt) < |bare| && bare[Find(bare, IsAt) + 1..] in dir.domains)
  }

  /** A configured list or a known public one. */
  predicate IsList(policy: Policy, dir: Directory, bare: string) {
    (exists k :: k in policy.lists && Bare(k) == bare) || KnownList(dir, bare)
  }

  function Individuals(policy: Policy, dir: Directory, mail: Mail, bot: string, author: Option<string>,
          staticCc: seq<string>): set<string> {
    set a | a in Incoming(mail) && !IsList(policy, dir, Bare(a)) && Bare(a) != "" && Bare(a) != bot
      && author != Some(Bare(a)) && Bare(a) !in Bares(staticCc) :: Bare(a)
  }

  predicate TooManyIndividuals(policy: Policy, dir: Directory, mail: Mail, bot: string, author: Option<string>,
          staticCc: seq<string>) {
    |Individuals(policy, dir, mail, bot, author, staticCc)| > MAX_RELAYED_RECIPIENTS
  }

  predicate Picked(policy: Policy, dir: Directory, t: Tally, addr: string) {
    if IsList(policy, dir, Bare(addr)) then t.allLists || Bare(addr) in t.allowed else t.includeRecipients
  }

  function Picks(policy: Policy, dir: Directory, t: Tally, addrs: seq<string>): seq<string> {
    if addrs == [] then []
    else
      var before, last := Picks(policy, dir, t, addrs[..|addrs| - 1]), addrs[|addrs| - 1];
      if Picked(policy, dir, t, last) then before + [last] else before
  }

  /** A tally with the configured cc addresses added and the cap applied. */
  function Capped(policy: Policy, dir: Directory, mail: Mail, bot: string, t: Tally): Tally {
    var staticCc := t.staticCc + policy.defaults.cc;
    var author := if t.includeAuthor then Some(Bare(mail.author)) else None;
    var relay := t.includeRecipients && !TooManyIndividuals(policy, dir, mail, bot, author, staticCc);
    t.(staticCc := staticCc, includeRecipients := relay)
  }

  function RawTo(policy: Policy, dir: Directory, mail: Mail, t: Tally): seq<string> {
    (if t.includeAuthor && Trim(mail.author) != "" then [mail.author] else []) + Picks(policy, dir, t, mail.to)
  }

  function RawCc(policy: Policy, dir: Directory, mail: Mail, t: Tally): seq<string> {
    Picks(policy, dir, t, mail.cc) + t.staticCc
  }

  function FinalTo(policy: Policy, dir: Directory, mail: Mail, bot: string, t: Tally): seq<string> {
    Dedup(Survivors(RawTo(policy, dir, mail, t), bot, {}))
  }

  function FinalCc(policy: Policy, dir: Directory, mail: Mail, bot: string, t: Tally): seq<string> {
    Dedup(Survivors(RawCc(policy, dir, mail, t), bot, Bares(FinalTo(policy, dir, mail, bot, t))))
  }

  predicate IsIgnored(policy: Policy, author: string) {
    || (exists e :: e in policy.defaults.ignoredEmails && Contains(Lower(author), Lower(e)))
    || (exists k, e :: k in policy.lists && e in policy.lists[k].ignoredEmails && Contains(Lower(author), Lower(e)))
  }

  predicate FromBot(author: string, bot: string) {
    bot != "" && Bare(author) != "" && (Bare(author) == bot || Contains(Lower(author), bot))
  }

  function Chosen(policy: Policy, entries: seq<Entry>): Tally {
    if entries == [] then DefaultTally(policy.defaults) else TallyLists(policy.defaults, entries)
  }

  /** Where a review goes; `bot` is the bot's bare address. */
  function Route(policy: Policy, dir: Directory, mail: Mail, bot: string, entries: seq<Entry>): Action {
    var t := Chosen(policy, entries);
    if IsIgnored(policy, mail.author) || FromBot(mail.author, bot) || t.muteAll then Mute
    else
      var c := Capped(policy, dir, mail, bot, t);
      var to, cc := FinalTo(policy, dir, mail, bot, c), FinalCc(policy, dir, mail, bot, c);
      if to == [] && cc == [] then Mute else Send(to, cc, t.positive)
  }

  /** Where a review without findings goes, given where a review would go. */
  function RoutePositive(policy: Policy, dir: Directory, mail: Mail, bot: string, review: Action, entries: seq<Entry>)
      : Option<(seq<string>, seq<string>)> {
    if review.Mute? then None
    else
      match review.positive
      case Nobody => None
      case AuthorOnly =>
        var to := Dedup(Survivors([Trim(mail.author)], bot, {}));
        if Trim(mail.author) == "" || to == [] then None else Some((to, []))
      case All =>
        if entries == [] then Some((review.to, review.cc))
        else
          var c := Capped(policy, dir, mail, bot, TallyPositive(policy.defaults, entries));
          var to, cc := FinalTo(policy, dir, mail, bot, c), FinalCc(policy, dir, mail, bot, c);
          if to == [] && cc == [] then None else Some((to, cc))
  }
}
