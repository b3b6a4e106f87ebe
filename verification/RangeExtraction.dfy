/** Turning a commit range into a numbered patch series.

    Git is an oracle: what a range resolves to, what each commit holds, and whether a
    commit is a b4 tracking commit are arbitrary. */
module RangeExtraction {
  import opened Options
  import opened Results
  import opened Text

  const U32_RANGE: nat := 0x1_0000_0000
  const CHANGE_ID := "change-id:"

  datatype Meta = Meta(subject: string, author: string, message: string, diff: string,
                       base: Option<string>, timestamp: int)

  datatype Commit = Commit(sha: string, meta: Meta)

  /** The merge request a submission belongs to. */
  datatype Request = Request(url: Option<string>, title: Option<string>, number: Option<int>)

  datatype Submission = Submission(articleId: string, messageId: string, meta: Meta,
                                   index: nat, total: nat, request: Request)

  datatype Tracker = Tracker(changeId: Option<string>)

  datatype Git = Git(
    resolve: string -> Result<seq<string>>,
    read: string -> Result<Meta>,
    tracking: (string, string, string) -> Option<Tracker>,  // of subject, message and diff
    redact: string -> string)
  {
    function TrackerOf(c: Commit): Option<Tracker> {
      tracking(c.meta.subject, c.meta.message, c.meta.diff)
    }

    predicate IsReal(c: Commit) {
      TrackerOf(c).None?
    }
  }

  /** An `as u32` cast. */
  function U32(n: nat): nat {
    n % U32_RANGE
  }

  // ---- The series a list of commits makes ----

  predicate HasReal(git: Git, cs: seq<Commit>) {
    exists i :: 0 <= i < |cs| && git.IsReal(cs[i])
  }

  function Reals(git: Git, cs: seq<Commit>): seq<Commit> {
    if cs == [] then []
    else if git.IsReal(cs[0]) then [cs[0]] + Reals(git, cs[1..])
    else Reals(git, cs[1..])
  }

  function Kept(git: Git, cs: seq<Commit>): seq<Commit> {
    if HasReal(git, cs) then Reals(git, cs) else cs
  }

  /** The first base recorded by the trackers ahead of every real commit. */
  function LeadingBase(git: Git, cs: seq<Commit>): Option<string> {
    if cs == [] || git.IsReal(cs[0]) then None
    else if cs[0].meta.base.Some? then cs[0].meta.base
    else LeadingBase(git, cs[1..])
  }

  /** The first change id any tracker carries. */
  function FirstChangeId(git: Git, cs: seq<Commit>): Option<string> {
    if cs == [] then None
    else
      var t := git.TrackerOf(cs[0]);
      if t.Some? && t.value.changeId.Some? then t.value.changeId else FirstChangeId(git, cs[1..])
  }

  function WithChangeId(message: string, id: string): string {
    if Contains(Lower(message), CHANGE_ID) then message
    else
      var ended := if message != [] && message[|message| - 1] != '\n' then message + "\n" else message;
      ended + "\nchange-id: " + id
  }

  /** The first patch of a series that had trackers: their base and change id are its own. */
  function Heading(git: Git, cs: seq<Commit>, meta: Meta): Meta {
    if !HasReal(git, cs) then meta
    else
      var base := LeadingBase(git, cs);
      var id := FirstChangeId(git, cs);
      meta.(base := if base.Some? then base else meta.base,
            message := if id.Some? then WithChangeId(meta.message, id.value) else meta.message)
  }

  function Numbered(c: Commit, i: nat, n: nat, articleId: string, request: Request): Submission {
    Submission(articleId, c.sha, c.meta, U32(i + 1), U32(n), request)
  }

  function Series(git: Git, cs: seq<Commit>, articleId: string, request: Request): seq<Submission> {
    var kept := Kept(git, cs);
    seq(|kept|, i requires 0 <= i < |kept| =>
      Numbered(if i == 0 then kept[0].(meta := Heading(git, cs, kept[0].meta)) else kept[i],
               i, |kept|, articleId, request))
  }

  // ---- What a range yields ----

  function Commits(git: Git, shas: seq<string>): Option<seq<Commit>> {
    if forall i :: 0 <= i < |shas| ==> git.read(shas[i]).Ok? then
      Some(seq(|shas|, i requires 0 <= i < |shas| => Commit(shas[i], git.read(shas[i]).value)))
    else None
  }

  /** The index of the first commit that cannot be read, or the length. */
  function FirstUnreadable(git: Git, shas: seq<string>): (i: nat)
    ensures i <= |shas| && (i < |shas| ==> git.read(shas[i]).Err?)
    ensures forall j :: 0 <= j < i ==> git.read(shas[j]).Ok?
  {
    if shas == [] || git.read(shas[0]).Err? then 0 else 1 + FirstUnreadable(git, shas[1..])
  }

  function Unreadable(git: Git, range: string, sha: string): string
  {
    "Failed to extract patch " + sha + " from range " + range + ": "
    + (match git.read(sha) case Err(e) => git.redact(e) case Ok(_) => "")
  }

  function RangeEvents(git: Git, range: string, articleId: string, request: Request): Result<seq<Submission>> {
    match git.resolve(range)
    case Err(e) => Err("Failed to resolve git range: " + git.redact(e))
    case Ok(shas) =>
      match Commits(git, shas)
      case None => Err(Unreadable(git, range, shas[FirstUnreadable(git, shas)]))
      case Some(cs) =>
        if cs == [] then Err("No commits found in range " + range)
        else Ok(Series(git, cs, articleId, request))
  }

  // ---- The extractor ----

  method ReadCommits(git: Git, range: string, shas: seq<string>) returns (r: Result<seq<Commit>>)
    ensures match Commits(git, shas)
            case Some(cs) => r == Ok(cs)
            case None => FirstUnreadable(git, shas) < |shas|
                         && r == Err(Unreadable(git, range, shas[FirstUnreadable(git, shas)]))
  {
    var extracted: seq<Commit> := [];
    for i := 0 to |shas|
      invariant |extracted| == i
      invariant forall j :: 0 <= j < i ==>
        git.read(shas[j]).Ok? && extracted[j] == Commit(shas[j], git.read(shas[j]).value)
    {
      match git.read(shas[i])
      case Ok(meta) => extracted := extracted + [Commit(shas[i], meta)];
      case Err(_) => return Err(Unreadable(git, range, shas[i]));
    }
    assert extracted == Commits(git, shas).value;
    r := Ok(extracted);
  }

  lemma {:induction false} RealsAppend(git: Git, cs: seq<Commit>, c: Commit)
    ensures Reals(git, cs + [c]) == Reals(git, cs) + if git.IsReal(c) then [c] else []
  {
    if cs != [] {
      assert (cs + [c])[1..] == cs[1..] + [c];
      RealsAppend(git, cs[1..], c);
    }
  }

  lemma {:induction false} LeadingBaseAppend(git: Git, cs: seq<Commit>, c: Commit)
    ensures LeadingBase(git, cs + [c])
         == if Reals(git, cs) == [] && LeadingBase(git, cs).None? && !git.IsReal(c) then c.meta.base
            else LeadingBase(git, cs)
  {
    if cs == [] {
      assert [c][1..] == [];
    } else {
      assert (cs + [c])[1..] == cs[1..] + [c];
      LeadingBaseAppend(git, cs[1..], c);
    }
  }

  lemma {:induction false} FirstChangeIdAppend(git: Git, cs: seq<Commit>, c: Commit)
    ensures FirstChangeId(git, cs + [c])
         == if FirstChangeId(git, cs).None? && !git.IsReal(c) then git.TrackerOf(c).value.changeId
            else FirstChangeId(git, cs)
  {
    if cs == [] {
      assert [c][1..] == [];
    } else {
      assert (cs + [c])[1..] == cs[1..] + [c];
      FirstChangeIdAppend(git, cs[1..], c);
    }
  }

  lemma {:induction false} HasRealMeansReals(git: Git, cs: seq<Commit>)
    ensures HasReal(git, cs) <==> Reals(git, cs) != []
  {
    if cs != [] {
      HasRealMeansReals(git, cs[1..]);
      if HasReal(git, cs) && !git.IsReal(cs[0]) {
        var i :| 0 <= i < |cs| && git.IsReal(cs[i]);
        assert cs[i] == cs[1..][i - 1];
      }
      if HasReal(git, cs[1..]) {
        var i :| 0 <= i < |cs[1..]| && git.IsReal(cs[1..][i]);
        assert cs[i + 1] == cs[1..][i];
      }
    }
  }

  lemma KeptIsEmpty(git: Git, cs: seq<Commit>)
    ensures Kept(git, cs) == [] <==> cs == []
  {
    HasRealMeansReals(git, cs);
  }

  /** Separates trackers from real commits in one pass. */
  method Separate(git: Git, cs: seq<Commit>) returns (reals: seq<Commit>, base: Option<string>, id: Option<string>)
    ensures reals == Reals(git, cs) && base == LeadingBase(git, cs) && id == FirstChangeId(git, cs)
  {
    reals, base, id := [], None, None;
    for i := 0 to |cs|
      invariant reals == Reals(git, cs[..i]) && base == LeadingBase(git, cs[..i]) && id == FirstChangeId(git, cs[..i])
    {
      RealsAppend(git, cs[..i], cs[i]);
      LeadingBaseAppend(git, cs[..i], cs[i]);
      FirstChangeIdAppend(git, cs[..i], cs[i]);
      assert cs[..i + 1] == cs[..i] + [cs[i]];
      match git.TrackerOf(cs[i])
      case Some(t) =>
        if reals == [] && base.None? {
          base := cs[i].meta.base;
        }
        if id.None? {
          id := t.changeId;
        }
      case None =>
        reals := reals + [cs[i]];
    }
    assert cs[..|cs|] == cs;
  }

  method ExtractRange(git: Git, range: string, articleId: string, request: Request)
    returns (r: Result<seq<Submission>>)
    ensures r == RangeEvents(git, range, articleId, request)
  {
    hide Reals, Contains, Lower, LeadingBase, FirstChangeId, HasReal, Commits, FirstUnreadable, Unreadable;
    var shas;
    match git.resolve(range) {
      case Err(e) => return Err("Failed to resolve git range: " + git.redact(e));
      case Ok(found) => shas := found;
    }
    var read := ReadCommits(git, range, shas);
    if read.Err? {
      return Err(read.error);
    }
    var cs := read.value;
    var patches, id := cs, None;
    KeptIsEmpty(git, cs);
    if HasReal(git, cs) {
      var base;
      patches, base, id := Separate(git, cs);
      if base.Some? && patches != [] {
        patches := patches[0 := patches[0].(meta := patches[0].meta.(base := base))];
      }
    }
    if patches == [] {
      return Err("No commits found in range " + range);
    }
    if id.Some? && !Contains(Lower(patches[0].meta.message), CHANGE_ID) {
      var message := patches[0].meta.message;
      if message != [] && message[|message| - 1] != '\n' {
        message := message + "\n";
      }
      message := message + "\nchange-id: " + id.value;
      patches := patches[0 := patches[0].(meta := patches[0].meta.(message := message))];
    }
    assert patches == Kept(git, cs)[0 := Kept(git, cs)[0].(meta := Heading(git, cs, Kept(git, cs)[0].meta))];
    var events: seq<Submission> := [];
    for i := 0 to |patches|
      invariant |events| == i
      invariant forall j :: 0 <= j < i ==> events[j] == Numbered(patches[j], j, |patches|, articleId, request)
    {
      events := events + [Numbered(patches[i], i, |patches|, articleId, request)];
    }
    assert events == Series(git, cs, articleId, request);
    r := Ok(events);
  }

  // ---- What the series is ----

  /** The positions of the commits that stay. */
  function Positions(git: Git, cs: seq<Commit>, from: nat): (ps: seq<nat>)
    requires from <= |cs|
    ensures forall i :: 0 <= i < |ps| ==> from <= ps[i] < |cs|
    ensures forall i, j :: 0 <= i < j < |ps| ==> ps[i] < ps[j]
    ensures forall k :: from <= k < |cs| ==> (k in ps <==> git.IsReal(cs[k]))
    decreases |cs| - from
  {
    if from == |cs| then []
    else if git.IsReal(cs[from]) then [from] + Positions(git, cs, from + 1)
    else Positions(git, cs, from + 1)
  }

  lemma RealsFrom(git: Git, cs: seq<Commit>, from: nat)
    requires from < |cs|
    ensures Reals(git, cs[from..])
         == (if git.IsReal(cs[from]) then [cs[from]] else []) + Reals(git, cs[from + 1..])
  {
    assert cs[from..][1..] == cs[from + 1..];
  }

  lemma {:induction false} RealsAtPositions(git: Git, cs: seq<Commit>, from: nat)
    requires from <= |cs|
    ensures var ps := Positions(git, cs, from); var rs := Reals(git, cs[from..]);
      |rs| == |ps| && forall i :: 0 <= i < |rs| ==> rs[i] == cs[ps[i]]
    decreases |cs| - from
  {
    if from == |cs| {
      assert cs[from..] == [];
    } else {
      hide Reals;
      RealsFrom(git, cs, from);
      RealsAtPositions(git, cs, from + 1);
      var rs, qs := Reals(git, cs[from + 1..]), Positions(git, cs, from + 1);
      assert Positions(git, cs, from) == (if git.IsReal(cs[from]) then [from] else []) + qs;
      assert forall i :: 0 <= i < |rs| ==> rs[i] == cs[qs[i]];
    }
  }

  /** The series is the commits at strictly increasing positions: the real ones when
      there is a real one, otherwise all of them. */
  lemma KeptIsASelection(git: Git, cs: seq<Commit>) returns (ps: seq<nat>)
    ensures |ps| == |Kept(git, cs)|
    ensures forall i :: 0 <= i < |ps| ==> ps[i] < |cs| && Kept(git, cs)[i] == cs[ps[i]]
    ensures forall i, j :: 0 <= i < j < |ps| ==> ps[i] < ps[j]
    ensures forall k :: 0 <= k < |cs| ==> (k in ps <==> git.IsReal(cs[k]) || !HasReal(git, cs))
  {
    if HasReal(git, cs) {
      ps := Positions(git, cs, 0);
      RealsAtPositions(git, cs, 0);
      assert cs[0..] == cs;
    } else {
      ps := seq(|cs|, i => i);
      forall k | 0 <= k < |cs| ensures k in ps {
        assert ps[k] == k;
      }
    }
  }

  /** One unreadable commit, or none at all, and no event leaves; otherwise every kept
      commit leaves exactly once, in order, under its own sha. */
  lemma RangeIsAllOrNothing(git: Git, range: string, articleId: string, request: Request)
    ensures RangeEvents(git, range, articleId, request).Ok? <==>
      git.resolve(range).Ok? && git.resolve(range).value != []
      && forall s :: s in git.resolve(range).value ==> git.read(s).Ok?
    ensures match RangeEvents(git, range, articleId, request)
            case Err(_) => true
            case Ok(events) =>
              var cs := Commits(git, git.resolve(range).value).GetOr([]);
              events != [] && |events| == |Kept(git, cs)|
              && forall i :: 0 <= i < |events| ==> events[i].messageId == Kept(git, cs)[i].sha
  {
    if git.resolve(range).Ok? {
      var shas := git.resolve(range).value;
      assert Commits(git, shas).Some? <==> forall s :: s in shas ==> git.read(s).Ok?;
      if Commits(git, shas).Some? {
        HasRealMeansReals(git, Commits(git, shas).value);
      }
    }
  }

  /** Patches are numbered 1..n of n, exactly as long as n fits the 32-bit counter. */
  lemma NumberedOneToN(git: Git, cs: seq<Commit>, articleId: string, request: Request)
    ensures var events := Series(git, cs, articleId, request);
      |events| < U32_RANGE <==>
      forall i :: 0 <= i < |events| ==> events[i].index == i + 1 && events[i].total == |events|
  {
    var events := Series(git, cs, articleId, request);
    if |events| >= U32_RANGE {
      var last := |events| - 1;
      assert events[last].total == U32(|events|) < U32_RANGE;
    }
  }

  /** The inherited base is that of the first tracker recording one, all of them ahead
      of the first real commit. */
  lemma {:induction false} LeadingBaseIs(git: Git, cs: seq<Commit>, base: string)
    ensures LeadingBase(git, cs) == Some(base) <==>
      exists k :: 0 <= k < |cs| && cs[k].meta.base == Some(base) && !git.IsReal(cs[k])
        && forall j :: 0 <= j < k ==> !git.IsReal(cs[j]) && cs[j].meta.base.None?
  {
    if cs != [] && !git.IsReal(cs[0]) && cs[0].meta.base.None? {
      LeadingBaseIs(git, cs[1..], base);
      if LeadingBase(git, cs) == Some(base) {
        var k :| 0 <= k < |cs[1..]| && cs[1..][k].meta.base == Some(base) && !git.IsReal(cs[1..][k])
          && forall j :: 0 <= j < k ==> !git.IsReal(cs[1..][j]) && cs[1..][j].meta.base.None?;
        forall j | 0 <= j < k + 1 ensures !git.IsReal(cs[j]) && cs[j].meta.base.None? {
          assert j > 0 ==> cs[j] == cs[1..][j - 1];
        }
        assert cs[k + 1] == cs[1..][k];
      } else {
        forall k | 0 < k < |cs| ensures cs[k] == cs[1..][k - 1] {
        }
      }
    }
  }

  lemma {:induction false} ContainsInner(a: string, p: string, b: string)
    ensures Contains(a + p + b, p)
  {
    if a == [] {
      assert p <= a + p + b;
    } else {
      assert (a + p + b)[1..] == a[1..] + p + b;
      ContainsInner(a[1..], p, b);
    }
  }

  lemma SignatureIsFound(before: string, id: string)
    ensures Contains(Lower(before + "change-id: " + id), CHANGE_ID)
  {
    hide Contains;
    assert Lower(before + "change-id: " + id) == Lower(before) + CHANGE_ID + (" " + Lower(id));
    ContainsInner(Lower(before), CHANGE_ID, " " + Lower(id));
  }

  /** The first message only grows, then names a change, and is never given a second one. */
  lemma ChangeIdOnce(message: string, id: string, again: string)
    ensures var m := WithChangeId(message, id);
      message <= m && Contains(Lower(m), CHANGE_ID) && WithChangeId(m, again) == m
  {
    hide Contains, Lower;
    var m := WithChangeId(message, id);
    if !Contains(Lower(message), CHANGE_ID) {
      var before := m[..|m| - |id| - 12] + "\n";
      assert m == before + "change-id: " + id;
      SignatureIsFound(before, id);
    }
  }

  /** Trackers change nothing but the base and the message of the first patch. */
  lemma TrackersOnlyTouchTheFirst(git: Git, cs: seq<Commit>, articleId: string, request: Request)
    ensures var with, without := Series(git, cs, articleId, request), Series(git, Kept(git, cs), articleId, request);
      |with| == |without| && (forall i :: 0 < i < |with| ==> with[i] == without[i])
      && (with != [] ==>
            with[0] == without[0].(meta := without[0].meta.(base := with[0].meta.base,
              message := with[0].meta.message)))
  {
    hide WithChangeId;
    var kept := Kept(git, cs);
    KeptIsStable(git, cs);
    if HasReal(git, cs) {
      HasRealMeansReals(git, cs);
      if kept != [] {
        OnlyReals(git, cs);
        assert git.IsReal(kept[0]);
        assert LeadingBase(git, kept) == None;
      }
    }
  }

  lemma {:induction false} OnlyReals(git: Git, cs: seq<Commit>)
    ensures forall c :: c in Reals(git, cs) ==> git.IsReal(c)
  {
    if cs != [] {
      OnlyReals(git, cs[1..]);
    }
  }

  lemma {:induction false} RealsOfReals(git: Git, cs: seq<Commit>)
    requires forall c :: c in cs ==> git.IsReal(c)
    ensures Reals(git, cs) == cs && FirstChangeId(git, cs) == None
  {
    if cs != [] {
      assert cs == [cs[0]] + cs[1..];
      RealsOfReals(git, cs[1..]);
    }
  }

  lemma KeptIsStable(git: Git, cs: seq<Commit>)
    ensures Kept(git, Kept(git, cs)) == Kept(git, cs)
    ensures HasReal(git, cs) ==> FirstChangeId(git, Kept(git, cs)) == None
  {
    if HasReal(git, cs) {
      OnlyReals(git, cs);
      RealsOfReals(git, Reals(git, cs));
    }
  }
}
