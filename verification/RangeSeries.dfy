/** The events of a commit range, told from the commits alone. */
module RangeSeries {
  import opened Options
  import opened Results
  import opened Text
  import opened RangeExtraction

  /** `cs` is what git holds of the range. */
  ghost predicate Holds(git: Git, range: string, cs: seq<Commit>) {
    && git.resolve(range).Ok?
    && var shas := git.resolve(range).value;
       |cs| == |shas| && forall i :: 0 <= i < |shas| ==> git.read(shas[i]) == Ok(cs[i].meta) && cs[i].sha == shas[i]
  }

  ghost predicate IsTracker(git: Git, c: Commit) {
    git.tracking(c.meta.subject, c.meta.message, c.meta.diff).Some?
  }

  ghost predicate AllTrackers(git: Git, cs: seq<Commit>) {
    forall i :: 0 <= i < |cs| ==> IsTracker(git, cs[i])
  }

  lemma EventsOfCommits(git: Git, range: string, articleId: string, request: Request, cs: seq<Commit>)
    requires Holds(git, range, cs) && cs != []
    ensures RangeEvents(git, range, articleId, request) == Ok(Series(git, cs, articleId, request))
  {
    hide Series;
    var shas := git.resolve(range).value;
    assert Commits(git, shas).value == cs;
  }

  lemma TrackersAreNotReal(git: Git, cs: seq<Commit>)
    ensures HasReal(git, cs) <==> !AllTrackers(git, cs)
    ensures forall c :: git.IsReal(c) <==> !IsTracker(git, c)
  {
  }

  /** The events are the commits of the range that are no trackers, or all of them when they
      all are, in order, each whole and under its own sha; only the first one's base and
      message may differ. */
  lemma EventsAreTheCommits(git: Git, range: string, articleId: string, request: Request, cs: seq<Commit>)
      returns (ps: seq<nat>)
    requires Holds(git, range, cs) && cs != []
    ensures RangeEvents(git, range, articleId, request).Ok?
    ensures forall i :: 0 <= i < |ps| ==> ps[i] < |cs|
    ensures forall i, j :: 0 <= i < j < |ps| ==> ps[i] < ps[j]
    ensures forall k :: 0 <= k < |cs| ==> (k in ps <==> !IsTracker(git, cs[k]) || AllTrackers(git, cs))
    ensures var events := RangeEvents(git, range, articleId, request).value;
      |events| == |ps| > 0
      && (forall i :: 0 <= i < |ps| ==> events[i].articleId == articleId && events[i].messageId == cs[ps[i]].sha
                                        && events[i].request == request)
      && (forall i :: 0 < i < |ps| ==> events[i].meta == cs[ps[i]].meta)
      && events[0].meta == cs[ps[0]].meta.(base := events[0].meta.base, message := events[0].meta.message)
  {
    hide Kept, HasReal, Series, IsTracker, AllTrackers, RangeEvents, Holds;
    EventsOfCommits(git, range, articleId, request, cs);
    TrackersAreNotReal(git, cs);
    KeptIsEmpty(git, cs);
    ps := KeptIsASelection(git, cs);
    SeriesIsKept(git, cs, articleId, request);
  }

  lemma SeriesIsKept(git: Git, cs: seq<Commit>, articleId: string, request: Request)
    ensures var events, kept := Series(git, cs, articleId, request), Kept(git, cs);
      |events| == |kept|
      && (forall i :: 0 <= i < |kept| ==> events[i].articleId == articleId && events[i].messageId == kept[i].sha
                                          && events[i].request == request)
      && (forall i :: 0 < i < |kept| ==> events[i].meta == kept[i].meta)
      && (kept != [] ==>
            events[0].meta == kept[0].meta.(base := events[0].meta.base, message := events[0].meta.message))
  {
    hide Kept, HasReal, LeadingBase, FirstChangeId, WithChangeId;
  }

  // ---- what the first one inherits ----

  /** The first tracker with a base, ahead of every real commit. */
  ghost predicate GivesBase(git: Git, cs: seq<Commit>, k: nat) {
    && k < |cs| && IsTracker(git, cs[k]) && cs[k].meta.base.Some?
    && forall j :: 0 <= j < k ==> IsTracker(git, cs[j]) && cs[j].meta.base.None?
  }

  /** The first of all trackers with a change id. */
  ghost predicate GivesChangeId(git: Git, cs: seq<Commit>, k: nat) {
    && k < |cs| && ChangeIdOf(git, cs[k]).Some?
    && forall j :: 0 <= j < k ==> ChangeIdOf(git, cs[j]).None?
  }

  function ChangeIdOf(git: Git, c: Commit): Option<string> {
    var tracker := git.tracking(c.meta.subject, c.meta.message, c.meta.diff);
    if tracker.Some? then tracker.value.changeId else None
  }

  /** The first commit of those that make events. */
  ghost predicate IsFirst(git: Git, cs: seq<Commit>, first: nat) {
    && first < |cs| && (IsTracker(git, cs[first]) ==> AllTrackers(git, cs) && first == 0)
    && (!AllTrackers(git, cs) ==> forall j :: 0 <= j < first ==> IsTracker(git, cs[j]))
  }

  lemma {:induction false} FirstReal(git: Git, cs: seq<Commit>, first: nat)
    requires first < |cs| && git.IsReal(cs[first]) && forall j :: 0 <= j < first ==> !git.IsReal(cs[j])
    ensures Reals(git, cs) != [] && Reals(git, cs)[0] == cs[first]
  {
    if first > 0 {
      assert cs[1..][first - 1] == cs[first];
      FirstReal(git, cs[1..], first - 1);
    }
  }

  lemma FirstIsKept(git: Git, cs: seq<Commit>, first: nat)
    requires IsFirst(git, cs, first)
    ensures Kept(git, cs) != [] && Kept(git, cs)[0] == cs[first]
  {
    TrackersAreNotReal(git, cs);
    if HasReal(git, cs) {
      FirstReal(git, cs, first);
    }
  }

  lemma FirstEvent(git: Git, range: string, articleId: string, request: Request, cs: seq<Commit>, first: nat)
    requires Holds(git, range, cs) && cs != [] && IsFirst(git, cs, first)
    ensures RangeEvents(git, range, articleId, request).Ok?
    ensures var events := RangeEvents(git, range, articleId, request).value;
      events != [] && events[0].meta == Heading(git, cs, cs[first].meta)
  {
    hide Kept, Heading, IsFirst;
    EventsOfCommits(git, range, articleId, request, cs);
    FirstIsKept(git, cs, first);
  }

  /** Where there are real commits, the first event has the base of the first tracker with
      one among those ahead of them all; where no such tracker is, or nothing but trackers,
      it has its own. */
  lemma FirstEventInheritsBase(git: Git, range: string, articleId: string, request: Request, cs: seq<Commit>,
          first: nat)
    requires Holds(git, range, cs) && cs != [] && IsFirst(git, cs, first)
    ensures RangeEvents(git, range, articleId, request).Ok? && RangeEvents(git, range, articleId, request).value != []
    ensures var base := RangeEvents(git, range, articleId, request).value[0].meta.base;
      (forall k: nat :: !AllTrackers(git, cs) && GivesBase(git, cs, k) ==> base == cs[k].meta.base)
      && (AllTrackers(git, cs) || (forall k: nat :: !GivesBase(git, cs, k)) ==> base == cs[first].meta.base)
  {
    hide AllTrackers, Holds, FirstChangeId, WithChangeId, HasReal;
    FirstEvent(git, range, articleId, request, cs, first);
    TrackersAreNotReal(git, cs);
    forall k: nat | GivesBase(git, cs, k) ensures LeadingBase(git, cs) == cs[k].meta.base {
      LeadingBaseIs(git, cs, cs[k].meta.base.value);
    }
    if LeadingBase(git, cs).Some? {
      var base := LeadingBase(git, cs).value;
      LeadingBaseIs(git, cs, base);
      var k :| 0 <= k < |cs| && cs[k].meta.base == Some(base) && !git.IsReal(cs[k])
        && forall j :: 0 <= j < k ==> !git.IsReal(cs[j]) && cs[j].meta.base.None?;
      assert GivesBase(git, cs, k);
    }
  }

  lemma {:induction false} FirstChangeIdIs(git: Git, cs: seq<Commit>, k: nat)
    requires GivesChangeId(git, cs, k)
    ensures FirstChangeId(git, cs) == ChangeIdOf(git, cs[k])
  {
    if k > 0 {
      assert ChangeIdOf(git, cs[0]).None? && cs[1..][k - 1] == cs[k];
      assert forall j :: 0 <= j < k - 1 ==> cs[1..][j] == cs[j + 1];
      FirstChangeIdIs(git, cs[1..], k - 1);
    }
  }

  lemma {:induction false} NoChangeId(git: Git, cs: seq<Commit>)
    requires forall j :: 0 <= j < |cs| ==> ChangeIdOf(git, cs[j]).None?
    ensures FirstChangeId(git, cs) == None
  {
    if cs != [] {
      assert ChangeIdOf(git, cs[0]).None?;
      NoChangeId(git, cs[1..]);
    }
  }

  /** A message that names no change gets the change id in a paragraph of its own. */
  function Signed(message: string, id: string): string {
    if message == "" || message[|message| - 1] == '\n' then message + "\nchange-id: " + id
    else message + "\n\nchange-id: " + id
  }

  /** Where there are real commits and some tracker carries a change id, the first message
      gets it unless it names one already; otherwise the message is left alone. */
  lemma FirstEventGetsChangeId(git: Git, range: string, articleId: string, request: Request, cs: seq<Commit>,
          first: nat)
    requires Holds(git, range, cs) && cs != [] && IsFirst(git, cs, first)
    ensures RangeEvents(git, range, articleId, request).Ok? && RangeEvents(git, range, articleId, request).value != []
    ensures var message := RangeEvents(git, range, articleId, request).value[0].meta.message;
      var own := cs[first].meta.message;
      (AllTrackers(git, cs) || Contains(Lower(own), "change-id:") ==> message == own)
      && ((forall k: nat :: !GivesChangeId(git, cs, k)) ==> message == own)
      && (forall k: nat :: !AllTrackers(git, cs) && !Contains(Lower(own), "change-id:") && GivesChangeId(git, cs, k) ==>
            message == Signed(own, ChangeIdOf(git, cs[k]).value))
  {
    hide AllTrackers, Holds, LeadingBase, HasReal, Contains, Lower;
    FirstEvent(git, range, articleId, request, cs, first);
    TrackersAreNotReal(git, cs);
    forall k: nat | GivesChangeId(git, cs, k) ensures FirstChangeId(git, cs) == ChangeIdOf(git, cs[k]) {
      FirstChangeIdIs(git, cs, k);
    }
    if forall k: nat :: !GivesChangeId(git, cs, k) {
      NobodyGives(git, cs, |cs|);
      NoChangeId(git, cs);
    }
    SignedIs(cs[first].meta.message);
  }

  lemma SignedIs(message: string)
    ensures forall id :: !Contains(Lower(message), "change-id:") ==> WithChangeId(message, id) == Signed(message, id)
  {
    hide Contains, Lower;
    forall id | !Contains(Lower(message), "change-id:") ensures WithChangeId(message, id) == Signed(message, id) {
      assert message + "\n" + "\nchange-id: " == message + "\n\nchange-id: ";
    }
  }

  lemma {:induction false} NobodyGives(git: Git, cs: seq<Commit>, n: nat)
    requires n <= |cs| && forall k: nat :: !GivesChangeId(git, cs, k)
    ensures forall j :: 0 <= j < n ==> ChangeIdOf(git, cs[j]).None?
  {
    hide ChangeIdOf;
    if n > 0 {
      NobodyGives(git, cs, n - 1);
      assert !GivesChangeId(git, cs, n - 1);
    }
  }
}
