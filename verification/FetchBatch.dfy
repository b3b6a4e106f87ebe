/** The in-memory fetch queue: one remote fetch per repository, then one outcome per
    queued commit or range.

    Every answer git or the network gives is an oracle indexed by what was asked and on
    behalf of which item, so the same question may be answered differently each time. */
module FetchBatch {
  import opened Options
  import opened Results
  import opened Text
  import opened RangeExtraction

  type Url = Option<string>

  datatype World = World(
    present: (Url, string, nat) -> bool,      // the n-th endpoint of an item, when it was checked
    isLocal: string -> bool,
    setUp: string -> Option<string>,          // error of adding the remote
    fetch: (string, seq<string>) -> Option<string>,
    fetchAll: string -> Option<string>,
    git: (Url, string) -> Git,                // git while an item is extracted
    resolveSha: (Url, string) -> Result<string>,
    requests: map<string, Request>,           // merge request metadata by commit or range
    redact: string -> string,
    decimal: int -> string)

  datatype Event = Submitted(s: Submission) | IngestionFailed(articleId: string, error: string)

  /** What one queued item put on the channel. */
  datatype Job = Job(url: Url, item: string, events: seq<Event>)

  // ---- Endpoints ----

  predicate IsRange(item: string) {
    Contains(item, "..")
  }

  function TrimDots(s: string): string {
    if s != [] && s[0] == '.' then TrimDots(s[1..]) else s
  }

  function NonEmpty(s: string): seq<string> {
    if s == "" then [] else [s]
  }

  /** A range has two endpoints, fewer when one side is empty, and none when it holds a
      second separator. */
  function Endpoints(item: string): seq<string> {
    if !IsRange(item) then [item]
    else
      var i := IndexOf(item, "..");
      var rest := item[i + 2..];
      if IsRange(rest) then [] else NonEmpty(item[..i]) + NonEmpty(TrimDots(rest))
  }

  lemma {:induction false} IndexAfter(base: string, rest: string)
    requires !IsRange(base) && (base != [] ==> base[|base| - 1] != '.')
    ensures IsRange(base + ".." + rest) && IndexOf(base + ".." + rest, "..") == |base|
    decreases |base|
  {
    var s := base + ".." + rest;
    if base == [] {
      assert ".." <= s;
    } else {
      assert s[1..] == base[1..] + ".." + rest;
      IndexAfter(base[1..], rest);
      assert s[0] == base[0] && (|base| >= 2 ==> s[1] == base[1]);
    }
  }

  lemma EndpointsAfter(base: string, rest: string)
    requires base != "" && !IsRange(base) && base[|base| - 1] != '.' && !IsRange(rest)
    ensures Endpoints(base + ".." + rest) == [base] + NonEmpty(TrimDots(rest))
  {
    hide IsRange, IndexOf, TrimDots;
    IndexAfter(base, rest);
    var item := base + ".." + rest;
    assert item[|base| + 2..] == rest && item[..|base|] == base;
  }

  /** `base..head` and `base...head` name the two commits they are written with. */
  lemma EndpointsOfRange(base: string, head: string, three: bool)
    requires base != "" && !IsRange(base) && base[|base| - 1] != '.'
    requires head != "" && !IsRange(head) && head[0] != '.'
    ensures Endpoints(base + (if three then "..." else "..") + head) == [base, head]
  {
    hide Endpoints, IsRange, TrimDots;
    var rest := (if three then "." else "") + head;
    HeadOfRange(head, three);
    EndpointsAfter(base, rest);
    assert (if three then "..." else "..") == ".." + if three then "." else "";
    assert base + (if three then "..." else "..") + head == base + ".." + rest;
  }

  lemma HeadOfRange(head: string, three: bool)
    requires head != "" && !IsRange(head) && head[0] != '.'
    ensures var rest := (if three then "." else "") + head; !IsRange(rest) && TrimDots(rest) == head
  {
    var rest := (if three then "." else "") + head;
    if three {
      assert rest[1..] == head && rest[1] == head[0];
    } else {
      assert rest == head;
    }
  }

  // ---- What each item comes to ----

  predicate Needs(w: World, url: Url, item: string) {
    exists k :: 0 <= k < |Endpoints(item)| && !w.present(url, item, k)
  }

  predicate AbsentFor(w: World, url: Url, item: string, e: string) {
    exists k :: 0 <= k < |Endpoints(item)| && !w.present(url, item, k) && Endpoints(item)[k] == e
  }

  function RequestOf(w: World, item: string): Request {
    if item in w.requests then w.requests[item] else Request(None, None, None)
  }

  function ArticleId(w: World, item: string): string {
    match RequestOf(w, item).number
    case Some(n) => "mr-" + w.decimal(n) + "-" + item
    case None => item
  }

  function Sent(events: seq<Submission>): seq<Event> {
    seq(|events|, i requires 0 <= i < |events| => Submitted(events[i]))
  }

  function RangeItem(w: World, url: Url, range: string): seq<Event> {
    match RangeEvents(w.git(url, range), range, ArticleId(w, range), RequestOf(w, range))
    case Ok(events) => Sent(events)
    case Err(error) => [IngestionFailed(ArticleId(w, range), error)]
  }

  function CommitEvent(w: World, url: Url, commit: string): Result<Submission> {
    match w.resolveSha(url, commit)
    case Err(e) => Err("Failed to resolve SHA: " + w.redact(e))
    case Ok(sha) =>
      match w.git(url, commit).read(sha)
      case Err(e) => Err("Failed to extract patch: " + w.redact(e))
      case Ok(meta) => Ok(Submission(ArticleId(w, commit), sha, meta, 1, 1, RequestOf(w, commit)))
  }

  function CommitItem(w: World, url: Url, commit: string): seq<Event> {
    match CommitEvent(w, url, commit)
    case Ok(event) => [Submitted(event)]
    case Err(error) => [IngestionFailed(ArticleId(w, commit), error)]
  }

  function ItemEvents(w: World, url: Url, item: string): seq<Event> {
    if IsRange(item) then RangeItem(w, url, item) else CommitItem(w, url, item)
  }

  /** The error that stops every item of a repository still missing a commit. */
  function RemoteError(w: World, url: Url, missing: seq<string>): Option<string> {
    if missing == [] || url.None? || w.isLocal(url.value) then None
    else
      var name := w.redact(url.value);
      var down := w.setUp(url.value);
      if down.Some? then Some("Failed to set up remote " + name + ": " + w.redact(down.value))
      else if w.fetch(url.value, missing).None? then None
      else
        var full := w.fetchAll(url.value);
        if full.Some? then Some("Failed to fetch from " + name + ": " + w.redact(full.value)) else None
  }

  function Outcome(w: World, url: Url, item: string, error: Option<string>): seq<Event> {
    if error.Some? && Needs(w, url, item) then [IngestionFailed(ArticleId(w, item), error.value)]
    else ItemEvents(w, url, item)
  }

  function Posted(jobs: seq<Job>): seq<Event> {
    if jobs == [] then [] else Posted(jobs[..|jobs| - 1]) + jobs[|jobs| - 1].events
  }

  lemma PostedNone()
    ensures Posted([]) == []
  {
  }

  lemma PostedAppend(jobs: seq<Job>, job: Job)
    ensures Posted(jobs + [job]) == Posted(jobs) + job.events
  {
    assert (jobs + [job])[..|jobs|] == jobs;
  }

  lemma {:induction false} PostedConcat(a: seq<Job>, b: seq<Job>)
    ensures Posted(a + b) == Posted(a) + Posted(b)
    decreases |b|
  {
    if b == [] {
      assert a + b == a;
    } else {
      var front := b[..|b| - 1];
      assert (a + b)[..|a + b| - 1] == a + front;
      PostedConcat(a, front);
    }
  }

  // ---- The agent ----

  ghost predicate Distinct<T(!new)>(s: seq<T>) {
    forall i, j :: 0 <= i < j < |s| ==> s[i] != s[j]
  }

  function Members(list: seq<string>): set<string> {
    set i | i in list
  }

  /** The absent endpoints of the items, each once. */
  ghost predicate IsMissing(w: World, url: Url, items: set<string>, missing: seq<string>) {
    Distinct(missing) && forall e :: e in missing <==> exists i :: i in items && AbsentFor(w, url, i, e)
  }

  /** `jobs` accounts for some items of one repository: each once, with its outcome. */
  ghost predicate Accounts(w: World, url: Url, items: set<string>, error: Option<string>, jobs: seq<Job>) {
    && (forall j :: 0 <= j < |jobs| ==> jobs[j].url == url && jobs[j].item in items
                                        && jobs[j].events == Outcome(w, url, jobs[j].item, error))
    && (forall i, j :: 0 <= i < j < |jobs| ==> jobs[i].item != jobs[j].item)
    && (forall i :: i in items ==> exists j :: 0 <= j < |jobs| && jobs[j].item == i)
  }

  method InSomeOrder(items: set<string>) returns (list: seq<string>)
    ensures Distinct(list) && forall i :: i in items <==> i in list
  {
    list := [];
    var rest := items;
    while rest != {}
      invariant Distinct(list) && rest <= items
      invariant forall i :: i in list <==> i in items && i !in rest
    {
      var i :| i in rest;
      rest := rest - {i};
      list := list + [i];
    }
  }

  lemma AccountsSnoc(w: World, url: Url, items: set<string>, error: Option<string>, jobs: seq<Job>, item: string)
    requires Accounts(w, url, items, error, jobs) && item !in items
    ensures Accounts(w, url, items + {item}, error, jobs + [Job(url, item, Outcome(w, url, item, error))])
  {
    hide Outcome;
    var more := jobs + [Job(url, item, Outcome(w, url, item, error))];
    forall i | i in items + {item} ensures exists j :: 0 <= j < |more| && more[j].item == i {
      if i == item {
        assert more[|jobs|].item == i;
      } else {
        var j :| 0 <= j < |jobs| && jobs[j].item == i;
        assert more[j].item == i;
      }
    }
  }

  // ---- The whole queue ----

  function ErrorOf(w: World, missing: map<Url, seq<string>>, url: Url): Option<string>
    requires url in missing
  {
    RemoteError(w, url, missing[url])
  }

  /** `missing` is right for every repository, every queued item has one job, and every
      job is a queued item's outcome. */
  ghost predicate Balanced(w: World, queue: map<Url, set<string>>, missing: map<Url, seq<string>>, jobs: seq<Job>)
    requires missing.Keys == queue.Keys
  {
    && (forall url :: url in queue ==> IsMissing(w, url, queue[url], missing[url]))
    && (forall j :: 0 <= j < |jobs| ==>
          (jobs[j].url in queue && jobs[j].item in queue[jobs[j].url]
           && jobs[j].events == Outcome(w, jobs[j].url, jobs[j].item, ErrorOf(w, missing, jobs[j].url))))
    && (forall i, j :: 0 <= i < j < |jobs| ==> (jobs[i].url, jobs[i].item) != (jobs[j].url, jobs[j].item))
    && (forall url, i :: url in queue && i in queue[url] ==>
          exists j :: 0 <= j < |jobs| && jobs[j].url == url && jobs[j].item == i)
  }

  lemma BalancedEmpty(w: World)
    ensures Balanced(w, map[], map[], [])
  {
  }

  lemma NothingToAccount(w: World, url: Url)
    ensures Accounts(w, url, {}, RemoteError(w, url, []), []) && IsMissing(w, url, {}, [])
  {
  }

  lemma BalancedExtend(w: World, queue: map<Url, set<string>>, missing: map<Url, seq<string>>, jobs: seq<Job>,
                       url: Url, items: set<string>, absent: seq<string>, more: seq<Job>)
    requires missing.Keys == queue.Keys && Balanced(w, queue, missing, jobs) && url !in queue
    requires Accounts(w, url, items, RemoteError(w, url, absent), more) && IsMissing(w, url, items, absent)
    ensures missing[url := absent].Keys == queue[url := items].Keys
    ensures Balanced(w, queue[url := items], missing[url := absent], jobs + more)
  {
    hide Outcome, RemoteError, IsMissing;
    var queue2, missing2, all := queue[url := items], missing[url := absent], jobs + more;
    assert missing2.Keys == missing.Keys + {url} && queue2.Keys == queue.Keys + {url};
    forall u, i | u in queue2 && i in queue2[u]
      ensures exists j :: 0 <= j < |all| && all[j].url == u && all[j].item == i
    {
      if u == url {
        var j :| 0 <= j < |more| && more[j].item == i;
        assert all[|jobs| + j] == more[j];
      } else {
        var j :| 0 <= j < |jobs| && jobs[j].url == u && jobs[j].item == i;
        assert all[j] == jobs[j];
      }
    }
  }

  lemma AccountsNone(w: World, url: Url, error: Option<string>)
    ensures Accounts(w, url, {}, error, [])
  {
  }

  class FetchAgent {
    const world: World
    var queue: map<Url, set<string>>
    var sent: seq<Event>

    constructor (world: World, queue: map<Url, set<string>>)
      ensures this.world == world && this.queue == queue && sent == []
    {
      this.world, this.queue, sent := world, queue, [];
    }

    method Gather(url: Url, list: seq<string>) returns (missing: seq<string>, needing: set<string>)
      ensures IsMissing(world, url, Members(list), missing)
      ensures forall i :: i in needing <==> i in list && Needs(world, url, i)
    {
      hide Endpoints;
      missing, needing := [], {};
      for n := 0 to |list|
        invariant Distinct(missing)
        invariant forall e :: e in missing <==> exists i :: i in list[..n] && AbsentFor(world, url, i, e)
        invariant forall i :: i in needing <==> i in list[..n] && Needs(world, url, i)
      {
        var endpoints := Endpoints(list[n]);
        ghost var before, needingBefore := missing, needing;
        for k := 0 to |endpoints|
          invariant Distinct(missing)
          invariant forall e :: e in missing <==>
            (e in before || exists j :: 0 <= j < k && !world.present(url, list[n], j) && endpoints[j] == e)
          invariant needing == needingBefore
            + if exists j :: 0 <= j < k && !world.present(url, list[n], j) then {list[n]} else {}
        {
          if !world.present(url, list[n], k) {
            needing := needing + {list[n]};
            if endpoints[k] !in missing {
              missing := missing + [endpoints[k]];
            }
          }
        }
        assert forall e :: e in missing <==> e in before || AbsentFor(world, url, list[n], e);
        assert list[..n + 1] == list[..n] + [list[n]];
      }
      assert list[..|list|] == list;
    }

    /** Fails every listed item that waited for the remote. */
    method FailNeeding(url: Url, list: seq<string>, needing: set<string>, error: string) returns (ghost jobs: seq<Job>)
      requires Distinct(list) && forall i :: i in needing <==> i in list && Needs(world, url, i)
      modifies this`sent
      ensures sent == old(sent) + Posted(jobs)
      ensures Accounts(world, url, needing, Some(error), jobs)
    {
      hide Needs, ArticleId, Accounts, Posted;
      jobs := [];
      PostedNone();
      AccountsNone(world, url, Some(error));
      assert needing * Members(list[..0]) == {};
      for n := 0 to |list|
        invariant sent == old(sent) + Posted(jobs)
        invariant Accounts(world, url, needing * Members(list[..n]), Some(error), jobs)
      {
        ghost var done := needing * Members(list[..n]);
        ghost var doneNext := needing * Members(list[..n + 1]);
        assert list[..n + 1] == list[..n] + [list[n]];
        if list[n] in needing {
          sent := sent + [IngestionFailed(ArticleId(world, list[n]), error)];
          ghost var job := Job(url, list[n], [IngestionFailed(ArticleId(world, list[n]), error)]);
          assert list[n] !in done && doneNext == done + {list[n]};
          AccountsSnoc(world, url, done, Some(error), jobs, list[n]);
          PostedAppend(jobs, job);
          jobs := jobs + [job];
        } else {
          assert doneNext == done;
        }
      }
      assert list[..|list|] == list;
      assert needing * Members(list) == needing;
    }

    method ProcessRangeItem(url: Url, range: string)
      modifies this`sent
      ensures sent == old(sent) + RangeItem(world, url, range)
    {
      hide RangeEvents;
      var r := ExtractRange(world.git(url, range), range, ArticleId(world, range), RequestOf(world, range));
      match r
      case Err(error) =>
        sent := sent + [IngestionFailed(ArticleId(world, range), error)];
      case Ok(events) =>
        for i := 0 to |events|
          invariant sent == old(sent) + Sent(events)[..i]
        {
          assert Sent(events)[..i + 1] == Sent(events)[..i] + [Submitted(events[i])];
          sent := sent + [Submitted(events[i])];
        }
        assert Sent(events)[..|events|] == Sent(events);
    }

    method ProcessSingleCommitItem(url: Url, commit: string)
      modifies this`sent
      ensures sent == old(sent) + CommitItem(world, url, commit)
    {
      match CommitEvent(world, url, commit)
      case Err(error) => sent := sent + [IngestionFailed(ArticleId(world, commit), error)];
      case Ok(event) => sent := sent + [Submitted(event)];
    }

    /** The rest of the list, skipping what the failed fetch already failed. */
    method ProcessItems(url: Url, list: seq<string>, needing: set<string>, failed: bool, ghost error: Option<string>,
                        ghost before: seq<Job>)
      returns (ghost jobs: seq<Job>)
      requires Distinct(list) && (forall i :: i in needing <==> i in list && Needs(world, url, i))
      requires failed == error.Some?
      requires Accounts(world, url, if failed then needing else {}, error, before)
      modifies this`sent
      ensures before <= jobs && sent == old(sent) + Posted(jobs[|before|..])
      ensures Accounts(world, url, Members(list), error, jobs)
    {
      hide Needs, RangeItem, CommitItem, IsRange, Accounts, Posted;
      PostedNone();
      jobs := before;
      assert jobs[|before|..] == [];
      ghost var done := if failed then needing else {};
      for n := 0 to |list|
        invariant before <= jobs && sent == old(sent) + Posted(jobs[|before|..])
        invariant done == Members(list[..n]) + if failed then needing else {}
        invariant Accounts(world, url, done, error, jobs)
      {
        assert list[..n + 1] == list[..n] + [list[n]];
        if !(failed && list[n] in needing) {
          if IsRange(list[n]) {
            ProcessRangeItem(url, list[n]);
          } else {
            ProcessSingleCommitItem(url, list[n]);
          }
          ghost var item := list[n];
          ghost var job := Job(url, item, Outcome(world, url, item, error));
          assert error.Some? ==> !Needs(world, url, item);
          assert job.events == ItemEvents(world, url, item);
          AccountsSnoc(world, url, done, error, jobs, list[n]);
          PostedAppend(jobs[|before|..], job);
          assert (jobs + [job])[|before|..] == jobs[|before|..] + [job];
          jobs := jobs + [job];
          done := done + {list[n]};
        }
      }
      assert list[..|list|] == list;
      assert done == Members(list);
    }

    method ProcessRepository(url: Url, items: set<string>) returns (ghost jobs: seq<Job>, ghost missing: seq<string>)
      modifies this`sent
      ensures IsMissing(world, url, items, missing)
      ensures sent == old(sent) + Posted(jobs)
      ensures Accounts(world, url, items, RemoteError(world, url, missing), jobs)
    {
      hide Needs, Accounts, Posted;
      var list := InSomeOrder(items);
      PostedNone();
      AccountsNone(world, url, None);
      assert items == Members(list);
      var absent, needing := Gather(url, list);
      missing := absent;
      jobs := [];
      var failed := false;
      ghost var error := None;
      if absent != [] && url.Some? && !world.isLocal(url.value) {
        var name := world.redact(url.value);
        var down := world.setUp(url.value);
        if down.Some? {
          error := Some("Failed to set up remote " + name + ": " + world.redact(down.value));
          jobs := FailNeeding(url, list, needing, "Failed to set up remote " + name + ": " + world.redact(down.value));
          failed := true;
        } else if world.fetch(url.value, absent).Some? {
          var full := world.fetchAll(url.value);
          if full.Some? {
            error := Some("Failed to fetch from " + name + ": " + world.redact(full.value));
            jobs := FailNeeding(url, list, needing, "Failed to fetch from " + name + ": " + world.redact(full.value));
            failed := true;
          }
        }
      }
      assert error == RemoteError(world, url, missing);
      ghost var early := jobs;
      jobs := ProcessItems(url, list, needing, failed, error, early);
      PostedConcat(early, jobs[|early|..]);
      assert jobs == early + jobs[|early|..];
      Assoc(old(sent), Posted(early), Posted(jobs[|early|..]));
    }

    /** Every queued item leaves exactly one outcome on the channel. */
    method ProcessQueue() returns (ghost jobs: seq<Job>, ghost missing: map<Url, seq<string>>)
      modifies this
      ensures queue == map[]
      ensures sent == old(sent) + Posted(jobs)
      ensures missing.Keys == old(queue).Keys
      ensures Balanced(world, old(queue), missing, jobs)
    {
      hide Accounts, Balanced, IsMissing, Posted, RemoteError, Outcome, ErrorOf;
      jobs, missing := [], map[];
      BalancedEmpty(world);
      PostedNone();
      var whole := queue;
      ghost var done: map<Url, set<string>> := map[];
      while queue != map[]
        invariant queue.Keys <= whole.Keys && forall url :: url in queue ==> queue[url] == whole[url]
        invariant done.Keys == whole.Keys - queue.Keys && forall url :: url in done ==> done[url] == whole[url]
        invariant sent == old(sent) + Posted(jobs)
        invariant missing.Keys == done.Keys
        invariant Balanced(world, done, missing, jobs)
        decreases |queue.Keys|
      {
        var url :| url in queue;
        var items := queue[url];
        ghost var before := queue.Keys;
        queue := queue - {url};
        assert queue.Keys == before - {url};
        ghost var more, absent := [], [];
        if items != {} {
          more, absent := ProcessRepository(url, items);
        } else {
          NothingToAccount(world, url);
        }
        BalancedExtend(world, done, missing, jobs, url, items, absent, more);
        PostedConcat(jobs, more);
        Assoc(old(sent), Posted(jobs), Posted(more));
        jobs := jobs + more;
        missing := missing[url := absent];
        done := done[url := items];
      }
      assert done == whole;
    }
  }

  // ---- What the balance means ----

  function Queued(queue: map<Url, set<string>>): set<(Url, string)> {
    set url, i | url in queue && i in queue[url] :: (url, i)
  }

  function Keys(jobs: seq<Job>): seq<(Url, string)> {
    seq(|jobs|, j requires 0 <= j < |jobs| => (jobs[j].url, jobs[j].item))
  }

  lemma {:induction false} DistinctSize<T(!new)>(s: seq<T>)
    requires Distinct(s)
    ensures |set x | x in s| == |s|
  {
    if s != [] {
      var front, last := s[..|s| - 1], s[|s| - 1];
      DistinctSize(front);
      assert last !in front;
      assert (set x | x in s) == (set x | x in front) + {last};
    } else {
      assert (set x | x in s) == {};
    }
  }

  /** As many outcomes leave as items were queued. */
  lemma AsManyOutcomesAsItems(w: World, queue: map<Url, set<string>>, missing: map<Url, seq<string>>, jobs: seq<Job>)
    requires missing.Keys == queue.Keys && Balanced(w, queue, missing, jobs)
    ensures |jobs| == |Queued(queue)|
  {
    hide Outcome, IsMissing;
    var keys := Keys(jobs);
    forall url, i | (url, i) in Queued(queue) ensures (url, i) in keys {
      var j :| 0 <= j < |jobs| && jobs[j].url == url && jobs[j].item == i;
      assert keys[j] == (url, i);
    }
    assert (set x | x in keys) == Queued(queue);
    DistinctSize(keys);
  }

  /** An outcome is one failure or a complete, non-empty batch of submissions, and it
      carries the item's article id throughout. */
  predicate IsWhole(w: World, item: string, events: seq<Event>) {
    || (|events| == 1 && events[0].IngestionFailed? && events[0].articleId == ArticleId(w, item))
    || (events != [] && forall k :: 0 <= k < |events| ==>
          (events[k].Submitted? && events[k].s.articleId == ArticleId(w, item)
           && events[k].s.index == U32(k + 1) && events[k].s.total == U32(|events|)))
  }

  lemma OutcomesAreWhole(w: World, url: Url, item: string, error: Option<string>)
    ensures IsWhole(w, item, Outcome(w, url, item, error))
  {
    hide ArticleId, Needs, IsRange;
    var events := Outcome(w, url, item, error);
    if error.Some? && Needs(w, url, item) {
      assert events == [IngestionFailed(ArticleId(w, item), error.value)];
    } else if IsRange(item) {
      RangeIsAllOrNothing(w.git(url, item), item, ArticleId(w, item), RequestOf(w, item));
      var r := RangeEvents(w.git(url, item), item, ArticleId(w, item), RequestOf(w, item));
      if r.Err? {
        assert events == [IngestionFailed(ArticleId(w, item), r.error)];
      }
    } else {
      var r := CommitEvent(w, url, item);
      if r.Err? {
        assert events == [IngestionFailed(ArticleId(w, item), r.error)];
      }
    }
  }

  /** Job `j` failed because the remote of its repository did, and it has an absent
      endpoint, which was asked for. */
  ghost predicate FailedByRemote(w: World, missing: map<Url, seq<string>>, job: Job)
    requires job.url in missing
  {
    && ErrorOf(w, missing, job.url).Some?
    && job.events == [IngestionFailed(ArticleId(w, job.item), ErrorOf(w, missing, job.url).value)]
    && exists k :: 0 <= k < |Endpoints(job.item)| && Endpoints(job.item)[k] in missing[job.url]
                   && !w.present(job.url, job.item, k)
  }

  /** Whatever the remotes do, every item with its endpoints present gets what git yields
      for it, and a remote that fails is reported by some item of its repository. */
  lemma RemoteFailsOnlyTheNeedy(w: World, queue: map<Url, set<string>>, missing: map<Url, seq<string>>, jobs: seq<Job>)
    requires missing.Keys == queue.Keys && Balanced(w, queue, missing, jobs)
    ensures forall j :: 0 <= j < |jobs| ==>
      jobs[j].events == ItemEvents(w, jobs[j].url, jobs[j].item) || FailedByRemote(w, missing, jobs[j])
    ensures forall url :: url in queue && ErrorOf(w, missing, url).Some? ==>
      exists j :: 0 <= j < |jobs| && jobs[j].url == url && FailedByRemote(w, missing, jobs[j])
  {
    hide RemoteError, ItemEvents, Endpoints, ArticleId;
    forall j | 0 <= j < |jobs| && Needs(w, jobs[j].url, jobs[j].item) && ErrorOf(w, missing, jobs[j].url).Some?
      ensures FailedByRemote(w, missing, jobs[j])
    {
      var url, item := jobs[j].url, jobs[j].item;
      var k :| 0 <= k < |Endpoints(item)| && !w.present(url, item, k);
      assert AbsentFor(w, url, item, Endpoints(item)[k]);
    }
    forall url | url in queue && ErrorOf(w, missing, url).Some?
      ensures exists j :: 0 <= j < |jobs| && jobs[j].url == url && FailedByRemote(w, missing, jobs[j])
    {
      AskedOnlyWhenMissing(w, url, missing[url]);
      assert missing[url][0] in missing[url];
      var i :| i in queue[url] && AbsentFor(w, url, i, missing[url][0]);
      var j :| 0 <= j < |jobs| && jobs[j].url == url && jobs[j].item == i;
    }
  }

  lemma AskedOnlyWhenMissing(w: World, url: Url, missing: seq<string>)
    requires RemoteError(w, url, missing).Some?
    ensures missing != []
  {
  }
}
