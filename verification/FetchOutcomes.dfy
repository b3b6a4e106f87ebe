/** What every queued item comes to, told from the answers of git and the network. */
module FetchOutcomes {
  import opened Options
  import opened Results
  import opened Text
  import opened RangeExtraction
  import opened FetchBatch

  /** Some endpoint of the item was not there when it was checked. */
  ghost predicate LacksEndpoint(w: World, url: Url, item: string) {
    exists k :: 0 <= k < |Endpoints(item)| && !w.present(url, item, k)
  }

  /** The remote was asked, and neither the missing commits nor everything could be fetched. */
  ghost predicate BothFetchesFail(w: World, remote: string, missing: seq<string>) {
    w.setUp(remote).None? && w.fetch(remote, missing).Some? && w.fetchAll(remote).Some?
  }

  /** The item's repository is a remote one. */
  ghost predicate IsRemote(w: World, url: Url) {
    url.Some? && !w.isLocal(url.value)
  }

  /** The article id an item's events carry. */
  function IdOf(w: World, item: string): string {
    if item in w.requests && w.requests[item].number.Some?
    then "mr-" + w.decimal(w.requests[item].number.value) + "-" + item
    else item
  }

  lemma MissingWhenLacking(w: World, queue: map<Url, set<string>>, missing: map<Url, seq<string>>, url: Url,
          item: string)
    requires missing.Keys == queue.Keys && url in queue && item in queue[url]
    requires IsMissing(w, url, queue[url], missing[url]) && LacksEndpoint(w, url, item)
    ensures missing[url] != []
  {
    hide Endpoints;
    var k :| 0 <= k < |Endpoints(item)| && !w.present(url, item, k);
    var e := Endpoints(item)[k];
    assert AbsentFor(w, url, item, e);
    assert e in missing[url];
  }

  /** An item that lacks an endpoint fails when its remote cannot be set up, and when neither
      the missing commits nor the whole remote can be fetched; with the remote's error, once. */
  lemma RemoteDecidesNeedyItems(w: World, queue: map<Url, set<string>>, missing: map<Url, seq<string>>,
          jobs: seq<Job>, j: nat)
    requires missing.Keys == queue.Keys && Balanced(w, queue, missing, jobs) && j < |jobs|
    requires LacksEndpoint(w, jobs[j].url, jobs[j].item) && IsRemote(w, jobs[j].url)
    ensures jobs[j].url in queue
    ensures var remote, id := jobs[j].url.value, IdOf(w, jobs[j].item);
      (w.setUp(remote).Some? ==>
         jobs[j].events == [IngestionFailed(id, "Failed to set up remote " + w.redact(remote) + ": "
                                                + w.redact(w.setUp(remote).value))])
      && (BothFetchesFail(w, remote, missing[jobs[j].url]) ==>
            jobs[j].events == [IngestionFailed(id, "Failed to fetch from " + w.redact(remote) + ": "
                                                   + w.redact(w.fetchAll(remote).value))])
  {
    hide Endpoints, IsMissing, ItemEvents;
    var job := jobs[j];
    assert job.url in queue && job.item in queue[job.url];
    MissingWhenLacking(w, queue, missing, job.url, job.item);
  }

  /** Every other item gets what git then yields for it: one that has its endpoints, one of a
      local repository, and one whose commits, or whose whole remote, could be fetched. */
  lemma OthersAreExtracted(w: World, queue: map<Url, set<string>>, missing: map<Url, seq<string>>, jobs: seq<Job>,
          j: nat)
    requires missing.Keys == queue.Keys && Balanced(w, queue, missing, jobs) && j < |jobs|
    ensures jobs[j].url in queue
    ensures var url := jobs[j].url;
      !LacksEndpoint(w, url, jobs[j].item) || !IsRemote(w, url)
      || (w.setUp(url.value).None? && !BothFetchesFail(w, url.value, missing[url]))
      ==> jobs[j].events == ItemEvents(w, url, jobs[j].item)
  {
    hide Endpoints, IsMissing, ItemEvents;
    var job := jobs[j];
    assert job.url in queue;
  }

  /** A commit is submitted as it was read, under its full sha, as a series of one; or it
      fails with what git said. */
  lemma CommitIsSubmittedAsRead(w: World, url: Url, item: string)
    requires !Contains(item, "..")
    ensures match w.resolveSha(url, item)
            case Err(e) =>
              ItemEvents(w, url, item) == [IngestionFailed(IdOf(w, item), "Failed to resolve SHA: " + w.redact(e))]
            case Ok(sha) =>
              match w.git(url, item).read(sha)
              case Err(e) =>
                ItemEvents(w, url, item) == [IngestionFailed(IdOf(w, item), "Failed to extract patch: " + w.redact(e))]
              case Ok(meta) =>
                |ItemEvents(w, url, item)| == 1 && ItemEvents(w, url, item)[0].Submitted?
                && var s := ItemEvents(w, url, item)[0].s;
                   s.messageId == sha && s.meta == meta && s.index == s.total == 1 && s.articleId == IdOf(w, item)
                   && (item in w.requests ==> s.request == w.requests[item])
  {
  }

  /** A range is submitted as the series it resolves to, or fails with what git said. */
  lemma RangeIsSubmittedWhole(w: World, url: Url, item: string)
    requires Contains(item, "..")
    ensures var request := if item in w.requests then w.requests[item] else Request(None, None, None);
      match RangeEvents(w.git(url, item), item, IdOf(w, item), request)
      case Err(error) => ItemEvents(w, url, item) == [IngestionFailed(IdOf(w, item), error)]
      case Ok(series) =>
        |ItemEvents(w, url, item)| == |series|
        && forall i :: 0 <= i < |series| ==> ItemEvents(w, url, item)[i] == Submitted(series[i])
  {
    hide RangeEvents;
  }

  // ---- endpoints ----

  /** A commit is its own endpoint. */
  lemma EndpointOfCommit(item: string)
    requires !Contains(item, "..")
    ensures Endpoints(item) == [item]
  {
  }

  /** A side that is empty is no endpoint. */
  lemma EndpointsOfHalfRange(side: string)
    requires side != "" && !Contains(side, "..") && side[0] != '.' && side[|side| - 1] != '.'
    ensures Endpoints(side + "..") == [side] && Endpoints(".." + side) == [side]
  {
    hide Contains, Text.IndexOf, TrimDots;
    NothingContained();
    EndpointsAfter(side, "");
    assert side + ".." + "" == side + "..";
    assert NonEmpty(TrimDots("")) == [] by { NothingTrimmed(); }
    IndexAfter("", side);
    assert "" + ".." + side == ".." + side;
    assert (".." + side)[2..] == side;
    HeadOfRange(side, false);
    assert (if false then "." else "") + side == side;
  }

  /** Two separators make no range git knows, so nothing is checked. */
  lemma EndpointsOfChain(base: string, rest: string)
    requires base != "" && !Contains(base, "..") && base[|base| - 1] != '.' && Contains(rest, "..")
    ensures Endpoints(base + ".." + rest) == []
  {
    hide Contains, Text.IndexOf, TrimDots;
    IndexAfter(base, rest);
    assert (base + ".." + rest)[|base| + 2..] == rest;
  }

  lemma NothingContained()
    ensures !Contains("", "..")
  {
  }

  lemma NothingTrimmed()
    ensures TrimDots("") == "" && NonEmpty("") == []
  {
  }
}
