/** What a review comment says, told from the review alone. */
module ForgeContents {
  import opened Options
  import opened Text
  import opened Decimals
  import opened ForgeComments

  // ---- when there is nothing to say ----

  /** The patch has findings to show. */
  ghost predicate Says(p: Item) {
    p.inline.Some? && Trim(p.inline.value) != "" && Trim(p.inline.value) != "No issues found."
  }

  lemma {:induction false} FailingAre(items: seq<Item>)
    ensures forall p :: p in Failing(items) <==> p in items && p.failed
  {
    if items != [] {
      var front, last := items[..|items| - 1], items[|items| - 1];
      FailingAre(front);
      assert items == front + [last];
    }
  }

  lemma {:induction false} WithFindingsAre(items: seq<Item>)
    ensures forall p :: p in WithFindings(items) <==> p in items && Says(p)
  {
    hide Trim;
    if items != [] {
      var front, last := items[..|items| - 1], items[|items| - 1];
      WithFindingsAre(front);
      assert items == front + [last];
    }
  }

  lemma NobodyIn<T>(s: seq<T>)
    ensures s == [] <==> forall x :: x !in s
  {
    if s != [] {
      assert s[0] in s;
    }
  }

  /** A review is confirmed as clean exactly when nothing failed and no patch has findings. */
  lemma CleanExactly(r: Review)
    ensures IsClean(r) <==> !r.failed && forall p :: p in r.items ==> !p.failed && !Says(p)
    ensures IsClean(r) ==> Comment(r) == Confirmation(r)
  {
    hide Says;
    FailingAre(r.items);
    WithFindingsAre(r.items);
    NobodyIn(Failing(r.items));
    NobodyIn(WithFindings(r.items));
  }

  /** The header names the version from the second on. */
  lemma HeaderNamesVersion(r: Review)
    ensures r.version.Some? && r.version.value >= 2 ==>
      Header(r.version) == "### Sashiko review " + DASH + " v" + Natural(r.version.value)
    ensures r.version.None? || r.version.value < 2 ==> Header(r.version) == "### Sashiko review"
  {
    hide Natural;
    assert HEADER + " " == "### Sashiko review ";
  }

  // ---- the link ----

  lemma {:induction false} SchemeEnds(scheme: string, rest: string)
    requires ':' !in scheme
    ensures IndexOf(scheme + "://" + rest, "://") == |scheme|
  {
    var s := scheme + "://" + rest;
    if scheme == "" {
      assert "://" <= s;
    } else {
      assert s[1..] == scheme[1..] + "://" + rest && s[0] == scheme[0];
      SchemeEnds(scheme[1..], rest);
    }
  }

  /** The log is linked under the host of its address. */
  lemma HostOfLink(scheme: string, host: string, path: string)
    requires ':' !in scheme && host != "" && '/' !in host && (path == "" || path[0] == '/')
    ensures LinkHost(scheme + "://" + host + path) == host
  {
    hide IndexOf, Find;
    var url := scheme + "://" + host + path;
    SchemeEnds(scheme, host + path);
    assert url == scheme + "://" + (host + path);
    var rest := url[|scheme| + 3..];
    assert rest == host + path;
    FindUnique(rest, IsSlash, |host|);
    assert rest[..|host|] == host;
  }

  lemma {:induction false} NoScheme(url: string)
    requires ':' !in url
    ensures IndexOf(url, "://") == |url|
  {
    if url != "" {
      assert url[0] != ':';
      NoScheme(url[1..]);
    }
  }

  /** An address without a host is linked under a default one. */
  lemma DefaultHost(url: string)
    requires ':' !in url
    ensures LinkHost(url) == "sashiko.sashiko.dev"
  {
    hide IndexOf;
    NoScheme(url);
  }

  ghost predicate EndsWith(s: string, end: string) {
    |end| <= |s| && s[|s| - |end|..] == end
  }

  lemma Ends(front: string, end: string)
    ensures EndsWith(front + end, end)
  {
  }

  lemma EndsBehind(front: string, s: string, end: string)
    requires EndsWith(s, end)
    ensures EndsWith(front + s, end)
  {
  }

  lemma FooterEnds(url: string)
    ensures EndsWith(Footer(url), "](" + url + ")\n")
  {
    hide LinkHost;
    var front := "[Full review and stage logs on " + LinkHost(url);
    assert Footer(url) == front + ("](" + url + ")\n");
    Ends(front, "](" + url + ")\n");
  }

  lemma ConfirmationEnds(r: Review)
    ensures EndsWith(Confirmation(r), "](" + r.url + ")\n")
  {
    hide LinkHost, Header, CommitWord;
    var front := Header(r.version) + BREAK + (CHECK + " **No issues found** across " + CommitWord(r.commits)
                                              + ".\n\n[Full review log on " + LinkHost(r.url));
    assert Confirmation(r) == front + ("](" + r.url + ")\n");
    Ends(front, "](" + r.url + ")\n");
  }

  /** Every comment, cut or not, ends with the link to the log. */
  lemma CommentEndsWithLink(r: Review)
    ensures EndsWith(Comment(r), "](" + r.url + ")\n")
  {
    hide Report, IsClean, Cut, EndsWith, Footer, Confirmation;
    var end := "](" + r.url + ")\n";
    FooterEnds(r.url);
    ConfirmationEnds(r);
    EndsBehind(Report(r), Footer(r.url), end);
    if IsTruncated(r) {
      EndsBehind(Report(r)[..Cut(r)] + NOTE, Footer(r.url), end);
    }
  }

  // ---- what an uncut comment holds ----

  lemma PartIsContained(a: string, p: string, b: string)
    ensures Contains(a + p + b, p)
  {
    ContainsIs(a + p + b, p);
    assert StandsAt(a + p + b, p, |a|);
  }

  /** The summary, if there is one, and behind it the findings; everything before the link. */
  lemma UncutCommentIsWhole(r: Review)
    requires !IsClean(r) && !IsTruncated(r)
    ensures Comment(r) == Header(r.version) + "\n\n" + Banner(r) + Summary(r) + Sections(WithFindings(r.items))
                          + Footer(r.url)
    ensures r.summary.Some? && Trim(r.summary.value) != "" ==> Contains(Comment(r), Trim(r.summary.value))
  {
    hide Contains, IsClean, IsTruncated, Header, Banner, Trim, Footer, Sections;
    if r.summary.Some? && Trim(r.summary.value) != "" {
      var summary := Trim(r.summary.value);
      var front := Header(r.version) + BREAK + Banner(r) + (DETAILS + "<summary>Series summary</summary>\n\n");
      var back := "\n\n</details>\n\n" + (Sections(WithFindings(r.items)) + Footer(r.url));
      assert Comment(r) == front + summary + back;
      PartIsContained(front, summary, back);
    }
  }

  /** One patch: its place in the series, its subject, and its findings. */
  ghost predicate IsSection(text: string, p: Item) {
    && p.inline.Some?
    && ("#### Commit " + Natural(p.part) + "/" + Natural(p.total) + " " + DASH + " ") <= text
    && EndsWith(text, p.subject + "\n\n" + Trim(p.inline.value) + "\n\n")
  }

  lemma SectionIs(p: Item)
    requires Says(p)
    ensures IsSection(Section(p), p)
  {
    hide Natural, Trim, Boundary;
    var front := "#### Commit " + Natural(p.part) + "/" + Natural(p.total) + " " + DASH + " ";
    var sha := if p.commit.Some? && |p.commit.value| >= 8
               then "`" + p.commit.value[..Boundary(p.commit.value, 8)] + "` " else "";
    var end := p.subject + "\n\n" + Trim(p.inline.value) + "\n\n";
    assert Section(p) == front + sha + end;
    Ends(front + sha, end);
  }

  /** The patches with findings, in their order. */
  ghost predicate Selects(items: seq<Item>, picks: seq<nat>) {
    && (forall i :: 0 <= i < |picks| ==> picks[i] < |items|)
    && (forall i, j :: 0 <= i < j < |picks| ==> picks[i] < picks[j])
    && forall k :: 0 <= k < |items| ==> (k in picks <==> Says(items[k]))
  }

  lemma OneMoreFinding(front: seq<Item>, last: Item)
    ensures WithFindings(front + [last]) == if Says(last) then WithFindings(front) + [last] else WithFindings(front)
  {
    hide Trim;
    assert (front + [last])[..|front|] == front;
  }

  lemma SelectsOneMore(front: seq<Item>, last: Item, picks: seq<nat>)
    requires Selects(front, picks)
    ensures Selects(front + [last], if Says(last) then picks + [|front|] else picks)
  {
    hide Says;
    assert |front| !in picks;
    var all := picks + [|front|];
    forall k | 0 <= k < |front| ensures k in all <==> k in picks {
    }
    assert all[|picks|] == |front|;
  }

  lemma NothingIsSelected()
    ensures Selects([], []) && WithFindings([]) == []
  {
  }

  lemma {:induction false} FindingsAreSelected(items: seq<Item>) returns (picks: seq<nat>)
    ensures Selects(items, picks) && |picks| == |WithFindings(items)|
    ensures forall i :: 0 <= i < |picks| ==> picks[i] < |items| && WithFindings(items)[i] == items[picks[i]]
    decreases |items|
  {
    hide Says, Selects, WithFindings;
    if items == [] {
      NothingIsSelected();
      picks := [];
    } else {
      var front, last := items[..|items| - 1], items[|items| - 1];
      assert front + [last] == items;
      picks := FindingsAreSelected(front);
      SelectsOneMore(front, last, picks);
      OneMoreFinding(front, last);
      if Says(last) {
        picks := picks + [|front|];
      }
    }
  }

  function SectionTexts(items: seq<Item>): seq<string> {
    seq(|items|, i requires 0 <= i < |items| => Section(items[i]))
  }

  lemma {:induction false} SectionsAreConcat(items: seq<Item>)
    ensures Sections(items) == Concat(SectionTexts(items))
    decreases |items|
  {
    hide Section;
    if items != [] {
      var front, last := items[..|items| - 1], items[|items| - 1];
      SectionsAreConcat(front);
      ConcatAppend(SectionTexts(front), [Section(last)]);
      assert SectionTexts(items) == SectionTexts(front) + [Section(last)];
      assert Concat([Section(last)]) == Section(last) + Concat([Section(last)][1..]) == Section(last);
    }
  }

  /** The findings part is one section for each patch with findings, in their order. */
  lemma SectionsAre(items: seq<Item>) returns (picks: seq<nat>, parts: seq<string>)
    ensures Selects(items, picks) && |parts| == |picks|
    ensures forall i :: 0 <= i < |parts| ==> IsSection(parts[i], items[picks[i]])
    ensures Sections(WithFindings(items)) == Concat(parts)
  {
    hide Section, IsSection, Says, Sections, WithFindings;
    picks := FindingsAreSelected(items);
    SectionsAreConcat(WithFindings(items));
    parts := SectionTexts(WithFindings(items));
    forall i | 0 <= i < |parts| ensures IsSection(parts[i], items[picks[i]]) {
      assert picks[i] in picks;
      SectionIs(items[picks[i]]);
    }
  }

  /** A comment too long is cut at the last character boundary that leaves 64 bytes and the
      footer within 60,000, and says so; nothing else is lost. */
  lemma CutCommentKeepsMost(r: Review) returns (cut: nat)
    requires !IsClean(r) && |Report(r)| + |Footer(r.url)| > 60_000 && |Footer(r.url)| + 64 <= 60_000
    ensures cut <= |Report(r)| && cut <= 60_000 - 64 - |Footer(r.url)|
    ensures forall j :: cut < j <= 60_000 - 64 - |Footer(r.url)| ==>
      0 < j < |Report(r)| && '\U{80}' <= Report(r)[j] < '\U{C0}'
    ensures Comment(r)
         == Report(r)[..cut] + ("\n\n" + ("*(comment truncated; see full report below)*" + "\n\n")) + Footer(r.url)
  {
    hide Report, Footer, IsClean;
    cut := Cut(r);
    forall j | cut < j <= 60_000 - 64 - |Footer(r.url)|
      ensures 0 < j < |Report(r)| && '\U{80}' <= Report(r)[j] < '\U{C0}'
    {
      assert !IsBoundary(Report(r), j);
    }
  }

  // ---- the banner ----

  /** The places of the patches that failed. */
  function FailedAt(items: seq<Item>): set<nat> {
    set i: nat | i < |items| && items[i].failed
  }

  lemma NobodyFailed()
    ensures FailedAt([]) == {}
  {
  }

  lemma {:induction false} FailingNumber(items: seq<Item>)
    ensures |Failing(items)| == |FailedAt(items)|
    decreases |items|
  {
    if items == [] {
      NobodyFailed();
    } else {
      var front, n := items[..|items| - 1], |items| - 1;
      FailingNumber(front);
      assert FailedAt(items) == FailedAt(front) + if items[n].failed then {n} else {};
    }
  }

  /** Failed patches are counted; a review that failed as a whole says so; otherwise there is
      no banner. */
  lemma BannerIs(r: Review)
    ensures var failed := |FailedAt(r.items)|;
      if failed > 0 then
        (Marker() + (" " + DASH + " " + Natural(failed) + " of "
                     + (if r.commits == 1 then "1 commit" else Natural(r.commits) + " commits")
                     + " failed to complete review (")) <= Banner(r)
      else Banner(r) == if r.failed then Marker() + (" " + DASH + " review failed to complete.\n\n") else ""
  {
    hide Natural, Listed, Marker, Failing;
    FailingNumber(r.items);
    var failing := Failing(r.items);
    if failing != [] {
      var front := " " + DASH + " " + Natural(|failing|) + " of " + CommitWord(r.commits)
                   + " failed to complete review (";
      assert Banner(r) == Marker() + front + (Listed(failing) + ").\n\n");
    }
  }
}
