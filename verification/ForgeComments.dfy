/** The review comment posted to a pull request, and telling whether it reports an
    incomplete review. Text is UTF-8, one `char` per byte. */
module ForgeComments {
  import opened Options
  import opened Text
  import opened Decimals

  const MAX_COMMENT: nat := 60_000
  const HEADER := "### Sashiko review"
  const DASH := "\U{E2}\U{80}\U{94}"
  const WARNING := "\U{E2}\U{9A}\U{A0}"
  const CHECK := "\U{E2}\U{9C}\U{93}"
  const BREAK := "\n\n"
  const DETAILS := "<details>\n"
  const NOTE := BREAK + ("*(comment truncated; see full report below)*" + BREAK)

  /** What an incomplete review opens with. */
  function Marker(): string {
    WARNING + " **Review incomplete**"
  }

  datatype Item = Item(part: nat, total: nat, commit: Option<string>, subject: string, inline: Option<string>,
                       failed: bool)

  datatype Review = Review(version: Option<nat>, commits: nat, summary: Option<string>, items: seq<Item>,
                           failed: bool, url: string)

  // ---- reading a comment ----

  /** Where a blank line first begins, or the length. */
  function BreakAt(s: string): nat {
    IndexOf(s, BREAK)
  }

  predicate IsIncomplete(body: string) {
    var i := BreakAt(body);
    i < |body| && HEADER <= body[..i] && i + 2 <= |body| && Marker() <= body[i + 2..]
  }

  // ---- composing ----

  function Header(version: Option<nat>): string {
    if version.Some? && version.value > 1 then HEADER + " " + DASH + " v" + Natural(version.value) else HEADER
  }

  predicate HasFindings(p: Item) {
    p.inline.Some? && Trim(p.inline.value) != "" && Trim(p.inline.value) != "No issues found."
  }

  function Failing(items: seq<Item>): seq<Item> {
    if items == [] then []
    else Failing(items[..|items| - 1]) + if items[|items| - 1].failed then [items[|items| - 1]] else []
  }

  function WithFindings(items: seq<Item>): seq<Item> {
    if items == [] then []
    else WithFindings(items[..|items| - 1]) + if HasFindings(items[|items| - 1]) then [items[|items| - 1]] else []
  }

  function CommitWord(n: nat): string {
    if n == 1 then "1 commit" else Natural(n) + " commits"
  }

  function Label(p: Item): string {
    "`" + Natural(p.part) + "/" + Natural(p.total) + "`"
  }

  function Labels(items: seq<Item>): string {
    if items == [] then "" else if |items| == 1 then Label(items[0]) else Label(items[0]) + ", " + Labels(items[1..])
  }

  function Listed(failing: seq<Item>): string {
    if |failing| > 5 then Labels(failing[..5]) + ", +" + Natural(|failing| - 5) + " more" else Labels(failing)
  }

  function Banner(r: Review): string {
    var failing := Failing(r.items);
    if failing != [] then
      Marker() + (" " + DASH + " " + Natural(|failing|) + " of " + CommitWord(r.commits)
                  + " failed to complete review (" + Listed(failing) + ").\n\n")
    else if r.failed then Marker() + (" " + DASH + " review failed to complete.\n\n")
    else ""
  }

  function Summary(r: Review): string {
    if r.summary.Some? && Trim(r.summary.value) != "" then
      DETAILS + "<summary>Series summary</summary>\n\n" + Trim(r.summary.value) + "\n\n</details>\n\n"
    else ""
  }

  predicate IsBoundary(s: string, i: nat)
    requires i <= |s|
  {
    i == 0 || i == |s| || !('\U{80}' <= s[i] < '\U{C0}')
  }

  /** The last character boundary up to `i`. */
  function Boundary(s: string, i: nat): (b: nat)
    requires i <= |s|
    ensures b <= i && IsBoundary(s, b) && forall j :: b < j <= i ==> !IsBoundary(s, j)
  {
    if IsBoundary(s, i) then i else Boundary(s, i - 1)
  }

  function Title(p: Item): string {
    "#### Commit " + Natural(p.part) + "/" + Natural(p.total) + " " + DASH + " "
    + (if p.commit.Some? && |p.commit.value| >= 8 then "`" + p.commit.value[..Boundary(p.commit.value, 8)] + "` "
       else "")
    + p.subject + "\n\n"
  }

  function Section(p: Item): string {
    Title(p) + (if p.inline.Some? then Trim(p.inline.value) + "\n\n" else "")
  }

  function Sections(items: seq<Item>): string {
    if items == [] then "" else Sections(items[..|items| - 1]) + Section(items[|items| - 1])
  }

  predicate IsSlash(c: char) {
    c == '/'
  }

  function LinkHost(url: string): string {
    var i := IndexOf(url, "://");
    var host := if i < |url| then (var rest := url[i + 3..]; rest[..Find(rest, IsSlash)]) else "";
    if host != "" then host else "sashiko.sashiko.dev"
  }

  function Footer(url: string): string {
    "[Full review and stage logs on " + LinkHost(url) + "](" + url + ")\n"
  }

  predicate IsClean(r: Review) {
    !r.failed && Failing(r.items) == [] && WithFindings(r.items) == []
  }

  function Confirmation(r: Review): string {
    Header(r.version) + BREAK + (CHECK + " **No issues found** across " + CommitWord(r.commits)
                                 + ".\n\n[Full review log on " + LinkHost(r.url) + "](" + r.url + ")\n")
  }

  /** Everything above the footer, at full length. */
  function Report(r: Review): string {
    Header(r.version) + BREAK + Banner(r) + Summary(r) + Sections(WithFindings(r.items))
  }

  predicate IsTruncated(r: Review) {
    |Report(r)| + |Footer(r.url)| > MAX_COMMENT
  }

  /** How much of a truncated report is kept, before moving to a character boundary. */
  function Room(r: Review): nat {
    if |Footer(r.url)| + 64 > MAX_COMMENT then 0 else MAX_COMMENT - (|Footer(r.url)| + 64)
  }

  function Cut(r: Review): (cut: nat)
    requires IsTruncated(r)
    ensures cut <= |Report(r)| && cut <= Room(r)
  {
    Boundary(Report(r), Room(r))
  }

  function Comment(r: Review): string {
    if IsClean(r) then Confirmation(r)
    else if IsTruncated(r) then Report(r)[..Cut(r)] + NOTE + Footer(r.url)
    else Report(r) + Footer(r.url)
  }

  method FilterItems(items: seq<Item>) returns (failing: seq<Item>, findings: seq<Item>)
    ensures failing == Failing(items) && findings == WithFindings(items)
  {
    hide HasFindings;
    failing, findings := [], [];
    for i := 0 to |items|
      invariant failing == Failing(items[..i]) && findings == WithFindings(items[..i])
    {
      assert items[..i + 1][..i] == items[..i];
      if items[i].failed {
        failing := failing + [items[i]];
      }
      if HasFindings(items[i]) {
        findings := findings + [items[i]];
      }
    }
    assert items[..|items|] == items;
  }

  method ComposePrReviewComment(r: Review) returns (out: string)
    ensures out == Comment(r)
  {
    hide Header, Banner, Summary, Section, Footer, Confirmation, Failing, WithFindings, IsBoundary;
    var failing, findings := FilterItems(r.items);
    if !r.failed && failing == [] && findings == [] {
      return Confirmation(r);
    }
    out := Header(r.version);
    out := out + BREAK;
    out := out + Banner(r);
    out := out + Summary(r);
    ghost var top := out;
    for i := 0 to |findings|
      invariant out == top + Sections(findings[..i])
    {
      assert findings[..i + 1][..i] == findings[..i];
      Assoc(top, Sections(findings[..i]), Section(findings[i]));
      out := out + Section(findings[i]);
    }
    assert findings[..|findings|] == findings;
    assert out == Report(r);
    var footer := Footer(r.url);
    if |out| + |footer| > MAX_COMMENT {
      var cut: nat := if |footer| + 64 > MAX_COMMENT then 0 else MAX_COMMENT - (|footer| + 64);
      while cut > 0 && !IsBoundary(out, cut)
        invariant cut <= |out| && Boundary(out, cut) == Cut(r)
      {
        cut := cut - 1;
      }
      BoundaryAtZero(out, cut);
      out := out[..cut];
      out := out + NOTE;
    }
    out := out + footer;
  }

  lemma BoundaryAtZero(s: string, i: nat)
    requires i <= |s| && (i == 0 || IsBoundary(s, i))
    ensures Boundary(s, i) == i
  {
  }

  // ---- recognising an incomplete review ----

  predicate HasFailed(r: Review) {
    r.failed || Failing(r.items) != []
  }

  predicate OneLine(s: string) {
    forall i :: 0 <= i < |s| ==> s[i] != '\n'
  }

  lemma {:induction false} BreakBehind(line: string, rest: string)
    requires OneLine(line)
    ensures BreakAt(line + BREAK + rest) == |line|
    decreases |line|
  {
    var s := line + BREAK + rest;
    if line == "" {
      assert BREAK <= s;
    } else {
      assert s[0] == line[0] && s[1..] == line[1..] + BREAK + rest;
      BreakBehind(line[1..], rest);
    }
  }

  /** Behind a header, only the marker decides. */
  lemma MarkerDecides(header: string, rest: string)
    requires OneLine(header) && HEADER <= header
    ensures IsIncomplete(header + BREAK + rest) <==> Marker() <= rest
  {
    hide BreakAt, Marker;
    var body := header + BREAK + rest;
    BreakBehind(header, rest);
    assert body[..|header|] == header && body[|header| + 2..] == rest;
  }

  lemma HeaderIsOneLine(version: Option<nat>)
    ensures OneLine(Header(version)) && HEADER <= Header(version)
  {
    hide Natural;
    if version.Some? && version.value > 1 {
      var digits := Natural(version.value);
      assert forall i :: 0 <= i < |digits| ==> IsDigit(digits[i]);
      var front := HEADER + " " + DASH + " v";
      assert OneLine(front);
      assert Header(version) == front + digits;
    }
  }

  lemma MarkerBytes()
    ensures |Marker()| == 25 && Marker()[0] == '\U{E2}' && Marker()[1] == '\U{9A}' && OneLine(Marker())
  {
  }

  /** A text that is not the marker from its first or second byte on. */
  lemma NotMarker(s: string)
    requires s == "" || s[0] != '\U{E2}' || (|s| > 1 && s[1] != '\U{9A}')
    ensures !(Marker() <= s)
  {
    hide Marker;
    MarkerBytes();
  }

  /** What stands between header and footer. */
  function Body(r: Review): string {
    Banner(r) + Summary(r) + Sections(WithFindings(r.items))
  }

  lemma ReportIsBody(r: Review)
    ensures Report(r) == Header(r.version) + BREAK + Body(r)
  {
    hide Header, Banner, Summary, Sections;
    var top := Header(r.version) + BREAK;
    assert top + Banner(r) + Summary(r) + Sections(WithFindings(r.items))
        == top + (Banner(r) + Summary(r) + Sections(WithFindings(r.items)));
  }

  lemma BannerOfFailed(r: Review)
    requires HasFailed(r)
    ensures Marker() + " " <= Banner(r)
  {
    hide Marker, Natural, Listed, CommitWord, Failing;
    var failing := Failing(r.items);
    if failing != [] {
      var more := DASH + " " + Natural(|failing|) + " of " + CommitWord(r.commits)
                  + " failed to complete review (" + Listed(failing) + ").\n\n";
      assert Banner(r) == Marker() + " " + more;
    } else {
      assert Banner(r) == Marker() + " " + (DASH + " review failed to complete.\n\n");
    }
  }

  lemma {:induction false} SectionsStart(items: seq<Item>)
    ensures Sections(items) == "" || Sections(items)[0] == '#'
  {
    hide Section;
    if items != [] {
      SectionsStart(items[..|items| - 1]);
      SectionStarts(items[|items| - 1]);
    }
  }

  lemma SectionStarts(p: Item)
    ensures Section(p) != "" && Section(p)[0] == '#'
  {
    TitleStarts(p);
  }

  lemma TitleStarts(p: Item)
    ensures Title(p) != "" && Title(p)[0] == '#'
  {
    hide Natural, Boundary;
  }

  /** Without a failure, no text that starts like the marker follows the header. */
  lemma BodyOfOthers(r: Review, rest: string)
    requires !HasFailed(r) && (rest == "" || rest[0] != '\U{E2}')
    ensures Banner(r) == "" && (Body(r) + rest == "" || (Body(r) + rest)[0] != '\U{E2}')
  {
    hide Sections, Failing, Trim;
    SectionsStart(WithFindings(r.items));
    SummaryStarts(r);
  }

  lemma SummaryStarts(r: Review)
    ensures Summary(r) == "" || Summary(r)[0] == '<'
  {
    hide Trim;
    assert DETAILS[0] == '<';
  }

  lemma FooterStarts(url: string)
    ensures Footer(url) != "" && Footer(url)[0] == '['
  {
    hide LinkHost;
  }

  lemma WholeCommentIsRecognised(r: Review)
    requires !IsClean(r) && !IsTruncated(r)
    ensures IsIncomplete(Comment(r)) <==> HasFailed(r)
  {
    hide IsIncomplete, Header, Banner, Summary, Sections, Marker, Report, Footer, Body, IsClean;
    var rest := Body(r) + Footer(r.url);
    ReportIsBody(r);
    assert Comment(r) == Header(r.version) + BREAK + rest;
    HeaderIsOneLine(r.version);
    MarkerDecides(Header(r.version), rest);
    if HasFailed(r) {
      FailedBody(r);
      assert Marker() <= rest;
    } else {
      FooterStarts(r.url);
      BodyOfOthers(r, Footer(r.url));
      NotMarker(rest);
    }
  }

  lemma FailedBody(r: Review)
    requires HasFailed(r)
    ensures Marker() + " " <= Body(r) && Marker() <= Body(r)
  {
    hide Banner, Summary, Sections, Marker, HasFailed;
    BannerOfFailed(r);
    assert Banner(r) <= Body(r);
  }

  lemma ConfirmationIsComplete(r: Review)
    ensures !IsIncomplete(Confirmation(r))
  {
    hide IsIncomplete, Header, Marker, LinkHost, CommitWord;
    var rest := CHECK + " **No issues found** across " + CommitWord(r.commits) + ".\n\n[Full review log on "
                + LinkHost(r.url) + "](" + r.url + ")\n";
    HeaderIsOneLine(r.version);
    MarkerDecides(Header(r.version), rest);
    assert rest[1] == CHECK[1];
    NotMarker(rest);
  }

  /** What must be left of a report for its marker to survive. */
  function Needed(r: Review): nat {
    |Header(r.version)| + 2 + |Marker()|
  }

  lemma NoteBytes()
    ensures |NOTE| <= 64 && |NOTE| > 2 && NOTE[0] == NOTE[1] == '\n' && NOTE[2] == '*'
  {
    assert "*(comment "[0] == '*' && BREAK[0] == BREAK[1] == '\n';
  }

  lemma CutInHeader(header: string, body: string, cut: nat, footer: string)
    requires OneLine(header) && cut <= |header|
    ensures !IsIncomplete((header + BREAK + body)[..cut] + NOTE + footer)
  {
    hide IsIncomplete, Marker;
    NoteBytes();
    var line, rest := header[..cut], NOTE[2..] + footer;
    assert (header + BREAK + body)[..cut] == line;
    assert line + NOTE + footer == line + BREAK + rest;
    NotMarker(rest);
    NoMarkerNoMatch(line, rest);
  }

  lemma CutInBreak(header: string, body: string, footer: string)
    requires OneLine(header) && HEADER <= header
    ensures !IsIncomplete((header + BREAK + body)[..|header| + 1] + NOTE + footer)
  {
    hide IsIncomplete, Marker;
    NoteBytes();
    var rest := NOTE[1..] + footer;
    assert (header + BREAK + body)[..|header| + 1] == header + ['\n'];
    assert header + ['\n'] + NOTE + footer == header + BREAK + rest;
    NotMarker(rest);
    MarkerDecides(header, rest);
  }

  lemma CutInMarker(header: string, body: string, k: nat, footer: string)
    requires OneLine(header) && HEADER <= header && k < |Marker()| && k <= |body|
    ensures !IsIncomplete((header + BREAK + body)[..|header| + 2 + k] + NOTE + footer)
  {
    hide IsIncomplete, Marker;
    MarkerBytes();
    NoteBytes();
    var rest := body[..k] + NOTE + footer;
    assert (header + BREAK + body)[..|header| + 2 + k] == header + BREAK + body[..k];
    assert header + BREAK + body[..k] + NOTE + footer == header + BREAK + rest;
    assert rest[k] == NOTE[0] && Marker()[k] != '\n';
    MarkerDecides(header, rest);
  }

  /** A cut in front of the marker's end hides it, whatever comes after the cut. */
  lemma CutHidesMarker(header: string, body: string, cut: nat, footer: string)
    requires OneLine(header) && HEADER <= header
    requires cut <= |header + BREAK + body| && cut < |header| + 2 + |Marker()|
    ensures !IsIncomplete((header + BREAK + body)[..cut] + NOTE + footer)
  {
    hide IsIncomplete, Marker, OneLine;
    if cut <= |header| {
      CutInHeader(header, body, cut, footer);
    } else if cut == |header| + 1 {
      CutInBreak(header, body, footer);
    } else {
      CutInMarker(header, body, cut - |header| - 2, footer);
    }
  }

  lemma NoMarkerNoMatch(line: string, rest: string)
    requires OneLine(line) && !(Marker() <= rest)
    ensures !IsIncomplete(line + BREAK + rest)
  {
    hide Marker, BreakAt;
    BreakBehind(line, rest);
    assert (line + BREAK + rest)[|line| + 2..] == rest;
  }

  /** A cut behind the marker's end leaves it to be read. */
  lemma CutKeepsMarker(header: string, body: string, cut: nat, footer: string)
    requires OneLine(header) && HEADER <= header
    requires |header| + 2 + |Marker()| <= cut <= |header + BREAK + body|
    ensures IsIncomplete((header + BREAK + body)[..cut] + NOTE + footer) <==> Marker() <= body
  {
    hide IsIncomplete, Marker;
    var k := cut - |header| - 2;
    var rest := body[..k] + NOTE + footer;
    assert (header + BREAK + body)[..cut] == header + BREAK + body[..k];
    assert (header + BREAK + body)[..cut] + NOTE + footer == header + BREAK + rest;
    MarkerDecides(header, rest);
    assert body[..k] <= rest && body[..k] <= body;
    assert Marker() <= rest <==> Marker() <= body[..k] by {
      assert rest[..|Marker()|] == body[..k][..|Marker()|];
    }
    assert Marker() <= body <==> Marker() <= body[..k] by {
      assert body[..|Marker()|] == body[..k][..|Marker()|];
    }
  }

  /** The end of the marker is a character boundary, so the cut reaches it if there is
      room for it. */
  lemma CutReachesMarker(r: Review)
    requires IsTruncated(r) && HasFailed(r)
    ensures Cut(r) >= Needed(r) <==> Room(r) >= Needed(r)
  {
    hide Header, Banner, Body, Marker, HasFailed, Report, Room;
    ReportIsBody(r);
    FailedBody(r);
    var s, end := Report(r), Needed(r);
    assert Body(r)[|Marker()|] == ' ' && s[end] == Body(r)[|Marker()|];
    assert IsBoundary(s, end);
  }

  lemma TruncatedCommentIsRecognised(r: Review)
    requires !IsClean(r) && IsTruncated(r)
    ensures IsIncomplete(Comment(r)) <==> HasFailed(r) && Needed(r) <= Room(r)
  {
    hide IsIncomplete, Header, Marker, Report, Footer, Body, IsClean, HasFailed, Cut, Room, IsTruncated;
    ReportIsBody(r);
    HeaderIsOneLine(r.version);
    var cut := Cut(r);
    if cut < Needed(r) {
      CutHidesMarker(Header(r.version), Body(r), cut, Footer(r.url));
    } else {
      CutKeepsMarker(Header(r.version), Body(r), cut, Footer(r.url));
    }
    if HasFailed(r) {
      CutReachesMarker(r);
      FailedBody(r);
    } else if cut >= Needed(r) {
      BodyOfOthers(r, "");
      assert Body(r) + "" == Body(r);
      NotMarker(Body(r));
    }
  }

  /** A posted comment is recognised as incomplete exactly when some commit or the patchset
      failed and, if the comment had to be cut, the footer left room for header and
      marker. */
  lemma IncompleteIsRecognisedExactly(r: Review)
    ensures IsIncomplete(Comment(r)) <==>
      HasFailed(r) && (!IsTruncated(r) || |Header(r.version)| + 2 + |Marker()| + |Footer(r.url)| + 64 <= MAX_COMMENT)
  {
    hide IsIncomplete, Header, Marker, Report, Footer, HasFailed, IsTruncated;
    MarkerBytes();
    if IsClean(r) {
      ConfirmationIsComplete(r);
      assert !HasFailed(r) by { CleanHasNotFailed(r); }
    } else if IsTruncated(r) {
      TruncatedCommentIsRecognised(r);
    } else {
      WholeCommentIsRecognised(r);
    }
  }

  /** A link as long as the bound leaves no room. */
  lemma LongLinkHidesMarker(r: Review)
    requires |r.url| >= MAX_COMMENT
    ensures !IsIncomplete(Comment(r))
  {
    hide IsIncomplete, Header, Marker, Comment, HasFailed, Report, LinkHost;
    IncompleteIsRecognisedExactly(r);
  }

  /** A failed review whose comment is not recognised as incomplete. */
  lemma IncompleteCanGoUnrecognised()
    ensures exists r: Review :: HasFailed(r) && !IsIncomplete(Comment(r))
  {
    hide IsIncomplete, Comment;
    var r := Review(None, 1, None, [], true, seq(MAX_COMMENT, i => 'x'));
    LongLinkHidesMarker(r);
    assert HasFailed(r);
  }

  lemma CleanHasNotFailed(r: Review)
    requires IsClean(r)
    ensures !HasFailed(r)
  {
  }

  /** Except for a short confirmation, a comment fits the bound exactly when it need not be
      cut, or the note and its footer fit on their own; nothing is cut in the middle of a
      character. */
  lemma CommentsFit(r: Review)
    requires !IsClean(r)
    ensures |Comment(r)| <= MAX_COMMENT <==> !IsTruncated(r) || |NOTE| + |Footer(r.url)| <= MAX_COMMENT
    ensures IsTruncated(r) ==> IsBoundary(Report(r), Cut(r))
  {
    hide Footer, Report, IsClean;
    NoteBytes();
  }
}
