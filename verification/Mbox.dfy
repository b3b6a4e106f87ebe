/** Splitting an mbox into its messages, and joining them again. */
module Mbox {
  import opened Text

  /** `split_inclusive` at line feeds. */
  function Pieces(s: string): seq<string>
    decreases |s|
  {
    if s == [] then []
    else
      var i := Find(s, IsLineFeed);
      if i == |s| then [s] else [s[..i + 1]] + Pieces(s[i + 1..])
  }

  predicate IsDay(s: string) {
    s in ["Mon ", "Tue ", "Wed ", "Thu ", "Fri ", "Sat ", "Sun "]
  }

  /** `From <sender> DDD MMM [D]D HH:MM:SS YYYY`, as far as it is looked at. */
  predicate IsSeparator(line: string) {
    "From " <= line
    && var l := WithoutEol(line);
       var n := |l|;
       n >= 30 && l[n - 8] == ':' && l[n - 11] == ':' && l[n - 5] == ' '
       && ((n >= 31 && l[n - 25] == ' ' && IsDay(l[n - 24..n - 20])) || (l[n - 24] == ' ' && IsDay(l[n - 23..n - 19])))
  }

  method IsMboxSeparator(line: string) returns (yes: bool)
    ensures yes <==> IsSeparator(line)
  {
    hide IsDay;
    if !("From " <= line) {
      return false;
    }
    var rest := line;
    while rest != [] && IsEol(rest[|rest| - 1])
      invariant WithoutEol(rest) == WithoutEol(line)
    {
      rest := rest[..|rest| - 1];
    }
    var len := |rest|;
    if len < 30 {
      return false;
    }
    if rest[len - 8] != ':' || rest[len - 11] != ':' || rest[len - 5] != ' ' {
      return false;
    }
    if len >= 31 && rest[len - 25] == ' ' && IsDay(rest[len - 24..len - 20]) {
      return true;
    }
    yes := rest[len - 24] == ' ' && IsDay(rest[len - 23..len - 19]);
  }

  function Nonempty(s: string): seq<string> {
    if s == "" then [] else [s]
  }

  /** The messages of these lines, the first of them begun with `current`. */
  function Messages(current: string, lines: seq<string>): seq<string>
    decreases |lines|
  {
    if lines == [] then Nonempty(current)
    else if IsSeparator(lines[0]) then Nonempty(current) + Messages("", lines[1..])
    else Messages(current + lines[0], lines[1..])
  }

  function Split(raw: string): seq<string> {
    Messages("", Pieces(raw))
  }

  method SplitMbox(raw: string) returns (emails: seq<string>)
    ensures emails == Split(raw)
  {
    hide IsSeparator, Pieces;
    emails := [];
    var current := "";
    var lines := Pieces(raw);
    for i := 0 to |lines|
      invariant emails + Messages(current, lines[i..]) == Split(raw)
    {
      assert lines[i..][0] == lines[i] && lines[i..][1..] == lines[i + 1..];
      var separator := IsMboxSeparator(lines[i]);
      ghost var before := emails;
      if separator {
        if current != "" {
          emails := emails + [current];
        }
        assert emails == before + Nonempty(current);
        Assoc(before, Nonempty(current), Messages("", lines[i + 1..]));
        current := "";
      } else {
        current := current + lines[i];
      }
    }
    if current != "" {
      emails := emails + [current];
    }
  }

  // ---- nothing but separators is lost ----

  function Body(lines: seq<string>): string {
    if lines == [] then "" else (if IsSeparator(lines[0]) then "" else lines[0]) + Body(lines[1..])
  }

  lemma {:induction false} MessagesKeepBody(current: string, lines: seq<string>)
    ensures Concat(Messages(current, lines)) == current + Body(lines)
    ensures forall m :: m in Messages(current, lines) ==> m != ""
    decreases |lines|
  {
    hide IsSeparator;
    if lines == [] {
      assert Concat(Nonempty(current)) == current;
    } else if IsSeparator(lines[0]) {
      MessagesKeepBody("", lines[1..]);
      ConcatAppend(Nonempty(current), Messages("", lines[1..]));
      assert Concat(Nonempty(current)) == current;
    } else {
      MessagesKeepBody(current + lines[0], lines[1..]);
      Assoc(current, lines[0], Body(lines[1..]));
    }
  }

  lemma {:induction false} PiecesConcat(s: string)
    ensures Concat(Pieces(s)) == s
    decreases |s|
  {
    if s != [] && Find(s, IsLineFeed) < |s| {
      var i := Find(s, IsLineFeed);
      PiecesConcat(s[i + 1..]);
      assert s == s[..i + 1] + s[i + 1..];
    }
  }

  /** On any input, the messages hold the lines that are not separators, in order and
      whole, and none is empty. */
  lemma SplitKeepsEverythingElse(raw: string)
    ensures Concat(Split(raw)) == Body(Pieces(raw)) && Concat(Pieces(raw)) == raw
    ensures forall m :: m in Split(raw) ==> m != ""
  {
    MessagesKeepBody("", Pieces(raw));
    PiecesConcat(raw);
  }

  // ---- joining ----

  lemma {:induction false} PiecesAppend(a: string, b: string)
    requires Ended(a)
    ensures Pieces(a + b) == Pieces(a) + Pieces(b)
    decreases |a|
  {
    hide Find;
    if a == "" {
      assert a + b == b;
    } else {
      var i := Find(a, IsLineFeed);
      assert IsLineFeed(a[|a| - 1]);
      FindUnique(a + b, IsLineFeed, i);
      assert (a + b)[..i + 1] == a[..i + 1] && (a + b)[i + 1..] == a[i + 1..] + b;
      PiecesAppend(a[i + 1..], b);
      Assoc([a[..i + 1]], Pieces(a[i + 1..]), Pieces(b));
    }
  }

  predicate HasNoSeparator(lines: seq<string>) {
    forall l :: l in lines ==> !IsSeparator(l)
  }

  /** A message that survives a round trip. */
  predicate IsMessage(m: string) {
    m != "" && Ended(m) && HasNoSeparator(Pieces(m))
  }

  /** One separator line. */
  predicate IsFromLine(from: string) {
    IsSeparator(from) && Find(from, IsLineFeed) == |from| - 1
  }

  function Join(froms: seq<string>, messages: seq<string>): string
    requires |froms| == |messages|
  {
    if messages == [] then "" else froms[0] + messages[0] + Join(froms[1..], messages[1..])
  }

  lemma {:induction false} MessagesGather(current: string, lines: seq<string>, rest: seq<string>)
    requires HasNoSeparator(lines)
    ensures Messages(current, lines + rest) == Messages(current + Concat(lines), rest)
    decreases |lines|
  {
    hide IsSeparator;
    if lines == [] {
      assert lines + rest == rest && current + "" == current;
    } else {
      assert (lines + rest)[1..] == lines[1..] + rest && (lines + rest)[0] == lines[0];
      assert lines[0] in lines;
      MessagesGather(current + lines[0], lines[1..], rest);
      Assoc(current, lines[0], Concat(lines[1..]));
    }
  }

  lemma {:induction false} MessagesOfJoin(current: string, froms: seq<string>, messages: seq<string>)
    requires |froms| == |messages|
    requires (forall f :: f in froms ==> IsFromLine(f)) && (forall m :: m in messages ==> IsMessage(m))
    ensures Messages(current, Pieces(Join(froms, messages))) == Nonempty(current) + messages
    decreases |messages|
  {
    hide IsSeparator;
    if messages != [] {
      var from, m, rest := froms[0], messages[0], Join(froms[1..], messages[1..]);
      assert from in froms && m in messages;
      FromIsOnePiece(from);
      Assoc(from, m, rest);
      PiecesAppend(from, m + rest);
      PiecesAppend(m, rest);
      var tail := Pieces(m) + Pieces(rest);
      assert ([from] + tail)[1..] == tail;
      MessagesGather("", Pieces(m), Pieces(rest));
      PiecesConcat(m);
      assert "" + m == m;
      MessagesOfJoin(m, froms[1..], messages[1..]);
      assert messages == [m] + messages[1..];
    }
  }

  lemma FromIsOnePiece(from: string)
    requires IsFromLine(from)
    ensures Ended(from) && Pieces(from) == [from]
  {
    hide IsSeparator;
    assert from[..|from|] == from && from[|from|..] == "";
  }

  /** Splitting undoes joining. */
  lemma SplitOfJoin(froms: seq<string>, messages: seq<string>)
    requires |froms| == |messages|
    requires (forall f :: f in froms ==> IsFromLine(f)) && (forall m :: m in messages ==> IsMessage(m))
    ensures Split(Join(froms, messages)) == messages
  {
    MessagesOfJoin("", froms, messages);
  }

  // ---- what is split stays split ----

  /** A line as `Pieces` yields it: no line feed but at its end. */
  predicate IsPiece(l: string) {
    l != "" && Find(l, IsLineFeed) >= |l| - 1
  }

  /** Lines of which only the last may lack its line feed. */
  predicate ArePieces(lines: seq<string>) {
    && (forall l :: l in lines ==> IsPiece(l))
    && (forall i :: 0 <= i < |lines| - 1 ==> Ended(lines[i]))
  }

  lemma {:induction false} PiecesArePieces(s: string)
    ensures ArePieces(Pieces(s))
    decreases |s|
  {
    hide Find;
    if s != [] {
      var i := Find(s, IsLineFeed);
      if i < |s| {
        var first, rest := s[..i + 1], Pieces(s[i + 1..]);
        PiecesArePieces(s[i + 1..]);
        FindUnique(first, IsLineFeed, i);
        assert Pieces(s) == [first] + rest && IsPiece(first) && Ended(first);
      } else {
        assert Pieces(s) == [s] && IsPiece(s);
      }
    }
  }

  lemma {:induction false} PiecesOfConcat(lines: seq<string>)
    requires ArePieces(lines)
    ensures Pieces(Concat(lines)) == lines
    decreases |lines|
  {
    if lines != [] {
      var l := lines[0];
      assert l in lines;
      PiecesOfConcat(lines[1..]);
      OnePiece(l);
      if |lines| > 1 {
        assert Ended(lines[0]);
        PiecesAppend(l, Concat(lines[1..]));
      } else {
        assert Concat(lines) == l + "" == l;
      }
      assert lines == [l] + lines[1..];
    }
  }

  lemma OnePiece(l: string)
    requires IsPiece(l)
    ensures Pieces(l) == [l]
  {
    var i := Find(l, IsLineFeed);
    assert l[..|l|] == l && l[|l|..] == "";
  }

  /** Each message is what a run of consecutive non-separator lines concatenates to. */
  lemma {:induction false} MessagesAreRuns(gathered: seq<string>, lines: seq<string>, m: string)
    requires ArePieces(gathered + lines) && HasNoSeparator(gathered)
    requires m in Messages(Concat(gathered), lines)
    ensures m != "" && HasNoSeparator(Pieces(m))
    decreases |lines|
  {
    hide IsSeparator, IsPiece;
    if lines == [] {
      assert gathered + lines == gathered;
      PiecesOfConcat(gathered);
    } else if IsSeparator(lines[0]) {
      if m in Nonempty(Concat(gathered)) {
        SomePieces(gathered, lines);
        PiecesOfConcat(gathered);
      } else {
        assert gathered + [lines[0]] + lines[1..] == gathered + lines;
        SomePieces(gathered + [lines[0]], lines[1..]);
        assert [] + lines[1..] == lines[1..];
        MessagesAreRuns([], lines[1..], m);
      }
    } else {
      assert gathered + [lines[0]] + lines[1..] == gathered + lines;
      ConcatAppend(gathered, [lines[0]]);
      assert Concat([lines[0]]) == lines[0];
      MessagesAreRuns(gathered + [lines[0]], lines[1..], m);
    }
  }

  lemma SomePieces(a: seq<string>, b: seq<string>)
    requires ArePieces(a + b)
    ensures ArePieces(a) && ArePieces(b)
  {
    hide IsPiece;
    forall i | 0 <= i < |a| - 1 ensures Ended(a[i]) {
      assert (a + b)[i] == a[i];
    }
    forall i | 0 <= i < |b| - 1 ensures Ended(b[i]) {
      assert (a + b)[|a| + i] == b[i];
    }
    forall l | l in a ensures IsPiece(l) {
      assert l in a + b;
    }
    forall l | l in b ensures IsPiece(l) {
      assert l in a + b;
    }
  }

  /** A message that was split out holds no separator, so it splits no further. */
  lemma MessagesStayWhole(raw: string, m: string)
    requires m in Split(raw)
    ensures HasNoSeparator(Pieces(m)) && Split(m) == [m]
  {
    hide IsSeparator;
    PiecesArePieces(raw);
    assert [] + Pieces(raw) == Pieces(raw);
    MessagesAreRuns([], Pieces(raw), m);
    MessagesGather("", Pieces(m), []);
    PiecesConcat(m);
    assert Pieces(m) + [] == Pieces(m) && "" + m == m;
  }

  // ---- From lines ----

  /** `DDD MMM DD HH:MM:SS YYYY`, the day padded with a space or not written in two places. */
  predicate LooksDated(date: string) {
    && (|date| == 24 || |date| == 23)
    && date[..3] in {"Sun", "Mon", "Tue", "Wed", "Thu", "Fri", "Sat"} && date[3] == ' '
    && date[|date| - 8] == ':' && date[|date| - 11] == ':' && date[|date| - 5] == ' '
  }

  predicate IsDate(date: string) {
    LooksDated(date) && forall i :: 0 <= i < |date| ==> !IsEol(date[i])
  }

  /** `l` is "From ", something of a sender, a blank and a date. */
  predicate IsDatedAt(l: string, n: nat) {
    && 6 <= n < |l| && "From " <= l && l[n] == ' ' && LooksDated(l[n + 1..])
  }

  /** The separators are exactly the lines that read so without their line ending. */
  lemma SeparatorsAre(line: string)
    ensures IsSeparator(line) <==> exists n :: IsDatedAt(WithoutEol(line), n)
  {
    hide IsDay, WithoutEol;
    var l := WithoutEol(line);
    var n := |l|;
    if n >= 30 {
      assert "From " <= line <==> "From " <= l;
      DatedAt(l, n - 24);
      if n >= 31 {
        DatedAt(l, n - 25);
      }
    }
    if IsSeparator(line) {
      assert IsDatedAt(l, n - 24) || IsDatedAt(l, n - 25);
    }
  }

  lemma DatedAt(l: string, at: nat)
    requires at + 24 == |l| || at + 25 == |l|
    requires at >= 6
    ensures IsDatedAt(l, at) <==>
      "From " <= l && l[at] == ' ' && IsDay(l[at + 1..at + 5])
      && l[|l| - 8] == ':' && l[|l| - 11] == ':' && l[|l| - 5] == ' '
  {
    hide IsDay;
    var date := l[at + 1..];
    DaysAre(l[at + 1..at + 5]);
    assert l[at + 1..at + 5][..3] == date[..3] && l[at + 1..at + 5][3] == date[3];
  }

  lemma WithoutEolOf(l: string)
    requires l != "" && !IsEol(l[|l| - 1])
    ensures WithoutEol(l + "\n") == l
  {
    assert (l + "\n")[..|l|] == l;
  }

  lemma DaysAre(s: string)
    requires |s| == 4
    ensures IsDay(s) <==> s[..3] in {"Sun", "Mon", "Tue", "Wed", "Thu", "Fri", "Sat"} && s[3] == ' '
    ensures IsDay(s) ==> s[0] != ' '
  {
    assert s[3] == ' ' ==> s == s[..3] + " ";
    assert "Sun" + " " == "Sun " && "Mon" + " " == "Mon " && "Tue" + " " == "Tue " && "Wed" + " " == "Wed ";
    assert "Thu" + " " == "Thu " && "Fri" + " " == "Fri " && "Sat" + " " == "Sat ";
    if IsDay(s) {
      assert s[..3] + " " == s;
    }
  }

  /** A sender and a date make a From line, exactly when the sender is not empty; otherwise
      the line is not even a separator. */
  lemma FromLinesAreSeparators(sender: string, date: string)
    requires IsDate(date) && forall i :: 0 <= i < |sender| ==> !IsEol(sender[i])
    ensures IsFromLine("From " + sender + " " + date + "\n") <==> sender != ""
    ensures IsSeparator("From " + sender + " " + date + "\n") <==> sender != ""
  {
    hide IsDay, WithoutEol;
    DaysAre(date[..4]);
    assert date[..4][..3] == date[..3];
    var head := "From " + sender + " ";
    var l := head + date;
    var from := l + "\n";
    assert from == "From " + sender + " " + date + "\n";
    WithoutEolOf(l);
    var n := |l|;
    assert l[n - 8] == date[|date| - 8] && l[n - 11] == date[|date| - 11] && l[n - 5] == date[|date| - 5];
    assert l[n - |date| - 1] == ' ' && l[n - |date|..n - |date| + 4] == date[..4];
    assert "From " <= from;
    FindUnique(from, IsLineFeed, |l|);
    if sender == "" {
      assert n == |date| + 6 && l[6] == date[0];
    }
  }
}
