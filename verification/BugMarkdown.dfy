/** Untrusted text in bug reports: fenced blocks, single lines and URI components.

    `Blocks` scans a document for fenced code blocks the way section 4.5 of CommonMark
    0.31.2 lays down. */
module BugMarkdown {
  import opened Options
  import opened Text

  // ---- the writer ----

  function Ticks(n: nat): string {
    seq(n, i => '`')
  }

  ghost predicate HasRun(s: string, n: nat) {
    exists i: nat :: IsRun(s, i, n)
  }

  ghost predicate IsRun(s: string, i: nat, n: nat) {
    i + n <= |s| && forall j :: i <= j < i + n ==> s[j] == '`'
  }

  /** A run that ends behind another character starts behind it, too. */
  lemma RunStartsAfter(s: string, j: nat, n: nat, k: int)
    requires IsRun(s, j, n) && k < j + n && (k >= 0 ==> s[k] != '`')
    ensures j > k
  {
  }

  method LongestBacktickRun(s: string) returns (best: nat)
    ensures HasRun(s, best) && !HasRun(s, best + 1)
  {
    best := 0;
    var cur := 0;
    ghost var at: nat := 0;
    for i := 0 to |s|
      invariant cur <= best && cur <= i && IsRun(s, i - cur, cur) && (cur < i ==> s[i - cur - 1] != '`')
      invariant at + best <= i && IsRun(s, at, best)
      invariant forall j: nat, n: nat :: j + n <= i && IsRun(s, j, n) ==> n <= best
    {
      if s[i] == '`' {
        cur := cur + 1;
        if cur > best {
          best, at := cur, i + 1 - cur;
        }
        forall j: nat, n: nat | j + n <= i + 1 && IsRun(s, j, n) ensures n <= best {
          if j + n == i + 1 {
            RunStartsAfter(s, j, n, i - cur);
          }
        }
      } else {
        cur := 0;
        forall j: nat, n: nat | j + n <= i + 1 && IsRun(s, j, n) ensures n <= best {
          if j + n == i + 1 {
            RunStartsAfter(s, j, n, i);
          }
        }
      }
    }
  }

  /** Four backticks, or one more than the longest run of the body. */
  ghost predicate IsFence(fence: nat, body: string) {
    fence >= 4 && !HasRun(body, fence) && (fence == 4 || HasRun(body, fence - 1))
  }

  function Fenced(fence: nat, info: string, body: string): string {
    Ticks(fence) + info + "\n" + WithoutEol(body) + "\n" + Ticks(fence) + "\n"
  }

  lemma ShorterRun(s: string, n: nat, m: nat)
    requires HasRun(s, n) && m <= n
    ensures HasRun(s, m)
  {
    var i: nat :| IsRun(s, i, n);
    assert IsRun(s, i, m);
  }

  method PushFencedBlock(out: string, info: string, body: string) returns (r: string)
    ensures exists fence :: IsFence(fence, body) && r == out + Fenced(fence, info, body)
  {
    hide WithoutEol, HasRun;
    var longest := LongestBacktickRun(body);
    var length := if longest + 1 > 4 then longest + 1 else 4;
    if HasRun(body, length) {
      ShorterRun(body, length, longest + 1);
    }
    var ticks := Ticks(length);
    r := out + ticks;
    r := r + info;
    r := r + "\n";
    r := r + WithoutEol(body);
    r := r + "\n";
    r := r + ticks;
    r := r + "\n";
    assert r == out + Fenced(length, info, body);
    assert IsFence(length, body);
  }

  // ---- the scanner ----

  /** Where the first line of a text ends, its line ending included: a line feed, a
      carriage return, or both. */
  function LineEnd(s: string): (n: nat)
    ensures n <= |s| && (s != [] ==> n > 0)
  {
    var i := Find(s, IsEol);
    if i == |s| then i
    else if s[i] == '\r' && i + 1 < |s| && s[i + 1] == '\n' then i + 2
    else i + 1
  }

  function RawLines(s: string): seq<string>
    decreases |s|
  {
    if s == [] then [] else [s[..LineEnd(s)]] + RawLines(s[LineEnd(s)..])
  }

  /** The length of the run of `c` at `i`. */
  function RunAt(s: string, c: char, i: nat): (n: nat)
    requires i <= |s|
    ensures i + n <= |s| && (forall j :: i <= j < i + n ==> s[j] == c) && (i + n < |s| ==> s[i + n] != c)
    decreases |s| - i
  {
    if i < |s| && s[i] == c then 1 + RunAt(s, c, i + 1) else 0
  }

  datatype Fence = Fence(mark: char, length: nat, indent: nat)

  function OpensWith(line: string, mark: char): Option<Fence> {
    var l := WithoutEol(line);
    var indent := RunAt(l, ' ', 0);
    var n := RunAt(l, mark, indent);
    if indent <= 3 && n >= 3 && (mark == '`' ==> '`' !in l[indent + n..]) then Some(Fence(mark, n, indent)) else None
  }

  /** An opening fence of at least three backticks, or tildes; the info string of the
      former has no backtick. */
  function Opens(line: string): Option<Fence> {
    if OpensWith(line, '`').Some? then OpensWith(line, '`') else OpensWith(line, '~')
  }

  /** A closing fence: no shorter than the opening one, and blank after it. */
  predicate Closes(line: string, fence: Fence) {
    var l := WithoutEol(line);
    var indent := RunAt(l, ' ', 0);
    var n := RunAt(l, fence.mark, indent);
    indent <= 3 && n >= fence.length && forall i :: indent + n <= i < |l| ==> l[i] == ' ' || l[i] == '\t'
  }

  function Unindented(line: string, indent: nat): string {
    var n := RunAt(line, ' ', 0);
    line[if n < indent then n else indent..]
  }

  datatype Scanner = Outside | Inside(fence: Fence, content: string)

  /** The contents of the fenced blocks, line endings included. A block that is not closed
      ends with the document. */
  function Blocks(scanner: Scanner, lines: seq<string>): seq<string>
    decreases |lines|
  {
    if lines == [] then if scanner.Inside? then [scanner.content] else []
    else
      match scanner
      case Outside =>
        (match Opens(lines[0])
         case Some(fence) => Blocks(Inside(fence, ""), lines[1..])
         case None => Blocks(Outside, lines[1..]))
      case Inside(fence, content) =>
        if Closes(lines[0], fence) then [content] + Blocks(Outside, lines[1..])
        else Blocks(Inside(fence, content + Unindented(lines[0], fence.indent)), lines[1..])
  }

  // ---- lines of what was written ----

  lemma LineEndAppend(a: string, b: string)
    requires a != "" && Ended(a)
    ensures LineEnd(a + b) == LineEnd(a)
  {
    hide Find;
    assert IsEol(a[|a| - 1]);
    FindUnique(a + b, IsEol, Find(a, IsEol));
  }

  lemma {:induction false} RawLinesAppend(a: string, b: string)
    requires Ended(a)
    ensures RawLines(a + b) == RawLines(a) + RawLines(b)
    decreases |a|
  {
    hide Find, LineEnd;
    if a == "" {
      assert a + b == b;
    } else {
      var n := LineEnd(a);
      LineEndAppend(a, b);
      assert (a + b)[..n] == a[..n] && (a + b)[n..] == a[n..] + b;
      RawLinesAppend(a[n..], b);
    }
  }

  lemma {:induction false} RawLinesConcat(s: string)
    ensures Concat(RawLines(s)) == s
    decreases |s|
  {
    if s != [] {
      RawLinesConcat(s[LineEnd(s)..]);
      assert s == s[..LineEnd(s)] + s[LineEnd(s)..];
    }
  }

  /** A run within a line is a run of the text. */
  lemma {:induction false} LineRuns(s: string, l: string, n: nat)
    requires l in RawLines(s)
    ensures HasRun(l, n) ==> HasRun(s, n)
    decreases |s|
  {
    var k := LineEnd(s);
    if !HasRun(l, n) {
    } else if l == s[..k] {
      var i: nat :| IsRun(l, i, n);
      assert IsRun(s, i, n);
    } else {
      LineRuns(s[k..], l, n);
      var i: nat :| IsRun(s[k..], i, n);
      assert forall j :: k + i <= j < k + i + n ==> s[j] == s[k..][j - k];
      assert IsRun(s, k + i, n);
    }
  }

  predicate NoEol(s: string) {
    forall i :: 0 <= i < |s| ==> !IsEol(s[i])
  }

  lemma OneLine(s: string)
    requires NoEol(s)
    ensures RawLines(s + "\n") == [s + "\n"] && WithoutEol(s + "\n") == s
  {
    var l := s + "\n";
    assert l[..|s|] == s;
    assert WithoutEol(l) == WithoutEol(s) == s;
    FindUnique(l, IsEol, |s|);
    assert LineEnd(l) == |l| && l[..|l|] == l && l[|l|..] == "";
    assert RawLines("") == [];
  }

  // ---- reading back ----

  lemma ClosingHasRun(line: string, fence: Fence)
    requires fence.mark == '`' && Closes(line, fence)
    ensures HasRun(line, fence.length)
  {
    assert IsRun(line, RunAt(WithoutEol(line), ' ', 0), fence.length);
  }

  lemma TrimmedHasRun(body: string, n: nat)
    requires n > 0 && HasRun(WithoutEol(body) + "\n", n)
    ensures HasRun(body, n)
  {
    var trimmed := WithoutEol(body);
    var i: nat :| IsRun(trimmed + "\n", i, n);
    assert (trimmed + "\n")[i + n - 1] == '`';
    assert forall j :: 0 <= j < |trimmed| ==> (trimmed + "\n")[j] == trimmed[j] == body[j];
    assert IsRun(body, i, n);
  }

  /** Nothing within the body closes its fence. */
  lemma BodyNeverCloses(body: string, fence: nat, line: string)
    requires IsFence(fence, body) && line in RawLines(WithoutEol(body) + "\n")
    ensures !Closes(line, Fence('`', fence, 0))
  {
    hide RawLines, WithoutEol, HasRun, Closes;
    LineRuns(WithoutEol(body) + "\n", line, fence);
    if Closes(line, Fence('`', fence, 0)) {
      ClosingHasRun(line, Fence('`', fence, 0));
      TrimmedHasRun(body, fence);
    }
  }

  lemma {:induction false} ContentGathers(fence: Fence, content: string, lines: seq<string>, rest: seq<string>)
    requires fence.indent == 0 && forall l :: l in lines ==> !Closes(l, fence)
    ensures Blocks(Inside(fence, content), lines + rest) == Blocks(Inside(fence, content + Concat(lines)), rest)
    decreases |lines|
  {
    hide Closes;
    if lines == [] {
      assert lines + rest == rest && content + "" == content;
    } else {
      assert (lines + rest)[1..] == lines[1..] + rest && (lines + rest)[0] == lines[0] && lines[0] in lines;
      assert Unindented(lines[0], 0) == lines[0];
      ContentGathers(fence, content + lines[0], lines[1..], rest);
      Assoc(content, lines[0], Concat(lines[1..]));
    }
  }

  lemma {:induction false} RunIs(s: string, c: char, i: nat, n: nat)
    requires i + n <= |s| && (forall j :: i <= j < i + n ==> s[j] == c) && (i + n < |s| ==> s[i + n] != c)
    ensures RunAt(s, c, i) == n
    decreases n
  {
    if n > 0 {
      RunIs(s, c, i + 1, n - 1);
    }
  }

  lemma RunOf(n: nat, rest: string)
    requires rest != "" ==> rest[0] != '`'
    ensures RunAt(Ticks(n) + rest, '`', 0) == n && (n > 0 ==> RunAt(Ticks(n) + rest, ' ', 0) == 0)
  {
    RunIs(Ticks(n) + rest, '`', 0, n);
  }

  lemma OpeningLine(fence: nat, info: string)
    requires fence >= 3 && NoEol(info) && '`' !in info
    ensures Opens(Ticks(fence) + info + "\n") == Some(Fence('`', fence, 0))
    ensures RawLines(Ticks(fence) + info + "\n") == [Ticks(fence) + info + "\n"]
  {
    var l := Ticks(fence) + info;
    OneLine(l);
    RunOf(fence, info);
    assert l[fence..] == info;
  }

  lemma ClosingLine(fence: nat)
    requires fence >= 3
    ensures Closes(Ticks(fence) + "\n", Fence('`', fence, 0))
    ensures RawLines(Ticks(fence) + "\n") == [Ticks(fence) + "\n"]
  {
    OneLine(Ticks(fence));
    RunOf(fence, "");
    assert Ticks(fence) + "" == Ticks(fence);
  }

  /** One block, and whatever follows it. */
  lemma BlockReadsBack(fence: nat, info: string, body: string, rest: string)
    requires IsFence(fence, body) && NoEol(info) && '`' !in info
    ensures Blocks(Outside, RawLines(Fenced(fence, info, body) + rest))
         == [WithoutEol(body) + "\n"] + Blocks(Outside, RawLines(rest))
  {
    hide RawLines, Opens, Closes, Ticks, WithoutEol, IsFence;
    var opening, text, closing := Ticks(fence) + info + "\n", WithoutEol(body) + "\n", Ticks(fence) + "\n";
    var tail := closing + rest;
    assert fence >= 3 by { FenceIsLong(fence, body); }
    assert Fenced(fence, info, body) + rest == opening + (text + tail);
    OpeningLine(fence, info);
    ClosingLine(fence);
    RawLinesAppend(opening, text + tail);
    RawLinesAppend(text, tail);
    RawLinesAppend(closing, rest);
    var f := Fence('`', fence, 0);
    forall l | l in RawLines(text) ensures !Closes(l, f) {
      BodyNeverCloses(body, fence, l);
    }
    var lines := RawLines(text) + RawLines(tail);
    assert ([opening] + lines)[1..] == lines && ([opening] + lines)[0] == opening;
    ContentGathers(f, "", RawLines(text), RawLines(tail));
    RawLinesConcat(text);
    assert "" + text == text;
    assert ([closing] + RawLines(rest))[1..] == RawLines(rest);
  }

  lemma FenceIsLong(fence: nat, body: string)
    requires IsFence(fence, body)
    ensures fence >= 3
  {
  }

  function Document(fences: seq<nat>, info: string, bodies: seq<string>): string
    requires |fences| == |bodies|
  {
    if bodies == [] then "" else Fenced(fences[0], info, bodies[0]) + Document(fences[1..], info, bodies[1..])
  }

  function Contents(bodies: seq<string>): seq<string> {
    if bodies == [] then [] else [WithoutEol(bodies[0]) + "\n"] + Contents(bodies[1..])
  }

  /** Any bodies, fenced one after another, are read back: each without the line endings
      it ended with, which the scanner sees as one line feed. */
  lemma {:induction false} FencedOutputReadsBack(fences: seq<nat>, info: string, bodies: seq<string>)
    requires |fences| == |bodies| && NoEol(info) && '`' !in info
    requires forall i :: 0 <= i < |bodies| ==> IsFence(fences[i], bodies[i])
    ensures Blocks(Outside, RawLines(Document(fences, info, bodies))) == Contents(bodies)
    decreases |bodies|
  {
    hide IsFence, Blocks, RawLines, Fenced, WithoutEol;
    if bodies == [] {
      EmptyDocument();
    } else {
      FencedOutputReadsBack(fences[1..], info, bodies[1..]);
      BlockReadsBack(fences[0], info, bodies[0], Document(fences[1..], info, bodies[1..]));
    }
  }

  lemma EmptyDocument()
    ensures Blocks(Outside, RawLines("")) == []
  {
  }
}
