/** Text as the sequence of its UTF-8 bytes, one `char` per byte, with the ASCII
    part of the library's whitespace and case rules. */
module Text {
  predicate IsSpace(c: char) {
    c == ' ' || '\t' <= c <= '\r'
  }

  predicate Blank(s: string) {
    forall i :: 0 <= i < |s| ==> IsSpace(s[i])
  }

  predicate Solid(s: string) {
    forall i :: 0 <= i < |s| ==> !IsSpace(s[i])
  }

  function TrimStart(s: string): (r: string)
    ensures r != [] ==> !IsSpace(r[0])
    ensures |r| <= |s| && r == s[|s| - |r|..] && Blank(s[..|s| - |r|])
  {
    if s != [] && IsSpace(s[0]) then TrimStart(s[1..]) else s
  }

  function TrimEnd(s: string): (r: string)
    ensures r != [] ==> !IsSpace(r[|r| - 1])
    ensures |r| <= |s| && r == s[..|r|] && Blank(s[|r|..])
  {
    if s != [] && IsSpace(s[|s| - 1]) then TrimEnd(s[..|s| - 1]) else s
  }

  function Trim(s: string): string {
    TrimEnd(TrimStart(s))
  }

  /** Neither end is whitespace. */
  predicate Trimmed(s: string) {
    s != [] ==> !IsSpace(s[0]) && !IsSpace(s[|s| - 1])
  }

  lemma TrimIsTrimmed(s: string)
    ensures Trimmed(Trim(s))
  {
  }

  lemma TrimmedIsFixed(s: string)
    requires Trimmed(s)
    ensures TrimStart(s) == s && TrimEnd(s) == s && Trim(s) == s
  {
  }

  /** The index of the first byte satisfying `p`, or the length. */
  function Find(s: string, p: char -> bool): (i: nat)
    ensures i <= |s| && (i < |s| ==> p(s[i])) && forall j :: 0 <= j < i ==> !p(s[j])
  {
    if s == [] || p(s[0]) then 0 else 1 + Find(s[1..], p)
  }

  lemma FindUnique(s: string, p: char -> bool, i: nat)
    requires i <= |s| && (i < |s| ==> p(s[i])) && forall j :: 0 <= j < i ==> !p(s[j])
    ensures Find(s, p) == i
  {
  }

  /** `split_whitespace`. */
  function Words(s: string): (ws: seq<string>)
    ensures forall w :: w in ws ==> w != [] && Solid(w)
    decreases |s|
  {
    if s == [] then []
    else if IsSpace(s[0]) then Words(s[1..])
    else var n := Find(s, IsSpace); [s[..n]] + Words(s[n..])
  }

  lemma {:induction false} WordsOfBlank(s: string)
    requires Blank(s)
    ensures Words(s) == []
  {
    if s != [] {
      WordsOfBlank(s[1..]);
    }
  }

  lemma WordsOfWord(w: string)
    requires w != [] && Solid(w)
    ensures Words(w) == [w]
  {
    FindUnique(w, IsSpace, |w|);
    assert w[|w|..] == [] && w[..|w|] == w;
  }

  /** A whitespace byte separates words. */
  lemma {:induction false} WordsSplit(a: string, c: char, b: string)
    requires IsSpace(c)
    ensures Words(a + [c] + b) == Words(a) + Words(b)
    decreases |a|
  {
    hide Find;
    var s := a + [c] + b;
    if a == [] {
      assert s[1..] == b;
    } else if IsSpace(a[0]) {
      assert s[1..] == a[1..] + [c] + b && s[0] == a[0];
      WordsSplit(a[1..], c, b);
    } else {
      var n := Find(a, IsSpace);
      FindUnique(s, IsSpace, n);
      assert s[..n] == a[..n] && s[n..] == a[n..] + [c] + b && s[0] == a[0];
      WordsSplit(a[n..], c, b);
      Assoc([a[..n]], Words(a[n..]), Words(b));
    }
  }

  /** Whitespace at either end carries no words. */
  lemma {:induction false} WordsOfTrim(s: string)
    ensures Words(TrimEnd(s)) == Words(s) && Words(TrimStart(s)) == Words(s) && Words(Trim(s)) == Words(s)
    decreases |s|
  {
    WordsOfTrimEnd(s);
    WordsOfTrimStart(s);
    WordsOfTrimEnd(TrimStart(s));
  }

  lemma {:induction false} WordsOfTrimEnd(s: string)
    ensures Words(TrimEnd(s)) == Words(s)
    decreases |s|
  {
    if s != [] && IsSpace(s[|s| - 1]) {
      var front := s[..|s| - 1];
      assert s == front + [s[|s| - 1]] + [];
      WordsSplit(front, s[|s| - 1], []);
      WordsOfTrimEnd(front);
    }
  }

  lemma {:induction false} WordsOfTrimStart(s: string)
    ensures Words(TrimStart(s)) == Words(s)
    decreases |s|
  {
    if s != [] && IsSpace(s[0]) {
      WordsOfTrimStart(s[1..]);
    }
  }

  predicate IsLineFeed(c: char) {
    c == '\n'
  }

  function StripCr(s: string): string {
    if s != [] && s[|s| - 1] == '\r' then s[..|s| - 1] else s
  }

  /** `str::lines`: split at line feeds, each taking one carriage return before it. */
  function Lines(s: string): seq<string>
    decreases |s|
  {
    if s == [] then []
    else
      var i := Find(s, IsLineFeed);
      if i == |s| then [s] else [StripCr(s[..i])] + Lines(s[i + 1..])
  }

  /** A line feed ends a line and takes one carriage return with it; the text after the last
      one is a line of its own. */
  lemma LinesReadBack(line: string, rest: string)
    requires '\n' !in line
    ensures Lines(line + "\r\n" + rest) == [line] + Lines(rest)
    ensures line == "" || line[|line| - 1] != '\r' ==> Lines(line + "\n" + rest) == [line] + Lines(rest)
    ensures line != "" ==> Lines(line) == [line]
  {
    hide Find;
    var s, t := line + "\r\n" + rest, line + "\n" + rest;
    FindUnique(s, IsLineFeed, |line| + 1);
    FindUnique(t, IsLineFeed, |line|);
    FindUnique(line, IsLineFeed, |line|);
    assert s[..|line| + 1] == line + "\r" && s[|line| + 2..] == rest && (line + "\r")[..|line|] == line;
    assert t[..|line|] == line && t[|line| + 1..] == rest;
  }

  predicate IsEol(c: char) {
    c == '\r' || c == '\n'
  }

  /** Without the carriage returns and line feeds it ends with. */
  function WithoutEol(line: string): (r: string)
    ensures r <= line && (r != [] ==> !IsEol(r[|r| - 1]))
  {
    if line != [] && IsEol(line[|line| - 1]) then WithoutEol(line[..|line| - 1]) else line
  }

  /** Every line followed by a line feed. */
  function Terminated(lines: seq<string>): string {
    if lines == [] then "" else lines[0] + "\n" + Terminated(lines[1..])
  }

  lemma {:induction false} TerminatedConcat(a: seq<string>, b: seq<string>)
    ensures Terminated(a + b) == Terminated(a) + Terminated(b)
  {
    if a == [] {
      assert a + b == b;
    } else {
      assert (a + b)[1..] == a[1..] + b;
      TerminatedConcat(a[1..], b);
    }
  }

  function Lower(s: string): (r: string)
    ensures |r| == |s|
  {
    seq(|s|, i requires 0 <= i < |s| => if 'A' <= s[i] <= 'Z' then s[i] + ' ' else s[i])
  }

  function Concat<T>(parts: seq<seq<T>>): seq<T> {
    if parts == [] then [] else parts[0] + Concat(parts[1..])
  }

  lemma {:induction false} ConcatAppend<T>(a: seq<seq<T>>, b: seq<seq<T>>)
    ensures Concat(a + b) == Concat(a) + Concat(b)
  {
    if a == [] {
      assert a + b == b;
    } else {
      assert (a + b)[1..] == a[1..] + b;
      ConcatAppend(a[1..], b);
    }
  }

  lemma Assoc<T>(a: seq<T>, b: seq<T>, c: seq<T>)
    ensures a + b + c == a + (b + c)
  {
  }

  function FlatMap<A, B>(f: A -> seq<B>, xs: seq<A>): seq<B> {
    if xs == [] then [] else f(xs[0]) + FlatMap(f, xs[1..])
  }

  lemma {:induction false} FlatMapAround<A, B>(f: A -> seq<B>, a: seq<A>, x: A, b: seq<A>)
    ensures FlatMap(f, a + [x] + b) == FlatMap(f, a) + (f(x) + FlatMap(f, b))
    decreases |a|
  {
    if a == [] {
      assert ([x] + b)[1..] == b && a + [x] + b == [x] + b;
    } else {
      assert (a + [x] + b)[1..] == a[1..] + [x] + b;
      FlatMapAround(f, a[1..], x, b);
      Assoc(f(a[0]), FlatMap(f, a[1..]), f(x) + FlatMap(f, b));
    }
  }

  /** `str::contains`. */
  predicate Contains(s: string, p: string) {
    p <= s || (s != [] && Contains(s[1..], p))
  }

  predicate StandsAt(s: string, p: string, i: nat) {
    i + |p| <= |s| && s[i..i + |p|] == p
  }

  /** `p` stands somewhere in `s`. */
  lemma {:induction false} ContainsIs(s: string, p: string)
    ensures Contains(s, p) <==> exists i: nat :: StandsAt(s, p, i)
  {
    if p <= s {
      assert StandsAt(s, p, 0);
    } else if s != [] {
      ContainsIs(s[1..], p);
      if Contains(s[1..], p) {
        var i: nat :| StandsAt(s[1..], p, i);
        StandsLater(s, p, i);
      } else if i: nat :| StandsAt(s, p, i) {
        StandsLater(s, p, i - 1);
      }
    }
  }

  lemma StandsLater(s: string, p: string, i: int)
    requires s != []
    ensures i >= 0 ==> (StandsAt(s, p, i + 1) <==> StandsAt(s[1..], p, i))
    ensures i == -1 ==> (StandsAt(s, p, 0) <==> p <= s)
  {
    if i >= 0 && i + 1 + |p| <= |s| {
      assert s[1..][i..i + |p|] == s[i + 1..i + 1 + |p|];
    }
  }

  /** Where `p` first occurs in `s`, or the length. */
  function IndexOf(s: string, p: string): (i: nat)
    ensures i <= |s|
    ensures i < |s| || Contains(s, p) ==> i + |p| <= |s| && s[i..i + |p|] == p
  {
    if s == "" || p <= s then 0 else 1 + IndexOf(s[1..], p)
  }

  /** Ends with a line feed, or is empty. */
  predicate Ended(s: string) {
    s != "" ==> s[|s| - 1] == '\n'
  }

  lemma {:induction false} SmallerSet<T>(a: set<T>, b: set<T>)
    requires a <= b
    ensures |a| <= |b|
  {
    if a != {} {
      var x :| x in a;
      SmallerSet(a - {x}, b - {x});
    }
  }
}
