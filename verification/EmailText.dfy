/** Greedy wrapping of review email text at 72 columns. */
module EmailText {
  import opened Text

  const WRAP_WIDTH: nat := 72

  // ---- layouts -------------------------------------------------------------

  /** The words of one line, separated by single spaces. */
  function Joined(row: seq<string>): (s: string)
    ensures row == [] ==> s == ""
  {
    if row == [] then ""
    else if |row| == 1 then row[0]
    else Joined(row[..|row| - 1]) + " " + row[|row| - 1]
  }

  /** A line of a layout fits the width, unless a single word is all it holds. */
  predicate Fits(prefix: string, row: seq<string>) {
    |prefix| + |Joined(row)| <= WRAP_WIDTH || |row| == 1
  }

  /** Every row holds words and fits; the first starts with `first`, the others with
      `rest`. */
  ghost predicate AllFit(rows: seq<seq<string>>, first: string, rest: string) {
    rows == [] || (rows[0] != [] && Fits(first, rows[0]) && AllFit(rows[1..], rest, rest))
  }

  /** `rows` lays out `words` within the width. */
  ghost predicate IsLayout(rows: seq<seq<string>>, words: seq<string>, first: string, rest: string) {
    Concat(rows) == words && AllFit(rows, first, rest)
  }

  /** Every row but the last is full: the next word would not fit on it. */
  ghost predicate IsFull(rows: seq<seq<string>>, first: string, rest: string) {
    |rows| <= 1
    || (rows[1] != [] && |first| + |Joined(rows[0] + [rows[1][0]])| > WRAP_WIDTH && IsFull(rows[1..], rest, rest))
  }

  /** The text of a layout, one terminated line per row. */
  function RowLines(rows: seq<seq<string>>, first: string, rest: string): seq<string> {
    if rows == [] then [] else [first + Joined(rows[0])] + RowLines(rows[1..], rest, rest)
  }

  /** How many words a line takes: the longest run that fits, and at least one. */
  function Fill(words: seq<string>, prefix: string, n: nat): (m: nat)
    requires 1 <= n <= |words|
    ensures n <= m <= |words|
    ensures Fits(prefix, words[..n]) ==> Fits(prefix, words[..m])
    ensures m < |words| ==> |prefix| + |Joined(words[..m + 1])| > WRAP_WIDTH
    decreases |words| - n
  {
    if n < |words| && |prefix| + |Joined(words[..n + 1])| <= WRAP_WIDTH then Fill(words, prefix, n + 1) else n
  }

  function Greedy(words: seq<string>, first: string, rest: string): seq<seq<string>>
    decreases |words|
  {
    if words == [] then []
    else var n := Fill(words, first, 1); [words[..n]] + Greedy(words[n..], rest, rest)
  }

  lemma JoinedLonger(row: seq<string>, n: nat)
    requires n <= |row|
    ensures |Joined(row[..n])| <= |Joined(row)|
    decreases |row|
  {
    if n < |row| {
      assert row[..|row| - 1][..n] == row[..n];
      JoinedLonger(row[..|row| - 1], n);
    } else {
      assert row[..n] == row;
    }
  }

  lemma {:induction false} JoinedSuffix(a: seq<string>, b: seq<string>)
    ensures |Joined(b)| <= |Joined(a + b)|
    decreases |b|
  {
    if |b| > 1 {
      assert (a + b)[..|a + b| - 1] == a + b[..|b| - 1];
      JoinedSuffix(a, b[..|b| - 1]);
    } else if b == [] {
      assert a + b == a;
    }
  }

  lemma {:induction false} FillReaches(words: seq<string>, prefix: string, n: nat, k: nat)
    requires 1 <= n <= k <= |words| && Fits(prefix, words[..k])
    ensures Fill(words, prefix, n) >= k
    decreases |words| - n
  {
    if n < k {
      JoinedLonger(words[..k], n + 1);
      assert words[..k][..n + 1] == words[..n + 1];
      FillReaches(words, prefix, n + 1, k);
    }
  }

  lemma {:induction false} FillStops(words: seq<string>, prefix: string, n: nat, k: nat)
    requires 1 <= n <= k < |words| && |prefix| + |Joined(words[..k + 1])| > WRAP_WIDTH
    ensures Fill(words, prefix, n) <= k
    decreases |words| - n
  {
    if n < k {
      FillStops(words, prefix, n + 1, k);
    }
  }

  lemma {:induction false} GreedyIsLayout(words: seq<string>, first: string, rest: string)
    ensures IsLayout(Greedy(words, first, rest), words, first, rest)
    ensures IsFull(Greedy(words, first, rest), first, rest)
    decreases |words|
  {
    hide Fill, Joined;
    if words != [] {
      var n := Fill(words, first, 1);
      var tail := Greedy(words[n..], rest, rest);
      assert Greedy(words, first, rest) == [words[..n]] + tail;
      GreedyIsLayout(words[n..], rest, rest);
      assert ([words[..n]] + tail)[1..] == tail;
      assert words == words[..n] + words[n..];
      if tail != [] {
        assert words[..n] + [tail[0][0]] == words[..n + 1];
      }
    }
  }

  /** A full layout is the greedy one: there is no other. */
  lemma {:induction false} FullIsGreedy(rows: seq<seq<string>>, words: seq<string>, first: string, rest: string)
    requires IsLayout(rows, words, first, rest) && IsFull(rows, first, rest)
    ensures rows == Greedy(words, first, rest)
    decreases |rows|
  {
    if rows != [] {
      var k, n := |rows[0]|, Fill(words, first, 1);
      assert words[..k] == rows[0] && words[k..] == Concat(rows[1..]);
      FillReaches(words, first, 1, k);
      if k < |words| {
        assert words[k..][0] == rows[1][0] && rows[0] + [rows[1][0]] == words[..k + 1];
        FillStops(words, first, 1, k);
      }
      FullIsGreedy(rows[1..], words[k..], rest, rest);
    }
  }

  /** A row of any layout that starts no later than the greedy row ends no later. */
  lemma RowEndsByFill(words: seq<string>, lead: seq<string>, row: seq<string>, prefix: string)
    requires words != [] && row != [] && row <= lead + words && Fits(prefix, row)
    ensures |row| <= |lead| + Fill(words, prefix, 1)
  {
    if |row| > |lead| + 1 {
      var taken := words[..|row| - |lead|];
      assert row == lead + taken;
      JoinedSuffix(lead, taken);
      FillReaches(words, prefix, 1, |taken|);
    }
  }

  /** Greedy stays ahead: with `words` still to place where another layout still has
      `lead + words`, it needs no more lines than the other. */
  lemma {:induction false} GreedyStaysAhead(
      words: seq<string>, lead: seq<string>, other: seq<seq<string>>, first: string, rest: string)
    requires IsLayout(other, lead + words, first, rest)
    ensures |Greedy(words, first, rest)| <= |other|
    decreases |other|
  {
    if words != [] {
      var n, k := Fill(words, first, 1), |other[0]|;
      RowEndsByFill(words, lead, other[0], first);
      var lead' := (lead + words[..n])[k..];
      assert (lead + words)[k..] == Concat(other[1..]);
      assert (lead + words)[k..] == lead' + words[n..];
      GreedyStaysAhead(words[n..], lead', other[1..], rest, rest);
    }
  }

  /** No layout of the same words under the same rule uses fewer lines. */
  lemma GreedyIsOptimal(words: seq<string>, other: seq<seq<string>>, first: string, rest: string)
    requires IsLayout(other, words, first, rest)
    ensures |Greedy(words, first, rest)| <= |other|
  {
    assert [] + words == words;
    GreedyStaysAhead(words, [], other, first, rest);
  }

  // ---- the wrapper ---------------------------------------------------------

  function Wrapped(text: string, first: string, rest: string): string {
    if Words(text) == [] then first + "\n"
    else Terminated(RowLines(Greedy(Words(text), first, rest), first, rest))
  }

  function Prefix(first: string, rest: string, i: nat): string {
    if i == 0 then first else rest
  }

  ghost predicate Overflows(prefix: string, row: seq<string>, next: seq<string>) {
    next != [] && |prefix| + |Joined(row + [next[0]])| > WRAP_WIDTH
  }

  lemma {:induction false} SnocRow(rows: seq<seq<string>>, row: seq<string>, first: string, rest: string)
    ensures AllFit(rows + [row], first, rest)
      <==> AllFit(rows, first, rest) && row != [] && Fits(Prefix(first, rest, |rows|), row)
    ensures rows != [] ==>
      (IsFull(rows + [row], first, rest)
       <==> IsFull(rows, first, rest) && Overflows(Prefix(first, rest, |rows| - 1), rows[|rows| - 1], row))
    ensures RowLines(rows + [row], first, rest)
      == RowLines(rows, first, rest) + [Prefix(first, rest, |rows|) + Joined(row)]
    decreases |rows|
  {
    if rows == [] {
      assert [row][1..] == [];
    } else {
      assert (rows + [row])[1..] == rows[1..] + [row];
      SnocRow(rows[1..], row, rest, rest);
    }
  }

  /** Full rows `rows` and an unfinished `row` that hold `words` so far. */
  ghost predicate Partial(rows: seq<seq<string>>, row: seq<string>, words: seq<string>, first: string, rest: string) {
    && Concat(rows) + row == words
    && if words == [] then rows == []
       else row != [] && AllFit(rows + [row], first, rest) && IsFull(rows + [row], first, rest)
  }

  lemma ExtendRow(rows: seq<seq<string>>, row: seq<string>, words: seq<string>, w: string, first: string, rest: string)
    requires Partial(rows, row, words, first, rest)
    requires row != [] ==> |Prefix(first, rest, |rows|)| + |Joined(row + [w])| <= WRAP_WIDTH
    ensures Partial(rows, row + [w], words + [w], first, rest)
  {
    SnocRow(rows, row, first, rest);
    SnocRow(rows, row + [w], first, rest);
    if rows != [] {
      assert rows[|rows| - 1] + [row[0]] == rows[|rows| - 1] + [(row + [w])[0]];
    }
  }

  lemma BreakRow(rows: seq<seq<string>>, row: seq<string>, words: seq<string>, w: string, first: string, rest: string)
    requires Partial(rows, row, words, first, rest)
    requires row != [] && |Prefix(first, rest, |rows|)| + |Joined(row + [w])| > WRAP_WIDTH
    ensures Partial(rows + [row], [w], words + [w], first, rest)
  {
    SnocRow(rows + [row], [w], first, rest);
    ConcatAppend(rows, [row]);
    assert Concat([row]) == row;
  }

  lemma FinishLine(rows: seq<seq<string>>, row: seq<string>, line: string, first: string, rest: string)
    requires line == Prefix(first, rest, |rows|) + Joined(row)
    ensures Terminated(RowLines(rows + [row], first, rest)) == Terminated(RowLines(rows, first, rest)) + line + "\n"
  {
    SnocRow(rows, row, first, rest);
    TerminatedConcat(RowLines(rows, first, rest), [line]);
  }

  lemma FinishText(rows: seq<seq<string>>, row: seq<string>, line: string, text: string, first: string, rest: string)
    requires Partial(rows, row, Words(text), first, rest) && line == Prefix(first, rest, |rows|) + Joined(row)
    ensures Wrapped(text, first, rest) == Terminated(RowLines(rows, first, rest)) + line + "\n"
  {
    FinishLine(rows, row, line, first, rest);
    if Words(text) != [] {
      ConcatAppend(rows, [row]);
      assert Concat([row]) == row;
      FullIsGreedy(rows + [row], Words(text), first, rest);
    }
  }

  lemma JoinedSnoc(row: seq<string>, w: string)
    ensures Joined(row + [w]) == if row == [] then w else Joined(row) + " " + w
  {
    assert row != [] ==> (row + [w])[..|row|] == row;
  }

  /** What the loop of `Wrap` has written, and is writing, after `words`. */
  ghost predicate Written(
      out: string, line: string, prefixLen: nat, rows: seq<seq<string>>, row: seq<string>,
      words: seq<string>, first: string, rest: string)
  {
    && Partial(rows, row, words, first, rest)
    && out == Terminated(RowLines(rows, first, rest))
    && prefixLen == |Prefix(first, rest, |rows|)|
    && line == Prefix(first, rest, |rows|) + Joined(row)
    && (|line| == prefixLen <==> row == [])
  }

  lemma WriteWord(
      out: string, line: string, prefixLen: nat, rows: seq<seq<string>>, row: seq<string>,
      words: seq<string>, w: string, first: string, rest: string)
    requires Written(out, line, prefixLen, rows, row, words, first, rest) && w != ""
    ensures
      if |line| == prefixLen then
        Written(out, line + w, prefixLen, rows, row + [w], words + [w], first, rest)
      else if |line| + 1 + |w| > WRAP_WIDTH then
        Written(out + line + "\n", rest + w, |rest|, rows + [row], [w], words + [w], first, rest)
      else
        Written(out, line + " " + w, prefixLen, rows, row + [w], words + [w], first, rest)
  {
    JoinedSnoc(row, w);
    if |line| != prefixLen && |line| + 1 + |w| > WRAP_WIDTH {
      FinishLine(rows, row, line, first, rest);
      BreakRow(rows, row, words, w, first, rest);
    } else {
      ExtendRow(rows, row, words, w, first, rest);
    }
  }

  method Wrap(text: string, first: string, rest: string) returns (out: string)
    ensures out == Wrapped(text, first, rest)
  {
    out := "";
    var line := first;
    var prefixLen: nat := |first|;
    var words := Words(text);
    ghost var rows: seq<seq<string>>, row: seq<string> := [], [];
    for i := 0 to |words|
      invariant Written(out, line, prefixLen, rows, row, words[..i], first, rest)
    {
      var word := words[i];
      var empty := |line| == prefixLen;
      assert word in words;
      WriteWord(out, line, prefixLen, rows, row, words[..i], word, first, rest);
      assert words[..i + 1] == words[..i] + [word];
      if !empty && |line| + 1 + |word| > WRAP_WIDTH {
        out := out + line;
        out := out + "\n";
        line := rest;
        prefixLen := |rest|;
        rows, row := rows + [row], [word];
      } else {
        if !empty {
          line := line + " ";
        }
        row := row + [word];
      }
      line := line + word;
    }
    assert words[..|words|] == words;
    FinishText(rows, row, line, text, first, rest);
    out := out + line;
    out := out + "\n";
  }
}
