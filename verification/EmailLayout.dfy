/** Re-wrapped text, line by line: what is kept, and what the rest becomes. */
module EmailLayout {
  import opened Options
  import opened Text
  import opened EmailText
  import opened EmailProse

  // ---- lines of a wrapped text ----

  ghost predicate IsLoneWord(line: string, prefix: string, words: seq<string>) {
    exists w :: w in words && line == prefix + w
  }

  /** No line is longer than 72 bytes, but for a single word too long to break. */
  lemma {:induction false} RowsFit72(rows: seq<seq<string>>, first: string, rest: string, i: nat)
    requires AllFit(rows, first, rest) && i < |rows|
    ensures |RowLines(rows, first, rest)| == |rows|
    ensures var line := RowLines(rows, first, rest)[i];
      |line| <= 72 || IsLoneWord(line, if i == 0 then first else rest, Concat(rows))
    decreases |rows|
  {
    hide Joined;
    RowLinesSize(rows, first, rest);
    if i == 0 {
      if |rows[0]| == 1 {
        assert rows[0][0] in rows[0] && Joined(rows[0]) == rows[0][0] by { JoinedOne(rows[0]); }
        assert rows[0][0] in Concat(rows);
        assert IsLoneWord(RowLines(rows, first, rest)[0], first, Concat(rows));
      }
    } else {
      RowsFit72(rows[1..], rest, rest, i - 1);
      var line := RowLines(rows, first, rest)[i];
      assert line == RowLines(rows[1..], rest, rest)[i - 1];
      if |line| > 72 {
        var w :| w in Concat(rows[1..]) && line == rest + w;
        assert w in Concat(rows);
        assert IsLoneWord(line, rest, Concat(rows));
      }
    }
  }

  lemma JoinedOne(row: seq<string>)
    requires |row| == 1
    ensures Joined(row) == row[0]
  {
  }

  lemma {:induction false} RowLinesSize(rows: seq<seq<string>>, first: string, rest: string)
    ensures |RowLines(rows, first, rest)| == |rows|
  {
    if rows != [] {
      RowLinesSize(rows[1..], rest, rest);
    }
  }

  /** And none is shorter than it need be: the next line's first word would not fit on it. */
  lemma {:induction false} RowsFill72(rows: seq<seq<string>>, first: string, rest: string, i: nat)
    requires AllFit(rows, first, rest) && IsFull(rows, first, rest) && i + 1 < |rows|
    ensures |RowLines(rows, first, rest)| == |rows| && rows[i + 1] != []
    ensures |RowLines(rows, first, rest)[i]| + 1 + |rows[i + 1][0]| > 72
    decreases |rows|
  {
    hide Joined;
    RowLinesSize(rows, first, rest);
    if i == 0 {
      JoinedSnoc(rows[0], rows[1][0]);
    } else {
      RowsFill72(rows[1..], rest, rest, i - 1);
    }
  }

  /** A line within the limit, or one word too long for it behind its prefix. */
  ghost predicate Fits72(line: string, words: seq<string>, first: string, rest: string) {
    |line| <= 72 || IsLoneWord(line, first, words) || IsLoneWord(line, rest, words)
  }

  /** So wrapped text is a list of such lines. */
  lemma WrappedFits72(text: string, first: string, rest: string)
    requires Words(text) != []
    ensures exists lines: seq<string> ::
      Wrapped(text, first, rest) == Terminated(lines) && forall l :: l in lines ==> Fits72(l, Words(text), first, rest)
  {
    hide Words, Greedy;
    var rows := Greedy(Words(text), first, rest);
    var lines := RowLines(rows, first, rest);
    GreedyIsLayout(Words(text), first, rest);
    RowLinesSize(rows, first, rest);
    forall l | l in lines ensures Fits72(l, Words(text), first, rest) {
      var i :| 0 <= i < |lines| && lines[i] == l;
      RowsFit72(rows, first, rest, i);
    }
    assert Wrapped(text, first, rest) == Terminated(lines);
  }

  // ---- the lines of re-wrapped text ----

  /** The result's lines are the ones laid out. */
  lemma LinesOfProse(text: string)
    requires Trim(text) != ""
    ensures Lines(Prose(text)) == OutLines(Lines(Trim(text)), [])
  {
    hide Words, Paragraph, OutLines, Verbatim;
    var trimmed := Trim(text);
    TrimIsTrimmed(text);
    var lines := Lines(trimmed);
    var out := OutLines(lines, []);
    LinesStartSolid(trimmed);
    LinesEndSolid(trimmed);
    LinesHaveNoFeed(trimmed);
    OutLinesStartSolid(lines, []);
    OutLinesEndSolid(lines, []);
    OutLinesAreClean(lines, []);
    TerminatedIsSeparated(out);
    LinesOfSeparated(out);
  }

  /** The lines to be kept, without their trailing blanks. */
  function Kept(lines: seq<string>): seq<string> {
    if lines == [] then []
    else
      (if Blank(lines[0]) || lines[0][0] == '>' || lines[0][0] == ' ' || lines[0][0] == '\t'
       then [TrimEnd(lines[0])] else [])
      + Kept(lines[1..])
  }

  /** `part` occurs in `whole` in this order, at the places `at`. */
  ghost predicate OccursAt(part: seq<string>, whole: seq<string>, at: seq<nat>) {
    && |at| == |part|
    && (forall k :: 0 <= k < |at| ==> at[k] < |whole| && whole[at[k]] == part[k])
    && forall j, k :: 0 <= j < k < |at| ==> at[j] < at[k]
  }

  ghost predicate OccursIn(part: seq<string>, whole: seq<string>) {
    exists at :: OccursAt(part, whole, at)
  }

  lemma OccursBehind(part: seq<string>, whole: seq<string>, front: seq<string>)
    requires OccursIn(part, whole)
    ensures OccursIn(part, front + whole)
  {
    var at :| OccursAt(part, whole, at);
    var later := seq(|at|, k requires 0 <= k < |at| => |front| + at[k]);
    assert OccursAt(part, front + whole, later);
  }

  lemma OccursFrom(x: string, part: seq<string>, whole: seq<string>)
    requires OccursIn(part, whole)
    ensures OccursIn([x] + part, [x] + whole)
  {
    var at :| OccursAt(part, whole, at);
    var later := [0] + seq(|at|, k requires 0 <= k < |at| => 1 + at[k]);
    assert OccursAt([x] + part, [x] + whole, later);
  }

  lemma {:induction false} KeptAreOut(lines: seq<string>, pend: seq<string>)
    ensures OccursIn(Kept(lines), OutLines(lines, pend))
    decreases |lines|
  {
    hide OccursIn, TrimEnd, Words, Paragraph;
    if lines == [] {
      assert OccursIn([], OutLines(lines, pend)) by { NothingOccurs(OutLines(lines, pend)); }
    } else if Verbatim(lines[0]) {
      var line, rest := TrimEnd(lines[0]), OutLines(lines[1..], []);
      KeptAreOut(lines[1..], []);
      OccursFrom(line, Kept(lines[1..]), rest);
      OccursBehind([line] + Kept(lines[1..]), [line] + rest, Paragraph(pend));
      Assoc(Paragraph(pend), [line], rest);
    } else {
      KeptAreOut(lines[1..], pend + Words(lines[0]));
      assert [] + Kept(lines[1..]) == Kept(lines[1..]);
    }
  }

  lemma NothingOccurs(whole: seq<string>)
    ensures OccursIn([], whole)
  {
    assert OccursAt([], whole, []);
  }

  /** Every blank, quoted or indented line of the text is a line of the result, but for its
      trailing blanks, and in order. */
  lemma KeptLinesStay(text: string)
    requires Trim(text) != ""
    ensures OccursIn(Kept(Lines(Trim(text))), Lines(Prose(text)))
  {
    hide Kept, OutLines, OccursIn, Prose, Trim;
    LinesOfProse(text);
    KeptAreOut(Lines(Trim(text)), []);
  }

  // ---- what becomes of the other lines ----

  /** None of these is to be kept. */
  predicate IsRun(lines: seq<string>) {
    forall i :: 0 <= i < |lines| ==>
      !Blank(lines[i]) && lines[i][0] != '>' && lines[i][0] != ' ' && lines[i][0] != '\t'
  }

  /** Nothing, or a line to be kept. */
  predicate EndsRun(line: Option<string>) {
    line.Some? ==>
      Blank(line.value) || line.value[0] == '>' || line.value[0] == ' ' || line.value[0] == '\t'
  }

  function Last(lines: seq<string>): Option<string> {
    if lines == [] then None else Some(lines[|lines| - 1])
  }

  function First(lines: seq<string>): Option<string> {
    if lines == [] then None else Some(lines[0])
  }

  lemma {:induction false} RunGathers(run: seq<string>, after: seq<string>, pend: seq<string>)
    requires IsRun(run) && EndsRun(First(after))
    ensures OutLines(run + after, pend) == Paragraph(pend + LineWords(run)) + OutLines(after, [])
    decreases |run|
  {
    hide Words, Paragraph, TrimEnd;
    if run == [] {
      assert run + after == after && pend + LineWords(run) == pend;
      NothingPending();
      if after == [] {
        assert Paragraph(pend) + [] == Paragraph(pend);
      } else {
        Assoc(Paragraph(pend), [TrimEnd(after[0])], OutLines(after[1..], []));
        assert [] + ([TrimEnd(after[0])] + OutLines(after[1..], [])) == [TrimEnd(after[0])] + OutLines(after[1..], []);
      }
    } else {
      assert (run + after)[0] == run[0] && (run + after)[1..] == run[1..] + after;
      RunGathers(run[1..], after, pend + Words(run[0]));
      Assoc(pend, Words(run[0]), LineWords(run[1..]));
    }
  }

  /** A whole run of other lines becomes one paragraph, laid out as one text. */
  lemma RunBecomesParagraph(before: seq<string>, run: seq<string>, after: seq<string>)
    requires IsRun(run) && EndsRun(Last(before)) && EndsRun(First(after))
    ensures OutLines(before + run + after, []) == OutLines(before, []) + Paragraph(LineWords(run)) + OutLines(after, [])
  {
    hide OutLines, Words, Paragraph, TrimEnd, LineWords;
    RunGathers(run, after, []);
    assert [] + LineWords(run) == LineWords(run);
    if before == [] {
      assert before + run + after == run + after;
      NothingPending();
      assert [] + Paragraph(LineWords(run)) + OutLines(after, []) == Paragraph(LineWords(run)) + OutLines(after, []);
    } else {
      var front, line := before[..|before| - 1], before[|before| - 1];
      assert before + run + after == front + [line] + (run + after) && before == front + [line] + [];
      VerbatimStaysInPlace(front, line, run + after, []);
      VerbatimStaysInPlace(front, line, [], []);
      NothingPending();
      Assoc(OutLines(before, []), Paragraph(LineWords(run)), OutLines(after, []));
    }
  }

  /** The lines that a run of other lines becomes: they hold its words in order, are no longer
      than 72 bytes where words can be broken, and are as few as that takes. */
  lemma RunIsReflowed(text: string, before: seq<string>, run: seq<string>, after: seq<string>)
    requires Trim(text) != "" && Lines(Trim(text)) == before + run + after
    requires IsRun(run) && EndsRun(Last(before)) && EndsRun(First(after))
    ensures exists x: seq<string>, rows: seq<seq<string>>, y: seq<string> ::
      Lines(Prose(text)) == x + RowLines(rows, "", "") + y
      && IsLayout(rows, LineWords(run), "", "") && IsFull(rows, "", "")
  {
    hide OutLines, Prose, Trim, LineWords, Lines, IsRun, EndsRun;
    LinesOfProse(text);
    RunBecomesParagraph(before, run, after);
    var rows := Greedy(LineWords(run), "", "");
    GreedyIsLayout(LineWords(run), "", "");
    assert Lines(Prose(text)) == OutLines(before, []) + RowLines(rows, "", "") + OutLines(after, []);
  }

  /** Two such lines that fit together become one. */
  lemma ShortLinesJoin(text: string, before: seq<string>, a: string, b: string, after: seq<string>)
    requires Trim(text) != "" && Lines(Trim(text)) == before + [a, b] + after
    requires IsRun([a, b]) && EndsRun(Last(before)) && EndsRun(First(after))
    requires |Joined(Words(a) + Words(b))| <= 72
    ensures exists x: seq<string>, y: seq<string> ::
      Lines(Prose(text)) == x + [Joined(Words(a) + Words(b))] + y
  {
    hide OutLines, Prose, Trim, Lines, EndsRun, Words, Joined, Greedy;
    LinesOfProse(text);
    RunBecomesParagraph(before, [a, b], after);
    var words := Words(a) + Words(b);
    assert LineWords([a, b]) == words by { TwoLines(a, b); }
    WordsOfNonBlank([a, b][0]);
    OneRow(words);
    assert Lines(Prose(text)) == OutLines(before, []) + [Joined(words)] + OutLines(after, []);
  }

  lemma TwoLines(a: string, b: string)
    ensures LineWords([a, b]) == Words(a) + Words(b)
  {
    hide Words;
    assert [a, b][1..] == [b] && [b][1..] == [];
    assert FlatMap(Words, [b]) == Words(b) + FlatMap(Words, [b][1..]) == Words(b);
  }

  lemma OneRow(words: seq<string>)
    requires words != [] && |Joined(words)| <= 72
    ensures Paragraph(words) == [Joined(words)]
  {
    hide Joined;
    assert words[..|words|] == words;
    FillReachesEnd(words);
    assert words[|words|..] == [] && RowLines([], "", "") == [] && Greedy([], "", "") == [];
    assert Greedy(words, "", "") == [words];
    assert [words][1..] == [] && "" + Joined(words) == Joined(words);
    assert RowLines([words], "", "") == [Joined(words)];
  }

  lemma FillReachesEnd(words: seq<string>)
    requires words != [] && |Joined(words)| <= 72
    ensures Fill(words, "", 1) == |words|
  {
    hide Joined;
    assert words[..|words|] == words;
    FillReaches(words, "", 1, |words|);
  }
}
