/** Re-wrapping the prose of free text around its quoted, indented and empty lines. */
module EmailProse {
  import opened Text
  import opened EmailText

  /** Empty, quoted and indented lines are never reflowed. */
  predicate Verbatim(line: string) {
    Blank(line) || line[0] == '>' || line[0] == ' ' || line[0] == '\t'
  }

  function Paragraph(words: seq<string>): seq<string> {
    RowLines(Greedy(words, "", ""), "", "")
  }

  /** The lines written for `lines` when the words `pend` are waiting to be wrapped. */
  function OutLines(lines: seq<string>, pend: seq<string>): seq<string> {
    if lines == [] then Paragraph(pend)
    else if Verbatim(lines[0]) then Paragraph(pend) + [TrimEnd(lines[0])] + OutLines(lines[1..], [])
    else OutLines(lines[1..], pend + Words(lines[0]))
  }

  lemma OutLinesStep(lines: seq<string>, pend: seq<string>)
    requires lines != []
    ensures OutLines(lines, pend)
         == if Verbatim(lines[0]) then Paragraph(pend) + [TrimEnd(lines[0])] + OutLines(lines[1..], [])
            else OutLines(lines[1..], pend + Words(lines[0]))
  {
    hide Verbatim, Paragraph, TrimEnd, Words;
  }

  lemma NothingPending()
    ensures Paragraph([]) == [] && forall pend :: OutLines([], pend) == Paragraph(pend)
  {
  }

  function Prose(text: string): string {
    TrimEnd(Terminated(OutLines(Lines(Trim(text)), [])))
  }

  lemma {:induction false} WordsOfJoined(row: seq<string>, last: string)
    ensures Words(Joined(row + [last])) == Words(Joined(row)) + Words(last)
  {
    JoinedSnoc(row, last);
    if row != [] {
      WordsSplit(Joined(row), ' ', last);
      assert Joined(row) + " " + last == Joined(row) + [' '] + last;
    }
  }

  /** The words waiting in the paragraph buffer. */
  function Pending(paragraph: seq<string>): seq<string> {
    Words(Joined(paragraph))
  }

  method Flush(paragraph: seq<string>, out: string) returns (paragraph': seq<string>, out': string)
    requires paragraph == [] <==> Pending(paragraph) == []
    ensures paragraph' == [] && out' == out + Terminated(Paragraph(Pending(paragraph)))
  {
    paragraph', out' := paragraph, out;
    if paragraph' != [] {
      var wrapped := Wrap(Joined(paragraph'), "", "");
      out' := out' + wrapped;
      paragraph' := [];
    }
  }

  lemma EmitVerbatim(done: seq<string>, para: seq<string>, line: string, tail: seq<string>)
    ensures Terminated(done + para + [line]) == Terminated(done) + Terminated(para) + line + "\n"
    ensures done + (para + [line] + tail) == (done + para + [line]) + tail
  {
    TerminatedConcat(done, para);
    TerminatedConcat(done + para, [line]);
  }

  lemma EmitProse(paragraph: seq<string>, line: string)
    requires !Blank(line)
    ensures Pending(paragraph + [Trim(line)]) == Pending(paragraph) + Words(line) != []
  {
    WordsOfTrim(line);
    WordsOfJoined(paragraph, Trim(line));
    WordsOfNonBlank(line);
  }

  method WrapProse(text: string) returns (result: string)
    ensures result == Prose(text)
  {
    var out, paragraph: seq<string> := "", [];
    var lines := Lines(Trim(text));
    ghost var done: seq<string> := [];
    for i := 0 to |lines|
      invariant out == Terminated(done)
      invariant paragraph == [] <==> Pending(paragraph) == []
      invariant OutLines(lines, []) == done + OutLines(lines[i..], Pending(paragraph))
    {
      var line := lines[i];
      var verbatim := Blank(line) || line[0] == '>' || line[0] == ' ' || line[0] == '\t';
      assert lines[i..][0] == line && lines[i..][1..] == lines[i + 1..];
      if verbatim {
        EmitVerbatim(done, Paragraph(Pending(paragraph)), TrimEnd(line), OutLines(lines[i + 1..], []));
        done := done + Paragraph(Pending(paragraph)) + [TrimEnd(line)];
        paragraph, out := Flush(paragraph, out);
        out := out + TrimEnd(line);
        out := out + "\n";
      } else {
        EmitProse(paragraph, line);
        paragraph := paragraph + [Trim(line)];
      }
    }
    TerminatedConcat(done, Paragraph(Pending(paragraph)));
    paragraph, out := Flush(paragraph, out);
    result := TrimEnd(out);
  }

  lemma WordsOfNonBlank(s: string)
    requires !Blank(s)
    ensures Words(s) != []
  {
    if IsSpace(s[0]) {
      WordsOfNonBlank(s[1..]);
    }
  }

  // ---- lossless ------------------------------------------------------------

  ghost predicate AllWords(words: seq<string>) {
    forall w :: w in words ==> w != "" && Solid(w)
  }

  lemma {:induction false} JoinedWords(row: seq<string>)
    requires AllWords(row)
    ensures Words(Joined(row)) == row
    decreases |row|
  {
    if row != [] {
      var init, last := row[..|row| - 1], row[|row| - 1];
      assert row == init + [last] && last in row;
      JoinedWords(init);
      WordsOfJoined(init, last);
      WordsOfWord(last);
    }
  }

  /** A row of words reads as one clean line beginning with its first word. */
  lemma {:induction false} JoinedShape(row: seq<string>)
    requires AllWords(row) && row != []
    ensures row[0] in row && Joined(row) != "" && Joined(row)[0] == row[0][0]
      && Trimmed(Joined(row)) && '\n' !in Joined(row)
    decreases |row|
  {
    var init, last := row[..|row| - 1], row[|row| - 1];
    assert row == init + [last] && last in row && row[0] in row;
    assert '\n' !in last;
    JoinedSnoc(init, last);
    if init != [] {
      JoinedShape(init);
    }
  }

  /** The words of a list of lines. */
  function LineWords(lines: seq<string>): seq<string> {
    FlatMap(Words, lines)
  }

  lemma {:induction false} WordsOfTerminated(lines: seq<string>)
    ensures Words(Terminated(lines)) == LineWords(lines)
  {
    if lines != [] {
      WordsOfTerminated(lines[1..]);
      WordsSplit(lines[0], '\n', Terminated(lines[1..]));
      assert lines[0] + "\n" + Terminated(lines[1..]) == lines[0] + ['\n'] + Terminated(lines[1..]);
    }
  }

  /** A prefix that is empty or ends in whitespace keeps its words apart from the row's. */
  lemma WordsOfPrefixed(prefix: string, row: seq<string>)
    requires AllWords(row) && (prefix == "" || IsSpace(prefix[|prefix| - 1]))
    ensures Words(prefix + Joined(row)) == Words(prefix) + row
  {
    hide Words, Joined;
    JoinedWords(row);
    WordsOfBlank("");
    if prefix == "" {
      assert prefix + Joined(row) == Joined(row);
    } else {
      var front, c := prefix[..|prefix| - 1], prefix[|prefix| - 1];
      assert prefix == front + [c] + [];
      assert prefix + Joined(row) == front + [c] + Joined(row);
      WordsSplit(front, c, Joined(row));
      WordsSplit(front, c, []);
    }
  }

  lemma {:induction false} WordsOfRowLines(rows: seq<seq<string>>, first: string, rest: string)
    requires AllWords(Concat(rows)) && Blank(rest) && (first == "" || IsSpace(first[|first| - 1]))
    ensures LineWords(RowLines(rows, first, rest)) == (if rows == [] then [] else Words(first)) + Concat(rows)
  {
    hide Words;
    if rows != [] {
      assert AllWords(rows[0]) && AllWords(Concat(rows[1..])) by {
        assert forall w :: w in rows[0] || w in Concat(rows[1..]) ==> w in Concat(rows);
      }
      WordsOfRowLines(rows[1..], rest, rest);
      WordsOfBlank(rest);
      WordsOfPrefixed(first, rows[0]);
      assert RowLines(rows, first, rest)[1..] == RowLines(rows[1..], rest, rest);
    }
  }

  /** Wrapping loses, adds and reorders no word: the output reads as the words of the
      first prefix followed by those of the text. */
  lemma WrapIsLossless(text: string, first: string, rest: string)
    requires Blank(rest) && (first == "" || IsSpace(first[|first| - 1]))
    ensures Words(Wrapped(text, first, rest)) == Words(first) + Words(text)
  {
    if Words(text) == [] {
      WordsSplit(first, '\n', []);
      assert first + "\n" == first + ['\n'] + [];
    } else {
      var rows := Greedy(Words(text), first, rest);
      GreedyIsLayout(Words(text), first, rest);
      WordsOfTerminated(RowLines(rows, first, rest));
      WordsOfRowLines(rows, first, rest);
    }
  }

  lemma WordsOfParagraph(words: seq<string>)
    requires AllWords(words)
    ensures LineWords(Paragraph(words)) == words
  {
    hide Words;
    GreedyIsLayout(words, "", "");
    WordsOfBlank("");
    WordsOfRowLines(Greedy(words, "", ""), "", "");
  }

  lemma {:induction false} WordsOfOutLines(lines: seq<string>, pend: seq<string>)
    requires AllWords(pend)
    ensures LineWords(OutLines(lines, pend)) == pend + LineWords(lines)
    decreases |lines|
  {
    hide Words, Paragraph, Trim, TrimEnd, TrimStart, Verbatim;
    if lines == [] {
      WordsOfParagraph(pend);
    } else if Verbatim(lines[0]) {
      WordsOfOutLines(lines[1..], []);
      WordsOfParagraph(pend);
      WordsOfTrim(lines[0]);
      FlatMapAround(Words, Paragraph(pend), TrimEnd(lines[0]), OutLines(lines[1..], []));
    } else {
      MoreWords(pend, lines[0]);
      WordsOfOutLines(lines[1..], pend + Words(lines[0]));
      Assoc(pend, Words(lines[0]), LineWords(lines[1..]));
    }
  }

  lemma MoreWords(pend: seq<string>, line: string)
    requires AllWords(pend)
    ensures AllWords(pend + Words(line))
  {
    assert forall w :: w in pend + Words(line) ==> w in pend || w in Words(line);
  }

  lemma {:induction false} WordsOfLines(s: string)
    ensures LineWords(Lines(s)) == Words(s)
    decreases |s|
  {
    hide Words;
    if s == [] {
      WordsOfBlank(s);
    } else {
      var i := Find(s, IsLineFeed);
      if i == |s| {
        assert FlatMap(Words, [s]) == Words(s) + FlatMap(Words, [s][1..]);
      } else {
        assert s == s[..i] + ['\n'] + s[i + 1..];
        WordsSplit(s[..i], '\n', s[i + 1..]);
        WordsOfStripCr(s[..i]);
        WordsOfLines(s[i + 1..]);
        assert Lines(s)[1..] == Lines(s[i + 1..]);
      }
    }
  }

  lemma WordsOfStripCr(s: string)
    ensures Words(StripCr(s)) == Words(s)
  {
    if s != [] && s[|s| - 1] == '\r' {
      assert s == s[..|s| - 1] + ['\r'] + [];
      WordsSplit(s[..|s| - 1], '\r', []);
    }
  }

  /** Re-wrapping any text keeps its words and their order. */
  lemma ProseIsLossless(text: string)
    ensures Words(Prose(text)) == Words(text)
  {
    hide Words, OutLines, Lines, Trim, TrimEnd, Terminated;
    var out := OutLines(Lines(Trim(text)), []);
    WordsOfTrim(Terminated(out));
    WordsOfTerminated(out);
    WordsOfOutLines(Lines(Trim(text)), []);
    WordsOfLines(Trim(text));
    WordsOfTrim(text);
  }

  // ---- in place and idempotent ---------------------------------------------

  /** A blank, quoted or indented line stays where it is: what surrounds it is laid out as if
      the line were the end of one text and the start of another. */
  lemma {:induction false} VerbatimStaysInPlace(before: seq<string>, line: string, after: seq<string>,
          pend: seq<string>)
    requires Blank(line) || line[0] == '>' || line[0] == ' ' || line[0] == '\t'
    ensures OutLines(before + [line] + after, pend)
      == OutLines(before, pend) + [TrimEnd(line)] + OutLines(after, [])
    decreases |before|
  {
    var lines := before + [line] + after;
    if before == [] {
      assert lines[1..] == after;
    } else {
      assert lines[1..] == before[1..] + [line] + after;
      if Verbatim(before[0]) {
        VerbatimStaysInPlace(before[1..], line, after, []);
      } else {
        VerbatimStaysInPlace(before[1..], line, after, pend + Words(before[0]));
      }
    }
  }

  /** Rows as greedy wrapping leaves them. */
  ghost predicate Wrapping(rows: seq<seq<string>>) {
    && AllFit(rows, "", "") && IsFull(rows, "", "")
    && forall row :: row in rows ==> AllWords(row)
  }

  function Texts(rows: seq<seq<string>>): seq<string> {
    RowLines(rows, "", "")
  }

  lemma {:induction false} WrappingPrefix(a: seq<seq<string>>, b: seq<seq<string>>)
    requires Wrapping(a + b)
    ensures Wrapping(a) && Wrapping(b) && Texts(a + b) == Texts(a) + Texts(b)
  {
    hide AllWords, Joined;
    if a == [] {
      assert a + b == b;
    } else {
      assert (a + b)[1..] == a[1..] + b;
      assert (a + b)[0] == a[0];
      assert forall row :: row in (a + b)[1..] ==> row in a + b;
      WrappingPrefix(a[1..], b);
      if |a| > 1 {
        assert (a + b)[1] == a[1];
      }
      assert forall row :: row in a ==> row == a[0] || row in a[1..];
    }
  }

  lemma WrappingIsParagraph(rows: seq<seq<string>>)
    requires Wrapping(rows)
    ensures Paragraph(Concat(rows)) == Texts(rows)
  {
    FullIsGreedy(rows, Concat(rows), "", "");
  }

  /** A verbatim line or the end of the text flushes the words waiting before it. */
  lemma VerbatimFlushes(tail: seq<string>, words: seq<string>)
    requires tail == [] || Verbatim(tail[0])
    ensures OutLines(tail, words) == Paragraph(words) + OutLines(tail, [])
  {
    hide Verbatim, TrimEnd, OutLines, Paragraph;
    NothingPending();
    if tail != [] {
      OutLinesStep(tail, words);
      OutLinesStep(tail, []);
      var line, rest := [TrimEnd(tail[0])], OutLines(tail[1..], []);
      assert [] + line + rest == line + rest && Paragraph(words) + line + rest == Paragraph(words) + (line + rest);
    }
  }

  lemma OneRow(row: seq<string>, rows: seq<seq<string>>)
    ensures Texts([row]) == [Joined(row)] && Texts([row] + rows) == [Joined(row)] + Texts(rows)
    ensures Concat([row]) == row
  {
    hide Joined;
    assert "" + Joined(row) == Joined(row) && [row][1..] == [] && ([row] + rows)[1..] == rows;
    assert RowLines([], "", "") == [] && [Joined(row)] + [] == [Joined(row)];
    assert Concat([row]) == row + Concat([row][1..]);
  }

  /** Wrapped rows re-wrap to themselves, whatever verbatim line or end follows, and
      even when some rows start with `>` and so count as quotes the second time. */
  lemma {:induction false} RowsAreStable(pend: seq<seq<string>>, rows: seq<seq<string>>, tail: seq<string>)
    requires Wrapping(pend + rows) && (tail == [] || Verbatim(tail[0]))
    ensures OutLines(Texts(rows) + tail, Concat(pend)) == Texts(pend + rows) + OutLines(tail, [])
    decreases |rows|
  {
    hide OutLines, Wrapping, Joined, Paragraph, Verbatim, Texts, Concat, AllWords;
    NoRows();
    WrappingPrefix(pend, rows);
    if rows == [] {
      WrappingIsParagraph(pend);
      assert Texts(rows) + tail == tail && pend + rows == pend;
      VerbatimFlushes(tail, Concat(pend));
    } else {
      var row, rest := rows[0], rows[1..];
      assert [row] + rest == rows;
      RowIsStable(pend, row, rest, tail);
      if row[0][0] == '>' {
        assert [] + rest == rest;
        WrappingPrefix([row], rest);
        RowsAreStable([], rest, tail);
        OneRow(row, rest);
        Regroup(Texts(pend), [Joined(row)], Texts(rest), OutLines(tail, []));
      } else {
        assert pend + [row] + rest == pend + rows;
        RowsAreStable(pend + [row], rest, tail);
      }
    }
  }

  lemma NoRows()
    ensures Texts([]) == [] && Concat<string>([]) == []
  {
  }

  lemma Regroup<T>(a: seq<T>, b: seq<T>, c: seq<T>, d: seq<T>)
    ensures a + b + (c + d) == a + (b + c) + d
  {
  }

  lemma WrappingRow(row: seq<string>, rows: seq<seq<string>>)
    requires Wrapping([row] + rows)
    ensures row != [] && AllWords(row)
  {
    hide Joined;
    assert ([row] + rows)[0] == row;
  }

  lemma RowIsStable(pend: seq<seq<string>>, row: seq<string>, rows: seq<seq<string>>, tail: seq<string>)
    requires Wrapping(pend) && Wrapping([row] + rows)
    ensures row != [] && row[0] != ""
    ensures OutLines(Texts([row] + rows) + tail, Concat(pend)) ==
      if row[0][0] == '>' then Texts(pend) + [Joined(row)] + OutLines(Texts(rows) + tail, [])
      else OutLines(Texts(rows) + tail, Concat(pend + [row]))
  {
    hide Words, OutLines, Paragraph, Texts, Joined, Trim, TrimEnd, TrimStart, Wrapping;
    assert row in [row] + rows && row == ([row] + rows)[0];
    WrappingRow(row, rows);
    JoinedShape(row);
    OneRow(row, rows);
    var lines := Texts([row] + rows) + tail;
    assert lines[0] == Joined(row) && lines[1..] == Texts(rows) + tail;
    OutLinesStep(lines, Concat(pend));
    WrappingIsParagraph(pend);
    if row[0][0] == '>' {
      TrimmedIsFixed(Joined(row));
    } else {
      JoinedWords(row);
      ConcatAppend(pend, [row]);
    }
  }

  lemma {:induction false} ParagraphIsStable(words: seq<string>, tail: seq<string>)
    requires AllWords(words) && (tail == [] || Verbatim(tail[0]))
    ensures OutLines(Paragraph(words) + tail, []) == Paragraph(words) + OutLines(tail, [])
  {
    var rows := Greedy(words, "", "");
    GreedyIsLayout(words, "", "");
    RowsOfWords(rows);
    assert [] + rows == rows;
    RowsAreStable([], rows, tail);
  }

  lemma {:induction false} RowsOfWords(rows: seq<seq<string>>)
    requires AllWords(Concat(rows))
    ensures forall row :: row in rows ==> AllWords(row)
  {
    if rows != [] {
      assert forall w :: w in rows[0] || w in Concat(rows[1..]) ==> w in Concat(rows);
      RowsOfWords(rows[1..]);
    }
  }

  lemma {:induction false} OutLinesAreStable(lines: seq<string>, pend: seq<string>)
    requires AllWords(pend)
    ensures OutLines(OutLines(lines, pend), []) == OutLines(lines, pend)
    decreases |lines|
  {
    if lines == [] {
      ParagraphIsStable(pend, []);
      assert Paragraph(pend) + [] == Paragraph(pend) && Paragraph([]) == [];
    } else if Verbatim(lines[0]) {
      OutLinesAreStable(lines[1..], []);
      VerbatimIsStable(pend, lines[0], OutLines(lines[1..], []));
    } else {
      MoreWords(pend, lines[0]);
      OutLinesAreStable(lines[1..], pend + Words(lines[0]));
    }
  }

  lemma VerbatimIsStable(pend: seq<string>, line: string, tail: seq<string>)
    requires AllWords(pend) && Verbatim(line) && OutLines(tail, []) == tail
    ensures var out := Paragraph(pend) + [TrimEnd(line)] + tail; OutLines(out, []) == out
  {
    hide Words;
    VerbatimTrimEnd(line);
    Assoc(Paragraph(pend), [TrimEnd(line)], tail);
    ParagraphIsStable(pend, [TrimEnd(line)] + tail);
    assert ([TrimEnd(line)] + tail)[1..] == tail && Paragraph([]) == [];
  }

  lemma VerbatimTrimEnd(line: string)
    requires Verbatim(line)
    ensures Verbatim(TrimEnd(line)) && TrimEnd(TrimEnd(line)) == TrimEnd(line)
  {
  }

  ghost predicate CleanLine(line: string) {
    '\n' !in line && TrimEnd(line) == line
  }

  lemma {:induction false} LinesHaveNoFeed(s: string)
    ensures forall line :: line in Lines(s) ==> '\n' !in line
    decreases |s|
  {
    if s != [] {
      var i := Find(s, IsLineFeed);
      if i < |s| {
        LinesHaveNoFeed(s[i + 1..]);
      }
    }
  }

  lemma {:induction false} RowTextsAreClean(rows: seq<seq<string>>)
    requires AllFit(rows, "", "") && forall row :: row in rows ==> AllWords(row)
    ensures forall line :: line in Texts(rows) ==> CleanLine(line) && line != ""
  {
    if rows != [] {
      assert rows[0] in rows && [rows[0]] + rows[1..] == rows;
      JoinedShape(rows[0]);
      TrimmedIsFixed(Joined(rows[0]));
      RowTextsAreClean(rows[1..]);
      OneRow(rows[0], rows[1..]);
    }
  }

  /** A paragraph is clean lines, the first of them beginning with the first word. */
  lemma ParagraphIsClean(words: seq<string>)
    requires AllWords(words)
    ensures forall line :: line in Paragraph(words) ==> CleanLine(line) && line != ""
    ensures words != [] ==> words[0] != "" && Paragraph(words) != []
    ensures words != [] ==> Paragraph(words)[0] != "" && Paragraph(words)[0][0] == words[0][0]
  {
    var rows := Greedy(words, "", "");
    GreedyIsLayout(words, "", "");
    RowsOfWords(rows);
    RowTextsAreClean(rows);
    if words != [] {
      assert words[0] in words && rows[0] in rows && rows[0][0] == words[0];
      JoinedShape(rows[0]);
      assert Paragraph(words)[0] == "" + Joined(rows[0]) == Joined(rows[0]);
    }
  }

  lemma {:induction false} OutLinesAreClean(lines: seq<string>, pend: seq<string>)
    requires AllWords(pend) && forall line :: line in lines ==> '\n' !in line
    ensures forall line :: line in OutLines(lines, pend) ==> CleanLine(line)
    decreases |lines|
  {
    hide Words, CleanLine, Paragraph;
    ParagraphIsClean(pend);
    if lines != [] {
      assert lines[0] in lines;
      if Verbatim(lines[0]) {
        VerbatimTrimEnd(lines[0]);
        assert CleanLine(TrimEnd(lines[0])) by { CleanTrimEnd(lines[0]); }
        OutLinesAreClean(lines[1..], []);
      } else {
        MoreWords(pend, lines[0]);
        OutLinesAreClean(lines[1..], pend + Words(lines[0]));
      }
    }
  }

  lemma CleanTrimEnd(line: string)
    requires '\n' !in line
    ensures CleanLine(TrimEnd(line))
  {
  }

  ghost predicate StartsSolid(lines: seq<string>) {
    lines != [] && lines[0] != "" && !IsSpace(lines[0][0])
  }

  ghost predicate EndsSolid(lines: seq<string>) {
    lines != [] && !Blank(lines[|lines| - 1])
  }

  lemma {:induction false} OutLinesStartSolid(lines: seq<string>, pend: seq<string>)
    requires AllWords(pend) && (if pend == [] then StartsSolid(lines) else true)
    ensures StartsSolid(OutLines(lines, pend))
    decreases |lines|
  {
    hide Words, Paragraph;
    ParagraphIsClean(pend);
    if pend != [] {
      assert pend[0] in pend;
    }
    if lines != [] && !Verbatim(lines[0]) {
      MoreWords(pend, lines[0]);
      WordsOfNonBlank(lines[0]);
      OutLinesStartSolid(lines[1..], pend + Words(lines[0]));
    } else if lines != [] && pend == [] {
      EmptyParagraph();
    }
  }

  lemma EmptyParagraph()
    ensures Paragraph([]) == []
  {
  }

  lemma {:induction false} OutLinesEndSolid(lines: seq<string>, pend: seq<string>)
    requires AllWords(pend) && (if lines == [] then pend != [] else EndsSolid(lines))
    ensures EndsSolid(OutLines(lines, pend))
    decreases |lines|
  {
    hide Words, Paragraph;
    if lines == [] {
      ParagraphIsClean(pend);
      var last := Paragraph(pend)[|Paragraph(pend)| - 1];
      assert last in Paragraph(pend);
      NonBlankOfClean(last);
    } else if !Verbatim(lines[0]) {
      MoreWords(pend, lines[0]);
      WordsOfNonBlank(lines[0]);
      OutLinesEndSolid(lines[1..], pend + Words(lines[0]));
    } else if |lines| > 1 {
      OutLinesEndSolid(lines[1..], []);
    } else {
      EmptyParagraph();
      NonBlankOfTrimEnd(lines[0]);
    }
  }

  lemma NonBlankOfClean(line: string)
    requires CleanLine(line) && line != ""
    ensures !Blank(line)
  {
    assert TrimEnd(line)[|line| - 1] == line[|line| - 1];
  }

  lemma NonBlankOfTrimEnd(line: string)
    requires !Blank(line)
    ensures !Blank(TrimEnd(line))
  {
    var i :| 0 <= i < |line| && !IsSpace(line[i]);
    if IsSpace(line[|line| - 1]) {
      assert line[..|line| - 1][i] == line[i];
      NonBlankOfTrimEnd(line[..|line| - 1]);
    }
  }

  /** Lines separated, not terminated, by line feeds. */
  function Separated(lines: seq<string>): string
    requires lines != []
  {
    if |lines| == 1 then lines[0] else lines[0] + "\n" + Separated(lines[1..])
  }

  lemma {:induction false} TerminatedIsSeparated(lines: seq<string>)
    requires lines != []
    ensures Terminated(lines) == Separated(lines) + "\n"
  {
    if |lines| > 1 {
      TerminatedIsSeparated(lines[1..]);
    } else {
      assert Terminated(lines[1..]) == "";
    }
  }

  /** Clean lines that end in text read back from their separated form. */
  lemma {:induction false} LinesOfSeparated(lines: seq<string>)
    requires EndsSolid(lines) && forall line :: line in lines ==> CleanLine(line)
    ensures Separated(lines) != "" && TrimEnd(Separated(lines) + "\n") == Separated(lines)
    ensures Lines(Separated(lines)) == lines
  {
    var line := lines[0];
    assert line in lines;
    if |lines| == 1 {
      TrimmedEnd(line);
      FindUnique(line, IsLineFeed, |line|);
      assert lines == [line];
    } else {
      LinesOfSeparated(lines[1..]);
      PrependLine(line, Separated(lines[1..]));
      assert lines == [line] + lines[1..];
    }
  }

  lemma PrependLine(line: string, text: string)
    requires CleanLine(line) && text != "" && TrimEnd(text + "\n") == text
    ensures Lines(line + "\n" + text) == [line] + Lines(text)
    ensures TrimEnd(line + "\n" + text + "\n") == line + "\n" + text
  {
    hide TrimEnd, Find, CleanLine;
    CleanLineKept(line);
    var t := line + "\n" + text;
    FindUnique(t, IsLineFeed, |line|);
    assert t[..|line|] == line && t[|line| + 1..] == text;
    TrimmedEndOf(t, text);
  }

  lemma CleanLineKept(line: string)
    requires CleanLine(line)
    ensures StripCr(line) == line && '\n' !in line
  {
  }

  lemma TrimmedEnd(t: string)
    requires t != "" && !IsSpace(t[|t| - 1])
    ensures TrimEnd(t + "\n") == t
  {
    assert (t + "\n")[..|t|] == t;
    assert TrimEnd(t) == t;
  }

  lemma TrimmedEndOf(t: string, u: string)
    requires u != "" && TrimEnd(u + "\n") == u && |u| <= |t| && t[|t| - |u|..] == u
    ensures TrimEnd(t + "\n") == t
  {
    assert u[|u| - 1] == t[|t| - 1];
    TrimmedEnd(t);
  }

  lemma LinesStartSolid(s: string)
    requires s != "" && !IsSpace(s[0])
    ensures StartsSolid(Lines(s))
  {
  }

  lemma {:induction false} LinesEndSolid(s: string)
    requires s != "" && !IsSpace(s[|s| - 1])
    ensures EndsSolid(Lines(s))
    decreases |s|
  {
    hide Find;
    var i := Find(s, IsLineFeed);
    if i < |s| {
      assert s[i + 1..] != "" && s[i + 1..][|s| - i - 2] == s[|s| - 1];
      LinesEndSolid(s[i + 1..]);
    }
  }

  /** Re-wrapping what was re-wrapped changes nothing, for every text. */
  lemma ProseIsIdempotent(text: string)
    ensures Prose(Prose(text)) == Prose(text)
  {
    hide Words, Paragraph, OutLines;
    var trimmed := Trim(text);
    TrimIsTrimmed(text);
    var lines := Lines(trimmed);
    var out := OutLines(lines, []);
    if trimmed == "" {
      EmptyProse(text);
    } else {
      LinesStartSolid(trimmed);
      LinesEndSolid(trimmed);
      LinesHaveNoFeed(trimmed);
      OutLinesStartSolid(lines, []);
      OutLinesEndSolid(lines, []);
      OutLinesAreClean(lines, []);
      OutLinesAreStable(lines, []);
      TerminatedIsSeparated(out);
      LinesOfSeparated(out);
      TrimmedIsFixed(Prose(text));
    }
  }

  lemma EmptyProse(text: string)
    requires Trim(text) == ""
    ensures Prose(text) == "" && Prose("") == ""
  {
    EmptyParagraph();
  }
}
