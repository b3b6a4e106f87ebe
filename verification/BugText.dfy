/** Untrusted text squeezed into one line, or into a URI component. */
module BugText {
  import opened Text

  // ---- one line ----

  predicate HasEol(s: string) {
    exists i :: 0 <= i < |s| && IsEol(s[i])
  }

  /** Whatever follows, the words are the same. */
  ghost predicate SameWords(a: string, b: string) {
    forall x: string :: Words(a + x) == Words(b + x)
  }

  lemma SpaceIsEnough(a: string, b: string, c: char)
    requires SameWords(a, b) && IsSpace(c)
    ensures SameWords(a + " ", b + [c])
  {
    hide Words;
    assert Words(a) == Words(b) by {
      assert a + "" == a && b + "" == b;
    }
    forall x: string ensures Words(a + " " + x) == Words(b + [c] + x) {
      WordsSplit(a, ' ', x);
      WordsSplit(b, c, x);
    }
  }

  lemma SecondSpaceIsNone(a: string)
    requires a == "" || a[|a| - 1] == ' '
    ensures SameWords(a, a + " ")
  {
    hide Words;
    forall x: string ensures Words(a + x) == Words(a + " " + x) {
      WordsSplit(a, ' ', x);
      if a == "" {
        NoWords();
        assert a + x == x;
      } else {
        var front := a[..|a| - 1];
        assert a == front + " " && a + x == front + " " + x;
        WordsSplit(front, ' ', x);
        WordsSplit(front, ' ', "");
        NoWords();
        assert front + " " + "" == a;
      }
    }
  }

  lemma NoWords()
    ensures Words("") == []
  {
  }

  lemma SameWordsChain(a: string, b: string, c: string)
    requires SameWords(a, b) && SameWords(b, c)
    ensures SameWords(a, c) && SameWords(b, a)
  {
    hide Words;
  }

  lemma SameWordsSnoc(a: string, b: string, c: char)
    requires SameWords(a, b)
    ensures SameWords(a + [c], b + [c])
  {
    hide Words;
    forall x: string ensures Words(a + [c] + x) == Words(b + [c] + x) {
      assert a + [c] + x == a + ([c] + x) && b + [c] + x == b + ([c] + x);
    }
  }

  lemma SameWordsHere(a: string, b: string)
    requires SameWords(a, b)
    ensures Words(a) == Words(b)
  {
    hide Words;
    assert a + "" == a && b + "" == b;
  }

  /** Up to one space at the end, unless there is one or nothing before it. */
  function Spaced(s: string): string {
    if s == "" || s[|s| - 1] == ' ' then s else s + " "
  }

  /** Every line break becomes a space, unless one is there already. */
  function Squeezed(s: string): string {
    if s == "" then ""
    else
      var before, last := Squeezed(s[..|s| - 1]), s[|s| - 1];
      if IsEol(last) then Spaced(before) else before + [last]
  }

  lemma SqueezedSnoc(s: string, c: char)
    ensures Squeezed(s + [c]) == if IsEol(c) then Spaced(Squeezed(s)) else Squeezed(s) + [c]
  {
    assert (s + [c])[..|s|] == s;
  }

  /** Where the text has no line breaks, nothing changes. */
  lemma {:induction false} SqueezedSame(s: string)
    requires !HasEol(s)
    ensures Squeezed(s) == s
    decreases |s|
  {
    if s != "" {
      SqueezedSame(s[..|s| - 1]);
    }
  }

  lemma {:induction false} SqueezedAppend(a: string, b: string)
    requires b == "" || !IsEol(b[0])
    ensures Squeezed(a + b) == Squeezed(a) + Squeezed(b)
    decreases |b|
  {
    hide Squeezed, Spaced;
    NothingSqueezed();
    if b == "" {
      assert a + b == a && Squeezed(a) + "" == Squeezed(a);
    } else {
      var front, last := b[..|b| - 1], b[|b| - 1];
      assert a + b == a + front + [last] && b == front + [last];
      SqueezedSnoc(a + front, last);
      SqueezedSnoc(front, last);
      SqueezedAppend(a, front);
      if front != "" {
        SqueezedNonEmpty(front);
        SpacedAppend(Squeezed(a), Squeezed(front));
      }
      Assoc(Squeezed(a), Squeezed(front), [last]);
    }
  }

  lemma SpacedAppend(a: string, b: string)
    requires b != ""
    ensures Spaced(a + b) == a + Spaced(b)
  {
  }

  lemma {:induction false} SqueezedNonEmpty(s: string)
    requires s != "" && !IsEol(s[0])
    ensures Squeezed(s) != "" && Squeezed(s)[0] == s[0]
    decreases |s|
  {
    if |s| > 1 {
      SqueezedNonEmpty(s[..|s| - 1]);
    }
  }

  /** A run of line breaks between two parts of a text becomes one space, or none after
      a space. */
  lemma RunBecomesSpace(a: string, run: string, b: string)
    requires a != "" && !IsEol(a[0]) && !IsEol(a[|a| - 1])
    requires run != "" && forall i :: 0 <= i < |run| ==> IsEol(run[i])
    requires b == "" || !IsEol(b[0])
    ensures Squeezed(a + run + b) == Squeezed(a) + (if a[|a| - 1] == ' ' then "" else " ") + Squeezed(b)
  {
    hide Squeezed;
    SqueezedAppend(a + run, b);
    SqueezedRun(a, run);
    SqueezedNonEmpty(a);
    assert a == a[..|a| - 1] + [a[|a| - 1]];
    SqueezedSnoc(a[..|a| - 1], a[|a| - 1]);
    assert Spaced(Squeezed(a)) == Squeezed(a) + if a[|a| - 1] == ' ' then "" else " ";
  }

  lemma {:induction false} SqueezedRun(a: string, run: string)
    requires run != "" && forall i :: 0 <= i < |run| ==> IsEol(run[i])
    ensures Squeezed(a + run) == Spaced(Squeezed(a))
    decreases |run|
  {
    var front, last := run[..|run| - 1], run[|run| - 1];
    assert a + run == a + front + [last];
    SqueezedSnoc(a + front, last);
    if front == "" {
      assert a + front == a;
    } else {
      SqueezedRun(a, front);
    }
  }

  lemma {:induction false} SqueezedOneLine(s: string)
    ensures !HasEol(Squeezed(s))
    decreases |s|
  {
    if s != "" {
      SqueezedOneLine(s[..|s| - 1]);
    }
  }

  /** The words of the text, in order. */
  lemma {:induction false} SqueezedWords(s: string)
    ensures SameWords(Squeezed(s), s)
    decreases |s|
  {
    hide SameWords;
    if s == "" {
      SameWordsSelf(s);
    } else {
      var front, last := s[..|s| - 1], s[|s| - 1];
      var before := Squeezed(front);
      assert s == front + [last];
      SqueezedWords(front);
      if !IsEol(last) {
        SameWordsSnoc(before, front, last);
      } else {
        SpaceIsEnough(before, front, last);
        if Spaced(before) == before {
          SecondSpaceIsNone(before);
          SameWordsChain(before, before + " ", s);
        }
      }
    }
  }

  lemma SameWordsSelf(s: string)
    ensures SameWords(s, s)
  {
  }

  /** A trimmed text stays trimmed. */
  lemma SqueezedTrimmed(t: string)
    requires Trimmed(t)
    ensures Trimmed(Squeezed(t)) && Trim(Squeezed(t)) == Squeezed(t)
  {
    hide Trim;
    if t != "" {
      SqueezedNonEmpty(t);
      assert t == t[..|t| - 1] + [t[|t| - 1]];
    }
    TrimmedIsFixed(Squeezed(t));
  }

  /** The trimmed text with every run of line breaks as one space: one line, trimmed,
      with the words of the text. */
  method SingleLine(raw: string) returns (line: string)
    ensures line == Squeezed(Trim(raw))
    ensures !HasEol(line) && Trimmed(line) && Words(line) == Words(raw)
  {
    hide Words, Trim, Squeezed, SameWords;
    var t := Trim(raw);
    var out := "";
    var pendingSpace := false;
    NothingSqueezed();
    for i := 0 to |t|
      invariant pendingSpace ==> out != ""
      invariant (if pendingSpace then Spaced(out) else out) == Squeezed(t[..i])
      invariant !pendingSpace && i > 0 && out != "" ==> !IsEol(t[i - 1])
    {
      assert t[..i + 1] == t[..i] + [t[i]];
      SqueezedSnoc(t[..i], t[i]);
      if t[i] == '\r' || t[i] == '\n' {
        pendingSpace := out != "";
      } else {
        if pendingSpace {
          if out[|out| - 1] != ' ' {
            out := out + " ";
          }
          pendingSpace := false;
        }
        out := out + [t[i]];
      }
    }
    assert t[..|t|] == t;
    TrimIsTrimmed(raw);
    SqueezedTrimmed(t);
    SqueezedWords(t);
    SameWordsHere(Squeezed(t), t);
    WordsOfTrim(raw);
    SqueezedOneLine(t);
    NotPending(t, out, pendingSpace);
    line := Trim(out);
  }

  lemma NothingSqueezed()
    ensures Squeezed("") == ""
  {
  }

  /** A trimmed text does not end while a space is pending. */
  lemma NotPending(t: string, out: string, pending: bool)
    requires Trimmed(t) && (if pending then Spaced(out) else out) == Squeezed(t) && (pending ==> out != "")
    ensures !pending
  {
    hide Trim;
    SqueezedTrimmed(t);
  }

  // ---- URI components ----

  predicate IsUnreserved(c: char) {
    'A' <= c <= 'Z' || 'a' <= c <= 'z' || '0' <= c <= '9' || c in "-._~"
  }

  function HexDigit(n: nat): (c: char)
    requires n < 16
    ensures IsUnreserved(c)
  {
    if n < 10 then '0' + n as char else 'A' + (n - 10) as char
  }

  function DigitValue(c: char): nat {
    if '0' <= c <= '9' then (c - '0') as nat
    else if 'A' <= c <= 'F' then (c - 'A') as nat + 10
    else 0
  }

  function EncodedByte(c: char): string
    requires c < 256 as char
  {
    if IsUnreserved(c) then [c] else "%" + [HexDigit(c as nat / 16)] + [HexDigit(c as nat % 16)]
  }

  predicate IsBytes(s: string) {
    forall i :: 0 <= i < |s| ==> s[i] < 256 as char
  }

  function Encoded(s: string): string
    requires IsBytes(s)
  {
    if s == "" then "" else Encoded(s[..|s| - 1]) + EncodedByte(s[|s| - 1])
  }

  lemma NothingEncoded()
    ensures Encoded("") == ""
  {
  }

  lemma EncodedSnoc(s: string, i: nat)
    requires IsBytes(s) && i < |s|
    ensures Encoded(s[..i + 1]) == Encoded(s[..i]) + EncodedByte(s[i])
  {
    hide EncodedByte;
    assert s[..i + 1][..i] == s[..i];
  }

  method EncodeUriComponent(s: string) returns (out: string)
    requires IsBytes(s)
    ensures out == Encoded(s)
  {
    hide Encoded, HexDigit;
    out := "";
    NothingEncoded();
    for i := 0 to |s|
      invariant out == Encoded(s[..i])
    {
      EncodedSnoc(s, i);
      var b := s[i];
      if IsUnreserved(b) {
        out := out + [b];
      } else {
        out := out + "%" + [HexDigit(b as nat / 16)] + [HexDigit(b as nat % 16)];
      }
    }
    assert s[..|s|] == s;
  }

  /** Percent-decoding. */
  function Decoded(s: string): string {
    if s == "" then ""
    else if s[0] == '%' && |s| >= 3 then
      var value := DigitValue(s[1]) * 16 + DigitValue(s[2]);
      [value as char] + Decoded(s[3..])
    else [s[0]] + Decoded(s[1..])
  }

  lemma ByteReadsBack(c: char, rest: string)
    requires c < 256 as char
    ensures Decoded(EncodedByte(c) + rest) == [c] + Decoded(rest)
  {
    var e := EncodedByte(c);
    if IsUnreserved(c) {
      assert (e + rest)[1..] == rest;
    } else {
      var high, low := c as nat / 16, c as nat % 16;
      assert DigitValue(HexDigit(high)) == high && DigitValue(HexDigit(low)) == low;
      assert e == ['%', HexDigit(high), HexDigit(low)];
      assert (e + rest)[3..] == rest;
    }
  }

  lemma {:induction false} EncodedReadsBack(s: string, rest: string)
    requires IsBytes(s)
    ensures Decoded(Encoded(s) + rest) == s + Decoded(rest)
    decreases |s|
  {
    hide Decoded, EncodedByte;
    if s == "" {
      assert "" + rest == rest;
    } else {
      var front, last := s[..|s| - 1], s[|s| - 1];
      Assoc(Encoded(front), EncodedByte(last), rest);
      EncodedReadsBack(front, EncodedByte(last) + rest);
      ByteReadsBack(last, rest);
      assert s + Decoded(rest) == front + ([last] + Decoded(rest));
    }
  }

  /** Decoding gives the bytes back, so no two texts share an encoding, which holds
      nothing but unreserved characters and percent signs. */
  lemma EncodingIsInvertible(s: string)
    requires IsBytes(s)
    ensures Decoded(Encoded(s)) == s
    ensures forall i :: 0 <= i < |Encoded(s)| ==> IsUnreserved(Encoded(s)[i]) || Encoded(s)[i] == '%'
  {
    EncodedReadsBack(s, "");
    assert Encoded(s) + "" == Encoded(s) && Decoded("") == "";
    EncodingIsSafe(s);
  }

  /** Unreserved characters are kept; every other byte becomes its value in two upper-case
      hexadecimal digits behind a percent sign. */
  lemma EncodedByteIs(c: char)
    requires c < 256 as char
    ensures 'A' <= c <= 'Z' || 'a' <= c <= 'z' || '0' <= c <= '9' || c == '-' || c == '.' || c == '_' || c == '~' ==>
      Encoded([c]) == [c]
    ensures Encoded([c]) != [c] ==>
      |Encoded([c])| == 3 && Encoded([c])[0] == '%'
      && DigitValue(Encoded([c])[1]) * 16 + DigitValue(Encoded([c])[2]) == c as nat
      && forall i :: 1 <= i < 3 ==> '0' <= Encoded([c])[i] <= '9' || 'A' <= Encoded([c])[i] <= 'F'
  {
    assert [c][..0] == "" && Encoded("") == "";
    assert Encoded([c]) == EncodedByte(c);
  }

  /** Byte by byte. */
  lemma {:induction false} EncodedAppend(a: string, b: string)
    requires IsBytes(a) && IsBytes(b)
    ensures Encoded(a + b) == Encoded(a) + Encoded(b)
    decreases |b|
  {
    hide EncodedByte;
    if b == "" {
      assert a + b == a;
    } else {
      assert (a + b)[..|a + b| - 1] == a + b[..|b| - 1];
      EncodedAppend(a, b[..|b| - 1]);
    }
  }

  lemma {:induction false} EncodingIsSafe(s: string)
    requires IsBytes(s)
    ensures forall i :: 0 <= i < |Encoded(s)| ==> IsUnreserved(Encoded(s)[i]) || Encoded(s)[i] == '%'
    decreases |s|
  {
    if s != "" {
      EncodingIsSafe(s[..|s| - 1]);
    }
  }
}
