/** Decimal numerals. */
module Decimals {
  import opened Options

  predicate IsDigit(c: char) {
    '0' <= c <= '9'
  }

  predicate AllDigits(s: string) {
    forall i :: 0 <= i < |s| ==> IsDigit(s[i])
  }

  function Natural(n: nat): (s: string)
    ensures s != "" && AllDigits(s)
  {
    var digit := '0' + (n % 10) as char;
    if n < 10 then [digit] else Natural(n / 10) + [digit]
  }

  function Show(n: int): string {
    if n < 0 then "-" + Natural(-n) else Natural(n)
  }

  function Value(s: string): nat
    requires AllDigits(s)
  {
    if s == "" then 0 else Value(s[..|s| - 1]) * 10 + (s[|s| - 1] - '0') as nat
  }

  lemma {:induction false} ValueOfNatural(n: nat)
    ensures Value(Natural(n)) == n
    decreases n
  {
    if n < 10 {
      assert Natural(n)[..0] == "";
    } else {
      ValueOfNatural(n / 10);
      assert Natural(n)[..|Natural(n)| - 1] == Natural(n / 10);
    }
  }

  /** `str::parse::<u32>`. */
  function ParseU32(s: string): Option<nat> {
    var digits := if s != "" && s[0] == '+' then s[1..] else s;
    if digits == "" || !AllDigits(digits) || Value(digits) >= 0x1_0000_0000 then None else Some(Value(digits))
  }

  lemma ParseNatural(n: nat)
    requires n < 0x1_0000_0000
    ensures ParseU32(Natural(n)) == Some(n)
  {
    ValueOfNatural(n);
    assert IsDigit(Natural(n)[0]);
  }

  /** A plus sign may precede the digits; anything else, and any larger number, is refused. */
  lemma ParseRefuses(s: string, n: nat)
    ensures n < 0x1_0000_0000 ==> ParseU32("+" + Natural(n)) == Some(n)
    ensures n >= 0x1_0000_0000 ==> ParseU32(Natural(n)) == None
    ensures s == "" || (exists i :: 0 < i < |s| && !IsDigit(s[i])) || (s[0] != '+' && !IsDigit(s[0])) ==>
      ParseU32(s) == None
  {
    ValueOfNatural(n);
    assert IsDigit(Natural(n)[0]);
    assert ("+" + Natural(n))[1..] == Natural(n);
    if i :| 0 < i < |s| && !IsDigit(s[i]) {
      assert s[1..][i - 1] == s[i];
    }
  }
}

/** The subject line of a pull or merge request, tagged with its number and revision. */
module ForgeSubjects {
  import opened Options
  import opened Text
  import opened Decimals

  predicate IsBracket(c: char) {
    c == ']'
  }

  function Mark(url: Option<string>): char {
    if url.Some? && Contains(url.value, "gitlab") then '!' else '#'
  }

  function Base(mark: char, number: int): string {
    [mark] + Show(number)
  }

  /** What follows the prefix, or nothing when `s` does not start with it. */
  function After(s: string, prefix: string): Option<string> {
    if prefix <= s then Some(s[|prefix|..]) else None
  }

  /** What follows a closing bracket, without the colon there may be. */
  function BehindBracket(after: string): string {
    TrimStart(After(TrimStart(after), ":").GetOr(after))
  }

  /** What follows `[v...]` or `:` behind a number. */
  function Untagged(rest: string): Option<string> {
    var r := TrimStart(rest);
    var v := After(r, "[v");
    if v.Some? && ']' in v.value then
      Some(BehindBracket(v.value[Find(v.value, IsBracket) + 1..]))
    else
      var c := After(r, ":");
      if c.Some? then Some(TrimStart(c.value)) else None
  }

  function Tagged(s: string, mark: char, number: int): Option<string> {
    var rest := After(s, Base(mark, number));
    if rest.Some? then Untagged(rest.value) else None
  }

  function StripExistingMrPrefix(title: string, number: int): string {
    var s := Trim(title);
    if Tagged(s, '#', number).Some? then Tagged(s, '#', number).value
    else if Tagged(s, '!', number).Some? then Tagged(s, '!', number).value
    else s
  }

  function Tag(mark: char, number: int, version: nat): string {
    if version >= 2 then Base(mark, number) + " [v" + Natural(version) + "]: " else Base(mark, number) + ": "
  }

  function FormatMrSubject(url: Option<string>, number: int, version: nat, title: string): string {
    Tag(Mark(url), number, version) + StripExistingMrPrefix(title, number)
  }

  /** The version behind a number: 1 when none can be read. */
  function VersionBehind(rest: string): nat {
    var v := After(TrimStart(rest), "[v");
    if v.Some? && ']' in v.value then ParseU32(v.value[..Find(v.value, IsBracket)]).GetOr(1) else 1
  }

  function VersionIn(s: string, mark: char, number: int): Option<nat> {
    var rest := After(s, Base(mark, number));
    if rest.Some? then Some(VersionBehind(rest.value)) else None
  }

  function ExtractMrVersion(subject: Option<string>, number: int): Option<nat> {
    if subject.None? then None
    else
      var s := Trim(subject.value);
      if VersionIn(s, '#', number).Some? then VersionIn(s, '#', number) else VersionIn(s, '!', number)
  }

  // ---- trimming what was formatted ----

  lemma {:induction false} TrimEndKeepsFront(front: string, s: string)
    requires front != "" && !IsSpace(front[|front| - 1])
    ensures TrimEnd(front + s) == front + TrimEnd(s)
    decreases |s|
  {
    if s == "" {
      assert front + s == front;
    } else if IsSpace(s[|s| - 1]) {
      assert (front + s)[..|front + s| - 1] == front + s[..|s| - 1];
      TrimEndKeepsFront(front, s[..|s| - 1]);
    }
  }

  lemma TrimKeepsFront(front: string, s: string)
    requires front != "" && !IsSpace(front[|front| - 1]) && !IsSpace(front[0])
    ensures Trim(front + s) == front + TrimEnd(s)
  {
    assert TrimStart(front + s) == front + s;
    TrimEndKeepsFront(front, s);
  }

  /** The tag without the blank it ends with. */
  function Stem(mark: char, number: int, version: nat): string {
    if version >= 2 then Base(mark, number) + " [v" + Natural(version) + "]:" else Base(mark, number) + ":"
  }

  lemma StemOfTag(mark: char, number: int, version: nat)
    ensures Tag(mark, number, version) == Stem(mark, number, version) + " "
  {
  }

  /** A title behind a blank, or nothing. */
  function Spaced(title: string): string {
    if title == "" then "" else " " + title
  }

  /** What is left of a subject once it is trimmed. */
  lemma TrimmedSubject(mark: char, number: int, version: nat, title: string)
    requires mark == '#' || mark == '!'
    requires Trimmed(title)
    ensures Trim(Tag(mark, number, version) + title)
         == Stem(mark, number, version) + Spaced(title)
  {
    hide Trim, TrimEnd, Natural, Tag, Stem, Base;
    var stem := Stem(mark, number, version);
    StemOfTag(mark, number, version);
    StemEnds(mark, number, version);
    assert stem + " " + title == stem + (" " + title);
    TrimKeepsFront(stem, " " + title);
    TrimEndOfSpaced(title);
    assert stem + "" == stem;
  }

  lemma StemEnds(mark: char, number: int, version: nat)
    ensures var stem := Stem(mark, number, version); stem != "" && stem[0] == mark && stem[|stem| - 1] == ':'
  {
    hide Natural, Show;
  }

  lemma TrimEndOfSpaced(title: string)
    requires Trimmed(title)
    ensures TrimEnd(" " + title) == Spaced(title)
  {
    if title != "" {
      assert (" " + title)[|title|] == title[|title| - 1];
    } else {
      assert (" " + title)[..0] == "";
    }
  }

  lemma StripIsTrimmed(title: string, number: int)
    ensures Trimmed(StripExistingMrPrefix(title, number))
  {
    hide Trim, TrimStart;
    var s := Trim(title);
    TrimIsTrimmed(title);
    TaggedIsTrimmed(s, '#', number);
    TaggedIsTrimmed(s, '!', number);
  }

  lemma TaggedIsTrimmed(s: string, mark: char, number: int)
    requires Trimmed(s)
    ensures Tagged(s, mark, number).Some? ==> Trimmed(Tagged(s, mark, number).value)
  {
    hide TrimStart;
    var base := Base(mark, number);
    if After(s, base).Some? {
      UntaggedIsSuffix(s[|base|..]);
      var u := Untagged(s[|base|..]);
      if u.Some? && u.value != "" {
        assert u.value[|u.value| - 1] == s[|s| - 1];
      }
    }
  }

  predicate IsSuffix(s: string, whole: string) {
    |s| <= |whole| && s == whole[|whole| - |s|..]
  }

  lemma SuffixChain(a: string, b: string, c: string)
    requires IsSuffix(b, a) && IsSuffix(c, b)
    ensures IsSuffix(c, a)
  {
  }

  lemma TrimStartIsSuffix(whole: string, s: string)
    requires IsSuffix(s, whole)
    ensures IsSuffix(TrimStart(s), whole) && (TrimStart(s) != "" ==> !IsSpace(TrimStart(s)[0]))
  {
    hide TrimStart;
    SuffixChain(whole, s, TrimStart(s));
  }

  lemma AfterIsSuffix(whole: string, s: string, prefix: string)
    requires IsSuffix(s, whole)
    ensures After(s, prefix).Some? ==> IsSuffix(After(s, prefix).value, whole)
  {
    if prefix <= s {
      SuffixChain(whole, s, s[|prefix|..]);
    }
  }

  lemma BehindBracketIsSuffix(whole: string, after: string)
    requires IsSuffix(after, whole)
    ensures var b := BehindBracket(after); IsSuffix(b, whole) && (b != "" ==> !IsSpace(b[0]))
  {
    hide TrimStart, After, IsSuffix;
    TrimStartIsSuffix(whole, after);
    AfterIsSuffix(whole, TrimStart(after), ":");
    TrimStartIsSuffix(whole, After(TrimStart(after), ":").GetOr(after));
  }

  /** A suffix of the rest that starts with no blank. */
  lemma UntaggedIsSuffix(rest: string)
    ensures var u := Untagged(rest); u.Some? ==> IsSuffix(u.value, rest) && (u.value != "" ==> !IsSpace(u.value[0]))
  {
    hide TrimStart, Find, After, IsSuffix, BehindBracket;
    assert IsSuffix(rest, rest) by {
      WholeIsSuffix(rest);
    }
    TrimStartIsSuffix(rest, rest);
    var r := TrimStart(rest);
    AfterIsSuffix(rest, r, "[v");
    AfterIsSuffix(rest, r, ":");
    var v := After(r, "[v");
    if v.Some? && ']' in v.value {
      var after := v.value[Find(v.value, IsBracket) + 1..];
      SuffixOf(rest, v.value, Find(v.value, IsBracket) + 1);
      BehindBracketIsSuffix(rest, after);
    } else if After(r, ":").Some? {
      TrimStartIsSuffix(rest, After(r, ":").value);
    }
  }

  lemma WholeIsSuffix(s: string)
    ensures IsSuffix(s, s)
  {
  }

  lemma SuffixOf(whole: string, s: string, from: nat)
    requires IsSuffix(s, whole) && from <= |s|
    ensures IsSuffix(s[from..], whole)
  {
    SuffixChain(whole, s, s[from..]);
  }

  // ---- reading a subject back ----

  lemma TrimStartOnce(t: string)
    requires t != "" && IsSpace(t[0]) && (|t| > 1 ==> !IsSpace(t[1]))
    ensures TrimStart(t) == t[1..]
  {
    assert TrimStart(t[1..]) == t[1..];
  }

  lemma TrimStartOfSpace(s: string)
    requires s != "" ==> !IsSpace(s[0])
    ensures TrimStart(" " + s) == s && TrimStart(s) == s
  {
    hide TrimStart;
    TrimStartOnce(" " + s);
    TrimStartNothing(s);
    assert (" " + s)[1..] == s;
  }

  lemma TrimStartNothing(s: string)
    requires s != "" ==> !IsSpace(s[0])
    ensures TrimStart(s) == s
  {
  }

  /** What stands behind the number of a subject. */
  function Rest(version: nat, tail: string): string {
    (if version >= 2 then " [v" + Natural(version) + "]:" else ":") + tail
  }

  lemma BracketSplits(digits: string, after: string)
    requires AllDigits(digits)
    ensures var v := Behind(digits, after); var i := Find(v, IsBracket);
      ']' in v && v[..i] == digits && v[i + 1..] == after
  {
    var v := digits + "]" + after;
    assert v[|digits|] == ']';
    FindUnique(v, IsBracket, |digits|);
  }

  function Behind(digits: string, after: string): string {
    digits + "]" + after
  }

  lemma RestIsBracket(version: nat, tail: string)
    requires version >= 2
    ensures Rest(version, tail) == " " + ("[v" + Behind(Natural(version), ":" + tail))
  {
    hide Natural;
    var digits := Natural(version);
    assert " [v" + digits + "]:" + tail == " " + ("[v" + (digits + "]" + (":" + tail)));
  }

  lemma AfterPrefix(prefix: string, rest: string)
    ensures After(prefix + rest, prefix) == Some(rest)
  {
    assert (prefix + rest)[|prefix|..] == rest;
  }

  lemma TaggedRestReads(version: nat, tail: string)
    requires 2 <= version < 0x1_0000_0000
    ensures Untagged(Rest(version, tail)) == Some(TrimStart(tail))
    ensures var v := After(TrimStart(Rest(version, tail)), "[v");
      v.Some? && ']' in v.value && v.value[..Find(v.value, IsBracket)] == Natural(version)
  {
    hide Natural, TrimStart, Find, Rest, Behind, After;
    var digits, after := Natural(version), ":" + tail;
    var v := Behind(digits, after);
    RestIsBracket(version, tail);
    TrimStartOfSpace("[v" + v);
    AfterPrefix("[v", v);
    BracketSplits(digits, after);
    TrimStartNothing(after);
    AfterPrefix(":", tail);
  }

  lemma PlainRestReads(version: nat, tail: string)
    requires version < 2
    ensures Untagged(Rest(version, tail)) == Some(TrimStart(tail))
    ensures After(TrimStart(Rest(version, tail)), "[v").None?
  {
    hide TrimStart;
    var r := ":" + tail;
    assert Rest(version, tail) == r;
    TrimStartNothing(r);
    assert After(r, "[v").None? by {
      assert r[0] == ':';
    }
    assert After(r, ":") == Some(tail) by {
      assert r[1..] == tail;
    }
  }

  lemma StemBehindBase(mark: char, number: int, version: nat, tail: string)
    ensures After(Stem(mark, number, version) + tail, Base(mark, number)) == Some(Rest(version, tail))
  {
    hide Natural, Base;
    var base := Base(mark, number);
    assert Stem(mark, number, version) + tail == base + Rest(version, tail);
    assert (base + Rest(version, tail))[|base|..] == Rest(version, tail);
  }

  lemma OtherMark(mark: char, number: int, version: nat, tail: string)
    requires mark == '!'
    ensures After(Stem(mark, number, version) + tail, Base('#', number)).None?
  {
    var s := Stem(mark, number, version) + tail;
    assert s[0] == '!' && Base('#', number)[0] == '#';
  }

  /** What stands behind the number tells title and version. */
  lemma RestReads(version: nat, title: string)
    requires version < 0x1_0000_0000 && Trimmed(title)
    ensures var rest := Rest(version, Spaced(title));
      Untagged(rest) == Some(title) && VersionBehind(rest) == if version >= 2 then version else 1
  {
    hide Untagged, TrimStart, Natural, ParseU32, After, Rest, Find, Trimmed;
    SpacedReads(title);
    if version >= 2 {
      TaggedRestReads(version, Spaced(title));
      ParseNatural(version);
    } else {
      PlainRestReads(version, Spaced(title));
    }
  }

  lemma SpacedReads(title: string)
    requires Trimmed(title)
    ensures TrimStart(Spaced(title)) == title
  {
    hide TrimStart;
    TrimStartOfSpace(title);
  }

  lemma RestDecides(s: string, mark: char, number: int, rest: string)
    requires After(s, Base(mark, number)) == Some(rest)
    ensures Tagged(s, mark, number) == Untagged(rest)
    ensures VersionIn(s, mark, number) == Some(VersionBehind(rest))
  {
    hide After, Base, Untagged, VersionBehind;
  }

  /** The version and title of a subject, whichever mark it carries. */
  lemma SubjectReads(mark: char, number: int, version: nat, title: string)
    requires (mark == '#' || mark == '!') && version < 0x1_0000_0000 && Trimmed(title)
    ensures var s := Trim(Tag(mark, number, version) + title);
      Tagged(s, mark, number) == Some(title)
      && VersionIn(s, mark, number) == Some(if version >= 2 then version else 1)
      && (mark == '!' ==> After(s, Base('#', number)).None?)
  {
    hide *;
    TrimmedSubject(mark, number, version, title);
    StemBehindBase(mark, number, version, Spaced(title));
    RestReads(version, title);
    var s := Trim(Tag(mark, number, version) + title);
    RestDecides(s, mark, number, Rest(version, Spaced(title)));
    if mark == '!' {
      OtherMark(mark, number, version, Spaced(title));
    }
  }

  lemma MarkIsEither(url: Option<string>)
    ensures Mark(url) == '#' || Mark(url) == '!'
  {
  }

  /** Which mark a trimmed subject carries decides how it is read. */
  lemma SubjectDecides(subject: string, mark: char, number: int)
    requires mark == '#' || mark == '!'
    requires var s := Trim(subject);
      Tagged(s, mark, number).Some? && VersionIn(s, mark, number).Some?
      && (mark == '!' ==> After(s, Base('#', number)).None?)
    ensures ExtractMrVersion(Some(subject), number) == VersionIn(Trim(subject), mark, number)
    ensures StripExistingMrPrefix(subject, number) == Tagged(Trim(subject), mark, number).value
  {
    hide Trim, Base, After, VersionBehind, Untagged;
  }

  /** A formatted subject tells its version, at least 1, to whoever knows the number. */
  lemma VersionReadsBack(url: Option<string>, number: int, version: nat, title: string)
    requires version < 0x1_0000_0000
    ensures ExtractMrVersion(Some(FormatMrSubject(url, number, version, title)), number)
         == Some(if version < 1 then 1 else version)
  {
    FormattedReads(url, number, version, title);
  }

  lemma FormattedReads(url: Option<string>, number: int, version: nat, title: string)
    requires version < 0x1_0000_0000
    ensures var subject := FormatMrSubject(url, number, version, title);
      ExtractMrVersion(Some(subject), number) == Some(if version >= 2 then version else 1)
      && StripExistingMrPrefix(subject, number) == StripExistingMrPrefix(title, number)
  {
    hide StripExistingMrPrefix, ExtractMrVersion, Trim, Tag, Base, After, Mark, Tagged, VersionIn, Trimmed;
    MarkIsEither(url);
    StripIsTrimmed(title, number);
    SubjectReads(Mark(url), number, version, StripExistingMrPrefix(title, number));
    SubjectDecides(FormatMrSubject(url, number, version, title), Mark(url), number);
  }

  /** Tagging what was tagged for the same number is tagging the original title. */
  lemma RetaggingReplaces(url: Option<string>, number: int, version: nat, title: string, url': Option<string>,
          version': nat)
    requires version < 0x1_0000_0000
    ensures FormatMrSubject(url', number, version', FormatMrSubject(url, number, version, title))
         == FormatMrSubject(url', number, version', title)
  {
    hide StripExistingMrPrefix, ExtractMrVersion, Tag, Mark;
    FormattedReads(url, number, version, title);
  }

  // ---- what a subject looks like ----

  /** A title that carries no number is kept, but for outer blanks. */
  lemma PlainTitleIsKept(title: string, number: int)
    requires var t := Trim(title); t == "" || (t[0] != '#' && t[0] != '!')
    ensures StripExistingMrPrefix(title, number) == Trim(title)
  {
    hide Trim, Untagged, Show;
  }

  /** The number stands behind an exclamation mark on GitLab and behind a hash sign elsewhere,
      with the version from the second on, and then the title. */
  lemma SubjectLooks(url: Option<string>, number: nat, version: nat, title: string)
    requires var t := Trim(title); t == "" || (t[0] != '#' && t[0] != '!')
    ensures var mark := if url.Some? && Contains(url.value, "gitlab") then "!" else "#";
      FormatMrSubject(url, number, version, title)
      == if version < 2 then mark + Natural(number) + ": " + Trim(title)
         else mark + Natural(number) + " [v" + Natural(version) + "]: " + Trim(title)
  {
    hide Trim, StripExistingMrPrefix, Natural, Contains;
    PlainTitleIsKept(title, number);
  }

  /** A subject without the number tells no version. */
  lemma OtherSubjectsTellNothing(subject: Option<string>, number: int)
    requires subject.Some? ==>
      var s := Trim(subject.value); !(("#" + Show(number)) <= s) && !(("!" + Show(number)) <= s)
    ensures ExtractMrVersion(subject, number) == None
  {
    hide Trim, Show, VersionBehind;
  }
}
