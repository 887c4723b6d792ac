/** The string operations of the standard library that the components rely on. */
module Text {
  import opened Wrappers
  import opened Sequences

  // ---- characters -------------------------------------------------------------------------

  function AsciiLowerChar(c: char): char {
    if 'A' <= c <= 'Z' then ((c as int) + 32) as char else c
  }

  function ToAsciiLower(s: string): (r: string)
    ensures |r| == |s|
    ensures forall i :: 0 <= i < |s| ==> r[i] == AsciiLowerChar(s[i])
  {
    seq(|s|, i requires 0 <= i < |s| => AsciiLowerChar(s[i]))
  }

  function AsciiUpperChar(c: char): char {
    if 'a' <= c <= 'z' then ((c as int) - 32) as char else c
  }

  /** `to_ascii_uppercase` */
  function ToAsciiUpper(s: string): string {
    seq(|s|, i requires 0 <= i < |s| => AsciiUpperChar(s[i]))
  }

  predicate EqIgnoreAsciiCase(a: string, b: string) {
    ToAsciiLower(a) == ToAsciiLower(b)
  }

  /** Letters of either case for one another, and all other characters for themselves. */
  predicate SameLetter(a: char, b: char) {
    || a == b
    || ('a' <= a <= 'z' && b as int == a as int - 32)
    || ('A' <= a <= 'Z' && b as int == a as int + 32)
  }

  ghost predicate SameName(a: string, b: string) {
    |a| == |b| && forall i :: 0 <= i < |a| ==> SameLetter(a[i], b[i])
  }

  lemma EqIgnoreCaseExactly(a: string, b: string)
    ensures EqIgnoreAsciiCase(a, b) <==> SameName(a, b)
  {
    if EqIgnoreAsciiCase(a, b) {
      forall i | 0 <= i < |a|
        ensures SameLetter(a[i], b[i])
      {
        assert ToAsciiLower(a)[i] == ToAsciiLower(b)[i];
      }
    }
  }

  predicate IsAsciiLower(s: string) {
    forall i :: 0 <= i < |s| ==> !('A' <= s[i] <= 'Z')
  }

  /** Comparing two lower-case names without regard to case is comparing them. */
  lemma LowerNamesCompareExactly(a: string, b: string)
    requires IsAsciiLower(a) && IsAsciiLower(b)
    ensures EqIgnoreAsciiCase(a, b) <==> a == b
  {
    assert ToAsciiLower(a) == a;
    assert ToAsciiLower(b) == b;
  }

  /** Bytes taken by one character in UTF-8. */
  function Utf8Width(c: char): (w: nat)
    ensures 1 <= w <= 4
  {
    if c as int < 0x80 then 1
    else if c as int < 0x800 then 2
    else if c as int < 0x1_0000 then 3
    else 4
  }

  /** `str::len`, which counts bytes. */
  function Utf8Len(s: string): (n: nat)
    ensures |s| <= n
  {
    if s == [] then 0 else Utf8Width(s[0]) + Utf8Len(s[1..])
  }

  // ---- affixes ----------------------------------------------------------------------------

  predicate StartsWith(s: string, prefix: string) {
    prefix <= s
  }

  predicate EndsWith(s: string, suffix: string) {
    |suffix| <= |s| && s[|s| - |suffix|..] == suffix
  }

  /** Among the suffixes of one string the byte length orders like the number of characters. */
  lemma {:induction false} SuffixLengthsAgree(s: string, a: string, b: string)
    requires EndsWith(s, a) && EndsWith(s, b)
    ensures Utf8Len(a) < Utf8Len(b) <==> |a| < |b|
    decreases |s|
  {
    if s == [] {
    } else if |a| == |s| || |b| == |s| {
      if |a| == |s| && |b| == |s| {
        assert a == s[0..] == s && b == s[0..] == s;
      } else if |a| == |s| {
        assert a == s[0..] == s;
        SuffixIsShorter(s, b);
      } else {
        assert b == s[0..] == s;
        SuffixIsShorter(s, a);
      }
    } else {
      assert s[1..][|s[1..]| - |a|..] == s[|s| - |a|..];
      assert s[1..][|s[1..]| - |b|..] == s[|s| - |b|..];
      SuffixLengthsAgree(s[1..], a, b);
    }
  }

  lemma {:induction false} SuffixIsShorter(s: string, t: string)
    requires EndsWith(s, t) && |t| < |s|
    ensures Utf8Len(t) < Utf8Len(s)
  {
    if |t| == |s| - 1 {
      assert t == s[1..];
    } else {
      assert s[1..][|s[1..]| - |t|..] == s[|s| - |t|..];
      SuffixIsShorter(s[1..], t);
    }
  }

  // ---- decimal numbers --------------------------------------------------------------------

  const U64_LIMIT: nat := 0x1_0000_0000_0000_0000

  type u64 = n: int | 0 <= n < 0x1_0000_0000_0000_0000

  predicate IsDigit(c: char) {
    '0' <= c <= '9'
  }

  function DigitChar(d: nat): (c: char)
    requires d < 10
    ensures IsDigit(c) && DigitValue(c) == d
  {
    ('0' as int + d) as char
  }

  function DigitValue(c: char): nat
    requires IsDigit(c)
  {
    c as int - '0' as int
  }

  /** `u64::to_string` and `usize::to_string` */
  function Decimal(n: nat): (s: string)
    ensures s != []
    ensures forall i :: 0 <= i < |s| ==> IsDigit(s[i])
    ensures |s| > 1 ==> s[0] != '0'
  {
    if n < 10 then [DigitChar(n)] else Decimal(n / 10) + [DigitChar(n % 10)]
  }

  /** The number a string of digits denotes; none when a character is not a digit. */
  function ParseDigits(s: string): Option<nat> {
    if s == [] then Some(0)
    else if !IsDigit(s[|s| - 1]) then None
    else
      match ParseDigits(s[..|s| - 1])
      case None => None
      case Some(high) => Some(10 * high + DigitValue(s[|s| - 1]))
  }

  /** `str::parse::<u64>`: an optional plus sign, at least one digit, and a value that fits. */
  function ParseU64(s: string): Option<u64> {
    var digits := if s != [] && s[0] == '+' then s[1..] else s;
    if digits == [] then None
    else
      match ParseDigits(digits)
      case None => None
      case Some(n) => if n < U64_LIMIT then Some(n) else None
  }

  lemma {:induction false} ParseDigitsOfDecimal(n: nat)
    ensures ParseDigits(Decimal(n)) == Some(n)
  {
    if n < 10 {
      assert Decimal(n)[..0] == [];
    } else {
      ParseDigitsOfDecimal(n / 10);
      assert Decimal(n)[..|Decimal(n)| - 1] == Decimal(n / 10);
    }
  }

  /** Printing an unsigned 64-bit number and parsing it back gives the number. */
  lemma DecimalRoundTrip(n: u64)
    ensures ParseU64(Decimal(n)) == Some(n)
  {
    ParseDigitsOfDecimal(n);
    assert IsDigit(Decimal(n)[0]);
  }

  /** `str::parse::<u32>` */
  function ParseU32(s: string): Option<nat> {
    match ParseU64(s)
    case Some(n) => if n < 0x1_0000_0000 then Some(n) else None
    case None => None
  }

  lemma SmallDecimalRoundTrip(n: nat)
    requires n < 0x1_0000_0000
    ensures ParseU32(Decimal(n)) == Some(n)
  {
    DecimalRoundTrip(n);
  }

  /** A text of digits without a zero in front is the print of the number it denotes. */
  lemma {:induction false} DigitsAreDecimal(s: string)
    requires s != "" && ParseDigits(s).Some? && (|s| > 1 ==> s[0] != '0')
    ensures Decimal(ParseDigits(s).value) == s
    ensures |s| > 1 ==> ParseDigits(s).value >= 10
  {
    var front, last := s[..|s| - 1], s[|s| - 1];
    if front == "" {
      assert s == [last];
      DigitOfValue(last);
    } else {
      DigitsAreDecimal(front);
      if |front| == 1 {
        assert front[0] == s[0] && ParseDigits(front[..0]) == Some(0);
        assert ParseDigits(front) == Some(DigitValue(front[0]));
        DigitOfValue(front[0]);
      }
      DigitOfValue(last);
      assert s == front + [last];
    }
  }

  lemma DigitOfValue(c: char)
    requires IsDigit(c)
    ensures DigitValue(c) < 10 && DigitChar(DigitValue(c)) == c
    ensures DigitValue(c) == 0 <==> c == '0'
  {
  }

  /** Different numbers print differently. */
  lemma DecimalInjective(m: nat, n: nat)
    ensures Decimal(m) == Decimal(n) ==> m == n
  {
    ParseDigitsOfDecimal(m);
    ParseDigitsOfDecimal(n);
  }

  // ---- replacing, counting, splitting, trimming -------------------------------------------

  /** `str::replace`: every occurrence, left to right, none overlapping. */
  function Replace(s: string, pattern: string, with: string): string
    requires pattern != ""
  {
    if s == "" then ""
    else if StartsWith(s, pattern) then with + Replace(s[|pattern|..], pattern, with)
    else [s[0]] + Replace(s[1..], pattern, with)
  }

  function Count(c: char, s: string): nat {
    if s == "" then 0 else (if s[0] == c then 1 else 0) + Count(c, s[1..])
  }

  lemma {:induction false} CountAppend(c: char, s: string, t: string)
    ensures Count(c, s + t) == Count(c, s) + Count(c, t)
  {
    if s == "" {
      assert s + t == t;
    } else {
      CountAppend(c, s[1..], t);
      assert (s + t)[1..] == s[1..] + t;
    }
  }

  lemma {:induction false} CountZero(c: char, s: string)
    ensures Count(c, s) == 0 <==> c !in s
  {
    if s != "" {
      CountZero(c, s[1..]);
      assert forall x :: x in s <==> x == s[0] || x in s[1..];
    }
  }

  /** Replacing leaves alone the number of characters that neither side of the replacement mentions. */
  lemma {:induction false} ReplaceKeepsCount(c: char, s: string, pattern: string, with: string)
    requires pattern != "" && c !in pattern && c !in with
    ensures Count(c, Replace(s, pattern, with)) == Count(c, s)
    decreases |s|
  {
    if s == "" {
    } else if StartsWith(s, pattern) {
      ReplaceKeepsCount(c, s[|pattern|..], pattern, with);
      CountAppend(c, with, Replace(s[|pattern|..], pattern, with));
      CountAppend(c, pattern, s[|pattern|..]);
      assert s == pattern + s[|pattern|..];
      CountZero(c, pattern);
      CountZero(c, with);
    } else {
      ReplaceKeepsCount(c, s[1..], pattern, with);
      assert (Replace(s, pattern, with))[1..] == Replace(s[1..], pattern, with);
    }
  }

  /** Replacing a single character by something without it leaves none of it. */
  lemma {:induction false} ReplaceRemoves(c: char, s: string, with: string)
    requires c !in with
    ensures Count(c, Replace(s, [c], with)) == 0
  {
    if s != "" {
      ReplaceRemoves(c, s[1..], with);
      if StartsWith(s, [c]) {
        CountAppend(c, with, Replace(s[1..], [c], with));
        CountZero(c, with);
      } else {
        assert (Replace(s, [c], with))[1..] == Replace(s[1..], [c], with);
        assert [s[0]] == s[..1];
      }
    }
  }

  /** A stretch in which the pattern cannot start is copied. */
  lemma {:induction false} ReplaceCopies(s: string, rest: string, pattern: string, with: string)
    requires pattern != "" && pattern[0] !in s
    ensures Replace(s + rest, pattern, with) == s + Replace(rest, pattern, with)
  {
    if s == "" {
      assert s + rest == rest;
    } else {
      ReplaceCopies(s[1..], rest, pattern, with);
      assert (s + rest)[1..] == s[1..] + rest;
      assert (s + rest)[0] == s[0];
    }
  }

  /** A stretch without the second character of a two-character pattern is copied, unless the rest supplies it. */
  lemma {:induction false} ReplaceCopiesPair(s: string, rest: string, pattern: string, with: string)
    requires |pattern| == 2 && pattern[1] !in s && (rest == "" || rest[0] != pattern[1])
    ensures Replace(s + rest, pattern, with) == s + Replace(rest, pattern, with)
  {
    if s == "" {
      assert s + rest == rest;
    } else {
      ConsAppend(s, rest);
      assert |s + rest| > 1 ==> (s + rest)[1] == if |s| > 1 then s[1] else rest[0];
      assert !StartsWith(s + rest, pattern);
      assert s == [s[0]] + s[1..] && s + rest == [s[0]] + (s[1..] + rest);
      ReplaceSkips(s[0], s[1..] + rest, pattern, with);
      ReplaceCopiesPair(s[1..], rest, pattern, with);
      AppendAssociative([s[0]], s[1..], Replace(rest, pattern, with));
    }
  }

  lemma ReplaceFirst(rest: string, pattern: string, with: string)
    requires pattern != ""
    ensures Replace(pattern + rest, pattern, with) == with + Replace(rest, pattern, with)
  {
    assert (pattern + rest)[|pattern|..] == rest;
  }

  /** A character at which the pattern does not match is copied. */
  lemma ReplaceSkips(c: char, rest: string, pattern: string, with: string)
    requires pattern != "" && !StartsWith([c] + rest, pattern)
    ensures Replace([c] + rest, pattern, with) == [c] + Replace(rest, pattern, with)
  {
    assert ([c] + rest)[1..] == rest;
  }

  /** One occurrence between two stretches in which the pattern cannot start. */
  lemma ReplaceInside(head: string, tail: string, rest: string, pattern: string, with: string)
    requires pattern != "" && pattern[0] !in head && pattern[0] !in tail
    ensures Replace(head + pattern + tail + rest, pattern, with) == head + with + tail + Replace(rest, pattern, with)
  {
    AppendAssociative4(head, pattern, tail, rest);
    ReplaceCopies(head, pattern + (tail + rest), pattern, with);
    ReplaceFirst(tail + rest, pattern, with);
    ReplaceCopies(tail, rest, pattern, with);
    AppendAssociative4(head, with, tail, Replace(rest, pattern, with));
  }

  /** One occurrence of a pair after a stretch without its second character. */
  lemma ReplaceAfter(head: string, rest: string, pattern: string, with: string)
    requires |pattern| == 2 && pattern[0] != pattern[1] && pattern[1] !in head
    ensures Replace(head + pattern + rest, pattern, with) == head + with + Replace(rest, pattern, with)
  {
    assert head + pattern + rest == head + (pattern + rest);
    ReplaceCopiesPair(head, pattern + rest, pattern, with);
    ReplaceFirst(rest, pattern, with);
  }

  /** `str::split` on one character. */
  function Split(s: string, separator: char): (parts: seq<string>)
    ensures parts != []
  {
    if s == "" then [""]
    else
      var rest := Split(s[1..], separator);
      if s[0] == separator then [""] + rest else [[s[0]] + rest[0]] + rest[1..]
  }

  lemma {:induction false} SplitFirst(head: string, rest: string, separator: char)
    requires separator !in head
    ensures Split(head, separator) == [head]
    ensures Split(head + [separator] + rest, separator) == [head] + Split(rest, separator)
  {
    if head == "" {
      assert (head + [separator] + rest)[1..] == rest;
    } else {
      SplitFirst(head[1..], rest, separator);
      assert (head + [separator] + rest)[1..] == head[1..] + [separator] + rest;
      assert (head + [separator] + rest)[0] == head[0];
      assert [head[0]] + head[1..] == head;
    }
  }

  /** `str::trim_start_matches` on one character. */
  function TrimStartChar(s: string, c: char): string {
    if s != "" && s[0] == c then TrimStartChar(s[1..], c) else s
  }

  /** `str::trim_end_matches` on one character. */
  function TrimEndChar(s: string, c: char): string {
    if s != "" && s[|s| - 1] == c then TrimEndChar(s[..|s| - 1], c) else s
  }

  /** `str::split_once` on one character: what stands before and after its first occurrence. */
  function SplitOnce(s: string, c: char): Option<(string, string)> {
    if s == "" then None
    else if s[0] == c then Some(("", s[1..]))
    else
      match SplitOnce(s[1..], c)
      case Some((before, after)) => Some(([s[0]] + before, after))
      case None => None
  }

  lemma {:induction false} SplitOnceSplits(s: string, c: char)
    ensures SplitOnce(s, c).None? <==> c !in s
    ensures SplitOnce(s, c).Some? ==>
      var (before, after) := SplitOnce(s, c).value;
      s == before + [c] + after && c !in before
  {
    if s != "" {
      SplitOnceSplits(s[1..], c);
      assert s == [s[0]] + s[1..];
      if SplitOnce(s, c).Some? && s[0] != c {
        var (before, after) := SplitOnce(s[1..], c).value;
        assert s == [s[0]] + before + [c] + after;
      }
    }
  }

  /** The characters with the Unicode White_Space property. */
  predicate IsWhitespace(c: char) {
    var n := c as int;
    || 0x09 <= n <= 0x0D || n == 0x20 || n == 0x85 || n == 0xA0 || n == 0x1680
    || 0x2000 <= n <= 0x200A || n == 0x2028 || n == 0x2029 || n == 0x202F || n == 0x205F || n == 0x3000
  }

  /** `str::trim` */
  function Trim(s: string): string {
    if s != "" && IsWhitespace(s[0]) then Trim(s[1..])
    else if s != "" && IsWhitespace(s[|s| - 1]) then Trim(s[..|s| - 1])
    else s
  }

  predicate AllWhitespace(s: string) {
    forall i :: 0 <= i < |s| ==> IsWhitespace(s[i])
  }

  /** Without white space at either end. */
  predicate IsTrimmed(s: string) {
    s != "" ==> !IsWhitespace(s[0]) && !IsWhitespace(s[|s| - 1])
  }

  lemma {:induction false} TrimAfter(s: string, after: string)
    requires AllWhitespace(after) && IsTrimmed(s) && s != ""
    ensures Trim(s + after) == s
    decreases |after|
  {
    if after == "" {
      assert s + after == s;
    } else {
      var front := after[..|after| - 1];
      assert (s + after)[0] == s[0] && (s + after)[|s + after| - 1] == after[|after| - 1];
      assert (s + after)[..|s + after| - 1] == s + front;
      TrimAfter(s, front);
    }
  }

  lemma {:induction false} TrimWhitespace(s: string)
    requires AllWhitespace(s)
    ensures Trim(s) == ""
  {
    if s != "" {
      TrimWhitespace(s[1..]);
    }
  }

  /** Trimming leaves nothing exactly of white space. */
  lemma {:induction false} TrimmedToNothing(s: string)
    ensures Trim(s) == "" <==> AllWhitespace(s)
    decreases |s|
  {
    if s != "" && IsWhitespace(s[0]) {
      TrimmedToNothing(s[1..]);
      assert forall i :: 1 <= i < |s| ==> s[i] == s[1..][i - 1];
    } else if s != "" && IsWhitespace(s[|s| - 1]) {
      TrimmedToNothing(s[..|s| - 1]);
    }
  }

  /** Trimming removes the white space around a text. */
  lemma {:induction false} TrimSurrounded(before: string, s: string, after: string)
    requires AllWhitespace(before) && AllWhitespace(after) && IsTrimmed(s)
    ensures Trim(before + (s + after)) == s
  {
    if before != "" {
      ConsAppend(before, s + after);
      TrimSurrounded(before[1..], s, after);
    } else {
      assert before + (s + after) == s + after;
      if s == "" {
        assert s + after == after;
        TrimWhitespace(after);
      } else {
        TrimAfter(s, after);
      }
    }
  }

  /** Copies of one character at the end of a text that does not end with it are all trimmed. */
  lemma {:induction false} TrimEndOf(s: string, c: char, copies: string)
    requires (s == "" || s[|s| - 1] != c) && forall i :: 0 <= i < |copies| ==> copies[i] == c
    ensures TrimEndChar(s + copies, c) == s
    decreases |copies|
  {
    if copies == "" {
      assert s + copies == s;
    } else {
      var front := copies[..|copies| - 1];
      assert (s + copies)[|s + copies| - 1] == c && (s + copies)[..|s + copies| - 1] == s + front;
      TrimEndOf(s, c, front);
    }
  }

  /** Lines, say, or directives, put together with a separator between them. */
  function Join(parts: seq<string>, separator: char): string
    requires parts != []
  {
    if |parts| == 1 then parts[0] else parts[0] + [separator] + Join(parts[1..], separator)
  }

  lemma {:induction false} SplitWithout(s: string, separator: char)
    requires separator !in s
    ensures Split(s, separator) == [s]
  {
    if s != "" {
      SplitWithout(s[1..], separator);
      assert [s[1..]][1..] == [] && [s[0]] + s[1..] == s;
    }
  }

  /** Splitting undoes joining. */
  lemma {:induction false} SplitOfJoin(parts: seq<string>, separator: char)
    requires parts != [] && forall p :: p in parts ==> separator !in p
    ensures Split(Join(parts, separator), separator) == parts
  {
    assert parts[0] in parts;
    if |parts| == 1 {
      SplitWithout(parts[0], separator);
    } else {
      assert forall p :: p in parts[1..] ==> p in parts;
      SplitOfJoin(parts[1..], separator);
      SplitFirst(parts[0], Join(parts[1..], separator), separator);
      assert parts == [parts[0]] + parts[1..];
    }
  }
}
