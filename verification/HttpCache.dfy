/** Cached HTTP responses: when they expire, and how they are written to a file and read back. */
module HttpCache {
  import opened Wrappers
  import opened Sequences
  import opened Text

  /** What is remembered of a response; times are in nanoseconds. */
  datatype HttpData = HttpData(received: int, cacheControl: Option<string>, expires: Option<string>, rest: string)

  const SECOND := 1_000_000_000
  const SECONDS_IN_WEEK := 604800

  /** Parsing an RFC 2822 date, which the date library does; none is text it rejects. */
  type DateParser = string -> Option<int>

  // ---- expiry -----------------------------------------------------------------------------

  /** `str::parse::<i64>` */
  function ParseI64(s: string): Option<int> {
    var digits := if s != "" && (s[0] == '+' || s[0] == '-') then s[1..] else s;
    if digits == "" then None
    else
      match ParseDigits(digits)
      case None => None
      case Some(n) =>
        var value: int := if s[0] == '-' then 0 - n as int else n;
        if -0x8000_0000_0000_0000 <= value < 0x8000_0000_0000_0000 then Some(value) else None
  }

  /** `trim_start_matches` on a string: every leading copy is removed. */
  function TrimStartMatches(s: string, pattern: string): string
    requires pattern != ""
  {
    if StartsWith(s, pattern) then TrimStartMatches(s[|pattern|..], pattern) else s
  }

  const MAX_AGE := "max-age="

  function FindMaxAge(directives: seq<string>): Option<string> {
    if directives == [] then None
    else if StartsWith(Trim(directives[0]), MAX_AGE) then Some(Trim(directives[0]))
    else FindMaxAge(directives[1..])
  }

  /** The age that the first `max-age` directive gives, if its number can be read. */
  function MaxAge(cacheControl: Option<string>): Option<int> {
    match cacheControl
    case None => None
    case Some(text) =>
      match FindMaxAge(Split(text, ','))
      case None => None
      case Some(directive) => ParseI64(TrimStartMatches(directive, MAX_AGE))
  }

  /** `is_expired` */
  function IsExpired(h: HttpData, maxAge: int, now: int, parseDate: DateParser): bool {
    if now >= h.received + maxAge * SECOND then true
    else if MaxAge(h.cacheControl).Some? then now >= h.received + MaxAge(h.cacheControl).value * SECOND
    else
      match h.expires
      case Some(text) => (
        match parseDate(text)
        case Some(time) => now >= time
        case None => false
      )
      case None => false
  }

  /** The time the response itself gives for its expiry: `max-age` if it can be read, else `Expires`. */
  function OwnDeadline(h: HttpData, parseDate: DateParser): Option<int> {
    match MaxAge(h.cacheControl)
    case Some(age) => Some(h.received + age * SECOND)
    case None =>
      match h.expires
      case Some(text) => parseDate(text)
      case None => None
  }

  /** The earlier of the response's own deadline and the configured age. */
  function Deadline(h: HttpData, maxAge: int, parseDate: DateParser): int {
    var configured := h.received + maxAge * SECOND;
    match OwnDeadline(h, parseDate)
    case Some(own) => if own < configured then own else configured
    case None => configured
  }

  /** A response is expired exactly from one deadline on. */
  lemma ExpiryHasOneDeadline(h: HttpData, maxAge: int, now: int, parseDate: DateParser)
    ensures IsExpired(h, maxAge, now, parseDate) <==> now >= Deadline(h, maxAge, parseDate)
  {
    if h.expires.Some? {
      var time := parseDate(h.expires.value);
    }
  }

  /** The directive, white space around it apart, gives an age. */
  predicate IsMaxAge(directive: string) {
    StartsWith(Trim(directive), "max-age=")
  }

  lemma {:induction false} FirstMaxAge(directives: seq<string>, k: nat)
    requires k < |directives| && IsMaxAge(directives[k])
    requires forall i :: 0 <= i < k ==> !IsMaxAge(directives[i])
    ensures FindMaxAge(directives) == Some(Trim(directives[k]))
  {
    if k > 0 {
      FirstMaxAge(directives[1..], k - 1);
    }
  }

  lemma {:induction false} NoMaxAge(directives: seq<string>)
    requires forall i :: 0 <= i < |directives| ==> !IsMaxAge(directives[i])
    ensures FindMaxAge(directives) == None
  {
    if directives != [] {
      NoMaxAge(directives[1..]);
    }
  }

  lemma AgeIsRead(n: nat)
    requires n < 0x8000_0000_0000_0000
    ensures ParseI64(TrimStartMatches("max-age=" + Decimal(n), "max-age=")) == Some(n)
  {
    var digits := Decimal(n);
    assert ("max-age=" + digits)[|"max-age="|..] == digits;
    assert IsDigit(digits[0]);
    assert !StartsWith(digits, "max-age=");
    assert TrimStartMatches(digits, "max-age=") == digits;
    ParseDigitsOfDecimal(n);
  }

  /**
   `Cache-Control` with an age: the first directive `max-age` among those separated by commas, with white
   space around it or not, decides, and the response expires that many seconds after it was received, or
   at the configured age if that is earlier, whatever `Expires` says.
   */
  lemma MaxAgeDecides(h: HttpData, directives: seq<string>, k: nat, n: nat, maxAge: int, parseDate: DateParser)
    requires directives != [] && (forall d :: d in directives ==> ',' !in d) && h.cacheControl == Some(Join(directives, ','))
    requires k < |directives| && Trim(directives[k]) == "max-age=" + Decimal(n) && n < 0x8000_0000_0000_0000
    requires forall i :: 0 <= i < k ==> !IsMaxAge(directives[i])
    ensures Deadline(h, maxAge, parseDate) == h.received + (if n < maxAge then n else maxAge) * 1_000_000_000
  {
    SplitOfJoin(directives, ',');
    FirstMaxAge(directives, k);
    AgeIsRead(n);
  }

  lemma NoAge(directives: seq<string>)
    requires directives != [] && forall d :: d in directives ==> ',' !in d
    requires forall i :: 0 <= i < |directives| ==> !IsMaxAge(directives[i])
    ensures MaxAge(Some(Join(directives, ','))) == None
  {
    SplitOfJoin(directives, ',');
    NoMaxAge(directives);
  }

  lemma DeadlineWithoutAge(h: HttpData, maxAge: int, parseDate: DateParser)
    requires MaxAge(h.cacheControl) == None
    ensures var configured := h.received + maxAge * 1_000_000_000;
      Deadline(h, maxAge, parseDate)
      == if h.expires.Some? && parseDate(h.expires.value).Some? && parseDate(h.expires.value).value < configured
         then parseDate(h.expires.value).value else configured
  {
  }

  /** Without a directive `max-age`, `Expires` decides, if it is a date and the configured age is not earlier. */
  lemma ExpiresDecides(h: HttpData, directives: seq<string>, maxAge: int, parseDate: DateParser)
    requires h.cacheControl == None
      || (&& directives != [] && (forall d :: d in directives ==> ',' !in d)
          && h.cacheControl == Some(Join(directives, ','))
          && forall i :: 0 <= i < |directives| ==> !IsMaxAge(directives[i]))
    ensures var configured := h.received + maxAge * 1_000_000_000;
      Deadline(h, maxAge, parseDate)
      == if h.expires.Some? && parseDate(h.expires.value).Some? && parseDate(h.expires.value).value < configured
         then parseDate(h.expires.value).value else configured
  {
    if h.cacheControl.Some? {
      NoAge(directives);
    }
    DeadlineWithoutAge(h, maxAge, parseDate);
  }

  // ---- lines ------------------------------------------------------------------------------

  function StripCr(line: string): string {
    if line != "" && line[|line| - 1] == '\r' then line[..|line| - 1] else line
  }

  /** `BufRead::lines` */
  function BufLines(text: string): seq<string>
    decreases |text|
  {
    SplitOnceSplits(text, '\n');
    if text == "" then []
    else
      match SplitOnce(text, '\n')
      case None => [text]
      case Some((line, rest)) => [StripCr(line)] + BufLines(rest)
  }

  function Concat(lines: seq<string>): string {
    if lines == [] then "" else lines[0] + Concat(lines[1..])
  }

  function Kept(c: char): string {
    if c == '\n' then "" else [c]
  }

  function WithoutNewlines(text: string): string {
    if text == "" then ""
    else Kept(text[0]) + WithoutNewlines(text[1..])
  }

  lemma {:induction false} NoNewlineStays(line: string)
    requires '\n' !in line
    ensures WithoutNewlines(line) == line
  {
    if line != "" {
      NoNewlineStays(line[1..]);
    }
  }

  lemma {:induction false} WithoutNewlinesAppend(s: string, t: string)
    ensures WithoutNewlines(s + t) == WithoutNewlines(s) + WithoutNewlines(t)
  {
    if s == "" {
      assert s + t == t;
    } else {
      ConsAppend(s, t);
      WithoutNewlinesAppend(s[1..], t);
      AppendAssociative(Kept(s[0]), WithoutNewlines(s[1..]), WithoutNewlines(t));
    }
  }

  lemma LineAndRest(line: string, rest: string)
    requires '\n' !in line
    ensures WithoutNewlines(line + "\n" + rest) == line + WithoutNewlines(rest)
  {
    NoNewlineStays(line);
    WithoutNewlinesAppend(line + "\n", rest);
    WithoutNewlinesAppend(line, "\n");
    assert WithoutNewlines("\n") == "" by {
      assert "\n"[1..] == "";
    }
    assert line + "" == line;
  }

  /** The lines of a text without carriage returns, put together, are the text without its newlines. */
  lemma {:induction false} LinesLoseOnlyNewlines(text: string)
    requires '\r' !in text
    ensures Concat(BufLines(text)) == WithoutNewlines(text)
    decreases |text|
  {
    SplitOnceSplits(text, '\n');
    if text != "" {
      match SplitOnce(text, '\n')
      case None =>
        NoNewlineStays(text);
        assert Concat([text]) == text + Concat([]) == text;
      case Some((line, rest)) =>
        assert forall c :: c in line || c in rest ==> c in text;
        LineAndRest(line, rest);
        LinesLoseOnlyNewlines(rest);
        assert StripCr(line) == line;
    }
  }

  // ---- the cache file ---------------------------------------------------------------------

  const SEPARATOR := "---"

  /** `to_lines`, given the header as text */
  function CacheText(header: string, data: string): string {
    header + "\n---\n" + data
  }

  method ToLines(header: string, data: string) returns (lines: string)
    ensures lines == CacheText(header, data)
  {
    lines := header;
    lines := lines + "\n---\n";
    lines := lines + data;
  }

  function HeaderCount(lines: seq<string>): (n: nat)
    ensures n <= |lines|
    ensures n < |lines| ==> StartsWith(lines[n], SEPARATOR)
  {
    if lines == [] || StartsWith(lines[0], SEPARATOR) then 0 else 1 + HeaderCount(lines[1..])
  }

  lemma {:induction false} HeaderCountIs(lines: seq<string>, n: nat)
    requires n <= |lines| && (forall i :: 0 <= i < n ==> !StartsWith(lines[i], "---"))
    requires n < |lines| ==> StartsWith(lines[n], "---")
    ensures HeaderCount(lines) == n
  {
    if n > 0 {
      HeaderCountIs(lines[1..], n - 1);
    }
  }

  /** The program stops when there is no separator line after a header that parses. */
  datatype FromLines<+T> = Parsed(header: T, body: seq<string>) | BadHeader | NoSeparator

  /** `from_lines`; `parse` reads the header. */
  function SplitLines<T>(lines: seq<string>, parse: string -> Option<T>): FromLines<T> {
    var count := HeaderCount(lines);
    match parse(Concat(lines[..count]))
    case None => BadHeader
    case Some(header) => if count == |lines| then NoSeparator else Parsed(header, lines[count + 1..])
  }

  /** A header that stays one line and is not taken for the separator. */
  predicate OneLineHeader(header: string) {
    && header != ""
    && '\n' !in header
    && header[|header| - 1] != '\r'
    && !StartsWith(header, SEPARATOR)
  }

  lemma FirstLine(line: string, rest: string)
    requires '\n' !in line
    ensures BufLines(line + "\n" + rest) == [StripCr(line)] + BufLines(rest)
  {
    var text := line + "\n" + rest;
    assert text[|line|] == '\n';
    SplitOnceSplits(text, '\n');
    var (before, after) := SplitOnce(text, '\n').value;
    assert |before| == |line| by {
      assert forall i :: 0 <= i < |line| ==> text[i] == line[i];
      assert forall i :: 0 <= i < |before| ==> text[i] == before[i];
      assert text[|before|] == '\n';
    }
    assert before == text[..|line|] == line;
    assert after == text[|line| + 1..] == rest;
  }

  /**
   Writing a cache file and reading it by lines gives back the header and the lines of the body, even
   when the body holds separator lines.
   */
  lemma CacheFileRoundTrip<T>(header: string, data: string, parse: string -> Option<T>, value: T)
    requires OneLineHeader(header) && parse(header) == Some(value)
    ensures SplitLines(BufLines(CacheText(header, data)), parse) == Parsed(value, BufLines(data))
  {
    assert CacheText(header, data) == header + "\n" + ("---" + "\n" + data);
    FirstLine(header, "---" + "\n" + data);
    FirstLine("---", data);
    var lines := BufLines(CacheText(header, data));
    assert lines == [header] + ([SEPARATOR] + BufLines(data));
    assert lines[1..] == [SEPARATOR] + BufLines(data);
    assert HeaderCount(lines[1..]) == 0;
    assert HeaderCount(lines) == 1;
    assert lines[..1] == [header];
    assert Concat([header]) == header + Concat([]) == header;
    assert lines[2..] == BufLines(data);
  }
}
