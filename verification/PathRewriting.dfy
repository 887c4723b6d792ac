/**
 When the rewriting of a JSONPath into a JSON Pointer is right. The rewriting replaces text without
 looking at the structure of the path, so it is right for some keys and wrong for others;
 `RewritingIsRightExactly` draws the line.
 */
module PathRewriting {
  import opened Wrappers
  import opened Sequences
  import opened Text
  import opened JsonValue
  import opened JsonPaths

  /** A key the rewriting does not damage and that RFC 6901 does not escape. */
  predicate CleanKey(k: string) {
    '.' !in k && '[' !in k && ']' !in k && '/' !in k && '~' !in k
  }

  predicate CleanKeys(ws: seq<Written>) {
    ws != [] ==> CleanStep(ws[0].step) && CleanKeys(ws[1..])
  }

  // ---- the first five replacements, on clean keys -----------------------------------------

  /** The text of one step after the first `n` replacements. */
  function Stage(n: nat, w: Written): string {
    match w.step
    case Index(i) => (if n < 4 then "[" else "/") + Decimal(i) + (if n < 5 then "]" else "")
    case Key(k) =>
      (match w.style
       case DotBracket => (if n == 0 then "." else "/") + (if n < 2 then "['" else "/")
       case Bracket => if n < 2 then "['" else "/"
       case Dot => if n == 0 then "." else "/")
      + k
      + (if w.style.Dot? || 3 <= n then "" else "']")
  }

  function Stages(n: nat, ws: seq<Written>): string {
    if ws == [] then "" else Stage(n, ws[0]) + Stages(n, ws[1..])
  }

  lemma {:induction false} NothingReplaced(ws: seq<Written>)
    ensures Stages(0, ws) == WriteSteps(ws)
  {
    if ws != [] {
      NothingReplaced(ws[1..]);
      assert Stage(0, ws[0]) == WriteStep(ws[0]);
    }
  }

  lemma DigitsAreClean(i: nat)
    ensures forall c :: c in Decimal(i) ==> IsDigit(c)
  {
  }

  predicate CleanStep(step: Step) {
    step.Key? ==> CleanKey(step.name)
  }

  lemma CleanTokenChars(step: Step)
    requires CleanStep(step)
    ensures CleanKey(Token(step))
    ensures step.Index? ==> '\'' !in Token(step)
  {
    if step.Index? { DigitsAreClean(step.i); }
  }

  lemma IndexDotReplaced(w: Written, rest: string)
    requires w.step.Index?
    ensures Replace(Stage(0, w) + rest, ".", "/") == Stage(1, w) + Replace(rest, ".", "/")
  {
    DigitsAreClean(w.step.i);
    ReplaceCopies("[" + Decimal(w.step.i) + "]", rest, ".", "/");
  }

  lemma IndexOpeningReplaced(w: Written, rest: string)
    requires w.step.Index? && (rest == "" || rest[0] != '\'')
    ensures Replace(Stage(1, w) + rest, "['", "/") == Stage(2, w) + Replace(rest, "['", "/")
  {
    DigitsAreClean(w.step.i);
    ReplaceCopiesPair("[" + Decimal(w.step.i) + "]", rest, "['", "/");
  }

  lemma IndexClosingReplaced(w: Written, rest: string)
    requires w.step.Index?
    ensures Replace(Stage(2, w) + rest, "']", "") == Stage(3, w) + Replace(rest, "']", "")
  {
    DigitsAreClean(w.step.i);
    ReplaceCopies("[" + Decimal(w.step.i) + "]", rest, "']", "");
  }

  lemma IndexBracketReplacements(w: Written, rest: string)
    requires w.step.Index?
    ensures Replace(Stage(3, w) + rest, "[", "/") == Stage(4, w) + Replace(rest, "[", "/")
    ensures Replace(Stage(4, w) + rest, "]", "") == Stage(5, w) + Replace(rest, "]", "")
  {
    var digits := Decimal(w.step.i);
    DigitsAreClean(w.step.i);
    ReplaceInside("", digits + "]", rest, "[", "/");
    assert Stage(3, w) == "" + "[" + (digits + "]") && Stage(4, w) == "" + "/" + (digits + "]");
    ReplaceInside("/" + digits, "", rest, "]", "");
    assert Stage(4, w) == "/" + digits + "]" + "" && Stage(5, w) == "/" + digits + "" + "";
  }

  lemma DotReplaced(w: Written, rest: string)
    requires w.step.Key? && CleanKey(w.step.name)
    ensures Replace(Stage(0, w) + rest, ".", "/") == Stage(1, w) + Replace(rest, ".", "/")
  {
    if w.style.Bracket? {
      ReplaceCopies(Stage(0, w), rest, ".", "/");
    } else {
      var tail := if w.style.Dot? then w.step.name else "['" + w.step.name + "']";
      ReplaceInside("", tail, rest, ".", "/");
      assert Stage(0, w) == "" + "." + tail && Stage(1, w) == "" + "/" + tail;
    }
  }

  lemma OpeningQuoteReplaced(w: Written, rest: string)
    requires w.step.Key? && CleanKey(w.step.name)
    ensures Replace(Stage(1, w) + rest, "['", "/") == Stage(2, w) + Replace(rest, "['", "/")
  {
    if w.style.Dot? {
      ReplaceCopies(Stage(1, w), rest, "['", "/");
    } else {
      var head, tail := if w.style.DotBracket? then "/" else "", w.step.name + "']";
      ReplaceInside(head, tail, rest, "['", "/");
      assert Stage(1, w) == head + "['" + tail && Stage(2, w) == head + "/" + tail;
    }
  }

  lemma ClosingQuoteRemoved(w: Written, rest: string)
    requires w.step.Key? && CleanKey(w.step.name) && (rest == "" || rest[0] != ']')
    ensures Replace(Stage(2, w) + rest, "']", "") == Stage(3, w) + Replace(rest, "']", "")
  {
    if w.style.Dot? {
      ReplaceCopiesPair(Stage(2, w), rest, "']", "");
    } else {
      var head := (if w.style.DotBracket? then "//" else "/") + w.step.name;
      ReplaceAfter(head, rest, "']", "");
      assert Stage(2, w) == head + "']" && Stage(3, w) == head + "";
    }
  }

  lemma KeyBracketReplacements(w: Written, rest: string)
    requires w.step.Key? && CleanKey(w.step.name)
    ensures Replace(Stage(3, w) + rest, "[", "/") == Stage(4, w) + Replace(rest, "[", "/")
    ensures Replace(Stage(4, w) + rest, "]", "") == Stage(5, w) + Replace(rest, "]", "")
  {
    ReplaceCopies(Stage(3, w), rest, "[", "/");
    ReplaceCopies(Stage(4, w), rest, "]", "");
  }

  lemma {:induction false} EachReplacement(ws: seq<Written>)
    requires CleanKeys(ws)
    ensures Replace(Stages(0, ws), ".", "/") == Stages(1, ws)
    ensures Replace(Stages(1, ws), "['", "/") == Stages(2, ws)
    ensures Replace(Stages(2, ws), "']", "") == Stages(3, ws)
    ensures Replace(Stages(3, ws), "[", "/") == Stages(4, ws)
    ensures Replace(Stages(4, ws), "]", "") == Stages(5, ws)
  {
    if ws != [] {
      EachReplacement(ws[1..]);
      if ws[0].step.Index? {
        IndexDotReplaced(ws[0], Stages(0, ws[1..]));
        IndexOpeningReplaced(ws[0], Stages(1, ws[1..]));
        IndexClosingReplaced(ws[0], Stages(2, ws[1..]));
        IndexBracketReplacements(ws[0], Stages(3, ws[1..]));
        IndexBracketReplacements(ws[0], Stages(4, ws[1..]));
      } else {
        DotReplaced(ws[0], Stages(0, ws[1..]));
        OpeningQuoteReplaced(ws[0], Stages(1, ws[1..]));
        ClosingQuoteRemoved(ws[0], Stages(2, ws[1..]));
        KeyBracketReplacements(ws[0], Stages(3, ws[1..]));
        KeyBracketReplacements(ws[0], Stages(4, ws[1..]));
      }
    }
  }

  lemma DollarTrimmed(ws: seq<Written>)
    ensures TrimStartChar(WritePath(ws), '$') == WriteSteps(ws)
  {
    assert WritePath(ws)[1..] == WriteSteps(ws);
    if ws != [] {
      assert WriteSteps(ws)[0] == WriteStep(ws[0])[0];
    }
  }

  lemma FiveReplacements(ws: seq<Written>)
    requires CleanKeys(ws)
    ensures ToJsonPointerPath(WritePath(ws)) == Replace(Stages(5, ws), "//", "/")
  {
    DollarTrimmed(ws);
    NothingReplaced(ws);
    EachReplacement(ws);
  }

  // ---- the last replacement: runs of slashes ----------------------------------------------

  /** Slashes in front of a step before the last replacement. */
  function Weight(w: Written): nat {
    if w.step.Key? && w.style.DotBracket? then 2 else 1
  }

  function Slashes(n: nat): (s: string)
    ensures |s| == n
    ensures forall i :: 0 <= i < n ==> s[i] == '/'
  {
    seq(n, _ => '/')
  }

  /** What the last replacement makes of `n` pending slashes followed by the steps. */
  function Collapsed(n: nat, ws: seq<Written>): string
    decreases |ws|
  {
    if ws == [] then Slashes((n + 1) / 2)
    else
      var token := Token(ws[0].step);
      if token == "" then Collapsed(n + Weight(ws[0]), ws[1..])
      else Slashes((n + Weight(ws[0]) + 1) / 2) + token + Collapsed(0, ws[1..])
  }

  /** The pointer of `m` empty keys followed by the steps. */
  function Expected(m: nat, ws: seq<Written>): string
    decreases |ws|
  {
    if ws == [] then Slashes(m)
    else
      var token := Token(ws[0].step);
      if token == "" then Expected(m + 1, ws[1..])
      else Slashes(m + 1) + token + Expected(0, ws[1..])
  }

  lemma {:induction false} SlashesHalve(n: nat, rest: string)
    requires rest == "" || rest[0] != '/'
    ensures Replace(Slashes(n) + rest, "//", "/") == Slashes((n + 1) / 2) + Replace(rest, "//", "/")
  {
    if n == 0 {
      assert Slashes(0) + rest == rest;
    } else if n == 1 {
      assert Slashes(1) == "/";
      ReplaceCopiesPair("", rest, "//", "/");
      assert ("/" + rest)[1..] == rest;
      assert |"/" + rest| > 1 ==> ("/" + rest)[1] == rest[0];
    } else {
      assert Slashes(n) + rest == "//" + (Slashes(n - 2) + rest);
      ReplaceFirst(Slashes(n - 2) + rest, "//", "/");
      SlashesHalve(n - 2, rest);
      assert Slashes((n + 1) / 2) == "/" + Slashes((n - 1) / 2);
    }
  }

  lemma StageFive(w: Written)
    ensures Stage(5, w) == Slashes(Weight(w)) + Token(w.step)
  {
  }

  lemma SlashesAdd(m: nat, n: nat)
    ensures Slashes(m) + Slashes(n) == Slashes(m + n)
  {
  }

  lemma NoSlashes(rest: string)
    ensures Slashes(0) + rest == rest
  {
  }

  lemma {:induction false} LastReplacement(n: nat, ws: seq<Written>)
    requires CleanKeys(ws)
    ensures Replace(Slashes(n) + Stages(5, ws), "//", "/") == Collapsed(n, ws)
    decreases |ws|
  {
    if ws == [] {
      SlashesHalve(n, "");
      assert Slashes(n) + "" == Slashes(n);
    } else {
      var w, rest := ws[0], Stages(5, ws[1..]);
      var token := Token(w.step);
      StageFive(w);
      SlashesAdd(n, Weight(w));
      AppendAssociative(Slashes(Weight(w)), token, rest);
      AppendAssociative(Slashes(n), Slashes(Weight(w)), token + rest);
      if token == "" {
        assert token + rest == rest;
        LastReplacement(n + Weight(w), ws[1..]);
      } else {
        CleanTokenChars(w.step);
        SlashesHalve(n + Weight(w), token + rest);
        ReplaceCopies(token, rest, "//", "/");
        LastReplacement(0, ws[1..]);
        NoSlashes(rest);
        AppendAssociative(Slashes((n + Weight(w) + 1) / 2), token, Collapsed(0, ws[1..]));
      }
    }
  }

  lemma {:induction false} CleanTokensUnescaped(token: string)
    requires '/' !in token && '~' !in token
    ensures Escape(token) == token
  {
    if token != "" {
      CleanTokensUnescaped(token[1..]);
    }
  }

  lemma PointerUnrolled(ws: seq<Written>)
    requires ws != [] && CleanKeys(ws)
    ensures Pointer(Steps(ws)) == "/" + Token(ws[0].step) + Pointer(Steps(ws[1..]))
  {
    assert Steps(ws)[1..] == Steps(ws[1..]);
    CleanTokenChars(ws[0].step);
    CleanTokensUnescaped(Token(ws[0].step));
  }

  lemma {:induction false} PointerExpected(m: nat, ws: seq<Written>)
    requires CleanKeys(ws)
    ensures Slashes(m) + Pointer(Steps(ws)) == Expected(m, ws)
    decreases |ws|
  {
    if ws == [] {
      assert Slashes(m) + "" == Slashes(m);
    } else {
      PointerUnrolled(ws);
      var token, rest := Token(ws[0].step), Pointer(Steps(ws[1..]));
      OneMoreSlash(m, token, rest);
      if token == "" {
        assert Slashes(m + 1) + token == Slashes(m + 1);
        PointerExpected(m + 1, ws[1..]);
      } else {
        PointerExpected(0, ws[1..]);
        NoSlashes(rest);
      }
    }
  }

  lemma OneMoreSlash(m: nat, token: string, rest: string)
    ensures Slashes(m) + ("/" + token + rest) == Slashes(m + 1) + token + rest
  {
    assert Slashes(m) + "/" == Slashes(m + 1);
    AppendAssociative4(Slashes(m), "/", token, rest);
    AppendAssociative("/", token, rest);
  }

  /**
   In every stretch of empty keys, counted together with the step that ends it, at most one step is
   written with a single slash. `singles` counts those seen so far in the current stretch.
   */
  predicate SlashesSurvive(singles: nat, ws: seq<Written>)
    decreases |ws|
  {
    if ws == [] then singles <= 1
    else
      var singles' := singles + (if Weight(ws[0]) == 1 then 1 else 0);
      if Token(ws[0].step) == "" then SlashesSurvive(singles', ws[1..])
      else singles' <= 1 && SlashesSurvive(0, ws[1..])
  }

  /** Two slash runs in front of the same text are equal only when they have the same length. */
  lemma SlashRunsCompare(a: nat, b: nat, token: string, x: string, y: string)
    requires token != "" && '/' !in token
    ensures Slashes(a) + token + x == Slashes(b) + token + y <==> a == b && x == y
  {
    var s, t := Slashes(a) + token + x, Slashes(b) + token + y;
    assert s[a] == token[0] && t[b] == token[0];
    assert a < b ==> t[a] == '/';
    assert b < a ==> s[b] == '/';
    assert x == s[a + |token|..] && y == t[b + |token|..];
  }

  /** `n` slashes halve to `m` exactly when at most one of the `m` steps was written with one slash. */
  lemma HalvingIsExact(n: nat, m: nat, singles: nat)
    requires n + singles == 2 * m
    ensures (n + 1) / 2 == m <==> singles <= 1
    ensures Slashes((n + 1) / 2) == Slashes(m) <==> singles <= 1
  {
    assert |Slashes((n + 1) / 2)| == (n + 1) / 2 && |Slashes(m)| == m;
  }

  lemma TokenEndsRun(n: nat, m: nat, singles: nat, ws: seq<Written>)
    requires ws != [] && CleanKeys(ws) && Token(ws[0].step) != ""
    requires n + singles == 2 * m
    ensures Collapsed(n, ws) == Expected(m, ws)
       <==> singles + (if Weight(ws[0]) == 1 then 1 else 0) <= 1 && Collapsed(0, ws[1..]) == Expected(0, ws[1..])
  {
    var weight, token := Weight(ws[0]), Token(ws[0].step);
    var halved := (n + weight + 1) / 2;
    CleanTokenChars(ws[0].step);
    HalvingIsExact(n + weight, m + 1, singles + (if weight == 1 then 1 else 0));
    assert Collapsed(n, ws) == Slashes(halved) + token + Collapsed(0, ws[1..]);
    assert Expected(m, ws) == Slashes(m + 1) + token + Expected(0, ws[1..]);
    SlashRunsCompare(halved, m + 1, token, Collapsed(0, ws[1..]), Expected(0, ws[1..]));
  }

  lemma {:induction false} CollapsedIsExpected(n: nat, m: nat, singles: nat, ws: seq<Written>)
    requires CleanKeys(ws)
    requires n + singles == 2 * m
    ensures Collapsed(n, ws) == Expected(m, ws) <==> SlashesSurvive(singles, ws)
    decreases |ws|
  {
    if ws == [] {
      HalvingIsExact(n, m, singles);
    } else if Token(ws[0].step) == "" {
      CollapsedIsExpected(n + Weight(ws[0]), m + 1, singles + (if Weight(ws[0]) == 1 then 1 else 0), ws[1..]);
    } else {
      CollapsedIsExpected(0, 0, 0, ws[1..]);
      TokenEndsRun(n, m, singles, ws);
    }
  }

  lemma CleanRewriting(ws: seq<Written>)
    requires CleanKeys(ws)
    ensures ToJsonPointerPath(WritePath(ws)) == Pointer(Steps(ws)) <==> SlashesSurvive(0, ws)
  {
    FiveReplacements(ws);
    LastReplacement(0, ws);
    assert Slashes(0) + Stages(5, ws) == Stages(5, ws);
    PointerExpected(0, ws);
    assert Slashes(0) + Pointer(Steps(ws)) == Pointer(Steps(ws));
    CollapsedIsExpected(0, 0, 0, ws);
  }

  // ---- keys that are not clean: counting characters ---------------------------------------

  function TokenCount(c: char, ws: seq<Written>): nat {
    if ws == [] then 0 else Count(c, Token(ws[0].step)) + TokenCount(c, ws[1..])
  }

  lemma {:induction false} TrimKeepsCount(c: char, s: string, trimmed: char)
    requires c != trimmed
    ensures Count(c, TrimStartChar(s, trimmed)) == Count(c, s)
  {
    if s != "" && s[0] == trimmed {
      TrimKeepsCount(c, s[1..], trimmed);
    }
  }

  /** The rewriting copies every character that it does not look for. */
  lemma RewritingKeepsCount(c: char, path: string)
    requires c !in "$.[']/"
    ensures Count(c, ToJsonPointerPath(path)) == Count(c, path)
  {
    TrimKeepsCount(c, path, '$');
    var s := TrimStartChar(path, '$');
    ReplaceKeepsCount(c, s, ".", "/");
    s := Replace(s, ".", "/");
    ReplaceKeepsCount(c, s, "['", "/");
    s := Replace(s, "['", "/");
    ReplaceKeepsCount(c, s, "']", "");
    s := Replace(s, "']", "");
    ReplaceKeepsCount(c, s, "[", "/");
    s := Replace(s, "[", "/");
    ReplaceKeepsCount(c, s, "]", "");
    s := Replace(s, "]", "");
    ReplaceKeepsCount(c, s, "//", "/");
  }

  /** The rewriting leaves no dot and no bracket. */
  lemma RewritingRemoves(path: string)
    ensures Count('.', ToJsonPointerPath(path)) == 0
    ensures Count('[', ToJsonPointerPath(path)) == 0
    ensures Count(']', ToJsonPointerPath(path)) == 0
  {
    var s := TrimStartChar(path, '$');
    ReplaceRemoves('.', s, "/");
    s := Replace(s, ".", "/");
    ReplaceKeepsCount('.', s, "['", "/");
    s := Replace(s, "['", "/");
    ReplaceKeepsCount('.', s, "']", "");
    s := Replace(s, "']", "");
    ReplaceKeepsCount('.', s, "[", "/");
    ReplaceRemoves('[', s, "/");
    s := Replace(s, "[", "/");
    ReplaceKeepsCount('.', s, "]", "");
    ReplaceKeepsCount('[', s, "]", "");
    ReplaceRemoves(']', s, "");
    s := Replace(s, "]", "");
    ReplaceKeepsCount('.', s, "//", "/");
    ReplaceKeepsCount('[', s, "//", "/");
    ReplaceKeepsCount(']', s, "//", "/");
  }

  lemma WrittenStepCount(c: char, w: Written)
    requires c !in "$.[']/"
    ensures Count(c, WriteStep(w)) == Count(c, Token(w.step))
  {
    var token := Token(w.step);
    var open := if w.step.Index? then "[" else if w.style.DotBracket? then ".['" else if w.style.Bracket? then "['" else ".";
    var close := if w.step.Index? then "]" else if w.style.Dot? then "" else "']";
    assert WriteStep(w) == open + token + close;
    CountAppend(c, open + token, close);
    CountAppend(c, open, token);
    CountZero(c, open);
    CountZero(c, close);
  }

  lemma {:induction false} WrittenCount(c: char, ws: seq<Written>)
    requires c !in "$.[']/"
    ensures Count(c, WriteSteps(ws)) == TokenCount(c, ws)
  {
    if ws != [] {
      WrittenCount(c, ws[1..]);
      WrittenStepCount(c, ws[0]);
      CountAppend(c, WriteStep(ws[0]), WriteSteps(ws[1..]));
    }
  }

  /** Escaping writes one more `0` for each tilde, and a tilde for each slash. */
  lemma {:induction false} EscapeCount(token: string)
    ensures Count('~', Escape(token)) == Count('~', token) + Count('/', token)
    ensures Count('0', Escape(token)) == Count('0', token) + Count('~', token)
    ensures forall c :: c in ".[]" ==> Count(c, Escape(token)) == Count(c, token)
  {
    if token != "" {
      EscapeCount(token[1..]);
      var first := if token[0] == '~' then "~0" else if token[0] == '/' then "~1" else [token[0]];
      forall c {
        CountAppend(c, first, Escape(token[1..]));
      }
      assert first[1..] == if token[0] == '~' then "0" else if token[0] == '/' then "1" else "";
    }
  }

  lemma {:induction false} PointerCount(ws: seq<Written>)
    ensures Count('~', Pointer(Steps(ws))) == TokenCount('~', ws) + TokenCount('/', ws)
    ensures Count('0', Pointer(Steps(ws))) == TokenCount('0', ws) + TokenCount('~', ws)
    ensures forall c :: c in ".[]" ==> Count(c, Pointer(Steps(ws))) == TokenCount(c, ws)
  {
    if ws != [] {
      PointerCount(ws[1..]);
      assert Steps(ws)[1..] == Steps(ws[1..]);
      var token := Token(ws[0].step);
      EscapeCount(token);
      forall c | c != '/'
        ensures Count(c, Pointer(Steps(ws))) == Count(c, Escape(token)) + Count(c, Pointer(Steps(ws[1..])))
      {
        CountAppend(c, "/" + Escape(token), Pointer(Steps(ws[1..])));
        CountAppend(c, "/", Escape(token));
      }
    }
  }

  lemma {:induction false} NoneCountedIsClean(ws: seq<Written>)
    requires forall c :: c in ".[]/~" ==> TokenCount(c, ws) == 0
    ensures CleanKeys(ws)
  {
    if ws != [] {
      forall c | c in ".[]/~"
        ensures c !in Token(ws[0].step) && TokenCount(c, ws[1..]) == 0
      {
        CountZero(c, Token(ws[0].step));
      }
      assert '.' in ".[]/~" && '[' in ".[]/~" && ']' in ".[]/~" && '/' in ".[]/~" && '~' in ".[]/~";
      NoneCountedIsClean(ws[1..]);
    }
  }

  lemma KeptCount(c: char, ws: seq<Written>)
    requires c !in "$.[']/"
    ensures Count(c, ToJsonPointerPath(WritePath(ws))) == TokenCount(c, ws)
  {
    RewritingKeepsCount(c, WritePath(ws));
    CountAppend(c, "$", WriteSteps(ws));
    WrittenCount(c, ws);
  }

  lemma RightOnlyIfClean(ws: seq<Written>)
    requires ToJsonPointerPath(WritePath(ws)) == Pointer(Steps(ws))
    ensures CleanKeys(ws)
  {
    RewritingRemoves(WritePath(ws));
    KeptCount('~', ws);
    KeptCount('0', ws);
    PointerCount(ws);
    assert '.' in ".[]" && '[' in ".[]" && ']' in ".[]";
    NoneCountedIsClean(ws);
  }

  // ---- the theorems -----------------------------------------------------------------------

  /**
   The rewriting yields the JSON Pointer of the same steps if and only if no key holds a dot, a
   bracket, a slash or a tilde, and empty keys are not written in a way that loses a slash.
   */
  lemma RewritingIsRightExactly(ws: seq<Written>)
    ensures ToJsonPointerPath(WritePath(ws)) == Pointer(Steps(ws)) <==> CleanKeys(ws) && SlashesSurvive(0, ws)
  {
    if ToJsonPointerPath(WritePath(ws)) == Pointer(Steps(ws)) {
      RightOnlyIfClean(ws);
    }
    if CleanKeys(ws) {
      CleanRewriting(ws);
    }
  }

  lemma {:induction false} NonEmptyKeysSurvive(ws: seq<Written>)
    requires forall w :: w in ws && w.step.Key? ==> w.step.name != ""
    ensures SlashesSurvive(0, ws)
  {
    if ws != [] {
      assert ws[0] in ws;
      NonEmptyKeysSurvive(ws[1..]);
    }
  }

  lemma {:induction false} ReportedSurvive(ws: seq<Written>)
    requires forall w :: w in ws ==> w.style.DotBracket?
    ensures SlashesSurvive(0, ws)
  {
    if ws != [] {
      assert ws[0] in ws;
      ReportedSurvive(ws[1..]);
    }
  }

  /** Steps whose keys the rewriting does not damage. */
  ghost predicate CleanSteps(steps: seq<Step>) {
    forall s :: s in steps ==> CleanStep(s)
  }

  lemma {:induction false} CleanStepsAreCleanKeys(ws: seq<Written>)
    ensures CleanKeys(ws) <==> CleanSteps(Steps(ws))
  {
    if ws != [] {
      assert Steps(ws) == [ws[0].step] + Steps(ws[1..]);
      CleanStepsAreCleanKeys(ws[1..]);
    }
  }

  /** For paths as the finder reports them, clean keys are all it takes: even empty keys come out right. */
  lemma ReportedPathsRewriteExactly(steps: seq<Step>)
    ensures ToJsonPointerPath(WritePath(AsReported(steps))) == Pointer(steps) <==> CleanSteps(steps)
  {
    var ws := AsReported(steps);
    assert Steps(ws) == steps;
    ReportedSurvive(ws);
    RewritingIsRightExactly(ws);
    CleanStepsAreCleanKeys(ws);
  }

  /** The rewritten path of a node reaches that node. */
  lemma RewrittenPathReaches(doc: Value, steps: seq<Step>)
    requires CleanSteps(steps) && Resolve(doc, steps).Some?
    ensures ResolvePointer(doc, ToJsonPointerPath(WritePath(AsReported(steps)))) == Resolve(doc, steps)
  {
    ReportedPathsRewriteExactly(steps);
    PointerResolves(doc, steps);
  }
}
