/** The text of a path, and when it determines the path. */
module PathTexts {
  import opened Wrappers
  import opened Sequences
  import opened Text
  import opened JsonPaths
  import opened PathRewriting

  /** The path of a place, as it is reported. */
  function PathText(steps: seq<Step>): string {
    WritePath(AsReported(steps))
  }

  /** A key in which a quoted key could not end. */
  predicate PlainKey(k: string) {
    forall i :: 0 <= i < |k| - 1 ==> !EndsQuote(k, i)
  }

  predicate EndsQuote(text: string, i: nat)
    requires i + 1 < |text|
  {
    text[i] == '\'' && text[i + 1] == ']'
  }

  ghost predicate PlainSteps(steps: seq<Step>) {
    forall s :: s in steps && s.Key? ==> PlainKey(s.name)
  }

  lemma CleanIsPlain(steps: seq<Step>)
    requires CleanSteps(steps)
    ensures PlainSteps(steps)
  {
    forall s | s in steps && s.Key?
      ensures PlainKey(s.name)
    {
      assert CleanStep(s);
    }
  }

  function StepText(step: Step): string {
    WriteStep(Written(step, DotBracket))
  }

  lemma TextUnrolled(steps: seq<Step>)
    requires steps != []
    ensures WriteSteps(AsReported(steps)) == StepText(steps[0]) + WriteSteps(AsReported(steps[1..]))
  {
    assert AsReported(steps)[1..] == AsReported(steps[1..]);
  }

  lemma EarlierQuote(j: string, k: string, x: string, y: string)
    requires j + "']" + x == k + "']" + y && |j| < |k|
    ensures !PlainKey(k)
  {
    var text := j + "']" + x;
    assert text[|j|] == '\'' && text[|j| + 1] == ']';
    assert text == k + "']" + y && text[|k|] == '\'';
    assert k[|j|] == text[|j|] && k[|j| + 1] == text[|j| + 1];
    assert EndsQuote(k, |j|);
  }

  /** Where a plain key ends in a text is the first place where a quoted key could. */
  lemma KeyEnds(j: string, k: string, x: string, y: string)
    requires PlainKey(j) && PlainKey(k)
    requires j + "']" + x == k + "']" + y
    ensures j == k && x == y
  {
    if |j| < |k| {
      EarlierQuote(j, k, x, y);
    } else if |k| < |j| {
      EarlierQuote(k, j, y, x);
    } else {
      var text := j + "']" + x;
      assert text == k + "']" + y;
      assert j == text[..|j|] && k == text[..|k|];
      assert x == text[|j| + 2..] && y == text[|k| + 2..];
    }
  }

  lemma EarlierBracket(i: string, j: string, x: string, y: string)
    requires i + "]" + x == j + "]" + y && |i| < |j|
    ensures ']' in j
  {
    var text := i + "]" + x;
    assert text[|i|] == ']';
    assert text == j + "]" + y && j[|i|] == text[|i|];
  }

  lemma DigitsEnd(i: string, j: string, x: string, y: string)
    requires ']' !in i && ']' !in j
    requires i + "]" + x == j + "]" + y
    ensures i == j && x == y
  {
    if |i| < |j| {
      EarlierBracket(i, j, x, y);
    } else if |j| < |i| {
      EarlierBracket(j, i, y, x);
    } else {
      var text := i + "]" + x;
      assert text == j + "]" + y;
      assert i == text[..|i|] && j == text[..|j|];
      assert x == text[|i| + 1..] && y == text[|j| + 1..];
    }
  }

  lemma FirstStepDetermined(a: Step, b: Step, x: string, y: string)
    requires a.Key? ==> PlainKey(a.name)
    requires b.Key? ==> PlainKey(b.name)
    requires StepText(a) + x == StepText(b) + y
    ensures a == b && x == y
  {
    assert (StepText(a) + x)[0] == StepText(a)[0] && (StepText(b) + y)[0] == StepText(b)[0];
    if a.Key? {
      assert StepText(a) + x == ".['" + (a.name + "']" + x);
      assert StepText(b) + y == ".['" + (b.name + "']" + y);
      assert (StepText(a) + x)[3..] == a.name + "']" + x && (StepText(b) + y)[3..] == b.name + "']" + y;
      KeyEnds(a.name, b.name, x, y);
    } else {
      var i, j := Decimal(a.i), Decimal(b.i);
      assert StepText(a) + x == "[" + (i + "]" + x) && StepText(b) + y == "[" + (j + "]" + y);
      assert (StepText(a) + x)[1..] == i + "]" + x && (StepText(b) + y)[1..] == j + "]" + y;
      DigitsAreClean(a.i);
      DigitsAreClean(b.i);
      DigitsEnd(i, j, x, y);
      DecimalRoundTrip(a.i);
      DecimalRoundTrip(b.i);
    }
  }

  lemma {:induction false} WrittenDetermines(a: seq<Step>, b: seq<Step>)
    requires PlainSteps(a) && PlainSteps(b)
    requires WriteSteps(AsReported(a)) == WriteSteps(AsReported(b))
    ensures a == b
  {
    if a != [] && b != [] {
      TextUnrolled(a);
      TextUnrolled(b);
      FirstStepDetermined(a[0], b[0], WriteSteps(AsReported(a[1..])), WriteSteps(AsReported(b[1..])));
      WrittenDetermines(a[1..], b[1..]);
    } else if a != [] {
      TextUnrolled(a);
    } else if b != [] {
      TextUnrolled(b);
    }
  }

  /** Paths whose keys hold no quote followed by a bracket have one text only if they are the same. */
  lemma TextDeterminesSteps(a: seq<Step>, b: seq<Step>)
    requires PlainSteps(a) && PlainSteps(b) && PathText(a) == PathText(b)
    ensures a == b
  {
    assert PathText(a)[1..] == WriteSteps(AsReported(a)) && PathText(b)[1..] == WriteSteps(AsReported(b));
    WrittenDetermines(a, b);
  }

  /** Above all, paths whose keys hold no apostrophe. */
  lemma ApostropheFreeTextDetermines(a: seq<Step>, b: seq<Step>)
    requires forall s :: (s in a || s in b) && s.Key? ==> '\'' !in s.name
    requires PathText(a) == PathText(b)
    ensures a == b
  {
    TextDeterminesSteps(a, b);
  }

  /** Otherwise a key can imitate the path of another place. */
  lemma ImitatedText()
    ensures PathText([Key("a'].['b")]) == PathText([Key("a"), Key("b")])
  {
    TextUnrolled([Key("a'].['b")]);
    TextUnrolled([Key("a"), Key("b")]);
    assert [Key("a'].['b")][1..] == [] && [Key("a"), Key("b")][1..] == [Key("b")];
    TextUnrolled([Key("b")]);
    assert [Key("b")][1..] == [];
    assert ".['" + "a'].['b" + "']" == ".['" + "a" + "']" + (".['" + "b" + "']");
  }
}
