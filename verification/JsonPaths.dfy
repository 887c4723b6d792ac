/**
 Paths into a JSON document: the JSONPath text that a finder reports, the JSON Pointer (RFC 6901)
 that the redaction code rewrites it to, and when the two denote the same steps.
 */
module JsonPaths {
  import opened Wrappers
  import opened Sequences
  import opened Text
  import opened JsonValue

  datatype Step = Key(name: string) | Index(i: u64)

  /** The three ways of writing a key: `.['k']`, `['k']` and `.k`. An index is always `[i]`. */
  datatype Style = DotBracket | Bracket | Dot

  datatype Written = Written(step: Step, style: Style)

  // ---- JSONPath text ----------------------------------------------------------------------

  function WriteStep(w: Written): (text: string)
    ensures text != "" && (text[0] == '.' || text[0] == '[')
  {
    match w.step
    case Index(i) => "[" + Decimal(i) + "]"
    case Key(k) =>
      match w.style
      case DotBracket => ".['" + k + "']"
      case Bracket => "['" + k + "']"
      case Dot => "." + k
  }

  function WriteSteps(ws: seq<Written>): string {
    if ws == [] then "" else WriteStep(ws[0]) + WriteSteps(ws[1..])
  }

  function WritePath(ws: seq<Written>): string {
    "$" + WriteSteps(ws)
  }

  /** Paths as the finder reports them, every key as `.['k']`. */
  function AsReported(steps: seq<Step>): seq<Written> {
    seq(|steps|, i requires 0 <= i < |steps| => Written(steps[i], DotBracket))
  }

  function Steps(ws: seq<Written>): seq<Step> {
    seq(|ws|, i requires 0 <= i < |ws| => ws[i].step)
  }

  // ---- the rewriting ----------------------------------------------------------------------

  /** `convert_to_json_pointer_path` */
  function ToJsonPointerPath(path: string): string {
    var s := TrimStartChar(path, '$');
    var s := Replace(s, ".", "/");
    var s := Replace(s, "['", "/");
    var s := Replace(s, "']", "");
    var s := Replace(s, "[", "/");
    var s := Replace(s, "]", "");
    Replace(s, "//", "/")
  }

  // ---- JSON Pointer -----------------------------------------------------------------------

  /** A reference token, escaped (RFC 6901 section 3). */
  function Escape(token: string): string {
    if token == "" then ""
    else
      (if token[0] == '~' then "~0" else if token[0] == '/' then "~1" else [token[0]]) + Escape(token[1..])
  }

  function Unescape(token: string): string {
    Replace(Replace(token, "~1", "/"), "~0", "~")
  }

  function Token(step: Step): string {
    match step
    case Key(k) => k
    case Index(i) => Decimal(i)
  }

  function Pointer(steps: seq<Step>): string {
    if steps == [] then "" else "/" + Escape(Token(steps[0])) + Pointer(steps[1..])
  }

  // ---- reaching a node --------------------------------------------------------------------

  function Child(v: Value, step: Step): Option<Value> {
    match (v, step)
    case (Obj(fields), Key(k)) => Field(fields, k)
    case (Arr(items), Index(i)) => At(items, i)
    case _ => None
  }

  function Resolve(v: Value, steps: seq<Step>): Option<Value> {
    if steps == [] then Some(v)
    else
      match Child(v, steps[0])
      case Some(child) => Resolve(child, steps[1..])
      case None => None
  }

  /** An array index in a pointer: decimal, without a sign and without a leading zero. */
  function ParseIndex(token: string): Option<u64> {
    if StartsWith(token, "+") || (StartsWith(token, "0") && |token| != 1) then None else ParseU64(token)
  }

  function PointerChild(v: Value, token: string): Option<Value> {
    match v
    case Obj(fields) => Field(fields, token)
    case Arr(items) => (
      match ParseIndex(token)
      case Some(i) => At(items, i)
      case None => None
    )
    case _ => None
  }

  function ResolveTokens(v: Value, tokens: seq<string>): Option<Value> {
    if tokens == [] then Some(v)
    else
      match PointerChild(v, Unescape(tokens[0]))
      case Some(child) => ResolveTokens(child, tokens[1..])
      case None => None
  }

  /** `serde_json::Value::pointer` */
  function ResolvePointer(v: Value, pointer: string): Option<Value> {
    if pointer == "" then Some(v)
    else if pointer[0] != '/' then None
    else ResolveTokens(v, Split(pointer, '/')[1..])
  }

  // ---- a pointer reaches the node its steps reach -----------------------------------------

  lemma {:induction false} EscapeHasNoSlash(token: string)
    ensures '/' !in Escape(token)
  {
    if token != "" {
      EscapeHasNoSlash(token[1..]);
    }
  }

  /** What escaping leaves after only the slashes have been restored. */
  function HalfEscape(token: string): string {
    if token == "" then "" else (if token[0] == '~' then "~0" else [token[0]]) + HalfEscape(token[1..])
  }

  lemma TildeKept(rest: string)
    ensures Replace("~0" + rest, "~1", "/") == "~0" + Replace(rest, "~1", "/")
  {
    assert "~0" + rest == ['~'] + ("0" + rest);
    assert (['~'] + ("0" + rest))[1] == '0' && "~1"[1] == '1';
    ReplaceSkips('~', "0" + rest, "~1", "/");
    ReplaceCopies("0", rest, "~1", "/");
    AppendAssociative(['~'], "0", Replace(rest, "~1", "/"));
    assert ['~'] + "0" == "~0";
  }

  lemma {:induction false} SlashesRestored(token: string)
    ensures Replace(Escape(token), "~1", "/") == HalfEscape(token)
  {
    if token != "" {
      SlashesRestored(token[1..]);
      var rest := Escape(token[1..]);
      if token[0] == '~' {
        TildeKept(rest);
      } else if token[0] == '/' {
        ReplaceFirst(rest, "~1", "/");
      } else {
        ReplaceCopies([token[0]], rest, "~1", "/");
      }
    }
  }

  lemma {:induction false} TildesRestored(token: string)
    ensures Replace(HalfEscape(token), "~0", "~") == token
  {
    if token != "" {
      TildesRestored(token[1..]);
      var rest := HalfEscape(token[1..]);
      if token[0] == '~' {
        ReplaceFirst(rest, "~0", "~");
      } else {
        ReplaceCopies([token[0]], rest, "~0", "~");
      }
    }
  }

  /** Escaping a token and unescaping it gives it back. */
  lemma EscapeRoundTrip(token: string)
    ensures Unescape(Escape(token)) == token
  {
    SlashesRestored(token);
    TildesRestored(token);
  }

  function Escaped(steps: seq<Step>): seq<string> {
    seq(|steps|, i requires 0 <= i < |steps| => Escape(Token(steps[i])))
  }

  lemma SplitToken(token: string, pointer: string)
    requires '/' !in token && (pointer == "" || pointer[0] == '/')
    ensures Split("/" + token + pointer, '/') == ["", token] + Split(pointer, '/')[1..]
  {
    var text := "/" + token + pointer;
    assert text[1..] == token + pointer;
    if pointer == "" {
      SplitFirst(token, "", '/');
      assert token + "" == token;
    } else {
      SplitFirst(token, pointer[1..], '/');
      assert token + pointer == token + ['/'] + pointer[1..];
      assert Split(pointer, '/') == [""] + Split(pointer[1..], '/');
    }
  }

  lemma {:induction false} PointerSplits(steps: seq<Step>)
    ensures Split(Pointer(steps), '/') == [""] + Escaped(steps)
  {
    if steps != [] {
      var token := Escape(Token(steps[0]));
      EscapeHasNoSlash(Token(steps[0]));
      PointerSplits(steps[1..]);
      SplitToken(token, Pointer(steps[1..]));
      assert Escaped(steps) == [token] + Escaped(steps[1..]);
    }
  }

  lemma {:induction false} TokensResolve(v: Value, steps: seq<Step>)
    requires Resolve(v, steps).Some?
    ensures ResolveTokens(v, Escaped(steps)) == Resolve(v, steps)
  {
    if steps != [] {
      EscapeRoundTrip(Token(steps[0]));
      assert Escaped(steps)[1..] == Escaped(steps[1..]);
      if steps[0].Index? {
        DecimalRoundTrip(steps[0].i);
        assert Decimal(steps[0].i)[0] != '+';
      }
      TokensResolve(Child(v, steps[0]).value, steps[1..]);
    }
  }

  /** A pointer made from the steps to a node reaches that node. */
  lemma PointerResolves(v: Value, steps: seq<Step>)
    requires Resolve(v, steps).Some?
    ensures ResolvePointer(v, Pointer(steps)) == Resolve(v, steps)
  {
    PointerSplits(steps);
    TokensResolve(v, steps);
  }

  // ---- what a pointer can reach -----------------------------------------------------------

  /** The tokens that are indices are the prints of numbers: without a sign and without zeros in front. */
  lemma IndexExactly(token: string, i: u64)
    ensures ParseIndex(token) == Some(i) <==> token == Decimal(i)
  {
    DecimalRoundTrip(i);
    assert Decimal(i)[0] != '+';
    if ParseIndex(token) == Some(i) {
      assert token != "" && (token[0] == '+' ==> StartsWith(token, "+")) && (token[0] == '0' ==> StartsWith(token, "0"));
      DigitsAreDecimal(token);
    }
  }

  /** The step that a token stands for in a value. */
  function StepOf(v: Value, token: string): Step {
    if v.Arr? && ParseIndex(token).Some? then Index(ParseIndex(token).value) else Key(token)
  }

  lemma {:induction false} TokensReach(v: Value, tokens: seq<string>) returns (steps: seq<Step>)
    ensures ResolveTokens(v, tokens).Some? ==>
      && |steps| == |tokens| && Resolve(v, steps) == ResolveTokens(v, tokens)
      && forall i :: 0 <= i < |steps| ==> Token(steps[i]) == Unescape(tokens[i])
  {
    steps := [];
    if tokens != [] && PointerChild(v, Unescape(tokens[0])).Some? {
      var token := Unescape(tokens[0]);
      var rest := TokensReach(PointerChild(v, token).value, tokens[1..]);
      steps := [StepOf(v, token)] + rest;
      assert steps[1..] == rest;
      if v.Arr? {
        IndexExactly(token, ParseIndex(token).value);
      }
    }
  }

  /** Whatever a pointer reaches is a node of the document, under the names and numbers that its tokens spell. */
  lemma PointerReachesNode(v: Value, pointer: string) returns (steps: seq<Step>)
    requires ResolvePointer(v, pointer).Some?
    ensures Resolve(v, steps) == ResolvePointer(v, pointer)
    ensures pointer == "" ==> steps == []
    ensures pointer != "" ==>
      && pointer[0] == '/' && |steps| == |Split(pointer, '/')| - 1
      && forall i :: 0 <= i < |steps| ==> Token(steps[i]) == Unescape(Split(pointer, '/')[i + 1])
  {
    steps := [];
    if pointer != "" {
      var tokens := Split(pointer, '/')[1..];
      steps := TokensReach(v, tokens);
      assert forall i :: 0 <= i < |tokens| ==> tokens[i] == Split(pointer, '/')[i + 1];
    }
  }
}
