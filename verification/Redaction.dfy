/**
 Marking the redacted strings of a response (RFC 9537 section 3). One JSONPath engine finds the places
 to be marked and reports their paths as text; another reads that text and replaces what it finds. The
 theorems here say what one such edit does to the document.
 */
module Redaction {
  import opened Wrappers
  import opened Text
  import opened JsonValue
  import opened JsonPaths
  import opened PathRewriting
  import opened PathTexts

  /**
   A JSONPath engine: the places in a document that a text selects, or none when the text does not
   parse. `find` stands for the engine that finds, `read` for the one that replaces.
   */
  type Engine = (Value, string) -> Option<seq<seq<Step>>>

  /** The engine finds only what is in the document. */
  ghost predicate Honest(find: Engine) {
    forall doc, path, p :: p in Selected(doc, path, find) ==> Resolve(doc, p).Some?
  }

  /** The places that a text selects, none if it does not parse. */
  function Selected(doc: Value, path: string, engine: Engine): seq<seq<Step>> {
    match engine(doc, path)
    case Some(places) => places
    case None => []
  }

  const REDACTED_TEXT := "*REDACTED*"

  /** What becomes of a redacted string. */
  function Mark(s: string): string {
    if s == "" then REDACTED_TEXT else "*" + s + "*"
  }

  // ---- one edit ---------------------------------------------------------------------------

  /**
   The node at the given place goes through the closure, which marks a string and puts `value` in
   place of anything else.
   */
  function ReplaceAt(doc: Value, steps: seq<Step>, value: Value): Value {
    if steps == [] then if doc.Str? then Str(Mark(doc.s)) else value
    else
      match (doc, steps[0])
      case (Obj(fields), Key(k)) =>
        if k in fields then Obj(fields[k := ReplaceAt(fields[k], steps[1..], value)]) else doc
      case (Arr(items), Index(i)) =>
        if i < |items| then Arr(items[i := ReplaceAt(items[i], steps[1..], value)]) else doc
      case _ => doc
  }

  function ReplaceEach(doc: Value, places: seq<seq<Step>>, value: Value): Value
    decreases |places|
  {
    if places == [] then doc else ReplaceEach(ReplaceAt(doc, places[0], value), places[1..], value)
  }

  /** `replace_with`: all places that the text selects go through the closure. */
  function ReplaceWith(doc: Value, path: string, value: Value, read: Engine): Option<Value> {
    match read(doc, path)
    case Some(places) => Some(ReplaceEach(doc, places, value))
    case None => None
  }

  /** One path that was found: the program has nothing but its text. */
  function EditText(doc: Value, path: string, read: Engine): Value {
    match ResolvePointer(doc, ToJsonPointerPath(path))
    case Some(Str(s)) => (
      match ReplaceWith(doc, path, Str(s), read)
      case Some(edited) => edited
      case None => doc
    )
    case _ => doc
  }

  /** The edit for a place that was found. */
  function EditAt(doc: Value, steps: seq<Step>, read: Engine): Value {
    EditText(doc, PathText(steps), read)
  }

  // ---- one redaction, and all of them -----------------------------------------------------

  function EditAll(doc: Value, places: seq<seq<Step>>, read: Engine): Value
    decreases |places|
  {
    if places == [] then doc else EditAll(EditAt(doc, places[0], read), places[1..], read)
  }

  /** `get_string_from_map` */
  function GetString(item: map<string, Value>, key: string): string {
    match Field(item, key)
    case Some(Str(s)) => s
    case _ => ""
  }

  predicate OtherPathLang(item: map<string, Value>) {
    match Field(item, "pathLang")
    case Some(Str(lang)) => !EqIgnoreAsciiCase(lang, "jsonpath")
    case _ => false
  }

  predicate ApplicableMethod(item: map<string, Value>) {
    GetString(item, "method") == "emptyValue" || GetString(item, "method") == "partialValue"
  }

  predicate Skipped(item: map<string, Value>) {
    || OtherPathLang(item)
    || (!ApplicableMethod(item) && GetString(item, "postPath") != "")
  }

  /** The places that one redaction marks in the document as it stands. */
  function Places(doc: Value, item: Value, find: Engine): seq<seq<Step>> {
    if !item.Obj? || Skipped(item.fields) then [] else Selected(doc, GetString(item.fields, "postPath"), find)
  }

  function ApplyItem(doc: Value, item: Value, find: Engine, read: Engine): Value {
    EditAll(doc, Places(doc, item, find), read)
  }

  function Redacted(doc: Value, items: seq<Value>, find: Engine, read: Engine): Value
    decreases |items|
  {
    if items == [] then doc else Redacted(ApplyItem(doc, items[0], find, read), items[1..], find, read)
  }

  // ---- the program ------------------------------------------------------------------------

  /** A response while it is being edited. */
  class Document {
    var json: Value

    constructor (json: Value)
      ensures this.json == json
    {
      this.json := json;
    }
  }

  /** `find_as_path`: the texts of the places found. */
  function FindAsPath(doc: Value, path: string, find: Engine): Option<seq<string>> {
    match find(doc, path)
    case Some(places) => Some(Texts(places))
    case None => None
  }

  function Texts(places: seq<seq<Step>>): seq<string> {
    seq(|places|, i requires 0 <= i < |places| => PathText(places[i]))
  }

  function EditTexts(doc: Value, paths: seq<string>, read: Engine): Value
    decreases |paths|
  {
    if paths == [] then doc else EditTexts(EditText(doc, paths[0], read), paths[1..], read)
  }

  lemma {:induction false} EditByText(doc: Value, places: seq<seq<Step>>, read: Engine)
    ensures EditTexts(doc, Texts(places), read) == EditAll(doc, places, read)
    decreases |places|
  {
    if places != [] {
      assert Texts(places)[1..] == Texts(places[1..]);
      EditByText(EditAt(doc, places[0], read), places[1..], read);
    }
  }

  /** The paths found for one redaction, edited one after the other in the document as it then stands. */
  method EditPaths(doc: Document, paths: seq<string>, read: Engine)
    modifies doc
    ensures doc.json == EditTexts(old(doc.json), paths, read)
  {
    for j := 0 to |paths|
      invariant EditTexts(doc.json, paths[j..], read) == EditTexts(old(doc.json), paths, read)
    {
      assert paths[j..][1..] == paths[j + 1..];
      var jsonPointer := ToJsonPointerPath(paths[j]);
      var valueAtPath := ResolvePointer(doc.json, jsonPointer);
      if valueAtPath.Some? && valueAtPath.value.Str? {
        var replacedJson := ReplaceWith(doc.json, paths[j], valueAtPath.value, read);
        if replacedJson.Some? {
          doc.json := replacedJson.value;
        }
      }
    }
  }

  /** The body of the loop of `convert_redactions`. */
  method ConvertRedaction(doc: Document, item: map<string, Value>, find: Engine, read: Engine)
    modifies doc
    ensures doc.json == ApplyItem(old(doc.json), Obj(item), find, read)
  {
    var postPath := GetString(item, "postPath");
    var redactionMethod := GetString(item, "method");
    if "pathLang" in item && item["pathLang"].Str? && !EqIgnoreAsciiCase(item["pathLang"].s, "jsonpath") {
      return;
    }
    if redactionMethod != "emptyValue" && redactionMethod != "partialValue" && postPath != "" {
      return;
    }
    var matches_ := FindAsPath(doc.json, postPath, find);
    if matches_.Some? {
      EditByText(doc.json, Places(doc.json, Obj(item), find), read);
      EditPaths(doc, matches_.value, read);
    }
  }

  lemma {:induction false} RedactedLast(doc: Value, items: seq<Value>, find: Engine, read: Engine, i: nat)
    requires i < |items|
    ensures Redacted(doc, items[..i + 1], find, read) == ApplyItem(Redacted(doc, items[..i], find, read), items[i], find, read)
    decreases i
  {
    assert items[..i + 1][0] == items[0];
    if i == 0 {
      assert items[..1][1..] == [];
    } else {
      assert items[..i + 1][1..] == items[1..][..i] && items[..i][1..] == items[1..][..i - 1];
      RedactedLast(ApplyItem(doc, items[0], find, read), items[1..], find, read, i - 1);
    }
  }

  /** `convert_redactions`; a redaction that is not an object stops the program. */
  method ConvertRedactions(doc: Document, redactedArray: seq<Value>, find: Engine, read: Engine)
    requires forall item :: item in redactedArray ==> item.Obj?
    modifies doc
    ensures doc.json == Redacted(old(doc.json), redactedArray, find, read)
  {
    for i := 0 to |redactedArray|
      invariant doc.json == Redacted(old(doc.json), redactedArray[..i], find, read)
    {
      RedactedLast(old(doc.json), redactedArray, find, read, i);
      assert redactedArray[i] in redactedArray;
      ConvertRedaction(doc, redactedArray[i].fields, find, read);
    }
    assert redactedArray[..|redactedArray|] == redactedArray;
  }

  // ---- shape ------------------------------------------------------------------------------

  /** Equal up to the text of strings. */
  ghost predicate SameShape(a: Value, b: Value) {
    match (a, b)
    case (Str(_), Str(_)) => true
    case (Arr(xs), Arr(ys)) => |xs| == |ys| && forall i :: 0 <= i < |xs| ==> SameShape(xs[i], ys[i])
    case (Obj(xs), Obj(ys)) => xs.Keys == ys.Keys && forall k :: k in xs ==> SameShape(xs[k], ys[k])
    case _ => a == b
  }

  lemma ShapeReflexive(a: Value)
    ensures SameShape(a, a)
  {
    match a
    case Arr(xs) =>
      forall i | 0 <= i < |xs| ensures SameShape(xs[i], xs[i]) { ShapeReflexive(xs[i]); }
    case Obj(xs) =>
      forall k | k in xs ensures SameShape(xs[k], xs[k]) { ShapeReflexive(xs[k]); }
    case _ =>
  }

  lemma {:induction false} ShapeSymmetric(a: Value, b: Value)
    requires SameShape(a, b)
    ensures SameShape(b, a)
  {
    match a
    case Arr(xs) =>
      forall i | 0 <= i < |xs| ensures SameShape(b.items[i], xs[i]) { ShapeSymmetric(xs[i], b.items[i]); }
    case Obj(xs) =>
      forall k | k in xs ensures SameShape(b.fields[k], xs[k]) { ShapeSymmetric(xs[k], b.fields[k]); }
    case _ =>
  }

  lemma {:induction false} ShapeTransitive(a: Value, b: Value, c: Value)
    requires SameShape(a, b) && SameShape(b, c)
    ensures SameShape(a, c)
  {
    match a
    case Arr(xs) =>
      forall i | 0 <= i < |xs| ensures SameShape(xs[i], c.items[i]) { ShapeTransitive(xs[i], b.items[i], c.items[i]); }
    case Obj(xs) =>
      forall k | k in xs ensures SameShape(xs[k], c.fields[k]) { ShapeTransitive(xs[k], b.fields[k], c.fields[k]); }
    case _ =>
  }

  /** Documents of one shape have nodes in the same places, and leaves that are not strings are equal. */
  lemma {:induction false} ShapeAt(a: Value, b: Value, steps: seq<Step>)
    requires SameShape(a, b)
    ensures Resolve(a, steps).Some? <==> Resolve(b, steps).Some?
    ensures Resolve(a, steps).Some? ==> SameShape(Resolve(a, steps).value, Resolve(b, steps).value)
  {
    if steps != [] && Child(a, steps[0]).Some? {
      ShapeAt(Child(a, steps[0]).value, Child(b, steps[0]).value, steps[1..]);
    }
  }

  // ---- replacing at one place -------------------------------------------------------------

  predicate IsString(v: Option<Value>) {
    v.Some? && v.value.Str?
  }

  lemma {:induction false} ReplaceNowhere(doc: Value, steps: seq<Step>, value: Value)
    requires Resolve(doc, steps).None?
    ensures ReplaceAt(doc, steps, value) == doc
  {
    if Child(doc, steps[0]).Some? {
      ReplaceNowhere(Child(doc, steps[0]).value, steps[1..], value);
      if doc.Obj? {
        assert doc.fields[steps[0].name := doc.fields[steps[0].name]] == doc.fields;
      } else {
        assert doc.items[steps[0].i := doc.items[steps[0].i]] == doc.items;
      }
    }
  }

  /** Replacing a node keeps the shape exactly when the node is a string. */
  lemma {:induction false} ReplaceShape(doc: Value, steps: seq<Step>, text: string)
    requires Resolve(doc, steps).Some?
    ensures SameShape(doc, ReplaceAt(doc, steps, Str(text))) <==> IsString(Resolve(doc, steps))
  {
    if steps != [] {
      var child := Child(doc, steps[0]).value;
      ReplaceShape(child, steps[1..], text);
      var edited := ReplaceAt(doc, steps, Str(text));
      if doc.Obj? {
        assert edited.fields.Keys == doc.fields.Keys;
        forall k | k in doc.fields && k != steps[0].name ensures SameShape(doc.fields[k], edited.fields[k]) {
          ShapeReflexive(doc.fields[k]);
        }
      } else {
        forall i | 0 <= i < |doc.items| && i != steps[0].i ensures SameShape(doc.items[i], edited.items[i]) {
          ShapeReflexive(doc.items[i]);
        }
      }
    }
  }

  /** What stands at the place of an edit afterwards. */
  lemma {:induction false} ReplaceResolves(doc: Value, steps: seq<Step>, value: Value)
    requires Resolve(doc, steps).Some?
    ensures Resolve(ReplaceAt(doc, steps, value), steps)
         == Some(if IsString(Resolve(doc, steps)) then Str(Mark(Resolve(doc, steps).value.s)) else value)
  {
    if steps != [] {
      ReplaceResolves(Child(doc, steps[0]).value, steps[1..], value);
    }
  }

  lemma {:induction false} ResolveAppend(v: Value, a: seq<Step>, b: seq<Step>)
    requires Resolve(v, a).Some?
    ensures Resolve(v, a + b) == Resolve(Resolve(v, a).value, b)
  {
    if a == [] {
      assert a + b == b;
    } else {
      assert (a + b)[1..] == a[1..] + b;
      ResolveAppend(Child(v, a[0]).value, a[1..], b);
    }
  }

  /** A string that is neither at the place of an edit nor below it keeps its text. */
  lemma {:induction false} ReplaceElsewhere(doc: Value, steps: seq<Step>, place: seq<Step>, value: Value)
    requires IsString(Resolve(doc, place)) && !(steps <= place)
    ensures Resolve(ReplaceAt(doc, steps, value), place) == Resolve(doc, place)
  {
    if place != [] && steps[0] == place[0] {
      assert steps == [steps[0]] + steps[1..] && place == [place[0]] + place[1..];
      ReplaceElsewhere(Child(doc, steps[0]).value, steps[1..], place[1..], value);
    }
  }

  /** Above a node there is a node, and it is not a string. */
  lemma {:induction false} PrefixResolves(doc: Value, steps: seq<Step>, below: seq<Step>)
    requires Resolve(doc, steps + below).Some?
    ensures Resolve(doc, steps).Some?
    ensures below != [] ==> !IsString(Resolve(doc, steps))
  {
    if steps == [] {
      assert steps + below == below;
    } else {
      assert (steps + below)[1..] == steps[1..] + below;
      PrefixResolves(Child(doc, steps[0]).value, steps[1..], below);
    }
  }

  /** A place that is not in the document does not come into it. */
  lemma {:induction false} ReplaceAddsNoPlace(doc: Value, steps: seq<Step>, place: seq<Step>, text: string)
    requires Resolve(doc, place).None?
    ensures Resolve(ReplaceAt(doc, steps, Str(text)), place).None?
  {
    if steps != [] && Child(doc, steps[0]).Some? && steps[0] == place[0] {
      ReplaceAddsNoPlace(Child(doc, steps[0]).value, steps[1..], place[1..], text);
    }
  }

  /** Nothing below a node that is overwritten stays in the document. */
  lemma ReplacePrunes(doc: Value, steps: seq<Step>, place: seq<Step>, text: string)
    requires Resolve(doc, place).Some? && steps < place
    ensures Resolve(ReplaceAt(doc, steps, Str(text)), place).None?
  {
    var below := place[|steps|..];
    assert place == steps + below;
    PrefixResolves(doc, steps, below);
    ReplaceResolves(doc, steps, Str(text));
    ResolveAppend(ReplaceAt(doc, steps, Str(text)), steps, below);
  }

  // ---- what edits can make of a document --------------------------------------------------

  /** Longer strings, and strings in place of other nodes. */
  ghost predicate Grown(a: Value, b: Value) {
    match (a, b)
    case (Str(s), Str(t)) => s == t || |s| < |t|
    case (_, Str(_)) => true
    case (Arr(xs), Arr(ys)) => |xs| == |ys| && forall i :: 0 <= i < |xs| ==> Grown(xs[i], ys[i])
    case (Obj(xs), Obj(ys)) => xs.Keys == ys.Keys && forall k :: k in xs ==> Grown(xs[k], ys[k])
    case _ => a == b
  }

  lemma {:induction false} GrownReflexive(a: Value)
    ensures Grown(a, a)
  {
    match a
    case Arr(xs) =>
      forall i | 0 <= i < |xs| ensures Grown(xs[i], xs[i]) { GrownReflexive(xs[i]); }
    case Obj(xs) =>
      forall k | k in xs ensures Grown(xs[k], xs[k]) { GrownReflexive(xs[k]); }
    case _ =>
  }

  lemma {:induction false} GrownTransitive(a: Value, b: Value, c: Value)
    requires Grown(a, b) && Grown(b, c)
    ensures Grown(a, c)
  {
    if a.Arr? && b.Arr? && c.Arr? {
      forall i | 0 <= i < |a.items| ensures Grown(a.items[i], c.items[i]) {
        GrownTransitive(a.items[i], b.items[i], c.items[i]);
      }
    } else if a.Obj? && b.Obj? && c.Obj? {
      forall k | k in a.fields ensures Grown(a.fields[k], c.fields[k]) {
        GrownTransitive(a.fields[k], b.fields[k], c.fields[k]);
      }
    }
  }

  lemma {:induction false} GrownBothWays(a: Value, b: Value)
    requires Grown(a, b) && Grown(b, a)
    ensures a == b
  {
    if a.Arr? && b.Arr? {
      forall i | 0 <= i < |a.items| ensures a.items[i] == b.items[i] {
        GrownBothWays(a.items[i], b.items[i]);
      }
    } else if a.Obj? && b.Obj? {
      forall k | k in a.fields ensures a.fields[k] == b.fields[k] {
        GrownBothWays(a.fields[k], b.fields[k]);
      }
    }
  }

  lemma {:induction false} ReplaceGrows(doc: Value, steps: seq<Step>, text: string)
    ensures Grown(doc, ReplaceAt(doc, steps, Str(text)))
  {
    GrownReflexive(doc);
    if steps != [] && Child(doc, steps[0]).Some? {
      ReplaceGrows(Child(doc, steps[0]).value, steps[1..], text);
    }
  }

  /** What was overwritten is not restored: a document that ends in the shape of the first never left it. */
  lemma {:induction false} ShapeBetween(a: Value, b: Value, c: Value)
    requires Grown(a, b) && Grown(b, c) && SameShape(a, c)
    ensures SameShape(a, b)
  {
    if a.Arr? {
      forall i | 0 <= i < |a.items| ensures SameShape(a.items[i], b.items[i]) {
        ShapeBetween(a.items[i], b.items[i], c.items[i]);
      }
    } else if a.Obj? {
      forall k | k in a.fields ensures SameShape(a.fields[k], b.fields[k]) {
        ShapeBetween(a.fields[k], b.fields[k], c.fields[k]);
      }
    }
  }

  lemma MarkIsLonger(s: string)
    ensures |s| < |Mark(s)|
  {
  }

  /** Replacing a node that is in the document changes the document. */
  lemma ReplaceChanges(doc: Value, steps: seq<Step>, text: string)
    requires Resolve(doc, steps).Some?
    ensures ReplaceAt(doc, steps, Str(text)) != doc
  {
    ReplaceResolves(doc, steps, Str(text));
    if IsString(Resolve(doc, steps)) {
      MarkIsLonger(Resolve(doc, steps).value.s);
    }
  }

  lemma {:induction false} EachGrows(doc: Value, places: seq<seq<Step>>, text: string)
    ensures Grown(doc, ReplaceEach(doc, places, Str(text)))
    decreases |places|
  {
    if places == [] {
      GrownReflexive(doc);
    } else {
      var next := ReplaceAt(doc, places[0], Str(text));
      ReplaceGrows(doc, places[0], text);
      EachGrows(next, places[1..], text);
      GrownTransitive(doc, next, ReplaceEach(doc, places, Str(text)));
    }
  }

  // ---- replacing at several places --------------------------------------------------------

  ghost predicate AllIn(doc: Value, places: seq<seq<Step>>) {
    forall p :: p in places ==> Resolve(doc, p).Some?
  }

  ghost predicate AllStrings(doc: Value, places: seq<seq<Step>>) {
    forall p :: p in places ==> IsString(Resolve(doc, p))
  }

  lemma StringsByShape(a: Value, b: Value, places: seq<seq<Step>>)
    requires SameShape(a, b)
    ensures AllIn(a, places) <==> AllIn(b, places)
    ensures AllStrings(a, places) <==> AllStrings(b, places)
  {
    forall p | p in places
      ensures Resolve(a, p).Some? <==> Resolve(b, p).Some?
      ensures IsString(Resolve(a, p)) <==> IsString(Resolve(b, p))
    {
      ShapeAt(a, b, p);
    }
  }

  lemma {:induction false} EachKeepsShapeExactly(doc: Value, places: seq<seq<Step>>, text: string)
    requires AllIn(doc, places)
    ensures SameShape(doc, ReplaceEach(doc, places, Str(text))) <==> AllStrings(doc, places)
    decreases |places|
  {
    if places == [] {
      ShapeReflexive(doc);
    } else {
      var next, final := ReplaceAt(doc, places[0], Str(text)), ReplaceEach(doc, places, Str(text));
      assert places[0] in places;
      ReplaceShape(doc, places[0], text);
      if IsString(Resolve(doc, places[0])) {
        StringsByShape(doc, next, places[1..]);
        assert forall p :: p in places <==> p == places[0] || p in places[1..];
        EachKeepsShapeExactly(next, places[1..], text);
        ShapeThrough(doc, next, final);
      } else {
        ReplaceGrows(doc, places[0], text);
        EachGrows(next, places[1..], text);
        if SameShape(doc, final) {
          ShapeBetween(doc, next, final);
        }
      }
    }
  }

  lemma ShapeThrough(a: Value, b: Value, c: Value)
    requires SameShape(a, b)
    ensures SameShape(a, c) <==> SameShape(b, c)
  {
    ShapeSymmetric(a, b);
    if SameShape(a, c) {
      ShapeTransitive(b, a, c);
    }
    if SameShape(b, c) {
      ShapeTransitive(a, b, c);
    }
  }

  function CountPath(paths: seq<seq<Step>>, place: seq<Step>): nat {
    if paths == [] then 0 else (if paths[0] == place then 1 else 0) + CountPath(paths[1..], place)
  }

  function MarkTimes(k: nat, s: string): string {
    if k == 0 then s else MarkTimes(k - 1, Mark(s))
  }

  lemma {:induction false} MarkTimesAdd(j: nat, k: nat, s: string)
    ensures MarkTimes(k, MarkTimes(j, s)) == MarkTimes(j + k, s)
  {
    if j > 0 {
      MarkTimesAdd(j - 1, k, Mark(s));
      assert MarkTimes(j, s) == MarkTimes(j - 1, Mark(s));
      assert MarkTimes(j + k, s) == MarkTimes((j - 1) + k, Mark(s));
    } else {
      assert MarkTimes(j, s) == s;
    }
  }

  lemma MarkOneMore(paths: seq<seq<Step>>, place: seq<Step>, s: string)
    requires paths != []
    ensures MarkTimes(CountPath(paths, place), s)
         == MarkTimes(CountPath(paths[1..], place), if paths[0] == place then Mark(s) else s)
  {
  }

  lemma {:induction false} MarkTimesGrows(k: nat, s: string)
    ensures |s| + k <= |MarkTimes(k, s)|
  {
    if k > 0 {
      MarkTimesGrows(k - 1, Mark(s));
      MarkIsLonger(s);
    }
  }

  lemma MarkedOnceExactly(k: nat, s: string)
    ensures MarkTimes(k, s) == Mark(s) <==> k == 1
    ensures MarkTimes(k, s) == s <==> k == 0
  {
    MarkTimesGrows(k, s);
    MarkIsLonger(s);
    if k > 0 {
      assert MarkTimes(k, s) == MarkTimes(k - 1, Mark(s));
      MarkTimesGrows(k - 1, Mark(s));
    }
  }

  /** One of the places is above the given one. */
  predicate AnyAbove(places: seq<seq<Step>>, place: seq<Step>) {
    exists q :: q in places && q < place
  }

  lemma {:induction false} EachAddsNoPlace(doc: Value, places: seq<seq<Step>>, place: seq<Step>, text: string)
    requires Resolve(doc, place).None?
    ensures Resolve(ReplaceEach(doc, places, Str(text)), place).None?
    decreases |places|
  {
    if places != [] {
      ReplaceAddsNoPlace(doc, places[0], place, text);
      EachAddsNoPlace(ReplaceAt(doc, places[0], Str(text)), places[1..], place, text);
    }
  }

  lemma AnyAboveStep(places: seq<seq<Step>>, place: seq<Step>)
    requires places != []
    ensures AnyAbove(places, place) <==> places[0] < place || AnyAbove(places[1..], place)
  {
    if AnyAbove(places, place) {
      var q :| q in places && q < place;
      assert q == places[0] || q in places[1..];
    }
    if AnyAbove(places[1..], place) {
      var q :| q in places[1..] && q < place;
      assert q in places;
    }
    assert places[0] in places;
  }

  /** A string is marked as often as its place occurs, unless it goes with a node above it. */
  lemma {:induction false} EachResolves(doc: Value, places: seq<seq<Step>>, place: seq<Step>, s: string, text: string)
    requires Resolve(doc, place) == Some(Str(s))
    ensures Resolve(ReplaceEach(doc, places, Str(text)), place)
         == if AnyAbove(places, place) then None else Some(Str(MarkTimes(CountPath(places, place), s)))
    decreases |places|
  {
    if places != [] {
      var next := ReplaceAt(doc, places[0], Str(text));
      AnyAboveStep(places, place);
      if places[0] < place {
        ReplacePrunes(doc, places[0], place, text);
        EachAddsNoPlace(next, places[1..], place, text);
      } else if places[0] == place {
        ReplaceResolves(doc, place, Str(text));
        EachResolves(next, places[1..], place, Mark(s), text);
        MarkOneMore(places, place, s);
      } else {
        ReplaceElsewhere(doc, places[0], place, Str(text));
        EachResolves(next, places[1..], place, s, text);
        MarkOneMore(places, place, s);
      }
    }
  }

  // ---- what one edit reaches --------------------------------------------------------------

  /** The pointer made from the path of a place reaches a string. */
  predicate PointsAtString(doc: Value, steps: seq<Step>) {
    IsString(ResolvePointer(doc, ToJsonPointerPath(PathText(steps))))
  }

  function InDocument(doc: Value, places: seq<seq<Step>>): seq<seq<Step>> {
    if places == [] then []
    else (if Resolve(doc, places[0]).Some? then [places[0]] else []) + InDocument(doc, places[1..])
  }

  /**
   The places that the edit for a found place replaces: none if the pointer does not reach a string, and
   else those that the text of the path selects.
   */
  function Reached(doc: Value, steps: seq<Step>, read: Engine): seq<seq<Step>> {
    if PointsAtString(doc, steps) then InDocument(doc, Selected(doc, PathText(steps), read)) else []
  }

  lemma {:induction false} InDocumentMembers(doc: Value, places: seq<seq<Step>>)
    ensures forall p :: p in InDocument(doc, places) <==> p in places && Resolve(doc, p).Some?
  {
    if places != [] {
      InDocumentMembers(doc, places[1..]);
      assert forall p :: p in places <==> p == places[0] || p in places[1..];
    }
  }

  lemma InDocumentStep(doc: Value, places: seq<seq<Step>>)
    requires places != []
    ensures Resolve(doc, places[0]).Some? ==>
      (&& InDocument(doc, places) != []
       && InDocument(doc, places)[0] == places[0] && InDocument(doc, places)[1..] == InDocument(doc, places[1..]))
    ensures Resolve(doc, places[0]).None? ==> InDocument(doc, places) == InDocument(doc, places[1..])
  {
  }

  /** What was not in the document at first does not matter. */
  lemma {:induction false} OnlyInDocument(first: Value, doc: Value, places: seq<seq<Step>>, text: string)
    requires forall p :: Resolve(first, p).None? ==> Resolve(doc, p).None?
    ensures ReplaceEach(doc, places, Str(text)) == ReplaceEach(doc, InDocument(first, places), Str(text))
    decreases |places|
  {
    if places != [] {
      InDocumentStep(first, places);
      if Resolve(first, places[0]).None? {
        ReplaceNowhere(doc, places[0], Str(text));
        OnlyInDocument(first, doc, places[1..], text);
      } else {
        var next := ReplaceAt(doc, places[0], Str(text));
        forall p | Resolve(first, p).None?
          ensures Resolve(next, p).None?
        {
          ReplaceAddsNoPlace(doc, places[0], p, text);
        }
        OnlyInDocument(first, next, places[1..], text);
      }
    }
  }

  /** An edit replaces the places it reaches, and does nothing else. */
  lemma EditReplacesReached(doc: Value, steps: seq<Step>, read: Engine) returns (text: string)
    ensures EditAt(doc, steps, read) == ReplaceEach(doc, Reached(doc, steps, read), Str(text))
    ensures AllIn(doc, Reached(doc, steps, read))
  {
    text := "";
    if PointsAtString(doc, steps) {
      text := ResolvePointer(doc, ToJsonPointerPath(PathText(steps))).value.s;
      OnlyInDocument(doc, doc, Selected(doc, PathText(steps), read), text);
      InDocumentMembers(doc, Selected(doc, PathText(steps), read));
    }
  }

  // ---- the effect of one edit -------------------------------------------------------------

  /** An edit keeps the shape of the document if and only if it reaches only strings. */
  lemma EditKeepsShapeExactly(doc: Value, steps: seq<Step>, read: Engine)
    ensures SameShape(doc, EditAt(doc, steps, read)) <==> AllStrings(doc, Reached(doc, steps, read))
  {
    var text := EditReplacesReached(doc, steps, read);
    EachKeepsShapeExactly(doc, Reached(doc, steps, read), text);
  }

  lemma EditResolves(doc: Value, steps: seq<Step>, read: Engine, place: seq<Step>, s: string)
    requires Resolve(doc, place) == Some(Str(s))
    ensures var reached := Reached(doc, steps, read);
      Resolve(EditAt(doc, steps, read), place)
      == if AnyAbove(reached, place) then None else Some(Str(MarkTimes(CountPath(reached, place), s)))
  {
    var text := EditReplacesReached(doc, steps, read);
    EachResolves(doc, Reached(doc, steps, read), place, s, text);
  }

  /**
   A selected string is marked if and only if the edit for it reaches it once, and no node above it: the
   pointer must reach some string, and the engine that replaces must read the text as this place.
   */
  lemma EditMarksExactly(doc: Value, steps: seq<Step>, read: Engine)
    requires IsString(Resolve(doc, steps))
    ensures var reached := Reached(doc, steps, read);
      Resolve(EditAt(doc, steps, read), steps) == Some(Str(Mark(Resolve(doc, steps).value.s)))
      <==> CountPath(reached, steps) == 1 && !AnyAbove(reached, steps)
  {
    var s := Resolve(doc, steps).value.s;
    EditResolves(doc, steps, read, steps, s);
    MarkedOnceExactly(CountPath(Reached(doc, steps, read), steps), s);
  }

  lemma {:induction false} CountedIsMember(places: seq<seq<Step>>, place: seq<Step>)
    ensures CountPath(places, place) == 0 <==> place !in places
  {
    if places != [] {
      CountedIsMember(places[1..], place);
    }
  }

  /** A string, selected or not, keeps its text if and only if the edit reaches neither it nor a node above it. */
  lemma EditSparesExactly(doc: Value, steps: seq<Step>, read: Engine, place: seq<Step>)
    requires IsString(Resolve(doc, place))
    ensures var reached := Reached(doc, steps, read);
      Resolve(EditAt(doc, steps, read), place) == Resolve(doc, place) <==> place !in reached && !AnyAbove(reached, place)
  {
    var s := Resolve(doc, place).value.s;
    EditResolves(doc, steps, read, place, s);
    MarkedOnceExactly(CountPath(Reached(doc, steps, read), place), s);
    CountedIsMember(Reached(doc, steps, read), place);
  }

  // ---- places that are edited rightly -----------------------------------------------------

  /** If the place is in the document, the edit for it overwrites nothing but strings. */
  ghost predicate ShapeSafe(doc: Value, steps: seq<Step>, read: Engine) {
    Resolve(doc, steps).Some? ==> AllStrings(doc, Reached(doc, steps, read))
  }

  /** If the place is in the document, the edit for it reaches just that place, or none if it holds no string. */
  predicate ExactAt(doc: Value, steps: seq<Step>, read: Engine) {
    Resolve(doc, steps).Some? ==> Reached(doc, steps, read) == if IsString(Resolve(doc, steps)) then [steps] else []
  }

  lemma {:induction false} TokensByShape(a: Value, b: Value, tokens: seq<string>)
    requires SameShape(a, b)
    ensures IsString(ResolveTokens(a, tokens)) <==> IsString(ResolveTokens(b, tokens))
  {
    if tokens != [] && PointerChild(a, Unescape(tokens[0])).Some? {
      TokensByShape(PointerChild(a, Unescape(tokens[0])).value, PointerChild(b, Unescape(tokens[0])).value, tokens[1..]);
    }
  }

  lemma PointersByShape(a: Value, b: Value, steps: seq<Step>)
    requires SameShape(a, b)
    ensures PointsAtString(a, steps) <==> PointsAtString(b, steps)
  {
    var pointer := ToJsonPointerPath(PathText(steps));
    if pointer != "" && pointer[0] == '/' {
      TokensByShape(a, b, Split(pointer, '/')[1..]);
    }
  }

  lemma NothingUnderString(doc: Value, steps: seq<Step>, place: seq<Step>)
    requires IsString(Resolve(doc, steps)) && steps < place
    ensures Resolve(doc, place).None?
  {
    if Resolve(doc, place).Some? {
      assert place == steps + place[|steps|..];
      PrefixResolves(doc, steps, place[|steps|..]);
    }
  }

  /** What an edit that reaches at most the place itself does to a string. */
  lemma MarksOfOne(places: seq<seq<Step>>, steps: seq<Step>, place: seq<Step>, s: string)
    requires places == [steps] || (places == [] && steps != place)
    requires places == [steps] ==> !(steps < place)
    ensures !AnyAbove(places, place)
    ensures MarkTimes(CountPath(places, place), s) == if steps == place then Mark(s) else s
  {
    assert [steps][1..] == [];
    assert CountPath([steps], place) == if steps == place then 1 else 0;
    MarkedOnceExactly(CountPath(places, place), s);
  }

  /** An edit at an exact place marks the string there, if any, and leaves every other string alone. */
  lemma EditMarks(doc: Value, steps: seq<Step>, read: Engine, place: seq<Step>, s: string)
    requires Resolve(doc, steps).Some? && ExactAt(doc, steps, read) && Resolve(doc, place) == Some(Str(s))
    ensures Resolve(EditAt(doc, steps, read), place) == Some(Str(if steps == place then Mark(s) else s))
  {
    EditResolves(doc, steps, read, place, s);
    if IsString(Resolve(doc, steps)) && steps < place {
      NothingUnderString(doc, steps, place);
    }
    MarksOfOne(Reached(doc, steps, read), steps, place, s);
  }

  lemma ExactKeepsShape(doc: Value, steps: seq<Step>, read: Engine)
    requires Resolve(doc, steps).Some? && ExactAt(doc, steps, read)
    ensures SameShape(doc, EditAt(doc, steps, read))
  {
    EditKeepsShapeExactly(doc, steps, read);
  }
}
