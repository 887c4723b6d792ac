/**
 What a whole run of redactions does to a document: when it is right, whatever is redacted and whatever
 the engines answer, and how it goes wrong.
 */
module RedactionRuns {
  import opened Wrappers
  import opened Text
  import opened JsonValue
  import opened JsonPaths
  import opened PathRewriting
  import opened PathTexts
  import opened Redaction

  // ---- the effect of a run ----------------------------------------------------------------

  /** Some redaction of the run selects the place in some document of this shape. */
  ghost predicate Selectable(doc: Value, items: seq<Value>, find: Engine, p: seq<Step>) {
    exists d, i :: SameShape(doc, d) && 0 <= i < |items| && p in Places(d, items[i], find)
  }

  /** How often the redactions select the given place, each in the document it is applied to. */
  function Hits(doc: Value, items: seq<Value>, find: Engine, read: Engine, place: seq<Step>): nat
    decreases |items|
  {
    if items == [] then 0
    else
      CountPath(Places(doc, items[0], find), place)
      + Hits(ApplyItem(doc, items[0], find, read), items[1..], find, read, place)
  }

  lemma SelectableFirst(doc: Value, d: Value, items: seq<Value>, find: Engine, p: seq<Step>)
    requires SameShape(doc, d) && items != [] && p in Places(d, items[0], find)
    ensures Selectable(doc, items, find, p)
  {
    assert SameShape(doc, d) && 0 <= 0 < |items| && p in Places(d, items[0], find);
  }

  lemma SelectableLater(doc: Value, items: seq<Value>, find: Engine, p: seq<Step>)
    requires items != [] && Selectable(doc, items[1..], find, p)
    ensures Selectable(doc, items, find, p)
  {
    var d, i :| SameShape(doc, d) && 0 <= i < |items[1..]| && p in Places(d, items[1..][i], find);
    assert SameShape(doc, d) && 0 <= i + 1 < |items| && p in Places(d, items[i + 1], find);
  }

  /** Whatever the run can select is in the document. */
  lemma SelectableIsIn(doc: Value, items: seq<Value>, find: Engine, p: seq<Step>)
    requires Honest(find) && Selectable(doc, items, find, p)
    ensures Resolve(doc, p).Some?
  {
    var d, i :| SameShape(doc, d) && 0 <= i < |items| && p in Places(d, items[i], find);
    ShapeAt(doc, d, p);
  }

  /** In every document of this shape, what the run can select is safe. */
  ghost predicate SelectsSafely(doc: Value, items: seq<Value>, find: Engine, read: Engine) {
    forall d, p :: SameShape(doc, d) && Selectable(doc, items, find, p) ==> AllStrings(d, Reached(d, p, read))
  }

  /** In every document of this shape, what the run can select is there and exact. */
  ghost predicate SelectsExactly(doc: Value, items: seq<Value>, find: Engine, read: Engine) {
    forall d, p :: SameShape(doc, d) && Selectable(doc, items, find, p) ==> Resolve(d, p).Some? && ExactAt(d, p, read)
  }

  lemma LaterSafely(doc: Value, items: seq<Value>, find: Engine, read: Engine)
    requires items != [] && SelectsSafely(doc, items, find, read)
    ensures SelectsSafely(doc, items[1..], find, read)
  {
    forall d, p | SameShape(doc, d) && Selectable(doc, items[1..], find, p)
      ensures AllStrings(d, Reached(d, p, read))
    {
      SelectableLater(doc, items, find, p);
    }
  }

  lemma LaterExactly(doc: Value, items: seq<Value>, find: Engine, read: Engine)
    requires items != [] && SelectsExactly(doc, items, find, read)
    ensures SelectsExactly(doc, items[1..], find, read)
  {
    forall d, p | SameShape(doc, d) && Selectable(doc, items[1..], find, p)
      ensures Resolve(d, p).Some? && ExactAt(d, p, read)
    {
      SelectableLater(doc, items, find, p);
    }
  }

  /** Edits of one redaction, as the shape `first` of the document goes on allowing them. */
  lemma {:induction false} EditAllKeepsShape(first: Value, doc: Value, places: seq<seq<Step>>, read: Engine)
    requires SameShape(first, doc)
    requires forall d, p :: SameShape(first, d) && p in places ==> AllStrings(d, Reached(d, p, read))
    ensures SameShape(first, EditAll(doc, places, read))
    decreases |places|
  {
    if places != [] {
      var next := EditAt(doc, places[0], read);
      assert places[0] in places;
      EditKeepsShapeExactly(doc, places[0], read);
      ShapeTransitive(first, doc, next);
      assert forall p :: p in places[1..] ==> p in places;
      EditAllKeepsShape(first, next, places[1..], read);
    }
  }

  /** A run that selects only what is safe keeps keys, array lengths and leaves that are not strings. */
  lemma {:induction false} RunKeepsShape(first: Value, doc: Value, items: seq<Value>, find: Engine, read: Engine)
    requires SameShape(first, doc) && SelectsSafely(first, items, find, read)
    ensures SameShape(first, Redacted(doc, items, find, read))
    decreases |items|
  {
    if items != [] {
      var places := Places(doc, items[0], find);
      forall d, p | SameShape(first, d) && p in places
        ensures AllStrings(d, Reached(d, p, read))
      {
        SelectableFirst(first, doc, items, find, p);
      }
      EditAllKeepsShape(first, doc, places, read);
      LaterSafely(first, items, find, read);
      RunKeepsShape(first, ApplyItem(doc, items[0], find, read), items[1..], find, read);
    }
  }

  ghost predicate ExactForAll(first: Value, places: seq<seq<Step>>, read: Engine) {
    forall d, p :: SameShape(first, d) && p in places ==> Resolve(d, p).Some? && ExactAt(d, p, read)
  }

  /** The place holds the string `s`, marked k times. */
  ghost predicate Marked(doc: Value, place: seq<Step>, k: nat, s: string) {
    Resolve(doc, place) == Some(Str(MarkTimes(k, s)))
  }

  lemma {:induction false} EditAllMarks(
    first: Value, doc: Value, places: seq<seq<Step>>, read: Engine, place: seq<Step>, s: string)
    requires SameShape(first, doc) && ExactForAll(first, places, read) && Resolve(doc, place) == Some(Str(s))
    ensures SameShape(first, EditAll(doc, places, read))
    ensures Marked(EditAll(doc, places, read), place, CountPath(places, place), s)
    decreases |places|
  {
    if places != [] {
      var next := EditAt(doc, places[0], read);
      assert places[0] in places;
      EditMarks(doc, places[0], read, place, s);
      ExactKeepsShape(doc, places[0], read);
      ShapeTransitive(first, doc, next);
      assert forall p :: p in places[1..] ==> p in places;
      EditAllMarks(first, next, places[1..], read, place, if places[0] == place then Mark(s) else s);
      MarkOneMore(places, place, s);
    }
  }

  /** The first item of a run marks what it selects. */
  lemma FirstItemMarks(
    first: Value, doc: Value, items: seq<Value>, find: Engine, read: Engine, place: seq<Step>, s: string)
    requires items != [] && SameShape(first, doc) && SelectsExactly(first, items, find, read)
    requires Resolve(doc, place) == Some(Str(s))
    ensures SameShape(first, ApplyItem(doc, items[0], find, read))
    ensures Marked(ApplyItem(doc, items[0], find, read), place, CountPath(Places(doc, items[0], find), place), s)
  {
    var places := Places(doc, items[0], find);
    forall d, p | SameShape(first, d) && p in places
      ensures Resolve(d, p).Some? && ExactAt(d, p, read)
    {
      SelectableFirst(first, doc, items, find, p);
    }
    EditAllMarks(first, doc, places, read, place, s);
  }

  lemma RunStep(doc: Value, items: seq<Value>, find: Engine, read: Engine)
    requires items != []
    ensures Redacted(doc, items, find, read) == Redacted(ApplyItem(doc, items[0], find, read), items[1..], find, read)
  {
  }

  lemma HitsStep(doc: Value, items: seq<Value>, find: Engine, read: Engine, place: seq<Step>)
    requires items != []
    ensures Hits(doc, items, find, read, place)
         == CountPath(Places(doc, items[0], find), place)
            + Hits(ApplyItem(doc, items[0], find, read), items[1..], find, read, place)
  {
  }

  lemma MarkedInAll(final: Value, place: seq<Step>, hits: nat, later: nat, all: nat, s: string)
    requires Marked(final, place, later, MarkTimes(hits, s)) && all == hits + later
    ensures Marked(final, place, all, s)
  {
    MarkTimesAdd(hits, later, s);
  }

  /**
   In a run that selects only what is exact a string that is selected k times is marked k times, and a
   string that is never selected keeps its text.
   */
  lemma {:induction false} RunMarks(
    first: Value, doc: Value, items: seq<Value>, find: Engine, read: Engine, place: seq<Step>, s: string)
    requires SameShape(first, doc) && SelectsExactly(first, items, find, read) && Resolve(doc, place) == Some(Str(s))
    ensures Marked(Redacted(doc, items, find, read), place, Hits(doc, items, find, read, place), s)
    decreases |items|
  {
    if items != [] {
      var hits := CountPath(Places(doc, items[0], find), place);
      FirstItemMarks(first, doc, items, find, read, place, s);
      LaterExactly(first, items, find, read);
      RunMarks(first, ApplyItem(doc, items[0], find, read), items[1..], find, read, place, MarkTimes(hits, s));
      RunStep(doc, items, find, read);
      HitsStep(doc, items, find, read, place);
      MarkedInAll(Redacted(doc, items, find, read), place, hits,
                  Hits(ApplyItem(doc, items[0], find, read), items[1..], find, read, place),
                  Hits(doc, items, find, read, place), s);
    }
  }

  // ---- documents on which redaction is right ----------------------------------------------

  /** A redaction that applies, whatever engine is asked. */
  const APPLICABLE := Obj(map["method" := Str("emptyValue"), "postPath" := Str("$.x")])

  /** The engine that selects one place wherever it is. */
  function Selecting(steps: seq<Step>): Engine {
    (doc: Value, path: string) => Some(if Resolve(doc, steps).Some? then [steps] else [])
  }

  lemma SelectingIsHonest(steps: seq<Step>)
    ensures Honest(Selecting(steps))
  {
  }

  lemma ApplicablePlaces(doc: Value, steps: seq<Step>)
    requires Resolve(doc, steps).Some?
    ensures Places(doc, APPLICABLE, Selecting(steps)) == [steps]
  {
    assert GetString(APPLICABLE.fields, "method") == "emptyValue";
    assert Field(APPLICABLE.fields, "pathLang") == None;
  }

  lemma SelectingOne(doc: Value, steps: seq<Step>, read: Engine, place: seq<Step>)
    requires Resolve(doc, steps).Some?
    ensures Redacted(doc, [APPLICABLE], Selecting(steps), read) == EditAt(doc, steps, read)
    ensures Hits(doc, [APPLICABLE], Selecting(steps), read, place) == if steps == place then 1 else 0
  {
    ApplicablePlaces(doc, steps);
    assert [steps][1..] == [] && [APPLICABLE][1..] == [];
    var next := EditAt(doc, steps, read);
    assert EditAll(doc, [steps], read) == EditAll(next, [], read);
    assert Redacted(doc, [APPLICABLE], Selecting(steps), read) == Redacted(next, [], Selecting(steps), read);
    assert CountPath([steps], place) == if steps == place then 1 else 0;
    assert Hits(doc, [APPLICABLE], Selecting(steps), read, place)
        == CountPath([steps], place) + Hits(next, [], Selecting(steps), read, place);
  }

  ghost predicate KeepsShape(doc: Value, items: seq<Value>, find: Engine, read: Engine) {
    SameShape(doc, Redacted(doc, items, find, read))
  }

  /** Every run keeps the shape, whatever its items, what the strings of the document say and what is found. */
  ghost predicate AlwaysKeepsShape(doc: Value, read: Engine) {
    forall d, items, find :: SameShape(doc, d) && Honest(find) ==> KeepsShape(d, items, find, read)
  }

  ghost predicate AlwaysSafe(doc: Value, read: Engine) {
    forall d, steps :: SameShape(doc, d) ==> ShapeSafe(d, steps, read)
  }

  /**
   Every run on documents of one shape keeps it, whatever its items and what is found, if and only if
   the edit for each place in such a document reaches only strings.
   */
  lemma ShapeIsKeptExactly(doc: Value, read: Engine)
    ensures AlwaysKeepsShape(doc, read) <==> AlwaysSafe(doc, read)
  {
    if AlwaysSafe(doc, read) {
      forall d, items, find | SameShape(doc, d) && Honest(find)
        ensures KeepsShape(d, items, find, read)
      {
        SafeRunKeepsShape(doc, d, items, find, read);
      }
    }
    if AlwaysKeepsShape(doc, read) {
      forall d, steps | SameShape(doc, d)
        ensures ShapeSafe(d, steps, read)
      {
        SelectingIsHonest(steps);
        KeptOnlyIfSafe(d, steps, read);
      }
    }
  }

  lemma SafeRunKeepsShape(doc: Value, d: Value, items: seq<Value>, find: Engine, read: Engine)
    requires SameShape(doc, d) && Honest(find) && AlwaysSafe(doc, read)
    ensures KeepsShape(d, items, find, read)
  {
    ShapeReflexive(d);
    forall e, p | SameShape(d, e) && Selectable(d, items, find, p)
      ensures AllStrings(e, Reached(e, p, read))
    {
      SelectableIsIn(d, items, find, p);
      ShapeAt(d, e, p);
      ShapeTransitive(doc, d, e);
      assert ShapeSafe(e, p, read);
    }
    RunKeepsShape(d, d, items, find, read);
  }

  lemma KeptOnlyIfSafe(doc: Value, steps: seq<Step>, read: Engine)
    requires KeepsShape(doc, [APPLICABLE], Selecting(steps), read)
    ensures ShapeSafe(doc, steps, read)
  {
    if Resolve(doc, steps).Some? {
      SelectingOne(doc, steps, read, steps);
      EditKeepsShapeExactly(doc, steps, read);
    }
  }

  /** The run keeps the shape of the document and marks each string as often as it is selected. */
  ghost predicate RightRun(doc: Value, items: seq<Value>, find: Engine, read: Engine) {
    && KeepsShape(doc, items, find, read)
    && forall place, s :: Resolve(doc, place) == Some(Str(s))
         ==> Marked(Redacted(doc, items, find, read), place, Hits(doc, items, find, read, place), s)
  }

  ghost predicate AlwaysRight(doc: Value, read: Engine) {
    forall d, items, find :: SameShape(doc, d) && Honest(find) ==> RightRun(d, items, find, read)
  }

  ghost predicate AlwaysExact(doc: Value, read: Engine) {
    forall d, steps :: SameShape(doc, d) ==> ExactAt(d, steps, read)
  }

  /**
   Every run on documents of one shape is right, whatever its items and what is found, if and only if
   the edit for each place in such a document that holds a string reaches that place alone, and the edit
   for every other place reaches nothing.
   */
  lemma RedactionIsRightExactly(doc: Value, read: Engine)
    ensures AlwaysRight(doc, read) <==> AlwaysExact(doc, read)
  {
    if AlwaysExact(doc, read) {
      forall d, items, find | SameShape(doc, d) && Honest(find)
        ensures RightRun(d, items, find, read)
      {
        ExactRunIsRight(doc, d, items, find, read);
      }
    }
    if AlwaysRight(doc, read) {
      forall d, steps | SameShape(doc, d)
        ensures ExactAt(d, steps, read)
      {
        SelectingIsHonest(steps);
        RightOnlyIfExact(d, steps, read);
      }
    }
  }

  lemma ExactIsSafe(doc: Value, read: Engine)
    requires AlwaysExact(doc, read)
    ensures AlwaysSafe(doc, read)
  {
    forall d, steps | SameShape(doc, d)
      ensures ShapeSafe(d, steps, read)
    {
      assert ExactAt(d, steps, read);
    }
  }

  lemma ExactRunIsRight(doc: Value, d: Value, items: seq<Value>, find: Engine, read: Engine)
    requires SameShape(doc, d) && Honest(find) && AlwaysExact(doc, read)
    ensures RightRun(d, items, find, read)
  {
    ExactIsSafe(doc, read);
    SafeRunKeepsShape(doc, d, items, find, read);
    ShapeReflexive(d);
    forall e, p | SameShape(d, e) && Selectable(d, items, find, p)
      ensures Resolve(e, p).Some? && ExactAt(e, p, read)
    {
      SelectableIsIn(d, items, find, p);
      ShapeAt(d, e, p);
      ShapeTransitive(doc, d, e);
    }
    forall place, s | Resolve(d, place) == Some(Str(s))
      ensures Marked(Redacted(d, items, find, read), place, Hits(d, items, find, read, place), s)
    {
      RunMarks(d, d, items, find, read, place, s);
    }
  }

  lemma {:induction false} OnlyOnce(places: seq<seq<Step>>, place: seq<Step>)
    requires forall p :: p in places ==> p == place
    ensures CountPath(places, place) == |places|
  {
    if places != [] {
      assert places[0] in places;
      assert forall p :: p in places[1..] ==> p in places;
      OnlyOnce(places[1..], place);
    }
  }

  /** In a right run that selects one place, no other string is reached. */
  lemma OthersNotReached(doc: Value, steps: seq<Step>, read: Engine, q: seq<Step>)
    requires Resolve(doc, steps).Some? && RightRun(doc, [APPLICABLE], Selecting(steps), read)
    requires q != steps && IsString(Resolve(doc, q))
    ensures q !in Reached(doc, steps, read)
  {
    var s := Resolve(doc, q).value.s;
    SelectingOne(doc, steps, read, q);
    assert Marked(Redacted(doc, [APPLICABLE], Selecting(steps), read), q, 0, s);
    assert MarkTimes(0, s) == s;
    EditSparesExactly(doc, steps, read, q);
  }

  lemma RightOnlyIfExact(doc: Value, steps: seq<Step>, read: Engine)
    requires RightRun(doc, [APPLICABLE], Selecting(steps), read)
    ensures ExactAt(doc, steps, read)
  {
    if Resolve(doc, steps).Some? {
      var reached := Reached(doc, steps, read);
      KeptOnlyIfSafe(doc, steps, read);
      forall q | q in reached
        ensures q == steps && IsString(Resolve(doc, steps))
      {
        if q != steps {
          OthersNotReached(doc, steps, read, q);
        }
      }
      assert reached == [] || reached[0] in reached;
      if IsString(Resolve(doc, steps)) {
        SelectedOnce(doc, steps, read);
        OnlyOnce(reached, steps);
      }
    }
  }

  lemma SelectedOnce(doc: Value, steps: seq<Step>, read: Engine)
    requires IsString(Resolve(doc, steps)) && RightRun(doc, [APPLICABLE], Selecting(steps), read)
    ensures CountPath(Reached(doc, steps, read), steps) == 1
  {
    var s := Resolve(doc, steps).value.s;
    SelectingOne(doc, steps, read, steps);
    assert Marked(Redacted(doc, [APPLICABLE], Selecting(steps), read), steps, 1, s);
    MarkedOnceExactly(1, s);
    EditMarksExactly(doc, steps, read);
  }

  /** The text of a path selects the same places in all documents of one shape: no filter looks at a string. */
  ghost predicate ByShape(read: Engine) {
    forall a, b, path :: SameShape(a, b) ==> read(a, path) == read(b, path)
  }

  lemma {:induction false} InDocumentByShape(a: Value, b: Value, places: seq<seq<Step>>)
    requires SameShape(a, b)
    ensures InDocument(a, places) == InDocument(b, places)
  {
    if places != [] {
      ShapeAt(a, b, places[0]);
      InDocumentByShape(a, b, places[1..]);
    }
  }

  lemma ExactByShape(a: Value, b: Value, steps: seq<Step>, read: Engine)
    requires SameShape(a, b) && ByShape(read)
    ensures ExactAt(a, steps, read) <==> ExactAt(b, steps, read)
  {
    PointersByShape(a, b, steps);
    ShapeAt(a, b, steps);
    InDocumentByShape(a, b, Selected(a, PathText(steps), read));
  }

  /** For an engine that does not look at strings it is enough to ask about the document itself. */
  lemma RightForDocumentExactly(doc: Value, read: Engine)
    requires ByShape(read)
    ensures (forall items, find :: Honest(find) ==> RightRun(doc, items, find, read))
       <==> forall steps :: ExactAt(doc, steps, read)
  {
    ShapeReflexive(doc);
    if forall steps :: ExactAt(doc, steps, read) {
      forall d, steps | SameShape(doc, d)
        ensures ExactAt(d, steps, read)
      {
        ExactByShape(doc, d, steps, read);
      }
      forall items, find | Honest(find)
        ensures RightRun(doc, items, find, read)
      {
        ExactRunIsRight(doc, doc, items, find, read);
      }
    }
    if forall items, find :: Honest(find) ==> RightRun(doc, items, find, read) {
      forall steps
        ensures ExactAt(doc, steps, read)
      {
        SelectingIsHonest(steps);
        RightOnlyIfExact(doc, steps, read);
      }
    }
  }

  // ---- what no engine can make right ------------------------------------------------------

  /** Each string has a pointer that reaches some string, and a path whose text no other place has. */
  ghost predicate ToldApart(doc: Value) {
    forall q :: IsString(Resolve(doc, q)) ==> PointsAtString(doc, q) && HasOwnText(doc, q)
  }

  ghost predicate HasOwnText(doc: Value, q: seq<Step>) {
    forall p :: Resolve(doc, p).Some? && PathText(p) == PathText(q) ==> p == q
  }

  /** Two places with one text are treated alike, so they are not both edited rightly if one is a string. */
  lemma OneTextTwoPlaces(doc: Value, p: seq<Step>, q: seq<Step>, read: Engine)
    requires PathText(p) == PathText(q)
    ensures EditAt(doc, p, read) == EditAt(doc, q, read)
    ensures p != q && Resolve(doc, p).Some? && IsString(Resolve(doc, q))
      ==> !(ExactAt(doc, p, read) && ExactAt(doc, q, read))
  {
    assert Reached(doc, p, read) == Reached(doc, q, read);
    if Reached(doc, p, read) == [p] && Reached(doc, q, read) == [q] {
      assert [p][0] == p && [q][0] == q;
    }
  }

  ghost predicate IsStringWithText(doc: Value, q: seq<Step>, path: string) {
    IsString(Resolve(doc, q)) && PathText(q) == path
  }

  ghost function StringWithText(doc: Value, path: string): (q: seq<Step>)
    requires exists q :: IsStringWithText(doc, q, path)
    ensures IsStringWithText(doc, q, path)
  {
    var q :| IsStringWithText(doc, q, path); q
  }

  /** The engine that reads a text as the string of the document whose path it is. */
  ghost function KnowingStrings(doc: Value): Engine {
    (d: Value, path: string) =>
      if exists q :: IsStringWithText(doc, q, path) then Some([StringWithText(doc, path)]) else None
  }

  lemma KnowsString(doc: Value, d: Value, steps: seq<Step>)
    requires IsString(Resolve(doc, steps)) && HasOwnText(doc, steps)
    ensures Selected(d, PathText(steps), KnowingStrings(doc)) == [steps]
  {
    var path := PathText(steps);
    assert IsStringWithText(doc, steps, path);
    var q := StringWithText(doc, path);
    assert Resolve(doc, q).Some? && PathText(q) == PathText(steps);
  }

  lemma KnowsNoOther(doc: Value, d: Value, steps: seq<Step>)
    requires ToldApart(doc) && Resolve(doc, steps).Some? && !IsString(Resolve(doc, steps))
    ensures Selected(d, PathText(steps), KnowingStrings(doc)) == []
  {
    forall q | IsString(Resolve(doc, q))
      ensures PathText(q) != PathText(steps)
    {
      assert HasOwnText(doc, q);
    }
  }

  lemma KnowingIsExact(doc: Value, d: Value, steps: seq<Step>)
    requires ToldApart(doc) && SameShape(doc, d)
    ensures ExactAt(d, steps, KnowingStrings(doc))
  {
    ShapeAt(doc, d, steps);
    PointersByShape(doc, d, steps);
    if IsString(Resolve(doc, steps)) {
      KnowsString(doc, d, steps);
      assert [steps][1..] == [];
      assert InDocument(d, [steps]) == [steps];
    } else if Resolve(doc, steps).Some? {
      KnowsNoOther(doc, d, steps);
    }
  }

  /**
   Some engine makes every run right, if and only if each string of the document has a pointer that
   reaches a string, and a path whose text no other place of the document has.
   */
  lemma SomeEngineIsRightExactly(doc: Value)
    ensures (exists read :: AlwaysRight(doc, read)) <==> ToldApart(doc)
  {
    if ToldApart(doc) {
      var read := KnowingStrings(doc);
      forall d, steps | SameShape(doc, d)
        ensures ExactAt(d, steps, read)
      {
        KnowingIsExact(doc, d, steps);
      }
      RedactionIsRightExactly(doc, read);
    }
    if read :| AlwaysRight(doc, read) {
      RedactionIsRightExactly(doc, read);
      ShapeReflexive(doc);
      forall q | IsString(Resolve(doc, q))
        ensures PointsAtString(doc, q) && HasOwnText(doc, q)
      {
        assert ExactAt(doc, q, read);
        forall p | Resolve(doc, p).Some? && PathText(p) == PathText(q)
          ensures p == q
        {
          assert ExactAt(doc, p, read);
          OneTextTwoPlaces(doc, p, q, read);
        }
      }
    }
  }

  /** No key of the document is damaged by the rewriting. */
  ghost predicate CleanDocument(doc: Value) {
    forall steps :: Resolve(doc, steps).Some? ==> CleanSteps(steps)
  }

  /** In documents of this shape the engine reads the path of each string as the place of that string. */
  ghost predicate ReadsBack(doc: Value, read: Engine) {
    forall d, steps :: SameShape(doc, d) ==> ReadsPlace(d, steps, read)
  }

  /** The path of a string is read as the place of that string, and as no other in the document. */
  predicate ReadsPlace(doc: Value, steps: seq<Step>, read: Engine) {
    IsString(Resolve(doc, steps)) ==> InDocument(doc, Selected(doc, PathText(steps), read)) == [steps]
  }

  lemma CleanPointer(doc: Value, steps: seq<Step>)
    requires CleanDocument(doc) && Resolve(doc, steps).Some?
    ensures PointsAtString(doc, steps) <==> IsString(Resolve(doc, steps))
  {
    RewrittenPathReaches(doc, steps);
  }

  /**
   A document without keys that the rewriting damages is redacted rightly, if and only if the engine that
   replaces reads the paths of its strings back. Whether it does for a key with an apostrophe is up to it.
   */
  lemma CleanDocumentIsRightExactly(doc: Value, read: Engine)
    requires CleanDocument(doc)
    ensures AlwaysRight(doc, read) <==> ReadsBack(doc, read)
  {
    RedactionIsRightExactly(doc, read);
    forall d, steps | SameShape(doc, d)
      ensures ExactAt(d, steps, read) <==> ReadsPlace(d, steps, read)
    {
      if Resolve(d, steps).Some? {
        ShapeAt(doc, d, steps);
        CleanPointer(doc, steps);
        PointersByShape(doc, d, steps);
      }
    }
  }

  /** So some engine is right on every such document. */
  lemma CleanDocumentIsToldApart(doc: Value)
    requires CleanDocument(doc)
    ensures ToldApart(doc)
  {
    forall q | IsString(Resolve(doc, q))
      ensures PointsAtString(doc, q) && HasOwnText(doc, q)
    {
      CleanPointer(doc, q);
      forall p | Resolve(doc, p).Some? && PathText(p) == PathText(q)
        ensures p == q
      {
        CleanIsPlain(p);
        CleanIsPlain(q);
        TextDeterminesSteps(p, q);
      }
    }
  }

  function Stars(k: nat): string {
    seq(k, _ => '*')
  }

  /** k marks put k stars on each side of a string that is not empty. */
  lemma {:induction false} MarksAreStars(k: nat, s: string)
    requires s != ""
    ensures MarkTimes(k, s) == Stars(k) + s + Stars(k)
  {
    if k == 0 {
      assert Stars(0) + s + Stars(0) == s;
    } else {
      MarksAreStars(k - 1, Mark(s));
      var inner := Stars(k - 1);
      assert inner + "*" == Stars(k) && "*" + inner == Stars(k);
      assert inner + ("*" + s + "*") + inner == (inner + "*") + s + ("*" + inner);
    }
  }

  // ---- which redactions are applied -------------------------------------------------------

  /** No path language is given as a string, or it is JSONPath, in letters of either case. */
  ghost predicate AllowsJsonPath(item: map<string, Value>) {
    "pathLang" in item && item["pathLang"].Str? ==> SameName(item["pathLang"].s, "jsonpath")
  }

  predicate AsksForMarking(item: map<string, Value>) {
    "method" in item && (item["method"] == Str("emptyValue") || item["method"] == Str("partialValue"))
  }

  function PathOf(item: map<string, Value>): string {
    if "postPath" in item && item["postPath"].Str? then item["postPath"].s else ""
  }

  lemma LanguageExactly(item: map<string, Value>)
    ensures OtherPathLang(item) <==> !AllowsJsonPath(item)
  {
    if "pathLang" in item && item["pathLang"].Str? {
      EqIgnoreCaseExactly(item["pathLang"].s, "jsonpath");
    }
  }

  /**
   A redaction in JSONPath is applied at all places found for its path if its method is to empty a value
   or to shorten it, or if it has no path.
   */
  lemma AppliedItem(doc: Value, item: map<string, Value>, find: Engine, read: Engine, place: seq<Step>)
    requires AllowsJsonPath(item) && (AsksForMarking(item) || PathOf(item) == "")
    ensures ApplyItem(doc, Obj(item), find, read) == EditAll(doc, Selected(doc, PathOf(item), find), read)
    ensures Hits(doc, [Obj(item)], find, read, place) == CountPath(Selected(doc, PathOf(item), find), place)
  {
    LanguageExactly(item);
    assert [Obj(item)][1..] == [];
    HitsStep(doc, [Obj(item)], find, read, place);
  }

  /** In any other path language, or with a path and any other method, it changes nothing. */
  lemma SkippedItem(doc: Value, item: map<string, Value>, find: Engine, read: Engine)
    requires !AllowsJsonPath(item) || (!AsksForMarking(item) && PathOf(item) != "")
    ensures ApplyItem(doc, Obj(item), find, read) == doc
  {
    LanguageExactly(item);
  }

  /** So each string found is marked as often as it is found, where edits are exact. */
  lemma FoundStringsAreMarked(
    doc: Value, item: map<string, Value>, find: Engine, read: Engine, place: seq<Step>, s: string)
    requires AllowsJsonPath(item) && AsksForMarking(item)
    requires Honest(find) && AlwaysExact(doc, read) && Resolve(doc, place) == Some(Str(s))
    ensures Marked(ApplyItem(doc, Obj(item), find, read), place, CountPath(Selected(doc, PathOf(item), find), place), s)
  {
    ShapeReflexive(doc);
    ExactRunIsRight(doc, doc, [Obj(item)], find, read);
    AppliedItem(doc, item, find, read, place);
    assert [Obj(item)][1..] == [];
    RunStep(doc, [Obj(item)], find, read);
  }

  /** A response of one member. */
  function OfHandle(text: string): Value {
    Obj(map["handle" := Str(text)])
  }

  lemma HandleResolves(text: string)
    ensures Resolve(OfHandle(text), [Key("handle")]) == Some(Str(text))
  {
    assert [Key("handle")][1..] == [];
  }

  lemma HandlePointer(text: string)
    ensures ResolvePointer(OfHandle(text), ToJsonPointerPath(PathText([Key("handle")]))) == Some(Str(text))
  {
    HandleResolves(text);
    assert CleanStep(Key("handle"));
    RewrittenPathReaches(OfHandle(text), [Key("handle")]);
  }

  lemma HandleMarked(text: string, value: Value)
    ensures ReplaceAt(OfHandle(text), [Key("handle")], value) == OfHandle(Mark(text))
  {
    assert [Key("handle")][1..] == [];
    assert ReplaceAt(Str(text), [], value) == Str(Mark(text));
    assert map["handle" := Str(text)]["handle" := Str(Mark(text))] == map["handle" := Str(Mark(text))];
  }

  lemma OneEdit(doc: Value, steps: seq<Step>, read: Engine)
    ensures EditAll(doc, [steps], read) == EditAt(doc, steps, read)
  {
    assert [steps][1..] == [];
    assert EditAll(doc, [steps], read) == EditAll(EditAt(doc, steps, read), [steps][1..], read);
  }

  /** When its value is found and reached it is marked, with a star on each side or, if empty, as redacted. */
  lemma HandleIsMarked(text: string, item: map<string, Value>, find: Engine, read: Engine)
    requires AllowsJsonPath(item) && AsksForMarking(item) && PathOf(item) == "$.handle"
    requires find(OfHandle(text), "$.handle") == Some([[Key("handle")]])
    requires read(OfHandle(text), PathText([Key("handle")])) == Some([[Key("handle")]])
    ensures ApplyItem(OfHandle(text), Obj(item), find, read)
         == OfHandle(if text == "" then "*REDACTED*" else "*" + text + "*")
  {
    AppliedItem(OfHandle(text), item, find, read, [Key("handle")]);
    OneEdit(OfHandle(text), [Key("handle")], read);
    HandlePointer(text);
    EditOfPlace(OfHandle(text), [Key("handle")], read, text);
    HandleMarked(text, Str(text));
  }

  // ---- redactions that do nothing ---------------------------------------------------------

  /** The edit for the place changes nothing. */
  predicate Idle(doc: Value, steps: seq<Step>, read: Engine) {
    Reached(doc, steps, read) == []
  }

  lemma EditGrows(doc: Value, steps: seq<Step>, read: Engine)
    ensures Grown(doc, EditAt(doc, steps, read))
    ensures EditAt(doc, steps, read) == doc <==> Idle(doc, steps, read)
  {
    var reached := Reached(doc, steps, read);
    var text := EditReplacesReached(doc, steps, read);
    EachGrows(doc, reached, text);
    if reached != [] {
      var next := ReplaceAt(doc, reached[0], Str(text));
      assert reached[0] in reached;
      ReplaceChanges(doc, reached[0], text);
      ReplaceGrows(doc, reached[0], text);
      EachGrows(next, reached[1..], text);
      if EditAt(doc, steps, read) == doc {
        GrownBothWays(doc, next);
      }
    }
  }

  lemma {:induction false} EditAllGrows(doc: Value, places: seq<seq<Step>>, read: Engine)
    ensures Grown(doc, EditAll(doc, places, read))
    decreases |places|
  {
    if places == [] {
      GrownReflexive(doc);
    } else {
      var next := EditAt(doc, places[0], read);
      EditGrows(doc, places[0], read);
      EditAllGrows(next, places[1..], read);
      GrownTransitive(doc, next, EditAll(doc, places, read));
    }
  }

  /** Edits one after the other change nothing if and only if none of them alone does: none is ever undone. */
  lemma {:induction false} EditsChangeNothingExactly(doc: Value, places: seq<seq<Step>>, read: Engine)
    ensures EditAll(doc, places, read) == doc <==> forall p :: p in places ==> Idle(doc, p, read)
    decreases |places|
  {
    if places != [] {
      var next := EditAt(doc, places[0], read);
      EditGrows(doc, places[0], read);
      if next == doc {
        EditsChangeNothingExactly(doc, places[1..], read);
        assert forall p :: p in places <==> p == places[0] || p in places[1..];
      } else {
        assert places[0] in places;
        EditAllGrows(next, places[1..], read);
        if EditAll(doc, places, read) == doc {
          GrownBothWays(doc, next);
        }
      }
    }
  }

  /** What is found for the empty path changes nothing in the document. */
  predicate EmptyPathIdle(doc: Value, find: Engine, read: Engine) {
    forall p :: p in Selected(doc, "", find) ==> Idle(doc, p, read)
  }

  lemma PlacesWithoutMethod(doc: Value, item: map<string, Value>, find: Engine)
    requires AllowsJsonPath(item) && !AsksForMarking(item)
    ensures Places(doc, Obj(item), find) == if PathOf(item) == "" then Selected(doc, "", find) else []
  {
    LanguageExactly(item);
  }

  /**
   A redaction whose method does not call for marking leaves a document as it is if and only if it has a
   path, or the edits for what is found for the empty path in this document reach nothing.
   */
  lemma OtherMethodsChangeNothingExactly(doc: Value, item: map<string, Value>, find: Engine, read: Engine)
    requires AllowsJsonPath(item) && !AsksForMarking(item)
    ensures ApplyItem(doc, Obj(item), find, read) == doc <==> PathOf(item) != "" || EmptyPathIdle(doc, find, read)
  {
    PlacesWithoutMethod(doc, item, find);
    EditsChangeNothingExactly(doc, Places(doc, Obj(item), find), read);
  }

  lemma RootIsIdle(doc: Value, read: Engine)
    requires !doc.Str?
    ensures Idle(doc, [], read)
  {
    var root: seq<Step> := [];
    assert AsReported(root) == [] && CleanSteps(root);
    ReportedPathsRewriteExactly(root);
  }

  /** An engine that rejects the empty path, or answers it with the whole response, is harmless. */
  lemma RejectedOrRootIsHarmless(doc: Value, item: map<string, Value>, find: Engine, read: Engine)
    requires AllowsJsonPath(item) && !AsksForMarking(item)
    requires !doc.Str? && (find(doc, "") == None || find(doc, "") == Some([[]]))
    ensures ApplyItem(doc, Obj(item), find, read) == doc
  {
    RootIsIdle(doc, read);
    OtherMethodsChangeNothingExactly(doc, item, find, read);
  }

  // ---- edits that go wrong ----------------------------------------------------------------

  // The replacements, one after the other, on one path whose key has a dot.

  lemma DottedDots()
    ensures Replace(".['a.b']", ".", "/") == "/['a/b']"
  {
    ReplaceInside("", "['a", ".b']", ".", "/");
    ReplaceInside("", "b']", "", ".", "/");
    assert "" + "." + "['a" + ".b']" == ".['a.b']" && "" + "." + "b']" + "" == ".b']";
    assert "" + "/" + "['a" + ("" + "/" + "b']" + "") == "/['a/b']";
  }

  lemma DottedQuotesOpened()
    ensures Replace("/['a/b']", "['", "/") == "//a/b']"
  {
    ReplaceInside("/", "a/b']", "", "['", "/");
    assert "/" + "['" + "a/b']" + "" == "/['a/b']" && "/" + "/" + "a/b']" + "" == "//a/b']";
  }

  lemma DottedQuotesClosed()
    ensures Replace("//a/b']", "']", "") == "//a/b"
  {
    ReplaceAfter("//a/b", "", "']", "");
    assert "//a/b" + "']" + "" == "//a/b']" && "//a/b" + "" + "" == "//a/b";
  }

  lemma DottedBracketsAbsent()
    ensures Replace("//a/b", "[", "/") == "//a/b"
    ensures Replace("//a/b", "]", "") == "//a/b"
  {
    ReplaceCopies("//a/b", "", "[", "/");
    ReplaceCopies("//a/b", "", "]", "");
    assert "//a/b" + "" == "//a/b";
  }

  lemma DottedSlashesCollapsed()
    ensures Replace("//a/b", "//", "/") == "/a/b"
  {
    ReplaceFirst("a/b", "//", "/");
    assert "//" + "a/b" == "//a/b" && "/" + "a/b" == "/a/b";
    ReplaceCopies("a", "/b", "//", "/");
    ReplaceSkips('/', "b", "//", "/");
    ReplaceCopies("b", "", "//", "/");
    assert "a" + "/b" == "a/b" && "/" + "b" == "/b" && "b" + "" == "b";
  }

  lemma DottedKeyPointer()
    ensures ToJsonPointerPath(PathText([Key("a.b")])) == "/a/b"
  {
    var step := Written(Key("a.b"), DotBracket);
    assert AsReported([Key("a.b")]) == [step];
    DollarTrimmed([step]);
    assert WriteSteps([step]) == ".['a.b']" by {
      assert [step][1..] == [];
    }
    DottedDots();
    DottedQuotesOpened();
    DottedQuotesClosed();
    DottedBracketsAbsent();
    DottedSlashesCollapsed();
  }

  lemma PointerOfTwo(doc: Value, inner: Value, leaf: Value)
    requires Child(doc, Key("a")) == Some(inner) && Child(inner, Key("b")) == Some(leaf)
    ensures ResolvePointer(doc, "/a/b") == Some(leaf)
  {
    var steps := [Key("a"), Key("b")];
    assert steps[1..] == [Key("b")] && [Key("b")][1..] == [];
    assert Resolve(inner, [Key("b")]) == Some(leaf);
    PointerResolves(doc, steps);
    assert Escape("a") == "a" && Escape("b") == "b";
    assert Pointer([Key("b")]) == "/b";
    assert Pointer(steps) == "/a/b";
  }

  lemma ReplaceTop(fields: map<string, Value>, k: string, value: Value)
    requires k in fields && !fields[k].Str?
    ensures ReplaceAt(Obj(fields), [Key(k)], value) == Obj(fields[k := value])
  {
    assert [Key(k)][1..] == [];
  }

  /**
   The usual failure: a selected string under a key with a dot is left unmarked, because its pointer
   looks for a member of another object.
   */
  lemma DottedStringUnmarked(text: string, read: Engine)
    ensures var doc := Obj(map["a.b" := Str(text)]);
      Resolve(doc, [Key("a.b")]) == Some(Str(text)) && EditAt(doc, [Key("a.b")], read) == doc
  {
    var doc := Obj(map["a.b" := Str(text)]);
    assert [Key("a.b")][1..] == [];
    DottedKeyPointer();
    NothingUnder(doc);
  }

  lemma NothingUnder(doc: Value)
    requires doc.Obj? && "a" !in doc.fields
    ensures ResolvePointer(doc, "/a/b") == None
  {
    SplitToken("a", "/b");
    assert "/" + "a" + "/b" == "/a/b";
    EscapeRoundTrip("a");
    assert Escape("a") == "a";
  }

  const DOTTED_FIELDS: map<string, Value> := map["a.b" := Number(7), "a" := Obj(map["b" := Str("x")])]

  /** The edit by an engine that reads the path rightly. */
  lemma EditOfPlace(doc: Value, steps: seq<Step>, read: Engine, text: string)
    requires ResolvePointer(doc, ToJsonPointerPath(PathText(steps))) == Some(Str(text))
    requires read(doc, PathText(steps)) == Some([steps])
    ensures EditAt(doc, steps, read) == ReplaceAt(doc, steps, Str(text))
  {
    var edited := ReplaceAt(doc, steps, Str(text));
    assert [steps][1..] == [];
    assert ReplaceEach(doc, [steps], Str(text)) == ReplaceEach(edited, [], Str(text)) == edited;
  }

  lemma DottedKeyOverwritten(read: Engine)
    requires read(Obj(DOTTED_FIELDS), PathText([Key("a.b")])) == Some([[Key("a.b")]])
    ensures EditAt(Obj(DOTTED_FIELDS), [Key("a.b")], read) == Obj(DOTTED_FIELDS["a.b" := Str("x")])
  {
    DottedKeyPointer();
    PointerOfTwo(Obj(DOTTED_FIELDS), DOTTED_FIELDS["a"], Str("x"));
    EditOfPlace(Obj(DOTTED_FIELDS), [Key("a.b")], read, "x");
    ReplaceTop(DOTTED_FIELDS, "a.b", Str("x"));
  }

  lemma ShapeOfField(xs: map<string, Value>, ys: map<string, Value>, k: string)
    requires k in xs && SameShape(Obj(xs), Obj(ys))
    ensures k in ys && SameShape(xs[k], ys[k])
  {
  }

  /**
   A key with a dot misleads the rewriting: the number stored under it is overwritten with a string
   that sits elsewhere in the document, by any engine that reads the path rightly.
   */
  lemma DottedKeyBreaksShape(read: Engine)
    requires read(Obj(DOTTED_FIELDS), PathText([Key("a.b")])) == Some([[Key("a.b")]])
    ensures EditAt(Obj(DOTTED_FIELDS), [Key("a.b")], read) == Obj(DOTTED_FIELDS["a.b" := Str("x")])
    ensures !SameShape(Obj(DOTTED_FIELDS), EditAt(Obj(DOTTED_FIELDS), [Key("a.b")], read))
  {
    DottedKeyOverwritten(read);
    var k := "a.b";
    if SameShape(Obj(DOTTED_FIELDS), Obj(DOTTED_FIELDS[k := Str("x")])) {
      ShapeOfField(DOTTED_FIELDS, DOTTED_FIELDS[k := Str("x")], k);
    }
  }

  /** A document in which a key imitates the path of another place. */
  const IMITATING: Value := Obj(map["a'].['b" := Str("s"), "a" := Obj(map["b" := Str("t")])])

  lemma ImitatingPlaces()
    ensures Resolve(IMITATING, [Key("a'].['b")]) == Some(Str("s"))
    ensures Resolve(IMITATING, [Key("a"), Key("b")]) == Some(Str("t"))
  {
    assert [Key("a'].['b")][1..] == [] && [Key("a"), Key("b")][1..] == [Key("b")] && [Key("b")][1..] == [];
    assert Resolve(IMITATING.fields["a"], [Key("b")]) == Some(Str("t"));
  }

  /** Two strings of a document that share a text. */
  lemma SharedTextIsNeverRight(doc: Value, p: seq<Step>, q: seq<Step>, read: Engine)
    requires p != q && PathText(p) == PathText(q) && IsString(Resolve(doc, p)) && IsString(Resolve(doc, q))
    ensures !AlwaysRight(doc, read)
  {
    OneTextTwoPlaces(doc, p, q, read);
    ShapeReflexive(doc);
    RedactionIsRightExactly(doc, read);
  }

  /**
   Two strings with one path text: the program does the same for both, so whatever the engine that
   replaces makes of the text, some run on this document goes wrong.
   */
  lemma ImitatedPathIsNeverRight(read: Engine)
    ensures EditAt(IMITATING, [Key("a'].['b")], read) == EditAt(IMITATING, [Key("a"), Key("b")], read)
    ensures !AlwaysRight(IMITATING, read)
  {
    ImitatedText();
    ImitatingPlaces();
    OneTextTwoPlaces(IMITATING, [Key("a'].['b")], [Key("a"), Key("b")], read);
    SharedTextIsNeverRight(IMITATING, [Key("a'].['b")], [Key("a"), Key("b")], read);
  }
}
