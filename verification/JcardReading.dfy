/**
 What a contact says that was read from a jCard, any jCard, however written: for each field, which
 elements of the card it comes from, in their order, and what is passed over.
 */
module JcardReading {
  import opened Wrappers
  import opened Sequences
  import opened Text
  import opened JsonValue
  import opened ContactTypes
  import opened JcardReader

  // ---- picking elements of a list ---------------------------------------------------------

  ghost predicate Increasing(idx: seq<nat>) {
    forall i, j :: 0 <= i < j < |idx| ==> idx[i] < idx[j]
  }

  /** The positions, in order, of the elements that have the property. */
  ghost predicate IsPicking<A>(idx: seq<nat>, xs: seq<A>, p: A -> bool) {
    Increasing(idx) && forall i: nat :: i in idx <==> i < |xs| && p(xs[i])
  }

  /** The list holds one value for each element that has the property, in order, and is absent if none has. */
  ghost predicate IsListOf<A, B>(list: Option<seq<B>>, xs: seq<A>, p: A -> bool, value: A -> B) {
    exists idx: seq<nat> :: IsPicking(idx, xs, p) && HoldsPicked(list, xs, idx, value)
  }

  ghost predicate HoldsPicked<A, B>(list: Option<seq<B>>, xs: seq<A>, idx: seq<nat>, value: A -> B) {
    && (forall k :: 0 <= k < |idx| ==> idx[k] < |xs|)
    && (list.None? <==> idx == [])
    && (list.Some? ==> |list.value| == |idx| && forall k :: 0 <= k < |idx| ==> list.value[k] == value(xs[idx[k]]))
  }

  function Shifted(idx: seq<nat>): seq<nat> {
    seq(|idx|, i requires 0 <= i < |idx| => idx[i] + 1)
  }

  lemma ShiftedMembers(idx: seq<nat>, i: nat)
    ensures i in Shifted(idx) <==> i > 0 && i - 1 in idx
  {
    if i in Shifted(idx) {
      var k :| 0 <= k < |idx| && Shifted(idx)[k] == i;
      assert idx[k] == i - 1;
    }
    if i > 0 && i - 1 in idx {
      var k :| 0 <= k < |idx| && idx[k] == i - 1;
      assert Shifted(idx)[k] == i;
    }
  }

  lemma ShiftedIncreasing(idx: seq<nat>)
    requires Increasing(idx)
    ensures Increasing(Shifted(idx)) && Increasing([0] + Shifted(idx))
  {
  }

  function Extended(first: bool, rest: seq<nat>): seq<nat> {
    if first then [0] + Shifted(rest) else Shifted(rest)
  }

  lemma PickingStep<A>(rest: seq<nat>, xs: seq<A>, p: A -> bool)
    requires xs != [] && IsPicking(rest, xs[1..], p)
    ensures IsPicking(Extended(p(xs[0]), rest), xs, p)
  {
    ShiftedIncreasing(rest);
    forall i: nat
      ensures i in Extended(p(xs[0]), rest) <==> i < |xs| && p(xs[i])
    {
      ShiftedMembers(rest, i);
      if i > 0 {
        assert i < |xs| ==> xs[1..][i - 1] == xs[i];
      }
    }
  }

  ghost predicate PickedValues<A, B>(f: A -> Option<B>, xs: seq<A>, idx: seq<nat>, read: seq<B>) {
    |read| == |idx| && forall k :: 0 <= k < |idx| ==> idx[k] < |xs| && f(xs[idx[k]]) == Some(read[k])
  }

  lemma ShiftedValues<A, B>(f: A -> Option<B>, xs: seq<A>, rest: seq<nat>, read: seq<B>)
    requires xs != [] && PickedValues(f, xs[1..], rest, read)
    ensures PickedValues(f, xs, Shifted(rest), read)
  {
    forall k | 0 <= k < |rest|
      ensures Shifted(rest)[k] < |xs| && f(xs[Shifted(rest)[k]]) == Some(read[k])
    {
      assert xs[1..][rest[k]] == xs[rest[k] + 1];
    }
  }

  lemma FirstValue<A, B>(f: A -> Option<B>, xs: seq<A>, idx: seq<nat>, read: seq<B>, y: B)
    requires xs != [] && f(xs[0]) == Some(y) && PickedValues(f, xs, idx, read)
    ensures PickedValues(f, xs, [0] + idx, [y] + read)
  {
    forall k | 0 <= k < |[0] + idx|
      ensures ([0] + idx)[k] < |xs| && f(xs[([0] + idx)[k]]) == Some(([y] + read)[k])
    {
      if k > 0 {
        assert ([0] + idx)[k] == idx[k - 1] && ([y] + read)[k] == read[k - 1];
      }
    }
  }

  function FoundFn<A, B>(f: A -> Option<B>): A -> bool {
    (x: A) => f(x).Some?
  }

  lemma {:induction false} FilterMapPicks<A, B>(f: A -> Option<B>, xs: seq<A>) returns (idx: seq<nat>)
    ensures IsPicking(idx, xs, FoundFn(f)) && PickedValues(f, xs, idx, FilterMap(f, xs))
  {
    idx := [];
    if xs != [] {
      var rest := FilterMapPicks(f, xs[1..]);
      PickingStep(rest, xs, FoundFn(f));
      ShiftedValues(f, xs, rest, FilterMap(f, xs[1..]));
      if f(xs[0]).Some? {
        FirstValue(f, xs, Shifted(rest), FilterMap(f, xs[1..]), f(xs[0]).value);
      }
      idx := Extended(f(xs[0]).Some?, rest);
    }
  }

  /** A filtered and mapped list, absent when empty, is the list of the values picked. */
  lemma FilterMapIsList<A, B>(f: A -> Option<B>, xs: seq<A>, p: A -> bool, value: A -> B)
    requires forall x :: f(x) == if p(x) then Some(value(x)) else None
    ensures IsListOf(NonEmpty(FilterMap(f, xs)), xs, p, value)
  {
    var idx := FilterMapPicks(f, xs);
    assert IsPicking(idx, xs, p);
    assert HoldsPicked(NonEmpty(FilterMap(f, xs)), xs, idx, value);
  }

  // ---- properties of a card ---------------------------------------------------------------

  /** An element of the card that is a property of this name. */
  ghost predicate IsPropertyOf(v: Value, name: string) {
    v.Arr? && v.items != [] && v.items[0].Str? && SameName(v.items[0].s, name)
  }

  lemma NamedExactly(v: Value, name: string)
    ensures IsNamed(v, name) <==> IsPropertyOf(v, name)
  {
    if v.Arr? && v.items != [] && v.items[0].Str? {
      EqIgnoreCaseExactly(v.items[0].s, name);
    }
  }

  ghost function ReadAs<B>(name: string, f: Prop -> Option<B>): Value -> Option<B> {
    (v: Value) => if IsPropertyOf(v, name) then f(v.items) else None
  }

  lemma {:induction false} ReadInOrder<B>(vcard: seq<Value>, name: string, f: Prop -> Option<B>)
    ensures FilterMap(f, FindProperties(vcard, name)) == FilterMap(ReadAs(name, f), vcard)
  {
    if vcard != [] {
      ReadInOrder(vcard[1..], name, f);
      NamedExactly(vcard[0], name);
      if IsNamed(vcard[0], name) {
        var rest := FindProperties(vcard[1..], name);
        assert ([vcard[0].items] + rest)[1..] == rest;
      }
    }
  }

  /** The text of a property: its fourth element, if that is a string. */
  predicate HasText(items: Prop) {
    |items| > 3 && items[3].Str?
  }

  ghost predicate HasTextAs(v: Value, name: string) {
    IsPropertyOf(v, name) && HasText(v.items)
  }

  ghost function TextPropertyFn(name: string): Value -> bool {
    (v: Value) => HasTextAs(v, name)
  }

  function ItemsOf(v: Value): Prop {
    if v.Arr? then v.items else []
  }

  function TextIn(v: Value): string {
    if |ItemsOf(v)| > 3 && v.items[3].Str? then v.items[3].s else ""
  }

  function TextInFn(): Value -> string {
    (v: Value) => TextIn(v)
  }

  /** The texts of all properties of the name that have a text. */
  ghost predicate ReadsTexts(vcard: seq<Value>, name: string, list: Option<seq<string>>) {
    IsListOf(list, vcard, TextPropertyFn(name), TextInFn())
  }

  lemma TextsAreRead(vcard: seq<Value>, name: string)
    ensures ReadsTexts(vcard, name, TextsOf(vcard, name))
  {
    ReadInOrder(vcard, name, TextOf());
    FilterMapIsList(ReadAs(name, TextOf()), vcard, TextPropertyFn(name), TextInFn());
  }

  ghost predicate IsFirst(vcard: seq<Value>, name: string, i: nat) {
    i < |vcard| && IsPropertyOf(vcard[i], name) && forall j :: 0 <= j < i ==> !IsPropertyOf(vcard[j], name)
  }

  lemma {:induction false} FirstIsFound(vcard: seq<Value>, name: string) returns (i: nat)
    ensures FindProperty(vcard, name).Some? ==> IsFirst(vcard, name, i) && FindProperty(vcard, name) == Some(vcard[i].items)
    ensures FindProperty(vcard, name).None? ==> forall j :: 0 <= j < |vcard| ==> !IsPropertyOf(vcard[j], name)
  {
    i := 0;
    if vcard != [] {
      NamedExactly(vcard[0], name);
      if !IsNamed(vcard[0], name) {
        i := FirstIsFound(vcard[1..], name);
        assert forall j :: 1 <= j < |vcard| ==> vcard[j] == vcard[1..][j - 1];
        i := i + 1;
      }
    }
  }

  /** The text of the first property of the name, if there is one and it has a text. */
  ghost predicate ReadsFirstText(vcard: seq<Value>, name: string, text: Option<string>) {
    && (forall i: nat :: IsFirst(vcard, name, i) ==> text == if HasText(vcard[i].items) then Some(vcard[i].items[3].s) else None)
    && ((forall i :: 0 <= i < |vcard| ==> !IsPropertyOf(vcard[i], name)) ==> text.None?)
  }

  lemma FirstTextIsRead(vcard: seq<Value>, name: string)
    ensures ReadsFirstText(vcard, name, TextOfFirst(vcard, name))
  {
    var i := FirstIsFound(vcard, name);
    forall k: nat | IsFirst(vcard, name, k)
      ensures FindProperty(vcard, name).Some? && k == i
    {
      assert IsPropertyOf(vcard[k], name);
    }
  }

  // ---- parameters -------------------------------------------------------------------------

  predicate HasParam(items: Prop, key: string) {
    |items| > 1 && items[1].Obj? && key in items[1].fields
  }

  /** The preference is the `pref` parameter, if that is a string that reads as a number. */
  ghost predicate ReadsPreference(items: Prop, preference: Option<u64>) {
    preference == if HasParam(items, "pref") && items[1].fields["pref"].Str? then ParseU64(items[1].fields["pref"].s) else None
  }

  /** The full address is the `label` parameter, if that is a string. */
  ghost predicate ReadsLabel(items: Prop, fullAddress: Option<string>) {
    fullAddress == if HasParam(items, "label") && items[1].fields["label"].Str? then Some(items[1].fields["label"].s) else None
  }

  predicate IsContextWord(word: string) {
    || word == "home" || word == "work" || word == "office" || word == "private" || word == "mobile" || word == "cell"
  }

  lemma ContextsAreSix(word: string)
    ensures IsContext(word) <==> IsContextWord(word)
  {
    assert CONTEXTS[0] == "home" && CONTEXTS[1] == "work" && CONTEXTS[2] == "office";
    assert CONTEXTS[3] == "private" && CONTEXTS[4] == "mobile" && CONTEXTS[5] == "cell";
  }

  function WordIn(v: Value): string {
    if v.Str? then v.s else ""
  }

  function WordFn(uc: UnicodeCase): Value -> string {
    (v: Value) => uc.lower(WordIn(v))
  }

  /** A string that, in lower case, is one of the six contexts, or is none of them. */
  function KeptFn(uc: UnicodeCase, contexts: bool): Value -> bool {
    (v: Value) => v.Str? && IsContextWord(uc.lower(v.s)) == contexts
  }

  /**
   The contexts, or the features, of a property: the words of its `type` parameter that are, or are not,
   among the six contexts, in lower case and in their order. The parameter is one word or an array.
   */
  ghost predicate ReadsTypes(uc: UnicodeCase, items: Prop, contexts: bool, words: Option<seq<string>>) {
    if !HasParam(items, "type") then words.None?
    else
      match items[1].fields["type"]
      case Str(word) => words == if IsContextWord(uc.lower(word)) == contexts then Some([uc.lower(word)]) else None
      case Arr(list) => IsListOf(words, list, KeptFn(uc, contexts), WordFn(uc))
      case _ => words.None?
  }

  function KeptWordFn(uc: UnicodeCase, contexts: bool): Value -> Option<string> {
    (v: Value) => if v.Str? && IsContextWord(uc.lower(v.s)) == contexts then Some(uc.lower(v.s)) else None
  }

  lemma {:induction false} WordsInOrder(uc: UnicodeCase, keep: string -> bool, contexts: bool, list: seq<Value>)
    requires forall word :: keep(word) <==> IsContextWord(word) == contexts
    ensures Filter(keep, Map(uc.lower, FilterMap(AsStrFn(), list))) == FilterMap(KeptWordFn(uc, contexts), list)
  {
    if list != [] {
      WordsInOrder(uc, keep, contexts, list[1..]);
      var rest := FilterMap(AsStrFn(), list[1..]);
      if list[0].Str? {
        assert FilterMap(AsStrFn(), list) == [list[0].s] + rest;
        assert Map(uc.lower, [list[0].s] + rest) == [uc.lower(list[0].s)] + Map(uc.lower, rest);
        assert ([uc.lower(list[0].s)] + Map(uc.lower, rest))[1..] == Map(uc.lower, rest);
      }
    }
  }

  lemma TypesAreRead(uc: UnicodeCase, items: Prop, keep: string -> bool, contexts: bool)
    requires forall word :: keep(word) <==> IsContextWord(word) == contexts
    ensures ReadsTypes(uc, items, contexts, GetTypes(uc, items, keep))
  {
    if HasParam(items, "type") && items[1].fields["type"].Arr? {
      var list := items[1].fields["type"].items;
      WordsInOrder(uc, keep, contexts, list);
      forall v: Value
        ensures KeptWordFn(uc, contexts)(v) == if KeptFn(uc, contexts)(v) then Some(WordFn(uc)(v)) else None
      {
        assert v.Str? ==> WordIn(v) == v.s;
      }
      FilterMapIsList(KeptWordFn(uc, contexts), list, KeptFn(uc, contexts), WordFn(uc));
    }
  }

  lemma ContextsAndFeaturesAreRead(uc: UnicodeCase, items: Prop)
    ensures ReadsTypes(uc, items, true, GetContexts(uc, items))
    ensures ReadsTypes(uc, items, false, GetFeatures(uc, items))
  {
    forall word
      ensures ContextFn()(word) <==> IsContextWord(word)
      ensures NotContextFn()(word) <==> !IsContextWord(word)
    {
      ContextsAreSix(word);
    }
    TypesAreRead(uc, items, ContextFn(), true);
    TypesAreRead(uc, items, NotContextFn(), false);
  }

  // ---- languages, mail addresses, telephones ----------------------------------------------

  ghost predicate ReadsLang(items: Prop, lang: Lang) {
    HasText(items) && lang.tag == items[3].s && ReadsPreference(items, lang.preference)
  }

  ghost predicate ReadsEmail(uc: UnicodeCase, items: Prop, e: Email) {
    && HasText(items) && e.email == items[3].s
    && ReadsPreference(items, e.preference) && ReadsTypes(uc, items, true, e.contexts)
  }

  ghost predicate ReadsPhone(uc: UnicodeCase, items: Prop, p: Phone) {
    && HasText(items) && p.phone == items[3].s
    && ReadsPreference(items, p.preference)
    && ReadsTypes(uc, items, true, p.contexts) && ReadsTypes(uc, items, false, p.features)
  }

  /** One element for each property of the name that has a text, in order, read as `says` tells. */
  ghost predicate ReadsEach<B>(vcard: seq<Value>, name: string, list: Option<seq<B>>, says: (Prop, B) -> bool) {
    exists idx: seq<nat> ::
      && IsPicking(idx, vcard, TextPropertyFn(name))
      && (list.None? <==> idx == [])
      && (list.Some? ==> |list.value| == |idx| && EachRead(vcard, idx, list.value, says))
  }

  ghost predicate EachRead<B>(vcard: seq<Value>, idx: seq<nat>, list: seq<B>, says: (Prop, B) -> bool)
    requires |list| == |idx|
  {
    forall k :: 0 <= k < |idx| ==> idx[k] < |vcard| && vcard[idx[k]].Arr? && says(vcard[idx[k]].items, list[k])
  }

  lemma EachIsRead<B>(vcard: seq<Value>, name: string, f: Prop -> Option<B>, says: (Prop, B) -> bool)
    requires forall items :: f(items).Some? <==> HasText(items)
    requires forall items :: f(items).Some? ==> says(items, f(items).value)
    ensures ReadsEach(vcard, name, NonEmpty(FilterMap(f, FindProperties(vcard, name))), says)
  {
    ReadInOrder(vcard, name, f);
    var read := FilterMap(ReadAs(name, f), vcard);
    var idx := FilterMapPicks(ReadAs(name, f), vcard);
    assert IsPicking(idx, vcard, TextPropertyFn(name));
    forall k | 0 <= k < |idx|
      ensures idx[k] < |vcard| && vcard[idx[k]].Arr? && says(vcard[idx[k]].items, read[k])
    {
      assert f(vcard[idx[k]].items) == Some(read[k]);
    }
    assert EachRead(vcard, idx, read, says);
  }

  ghost function LangReading(): (Prop, Lang) -> bool {
    (items: Prop, lang: Lang) => ReadsLang(items, lang)
  }

  ghost function EmailReading(uc: UnicodeCase): (Prop, Email) -> bool {
    (items: Prop, e: Email) => ReadsEmail(uc, items, e)
  }

  ghost function PhoneReading(uc: UnicodeCase): (Prop, Phone) -> bool {
    (items: Prop, p: Phone) => ReadsPhone(uc, items, p)
  }

  lemma LangsAreRead(vcard: seq<Value>)
    ensures ReadsEach(vcard, "lang", NonEmpty(FilterMap(LangOf(), FindProperties(vcard, "lang"))), LangReading())
  {
    EachIsRead(vcard, "lang", LangOf(), LangReading());
  }

  lemma EmailsAreRead(uc: UnicodeCase, vcard: seq<Value>)
    ensures ReadsEach(vcard, "email", NonEmpty(FilterMap(EmailOf(uc), FindProperties(vcard, "email"))), EmailReading(uc))
  {
    forall items | EmailOf(uc)(items).Some?
      ensures EmailReading(uc)(items, EmailOf(uc)(items).value)
    {
      ContextsAndFeaturesAreRead(uc, items);
    }
    EachIsRead(vcard, "email", EmailOf(uc), EmailReading(uc));
  }

  lemma PhonesAreRead(uc: UnicodeCase, vcard: seq<Value>)
    ensures ReadsEach(vcard, "tel", NonEmpty(FilterMap(PhoneOf(uc), FindProperties(vcard, "tel"))), PhoneReading(uc))
  {
    forall items | PhoneOf(uc)(items).Some?
      ensures PhoneReading(uc)(items, PhoneOf(uc)(items).value)
    {
      ContextsAndFeaturesAreRead(uc, items);
    }
    EachIsRead(vcard, "tel", PhoneOf(uc), PhoneReading(uc));
  }

  // ---- postal addresses -------------------------------------------------------------------

  predicate FilledAt(addr: seq<Value>, i: nat) {
    i < |addr| && addr[i].Str? && addr[i].s != ""
  }

  function TextAt(addr: seq<Value>, i: nat): Option<string> {
    if FilledAt(addr, i) then Some(addr[i].s) else None
  }

  function FilledValueFn(): Value -> bool {
    (v: Value) => v.Str? && v.s != ""
  }

  function StringFn(): Value -> string {
    (v: Value) => WordIn(v)
  }

  /**
   The lines of the street: the non-empty strings of the first two components, and then the third if it
   is a non-empty string, or its non-empty strings in order if it is an array.
   */
  ghost predicate ReadsStreet(addr: seq<Value>, street: Option<seq<string>>) {
    exists lines: seq<string> ::
      && street == NonEmpty(ListOfOne(TextAt(addr, 0)) + ListOfOne(TextAt(addr, 1)) + lines)
      && ReadsLines(addr, lines)
  }

  ghost predicate ReadsLines(addr: seq<Value>, lines: seq<string>) {
    if |addr| > 2 && addr[2].Arr? then IsListOf(NonEmpty(lines), addr[2].items, FilledValueFn(), StringFn())
    else lines == ListOfOne(TextAt(addr, 2))
  }

  function ListOfOne(text: Option<string>): seq<string> {
    match text
    case Some(s) => [s]
    case None => []
  }

  /** Two ASCII characters, or one of those that take two bytes. */
  predicate IsTwoBytes(s: string) {
    || (|s| == 2 && (s[0] as int) < 0x80 && (s[1] as int) < 0x80)
    || (|s| == 1 && 0x80 <= s[0] as int < 0x800)
  }

  lemma TwoBytesExactly(s: string)
    ensures Utf8Len(s) == 2 <==> IsTwoBytes(s)
  {
    if |s| == 1 {
      assert s[1..] == [];
    } else if |s| >= 2 {
      assert Utf8Len(s) == Utf8Width(s[0]) + Utf8Len(s[1..]);
      assert Utf8Len(s[1..]) == Utf8Width(s[1]) + Utf8Len(s[1..][1..]);
      if |s| == 2 {
        assert s[1..][1..] == [];
      } else {
        assert Utf8Len(s[1..][1..]) == Utf8Width(s[2]) + Utf8Len(s[1..][1..][1..]);
      }
    }
  }

  /** A region or a country: a code if it takes two bytes and is its own upper case, and else a name. */
  ghost predicate ReadsSlot(uc: UnicodeCase, addr: seq<Value>, i: nat, name: Option<string>, code: Option<string>) {
    if !FilledAt(addr, i) then name.None? && code.None?
    else if IsTwoBytes(addr[i].s) && uc.upper(addr[i].s) == addr[i].s then name.None? && code == Some(addr[i].s)
    else name == Some(addr[i].s) && code.None?
  }

  /** The components of an address, none if the value is not an array. */
  function AddressItems(items: Prop): seq<Value> {
    if |items| > 3 && items[3].Arr? then items[3].items else []
  }

  ghost predicate ReadsAddress(uc: UnicodeCase, items: Prop, a: PostalAddress) {
    var addr := AddressItems(items);
    && ReadsPreference(items, a.preference) && ReadsTypes(uc, items, true, a.contexts) && ReadsLabel(items, a.fullAddress)
    && ReadsStreet(addr, a.streetParts)
    && a.locality == TextAt(addr, 3)
    && ReadsSlot(uc, addr, 4, a.regionName, a.regionCode)
    && a.postalCode == TextAt(addr, 5)
    && ReadsSlot(uc, addr, 6, a.countryName, a.countryCode)
  }

  lemma FilledIsTextAt(addr: seq<Value>, i: nat)
    ensures Filled(At(addr, i)) == TextAt(addr, i)
  {
  }

  lemma StreetIsRead(addr: seq<Value>)
    ensures ReadsStreet(addr, NonEmpty(StreetPartsOf(addr)))
  {
    var lines := StreetLines(At(addr, 2));
    FilledIsTextAt(addr, 0);
    FilledIsTextAt(addr, 1);
    FilledIsTextAt(addr, 2);
    if |addr| > 2 && addr[2].Arr? {
      FilterMapIsList(FilledFn(), addr[2].items, FilledValueFn(), StringFn());
    }
    assert ReadsLines(addr, lines);
    assert NonEmpty(StreetPartsOf(addr)) == NonEmpty(ListOfOne(TextAt(addr, 0)) + ListOfOne(TextAt(addr, 1)) + lines);
  }

  lemma SlotIsRead(uc: UnicodeCase, addr: seq<Value>, i: nat)
    ensures ReadsSlot(uc, addr, i, NameSlot(uc, Filled(At(addr, i))), CodeSlot(uc, Filled(At(addr, i))))
  {
    if FilledAt(addr, i) {
      TwoBytesExactly(addr[i].s);
    }
  }

  lemma AddressIsRead(uc: UnicodeCase, items: Prop)
    ensures ReadsAddress(uc, items, PostalAddressOf(uc, items))
  {
    var addr := AddressItems(items);
    assert addr == Components(items);
    ContextsAndFeaturesAreRead(uc, items);
    StreetIsRead(addr);
    SlotIsRead(uc, addr, 4);
    SlotIsRead(uc, addr, 6);
    FilledIsTextAt(addr, 3);
    FilledIsTextAt(addr, 5);
  }

  ghost function PropertyFn(name: string): Value -> bool {
    (v: Value) => IsPropertyOf(v, name)
  }

  /** One address for each property `adr`, in order. */
  ghost predicate ReadsAddresses(uc: UnicodeCase, vcard: seq<Value>, list: Option<seq<PostalAddress>>) {
    exists idx: seq<nat> ::
      && IsPicking(idx, vcard, PropertyFn("adr"))
      && (list.None? <==> idx == [])
      && (list.Some? ==> |list.value| == |idx| && EachAddressRead(uc, vcard, idx, list.value))
  }

  ghost predicate EachAddressRead(uc: UnicodeCase, vcard: seq<Value>, idx: seq<nat>, list: seq<PostalAddress>)
    requires |list| == |idx|
  {
    forall k :: 0 <= k < |idx| ==> idx[k] < |vcard| && vcard[idx[k]].Arr? && ReadsAddress(uc, vcard[idx[k]].items, list[k])
  }

  function SomeFn<A>(): A -> Option<A> {
    (x: A) => Some(x)
  }

  lemma {:induction false} FilterMapSome<A>(xs: seq<A>)
    ensures FilterMap(SomeFn(), xs) == xs
  {
    if xs != [] {
      FilterMapSome(xs[1..]);
    }
  }

  lemma PropertiesPicked(vcard: seq<Value>, name: string) returns (idx: seq<nat>)
    ensures IsPicking(idx, vcard, PropertyFn(name)) && |FindProperties(vcard, name)| == |idx|
    ensures forall k :: 0 <= k < |idx| ==>
      idx[k] < |vcard| && vcard[idx[k]].Arr? && vcard[idx[k]].items == FindProperties(vcard, name)[k]
  {
    ReadInOrder(vcard, name, SomeFn());
    FilterMapSome(FindProperties(vcard, name));
    idx := FilterMapPicks(ReadAs(name, SomeFn()), vcard);
  }

  lemma AddressesAreRead(uc: UnicodeCase, vcard: seq<Value>)
    ensures ReadsAddresses(uc, vcard, NonEmpty(Map(PostalAddressFn(uc), FindProperties(vcard, "adr"))))
  {
    var idx := PropertiesPicked(vcard, "adr");
    var list := Map(PostalAddressFn(uc), FindProperties(vcard, "adr"));
    forall k | 0 <= k < |idx|
      ensures ReadsAddress(uc, vcard[idx[k]].items, list[k])
    {
      AddressIsRead(uc, vcard[idx[k]].items);
    }
    assert EachAddressRead(uc, vcard, idx, list);
  }

  // ---- name parts -------------------------------------------------------------------------

  function PartFn(): Value -> bool {
    (v: Value) => v.Str? || v.Arr?
  }

  /** A part is a non-empty string, or the non-empty strings of an array. */
  ghost predicate ReadsPart(v: Value, part: Option<seq<string>>) {
    match v
    case Str(s) => part == if s == "" then None else Some([s])
    case Arr(list) => IsListOf(part, list, FilledValueFn(), StringFn())
    case _ => part.None?
  }

  ghost predicate ReadsNthPart(components: seq<Value>, idx: seq<nat>, i: nat, part: Option<seq<string>>)
    requires forall k :: 0 <= k < |idx| ==> idx[k] < |components|
  {
    if i < |idx| then ReadsPart(components[idx[i]], part) else part.None?
  }

  function Parts(n: Option<NameParts>): NameParts {
    if n.Some? then n.value else NameParts(None, None, None, None, None)
  }

  /** Surnames, given, middle names, prefixes and suffixes, from the strings and arrays among the components. */
  ghost predicate ReadsComponents(components: seq<Value>, n: Option<NameParts>) {
    exists idx: seq<nat> ::
      && IsPicking(idx, components, PartFn())
      && (forall k :: 0 <= k < |idx| ==> idx[k] < |components|)
      && ReadsNthPart(components, idx, 0, Parts(n).surnames)
      && ReadsNthPart(components, idx, 1, Parts(n).givenNames)
      && ReadsNthPart(components, idx, 2, Parts(n).middleNames)
      && ReadsNthPart(components, idx, 3, Parts(n).prefixes)
      && ReadsNthPart(components, idx, 4, Parts(n).suffixes)
  }

  ghost predicate ReadsName(vcard: seq<Value>, n: Option<NameParts>) {
    && (forall i: nat :: IsFirst(vcard, "n", i) ==> ReadsComponents(AddressItems(vcard[i].items), n))
    && ((forall i :: 0 <= i < |vcard| ==> !IsPropertyOf(vcard[i], "n")) ==> n.None?)
    && (n.Some? ==> n.value != NameParts(None, None, None, None, None))
  }

  function PartValueFn(): Value -> Option<Value> {
    (v: Value) => if v.Str? || v.Arr? then Some(v) else None
  }

  lemma {:induction false} PartsInOrder(components: seq<Value>)
    ensures Filter(StringOrArrayFn(), components) == FilterMap(PartValueFn(), components)
  {
    if components != [] {
      PartsInOrder(components[1..]);
    }
  }

  lemma PartIsRead(v: Value)
    ensures ReadsPart(v, GetStringOrVec(v))
  {
    if v.Arr? {
      FilterMapIsList(FilledFn(), v.items, FilledValueFn(), StringFn());
    }
  }

  lemma NthPartIsRead(components: seq<Value>, idx: seq<nat>, i: nat)
    requires forall k :: 0 <= k < |idx| ==> idx[k] < |components|
    requires |Filter(StringOrArrayFn(), components)| == |idx|
    requires forall k :: 0 <= k < |idx| ==> components[idx[k]] == Filter(StringOrArrayFn(), components)[k]
    ensures ReadsNthPart(components, idx, i, NthPart(Filter(StringOrArrayFn(), components), i))
  {
    if i < |idx| {
      PartIsRead(components[idx[i]]);
    }
  }

  /** The five parts before the check that any was found. */
  function FoundParts(components: seq<Value>): NameParts {
    var parts := Filter(StringOrArrayFn(), components);
    NameParts(NthPart(parts, 3), NthPart(parts, 0), NthPart(parts, 2), NthPart(parts, 1), NthPart(parts, 4))
  }

  lemma ComponentsAreRead(components: seq<Value>)
    ensures ReadsComponents(components, Some(FoundParts(components)))
  {
    PartsInOrder(components);
    var idx := FilterMapPicks(PartValueFn(), components);
    assert IsPicking(idx, components, PartFn());
    NthPartIsRead(components, idx, 0);
    NthPartIsRead(components, idx, 1);
    NthPartIsRead(components, idx, 2);
    NthPartIsRead(components, idx, 3);
    NthPartIsRead(components, idx, 4);
  }

  lemma NamePartsAreRead(items: Prop)
    ensures ReadsComponents(AddressItems(items), NamePartsOf(Some(items)))
  {
    var components := AddressItems(items);
    ComponentsAreRead(components);
    assert Parts(NamePartsOf(Some(items))) == FoundParts(components);
  }

  lemma NameIsRead(vcard: seq<Value>)
    ensures ReadsName(vcard, NamePartsOf(FindProperty(vcard, "n")))
  {
    var i := FirstIsFound(vcard, "n");
    forall k: nat | IsFirst(vcard, "n", k)
      ensures FindProperty(vcard, "n") == Some(vcard[k].items)
      ensures ReadsComponents(AddressItems(vcard[k].items), NamePartsOf(FindProperty(vcard, "n")))
    {
      assert IsPropertyOf(vcard[k], "n");
      NamePartsAreRead(vcard[k].items);
    }
  }

  // ---- the whole card ---------------------------------------------------------------------

  /** A jCard: an array of the word `vcard`, in any case, and an array of properties. */
  ghost predicate IsCard(vcardArray: seq<Value>) {
    && |vcardArray| > 1
    && vcardArray[0].Str? && SameName(vcardArray[0].s, "vcard")
    && vcardArray[1].Arr?
  }

  ghost predicate ReadsContact(uc: UnicodeCase, vcard: seq<Value>, c: Contact) {
    && ReadsFirstText(vcard, "fn", c.fullName)
    && ReadsFirstText(vcard, "kind", c.kind)
    && ReadsName(vcard, c.nameParts)
    && ReadsTexts(vcard, "title", c.titles)
    && ReadsTexts(vcard, "role", c.roles)
    && ReadsTexts(vcard, "nickname", c.nickNames)
    && ReadsTexts(vcard, "org", c.organizationNames)
    && ReadsTexts(vcard, "contact-uri", c.contactUris)
    && ReadsTexts(vcard, "url", c.urls)
    && ReadsEach(vcard, "lang", c.langs, LangReading())
    && ReadsEach(vcard, "email", c.emails, EmailReading(uc))
    && ReadsEach(vcard, "tel", c.phones, PhoneReading(uc))
    && ReadsAddresses(uc, vcard, c.postalAddresses)
  }

  lemma TextFieldsAreRead(uc: UnicodeCase, vcard: seq<Value>)
    ensures var c := ContactOf(uc, vcard);
      && ReadsTexts(vcard, "title", c.titles) && ReadsTexts(vcard, "role", c.roles)
      && ReadsTexts(vcard, "nickname", c.nickNames) && ReadsTexts(vcard, "org", c.organizationNames)
      && ReadsTexts(vcard, "contact-uri", c.contactUris) && ReadsTexts(vcard, "url", c.urls)
  {
    TextsAreRead(vcard, "title");
    TextsAreRead(vcard, "role");
    TextsAreRead(vcard, "nickname");
    TextsAreRead(vcard, "org");
    TextsAreRead(vcard, "contact-uri");
    TextsAreRead(vcard, "url");
  }

  lemma ContactIsRead(uc: UnicodeCase, vcard: seq<Value>)
    ensures ReadsContact(uc, vcard, ContactOf(uc, vcard))
  {
    FirstTextIsRead(vcard, "fn");
    FirstTextIsRead(vcard, "kind");
    NameIsRead(vcard);
    TextFieldsAreRead(uc, vcard);
    LangsAreRead(vcard);
    EmailsAreRead(uc, vcard);
    PhonesAreRead(uc, vcard);
    AddressesAreRead(uc, vcard);
  }

  const BLANK := Contact(None, None, None, None, None, None, None, None, None, None, None, None, None)

  /**
   Reading any array: it gives a contact exactly if it is a jCard that says something, and the contact
   says for each field what the properties of the card say, in their order.
   */
  lemma CardIsRead(uc: UnicodeCase, vcardArray: seq<Value>)
    ensures FromVcard(uc, vcardArray).Some? ==>
      && IsCard(vcardArray)
      && ReadsContact(uc, vcardArray[1].items, FromVcard(uc, vcardArray).value)
      && FromVcard(uc, vcardArray).value != BLANK
    ensures FromVcard(uc, vcardArray).None? && IsCard(vcardArray) ==> ReadsContact(uc, vcardArray[1].items, BLANK)
  {
    CardShape(uc, vcardArray);
    if IsCard(vcardArray) {
      ContactIsRead(uc, vcardArray[1].items);
      BlankContact(ContactOf(uc, vcardArray[1].items));
    }
  }

  lemma CardShape(uc: UnicodeCase, vcardArray: seq<Value>)
    ensures !IsCard(vcardArray) ==> FromVcard(uc, vcardArray).None?
    ensures IsCard(vcardArray) ==>
      var c := ContactOf(uc, vcardArray[1].items);
      FromVcard(uc, vcardArray) == if c.IsNonEmpty() then Some(c) else None
  {
    if |vcardArray| > 0 && vcardArray[0].Str? {
      EqIgnoreCaseExactly(vcardArray[0].s, "vcard");
    }
  }

  lemma BlankContact(c: Contact)
    ensures !c.IsNonEmpty() <==> c == BLANK
  {
  }
}
