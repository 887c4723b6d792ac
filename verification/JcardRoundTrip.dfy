/**
 What writing a contact as a jCard and reading it back does to it. `Normalize` says it without any
 JSON; `DecodeEncode` proves that the program computes it, and `RoundTripExactly` proves that the
 contacts which come back unchanged are exactly the well-formed ones.
 */
module JcardRoundTrip {
  import opened Wrappers
  import opened Sequences
  import opened Text
  import opened JsonValue
  import opened ContactTypes
  import opened JcardReader
  import opened JcardWriter

  // ---- the effect of a round trip, field by field -----------------------------------------

  function NonBlankFn(): string -> bool {
    (s: string) => s != ""
  }

  /** The words the reader finds in a `type` parameter; an empty list was written as the empty word. */
  function ReadWords(uc: UnicodeCase, words: seq<string>): seq<string> {
    Map(uc.lower, if words == [] then [""] else words)
  }

  function NormWords(uc: UnicodeCase, keep: string -> bool, words: seq<string>): Option<seq<string>> {
    NonEmpty(Filter(keep, ReadWords(uc, words)))
  }

  function NormContexts(uc: UnicodeCase, contexts: Option<seq<string>>): Option<seq<string>> {
    if contexts.None? then None else NormWords(uc, ContextFn(), contexts.value)
  }

  function NormEmail(uc: UnicodeCase): Email -> Email {
    (e: Email) => e.(contexts := NormContexts(uc, e.contexts))
  }

  function NormPhone(uc: UnicodeCase): Phone -> Phone {
    (p: Phone) =>
      p.(contexts := NormWords(uc, ContextFn(), PhoneTypes(p)), features := NormWords(uc, NotContextFn(), PhoneTypes(p)))
  }

  function NonBlank(s: string): Option<string> {
    if s == "" then None else Some(s)
  }

  function NormLabel(parse: JsonParser, fullAddress: Option<string>): Option<string> {
    match fullAddress
    case None => None
    case Some(text) =>
      match parse(text)
      case Some(Str(s)) => Some(s)
      case _ => None
  }

  function FirstThree(street: seq<string>): seq<string> {
    if |street| <= 3 then street else street[..3]
  }

  function NormAddress(uc: UnicodeCase, parse: JsonParser): PostalAddress -> PostalAddress {
    (a: PostalAddress) =>
      var region := NonBlank(NameOrCode(a.regionName, a.regionCode));
      var country := NonBlank(NameOrCode(a.countryName, a.countryCode));
      PostalAddress(
        a.preference,
        NormContexts(uc, a.contexts),
        NormLabel(parse, a.fullAddress),
        NonEmpty(Filter(NonBlankFn(), FirstThree(Elements(a.streetParts)))),
        NonBlank(OrEmpty(a.locality)),
        NameSlot(uc, region),
        CodeSlot(uc, region),
        NameSlot(uc, country),
        CodeSlot(uc, country),
        NonBlank(OrEmpty(a.postalCode)))
  }

  function NormNames(names: Option<seq<string>>): Option<seq<string>> {
    NonEmpty(Filter(NonBlankFn(), Elements(names)))
  }

  function NormParts(n: NameParts): NameParts {
    NameParts(NormNames(n.prefixes), NormNames(n.surnames), NormNames(n.middleNames),
              NormNames(n.givenNames), NormNames(n.suffixes))
  }

  function NormNameParts(n: Option<NameParts>): Option<NameParts> {
    if n.Some? && AnyPart(NormParts(n.value)) then Some(NormParts(n.value)) else None
  }

  function NormList<T>(list: Option<seq<T>>): Option<seq<T>> {
    NonEmpty(Elements(list))
  }

  function Normalize(uc: UnicodeCase, parse: JsonParser, c: Contact): Contact {
    Contact(
      NormList(c.langs),
      c.kind,
      c.fullName,
      NormNameParts(c.nameParts),
      NormList(c.nickNames),
      NormList(c.titles),
      NormList(c.roles),
      NormList(c.organizationNames),
      NonEmpty(Map(NormAddress(uc, parse), Elements(c.postalAddresses))),
      NonEmpty(Map(NormEmail(uc), Elements(c.emails))),
      NonEmpty(Map(NormPhone(uc), Elements(c.phones))),
      NormList(c.contactUris),
      NormList(c.urls))
  }

  // ---- decoding one encoded property ------------------------------------------------------

  function Id<T>(): T -> T {
    (x: T) => x
  }

  lemma MapId<T>(xs: seq<T>)
    ensures Map(Id(), xs) == xs
  {
  }

  lemma StrsDecode(words: seq<string>)
    ensures FilterMap(AsStrFn(), Strs(words)) == words
  {
    FilterMapOfMap(AsStrFn(), StrFn(), Id(), words);
    MapId(words);
  }

  lemma {:induction false} FilledStrsDecode(lines: seq<string>)
    ensures FilterMap(FilledFn(), Strs(lines)) == Filter(NonBlankFn(), lines)
  {
    if lines != [] {
      FilledStrsDecode(lines[1..]);
      assert Strs(lines)[1..] == Strs(lines[1..]);
    }
  }

  lemma TypesDecode(uc: UnicodeCase, prop: Prop, keep: string -> bool, words: seq<string>)
    requires GetParam(prop, "type") == Some(VecStringToParam(words))
    ensures GetTypes(uc, prop, keep) == NormWords(uc, keep, words)
  {
    StrsDecode(words);
    if |words| <= 1 {
      var word := if words == [] then "" else words[0];
      assert ReadWords(uc, words) == [uc.lower(word)];
      FilterOne(keep, uc.lower(word));
    }
  }

  lemma PreferenceDecodes(prop: Prop, preference: Option<u64>)
    requires GetParam(prop, "pref") == Field(PrefParam(preference), "pref")
    ensures GetPreference(prop) == preference
  {
    if preference.Some? {
      DecimalRoundTrip(preference.value);
    }
  }

  lemma LangDecodes(lang: Lang)
    ensures LangOf()(LangProp()(lang)) == Some(lang)
  {
    PreferenceDecodes(LangProp()(lang), lang.preference);
  }

  lemma EmailDecodes(uc: UnicodeCase, e: Email)
    ensures EmailOf(uc)(EmailProp()(e)) == Some(NormEmail(uc)(e))
  {
    var prop := EmailProp()(e);
    PreferenceDecodes(prop, e.preference);
    if e.contexts.Some? {
      TypesDecode(uc, prop, ContextFn(), e.contexts.value);
    }
  }

  lemma PhoneDecodes(uc: UnicodeCase, p: Phone)
    ensures PhoneOf(uc)(PhoneProp()(p)) == Some(NormPhone(uc)(p))
  {
    var prop := PhoneProp()(p);
    PreferenceDecodes(prop, p.preference);
    TypesDecode(uc, prop, ContextFn(), PhoneTypes(p));
    TypesDecode(uc, prop, NotContextFn(), PhoneTypes(p));
  }

  lemma StreetDecodes(street: Option<seq<string>>, addr: seq<Value>)
    requires |addr| > 2
    requires forall i :: 0 <= i < 3 ==> addr[i] == Str(StreetLine(street, i))
    ensures StreetPartsOf(addr) == Filter(NonBlankFn(), FirstThree(Elements(street)))
  {
    var lines := [StreetLine(street, 0), StreetLine(street, 1), StreetLine(street, 2)];
    var parts := FirstThree(Elements(street));
    assert lines == parts + lines[|parts|..];
    FilterAppend(NonBlankFn(), parts, lines[|parts|..]);
    FilterNone(NonBlankFn(), lines[|parts|..]);
    FilterThree(lines[0], lines[1], lines[2]);
  }

  lemma FilterThree(a: string, b: string, c: string)
    ensures Filter(NonBlankFn(), [a, b, c]) == OptionToSeq(NonBlank(a)) + OptionToSeq(NonBlank(b)) + OptionToSeq(NonBlank(c))
  {
    assert [a, b, c] == [a] + [b] + [c];
    FilterAppend(NonBlankFn(), [a] + [b], [c]);
    FilterAppend(NonBlankFn(), [a], [b]);
    FilterOne(NonBlankFn(), a);
    FilterOne(NonBlankFn(), b);
    FilterOne(NonBlankFn(), c);
  }

  lemma AddressParamsDecode(uc: UnicodeCase, parse: JsonParser, a: PostalAddress)
    requires a.fullAddress.Some? ==> parse(a.fullAddress.value).Some?
    ensures var prop := AddressProp(parse)(a);
      && GetPreference(prop) == a.preference
      && GetContexts(uc, prop) == NormContexts(uc, a.contexts)
      && GetLabel(prop) == NormLabel(parse, a.fullAddress)
  {
    var prop := AddressProp(parse)(a);
    PreferenceDecodes(prop, a.preference);
    if a.contexts.Some? {
      TypesDecode(uc, prop, ContextFn(), a.contexts.value);
    }
  }

  lemma LineDecodes(lines: seq<string>, i: nat)
    requires i < |lines|
    ensures At(Strs(lines), i) == Some(Str(lines[i]))
    ensures Filled(At(Strs(lines), i)) == NonBlank(lines[i])
  {
  }

  lemma ComponentsDecode(a: PostalAddress)
    ensures var addr := Strs(AddressLines(a));
      && StreetPartsOf(addr) == Filter(NonBlankFn(), FirstThree(Elements(a.streetParts)))
      && Filled(At(addr, 3)) == NonBlank(OrEmpty(a.locality))
      && Filled(At(addr, 4)) == NonBlank(NameOrCode(a.regionName, a.regionCode))
      && Filled(At(addr, 5)) == NonBlank(OrEmpty(a.postalCode))
      && Filled(At(addr, 6)) == NonBlank(NameOrCode(a.countryName, a.countryCode))
  {
    var lines := AddressLines(a);
    StreetDecodes(a.streetParts, Strs(lines));
    LineDecodes(lines, 3);
    LineDecodes(lines, 4);
    LineDecodes(lines, 5);
    LineDecodes(lines, 6);
  }

  lemma AddressDecodes(uc: UnicodeCase, parse: JsonParser, a: PostalAddress)
    requires a.fullAddress.Some? ==> parse(a.fullAddress.value).Some?
    ensures PostalAddressFn(uc)(AddressProp(parse)(a)) == NormAddress(uc, parse)(a)
  {
    AddressParamsDecode(uc, parse, a);
    ComponentsDecode(a);
    assert Components(AddressProp(parse)(a)) == Strs(AddressLines(a));
  }

  lemma NamesDecode(names: Option<seq<string>>)
    ensures GetStringOrVec(VecStringToValue(names)) == NormNames(names)
  {
    FilledStrsDecode(Elements(names));
    if |Elements(names)| == 1 {
      assert Elements(names) == [Elements(names)[0]];
      FilterOne(NonBlankFn(), Elements(names)[0]);
    }
  }

  function NameValues(n: NameParts): seq<Value> {
    [VecStringToValue(n.surnames), VecStringToValue(n.givenNames), VecStringToValue(n.middleNames),
     VecStringToValue(n.prefixes), VecStringToValue(n.suffixes)]
  }

  lemma NameValuesKept(n: NameParts)
    ensures Filter(StringOrArrayFn(), NameValues(n)) == NameValues(n)
  {
    FilterAll(StringOrArrayFn(), NameValues(n));
  }

  lemma NamePartsDecode(n: NameParts)
    ensures NamePartsOf(Some(NamePartsProp()(n))) == NormNameParts(Some(n))
  {
    NameValuesKept(n);
    NamesDecode(n.surnames);
    NamesDecode(n.givenNames);
    NamesDecode(n.middleNames);
    NamesDecode(n.prefixes);
    NamesDecode(n.suffixes);
  }

  // ---- finding the properties of one name in a whole card ---------------------------------

  ghost predicate Tagged(section: Section) {
    IsAsciiLower(section.tag) && forall p :: p in section.props ==> p != [] && p[0] == Str(section.tag)
  }

  lemma {:induction false} FindInSection(tag: string, props: seq<Prop>, rest: seq<Value>, name: string)
    requires IsAsciiLower(name) && Tagged(Section(tag, props))
    ensures FindProperties(Map(ArrFn(), props) + rest, name)
         == (if tag == name then props else []) + FindProperties(rest, name)
  {
    LowerNamesCompareExactly(tag, name);
    var all := Map(ArrFn(), props) + rest;
    if props == [] {
      assert all == rest;
    } else {
      assert props[0] in props;
      assert forall p :: p in props[1..] ==> p in props;
      FindInSection(tag, props[1..], rest, name);
      assert all[1..] == Map(ArrFn(), props[1..]) + rest;
      assert all[0] == Arr(props[0]);
    }
  }

  lemma {:induction false} FindNowhere(sections: seq<Section>, name: string)
    requires IsAsciiLower(name)
    requires forall s :: s in sections ==> Tagged(s) && s.tag != name
    ensures FindProperties(Flatten(sections), name) == []
  {
    if sections != [] {
      FindInSection(sections[0].tag, sections[0].props, Flatten(sections[1..]), name);
      FindNowhere(sections[1..], name);
    }
  }

  lemma {:induction false} FindThere(sections: seq<Section>, k: nat, name: string)
    requires IsAsciiLower(name) && k < |sections| && sections[k].tag == name
    requires forall s :: s in sections ==> Tagged(s)
    requires forall j :: 0 <= j < |sections| && j != k ==> sections[j].tag != name
    ensures FindProperties(Flatten(sections), name) == sections[k].props
  {
    FindInSection(sections[0].tag, sections[0].props, Flatten(sections[1..]), name);
    if k == 0 {
      FindNowhere(sections[1..], name);
    } else {
      FindThere(sections[1..], k - 1, name);
    }
  }

  lemma {:induction false} FindFirst(vcard: seq<Value>, name: string)
    ensures FindProperty(vcard, name)
         == if FindProperties(vcard, name) == [] then None else Some(FindProperties(vcard, name)[0])
  {
    if vcard != [] {
      FindFirst(vcard[1..], name);
    }
  }

  const TAGS: seq<string> := ["version", "fn", "n", "kind", "lang", "org", "title", "role", "nickname", "email",
                              "tel", "adr", "contact-uri", "url"]

  lemma TagsDiffer(i: nat, j: nat)
    requires i < j < |TAGS|
    ensures TAGS[i] != TAGS[j]
  {
  }

  lemma EachTagged<A>(tag: string, encode: A -> Prop, values: Option<seq<A>>)
    requires IsAsciiLower(tag)
    requires forall x :: x in Elements(values) ==> encode(x) != [] && encode(x)[0] == Str(tag)
    ensures Tagged(Each(tag, encode, values))
  {
  }

  lemma OnceTagged<A>(tag: string, encode: A -> Prop, value: Option<A>)
    requires IsAsciiLower(tag)
    requires value.Some? ==> encode(value.value) != [] && encode(value.value)[0] == Str(tag)
    ensures Tagged(Once(tag, encode, value))
  {
  }

  lemma TextsTagged(tag: string, kind: string, values: Option<seq<string>>)
    requires IsAsciiLower(tag)
    ensures Tagged(Each(tag, TextProp(tag, kind), values))
  {
    EachTagged(tag, TextProp(tag, kind), values);
  }

  lemma EarlySectionTagged(parse: JsonParser, c: Contact, k: nat)
    requires k < 7
    ensures SectionAt(parse, c, k).tag == TAGS[k]
    ensures Tagged(SectionAt(parse, c, k))
  {
    match k
    case 0 =>
    case 1 => OnceTagged("fn", TextProp("fn", "text"), c.fullName);
    case 2 => OnceTagged("n", NamePartsProp(), c.nameParts);
    case 3 => OnceTagged("kind", TextProp("kind", "text"), c.kind);
    case 4 => EachTagged("lang", LangProp(), c.langs);
    case 5 => TextsTagged("org", "text", c.organizationNames);
    case _ => TextsTagged("title", "text", c.titles);
  }

  lemma LateSectionTagged(parse: JsonParser, c: Contact, k: nat)
    requires 7 <= k < SECTION_COUNT
    ensures SectionAt(parse, c, k).tag == TAGS[k]
    ensures Tagged(SectionAt(parse, c, k))
  {
    match k
    case 7 => TextsTagged("role", "text", c.roles);
    case 8 => TextsTagged("nickname", "text", c.nickNames);
    case 9 => EachTagged("email", EmailProp(), c.emails);
    case 10 => EachTagged("tel", PhoneProp(), c.phones);
    case 11 => EachTagged("adr", AddressProp(parse), c.postalAddresses);
    case 12 => TextsTagged("contact-uri", "uri", c.contactUris);
    case _ => TextsTagged("url", "uri", c.urls);
  }

  lemma SectionTagged(parse: JsonParser, c: Contact, k: nat)
    requires k < SECTION_COUNT
    ensures SectionAt(parse, c, k).tag == TAGS[k]
    ensures Tagged(SectionAt(parse, c, k))
  {
    if k < 7 {
      EarlySectionTagged(parse, c, k);
    } else {
      LateSectionTagged(parse, c, k);
    }
  }

  /** Looking a name up in a whole card finds the section of that name and nothing else. */
  lemma FindSection(parse: JsonParser, c: Contact, k: nat)
    requires k < SECTION_COUNT
    ensures FindProperties(Flatten(Sections(parse, c)), TAGS[k]) == SectionAt(parse, c, k).props
  {
    forall j | 0 <= j < SECTION_COUNT
      ensures SectionAt(parse, c, j).tag == TAGS[j] && Tagged(SectionAt(parse, c, j))
      ensures j != k ==> TAGS[j] != TAGS[k]
    {
      SectionTagged(parse, c, j);
      if j != k {
        TagsDiffer(if j < k then j else k, if j < k then k else j);
      }
    }
    FindThere(Sections(parse, c), k, TAGS[k]);
  }

  // ---- the theorems -----------------------------------------------------------------------

  lemma TextsDecode(parse: JsonParser, c: Contact, k: nat, kind: string, texts: Option<seq<string>>)
    requires k < SECTION_COUNT && SectionAt(parse, c, k) == Each(TAGS[k], TextProp(TAGS[k], kind), texts)
    ensures TextsOf(Flatten(Sections(parse, c)), TAGS[k]) == NormList(texts)
  {
    FindSection(parse, c, k);
    FilterMapOfMap(TextOf(), TextProp(TAGS[k], kind), Id(), Elements(texts));
    MapId(Elements(texts));
  }

  lemma TextDecodes(parse: JsonParser, c: Contact, k: nat, text: Option<string>)
    requires k < SECTION_COUNT && SectionAt(parse, c, k) == Once(TAGS[k], TextProp(TAGS[k], "text"), text)
    ensures TextOfFirst(Flatten(Sections(parse, c)), TAGS[k]) == text
  {
    FindSection(parse, c, k);
    FindFirst(Flatten(Sections(parse, c)), TAGS[k]);
  }

  lemma NameDecodes(parse: JsonParser, c: Contact)
    ensures NamePartsOf(FindProperty(Flatten(Sections(parse, c)), "n")) == NormNameParts(c.nameParts)
  {
    FindSection(parse, c, 2);
    FindFirst(Flatten(Sections(parse, c)), "n");
    if c.nameParts.Some? {
      NamePartsDecode(c.nameParts.value);
    }
  }

  lemma LangsDecode(parse: JsonParser, c: Contact)
    ensures NonEmpty(FilterMap(LangOf(), FindProperties(Flatten(Sections(parse, c)), "lang"))) == NormList(c.langs)
  {
    FindSection(parse, c, 4);
    forall lang ensures LangOf()(LangProp()(lang)) == Some(Id()(lang)) {
      LangDecodes(lang);
    }
    FilterMapOfMap(LangOf(), LangProp(), Id(), Elements(c.langs));
    MapId(Elements(c.langs));
  }

  lemma EmailsDecode(uc: UnicodeCase, parse: JsonParser, c: Contact)
    ensures NonEmpty(FilterMap(EmailOf(uc), FindProperties(Flatten(Sections(parse, c)), "email")))
         == NonEmpty(Map(NormEmail(uc), Elements(c.emails)))
  {
    FindSection(parse, c, 9);
    forall e ensures EmailOf(uc)(EmailProp()(e)) == Some(NormEmail(uc)(e)) {
      EmailDecodes(uc, e);
    }
    FilterMapOfMap(EmailOf(uc), EmailProp(), NormEmail(uc), Elements(c.emails));
  }

  lemma PhonesDecode(uc: UnicodeCase, parse: JsonParser, c: Contact)
    ensures NonEmpty(FilterMap(PhoneOf(uc), FindProperties(Flatten(Sections(parse, c)), "tel")))
         == NonEmpty(Map(NormPhone(uc), Elements(c.phones)))
  {
    FindSection(parse, c, 10);
    forall p ensures PhoneOf(uc)(PhoneProp()(p)) == Some(NormPhone(uc)(p)) {
      PhoneDecodes(uc, p);
    }
    FilterMapOfMap(PhoneOf(uc), PhoneProp(), NormPhone(uc), Elements(c.phones));
  }

  lemma AddressesDecode(uc: UnicodeCase, parse: JsonParser, c: Contact)
    requires LabelsParse(parse, c)
    ensures NonEmpty(Map(PostalAddressFn(uc), FindProperties(Flatten(Sections(parse, c)), "adr")))
         == NonEmpty(Map(NormAddress(uc, parse), Elements(c.postalAddresses)))
  {
    FindSection(parse, c, 11);
    var addrs := Elements(c.postalAddresses);
    forall i | 0 <= i < |addrs|
      ensures PostalAddressFn(uc)(AddressProp(parse)(addrs[i])) == NormAddress(uc, parse)(addrs[i])
    {
      AddressDecodes(uc, parse, addrs[i]);
    }
    assert Map(PostalAddressFn(uc), Map(AddressProp(parse), addrs)) == Map(NormAddress(uc, parse), addrs);
  }

  lemma NameFieldsDecode(uc: UnicodeCase, parse: JsonParser, c: Contact)
    ensures var d := ContactOf(uc, Flatten(Sections(parse, c)));
      d.kind == c.kind && d.fullName == c.fullName && d.nickNames == NormList(c.nickNames)
  {
    TextDecodes(parse, c, 1, c.fullName);
    TextDecodes(parse, c, 3, c.kind);
    TextsDecode(parse, c, 8, "text", c.nickNames);
  }

  lemma FunctionFieldsDecode(uc: UnicodeCase, parse: JsonParser, c: Contact)
    ensures var d := ContactOf(uc, Flatten(Sections(parse, c))); d.titles == NormList(c.titles) && d.roles == NormList(c.roles)
  {
    TextsDecode(parse, c, 6, "text", c.titles);
    TextsDecode(parse, c, 7, "text", c.roles);
  }

  lemma OrganizationsDecode(uc: UnicodeCase, parse: JsonParser, c: Contact)
    ensures ContactOf(uc, Flatten(Sections(parse, c))).organizationNames == NormList(c.organizationNames)
  {
    TextsDecode(parse, c, 5, "text", c.organizationNames);
  }

  lemma UriFieldsDecode(uc: UnicodeCase, parse: JsonParser, c: Contact)
    ensures var d := ContactOf(uc, Flatten(Sections(parse, c)));
      d.contactUris == NormList(c.contactUris) && d.urls == NormList(c.urls)
  {
    TextsDecode(parse, c, 12, "uri", c.contactUris);
    TextsDecode(parse, c, 13, "uri", c.urls);
  }

  lemma CardRead(uc: UnicodeCase, parse: JsonParser, c: Contact)
    ensures var d := ContactOf(uc, Flatten(Sections(parse, c)));
      FromVcard(uc, Card(parse, c)) == if d.IsNonEmpty() then Some(d) else None
  {
  }

  lemma ContactDecodes(uc: UnicodeCase, parse: JsonParser, c: Contact)
    requires LabelsParse(parse, c)
    ensures ContactOf(uc, Flatten(Sections(parse, c))) == Normalize(uc, parse, c)
  {
    NameFieldsDecode(uc, parse, c);
    FunctionFieldsDecode(uc, parse, c);
    OrganizationsDecode(uc, parse, c);
    UriFieldsDecode(uc, parse, c);
    NameDecodes(parse, c);
    LangsDecode(parse, c);
    EmailsDecode(uc, parse, c);
    PhonesDecode(uc, parse, c);
    AddressesDecode(uc, parse, c);
  }

  /** Reading a written contact gives its normal form; nothing comes back when that form is empty. */
  lemma DecodeEncode(uc: UnicodeCase, parse: JsonParser, c: Contact)
    requires LabelsParse(parse, c)
    ensures FromVcard(uc, Card(parse, c))
         == if Normalize(uc, parse, c).IsNonEmpty() then Some(Normalize(uc, parse, c)) else None
  {
    ContactDecodes(uc, parse, c);
    CardRead(uc, parse, c);
  }

  // ---- normalisation is a retraction ------------------------------------------------------

  ghost predicate LowerIdempotent(uc: UnicodeCase) {
    forall s :: uc.lower(uc.lower(s)) == uc.lower(s)
  }

  ghost predicate NoFullAddress(c: Contact) {
    forall a :: a in Elements(c.postalAddresses) ==> a.fullAddress.None?
  }

  /** Words that are in lower case and pass the filter are read as they were written. */
  ghost predicate Settled(uc: UnicodeCase, keep: string -> bool, words: seq<string>) {
    forall w :: w in words ==> uc.lower(w) == w && keep(w)
  }

  lemma KeptWordsSettle(uc: UnicodeCase, keep: string -> bool, words: seq<string>)
    requires LowerIdempotent(uc)
    ensures Settled(uc, keep, Filter(keep, ReadWords(uc, words)))
  {
    FilterKeepsOnly(keep, ReadWords(uc, words));
  }

  lemma SettledWordsStay(uc: UnicodeCase, keep: string -> bool, words: seq<string>)
    requires words != []
    ensures Settled(uc, keep, words) ==> NormWords(uc, keep, words) == Some(words)
    ensures NormWords(uc, keep, words) == Some(words) ==> Settled(uc, keep, words)
  {
    var read := ReadWords(uc, words);
    FilterAll(keep, read);
    if Settled(uc, keep, words) {
      assert read == words;
    }
  }

  lemma ContextsIdempotent(uc: UnicodeCase, contexts: Option<seq<string>>)
    requires LowerIdempotent(uc)
    ensures NormContexts(uc, NormContexts(uc, contexts)) == NormContexts(uc, contexts)
  {
    if NormContexts(uc, contexts).Some? {
      KeptWordsSettle(uc, ContextFn(), contexts.value);
      SettledWordsStay(uc, ContextFn(), NormContexts(uc, contexts).value);
    }
  }

  /** Contexts followed by features are told apart again. */
  lemma TypesSplit(uc: UnicodeCase, contexts: seq<string>, features: seq<string>)
    requires contexts + features != []
    requires Settled(uc, ContextFn(), contexts) && Settled(uc, NotContextFn(), features)
    ensures NormWords(uc, ContextFn(), contexts + features) == NonEmpty(contexts)
    ensures NormWords(uc, NotContextFn(), contexts + features) == NonEmpty(features)
  {
    assert ReadWords(uc, contexts + features) == contexts + features;
    FilterAppend(ContextFn(), contexts, features);
    FilterAppend(NotContextFn(), contexts, features);
    FilterAll(ContextFn(), contexts);
    FilterAll(NotContextFn(), features);
    FilterNone(NotContextFn(), contexts);
    FilterNone(ContextFn(), features);
    assert contexts + [] == contexts && [] + features == features;
  }

  lemma PhoneIdempotent(uc: UnicodeCase, p: Phone)
    requires LowerIdempotent(uc)
    ensures NormPhone(uc)(NormPhone(uc)(p)) == NormPhone(uc)(p)
  {
    var read := ReadWords(uc, PhoneTypes(p));
    var contexts, features := Filter(ContextFn(), read), Filter(NotContextFn(), read);
    KeptWordsSettle(uc, ContextFn(), PhoneTypes(p));
    KeptWordsSettle(uc, NotContextFn(), PhoneTypes(p));
    FilterKeepsOnly(ContextFn(), read);
    FilterKeepsOnly(NotContextFn(), read);
    assert read[0] in contexts || read[0] in features;
    TypesSplit(uc, contexts, features);
    assert PhoneTypes(NormPhone(uc)(p)) == contexts + features;
  }

  lemma AddressIdempotent(uc: UnicodeCase, parse: JsonParser, a: PostalAddress)
    requires LowerIdempotent(uc) && a.fullAddress.None?
    ensures NormAddress(uc, parse)(NormAddress(uc, parse)(a)) == NormAddress(uc, parse)(a)
  {
    ContextsIdempotent(uc, a.contexts);
    var lines := FirstThree(Elements(a.streetParts));
    FilterAll(NonBlankFn(), lines);
    FilterKeepsOnly(NonBlankFn(), lines);
    FilterAll(NonBlankFn(), Filter(NonBlankFn(), lines));
  }

  lemma NamesIdempotent(names: Option<seq<string>>)
    ensures NormNames(NormNames(names)) == NormNames(names)
  {
    FilterKeepsOnly(NonBlankFn(), Elements(names));
    FilterAll(NonBlankFn(), Filter(NonBlankFn(), Elements(names)));
  }

  lemma NamePartsIdempotent(n: Option<NameParts>)
    ensures NormNameParts(NormNameParts(n)) == NormNameParts(n)
  {
    if n.Some? {
      NamesIdempotent(n.value.prefixes);
      NamesIdempotent(n.value.surnames);
      NamesIdempotent(n.value.middleNames);
      NamesIdempotent(n.value.givenNames);
      NamesIdempotent(n.value.suffixes);
    }
  }

  lemma ListIdempotent<T>(f: T -> T, list: Option<seq<T>>)
    requires forall x :: x in Elements(list) ==> f(f(x)) == f(x)
    ensures var normal := NonEmpty(Map(f, Elements(list)));
      NonEmpty(Map(f, Elements(normal))) == normal
  {
    var normal := NonEmpty(Map(f, Elements(list)));
    assert Map(f, Elements(normal)) == Map(f, Elements(list));
  }

  lemma EmailsIdempotent(uc: UnicodeCase, emails: Option<seq<Email>>)
    requires LowerIdempotent(uc)
    ensures var normal := NonEmpty(Map(NormEmail(uc), Elements(emails)));
      NonEmpty(Map(NormEmail(uc), Elements(normal))) == normal
  {
    forall e ensures NormEmail(uc)(NormEmail(uc)(e)) == NormEmail(uc)(e) {
      ContextsIdempotent(uc, e.contexts);
    }
    ListIdempotent(NormEmail(uc), emails);
  }

  lemma PhonesIdempotent(uc: UnicodeCase, phones: Option<seq<Phone>>)
    requires LowerIdempotent(uc)
    ensures var normal := NonEmpty(Map(NormPhone(uc), Elements(phones)));
      NonEmpty(Map(NormPhone(uc), Elements(normal))) == normal
  {
    forall p ensures NormPhone(uc)(NormPhone(uc)(p)) == NormPhone(uc)(p) {
      PhoneIdempotent(uc, p);
    }
    ListIdempotent(NormPhone(uc), phones);
  }

  lemma AddressesIdempotent(uc: UnicodeCase, parse: JsonParser, addrs: Option<seq<PostalAddress>>)
    requires LowerIdempotent(uc)
    requires forall a :: a in Elements(addrs) ==> a.fullAddress.None?
    ensures var normal := NonEmpty(Map(NormAddress(uc, parse), Elements(addrs)));
      && NonEmpty(Map(NormAddress(uc, parse), Elements(normal))) == normal
      && (forall a :: a in Elements(normal) ==> a.fullAddress.None?)
  {
    forall a | a in Elements(addrs)
      ensures NormAddress(uc, parse)(NormAddress(uc, parse)(a)) == NormAddress(uc, parse)(a)
    {
      AddressIdempotent(uc, parse, a);
    }
    ListIdempotent(NormAddress(uc, parse), addrs);
  }

  lemma NormalizeIdempotent(uc: UnicodeCase, parse: JsonParser, c: Contact)
    requires LowerIdempotent(uc) && NoFullAddress(c)
    ensures Normalize(uc, parse, Normalize(uc, parse, c)) == Normalize(uc, parse, c)
    ensures NoFullAddress(Normalize(uc, parse, c))
  {
    NamePartsIdempotent(c.nameParts);
    EmailsIdempotent(uc, c.emails);
    PhonesIdempotent(uc, c.phones);
    AddressesIdempotent(uc, parse, c.postalAddresses);
  }

  /** Whatever comes back from one round trip comes back unchanged from the next. */
  lemma RoundTripRetracts(uc: UnicodeCase, parse: JsonParser, c: Contact)
    requires LowerIdempotent(uc) && NoFullAddress(c)
    ensures var once := FromVcard(uc, Card(parse, c));
      once.Some? ==> FromVcard(uc, Card(parse, once.value)) == once
  {
    DecodeEncode(uc, parse, c);
    NormalizeIdempotent(uc, parse, c);
    DecodeEncode(uc, parse, Normalize(uc, parse, c));
  }

  // ---- the contacts that come back unchanged ----------------------------------------------

  ghost predicate WordsOk(uc: UnicodeCase, keep: string -> bool, words: Option<seq<string>>) {
    words.Some? ==> words.value != [] && Settled(uc, keep, words.value)
  }

  ghost predicate EmailOk(uc: UnicodeCase, e: Email) {
    WordsOk(uc, ContextFn(), e.contexts)
  }

  /** A telephone needs a context or a feature: without either it is written with an empty type. */
  ghost predicate PhoneOk(uc: UnicodeCase, p: Phone) {
    && WordsOk(uc, ContextFn(), p.contexts)
    && WordsOk(uc, NotContextFn(), p.features)
    && (p.contexts.Some? || p.features.Some?)
  }

  predicate FilledOk(s: Option<string>) {
    s != Some("")
  }

  ghost predicate LinesOk(lines: Option<seq<string>>) {
    lines.Some? ==> lines.value != [] && forall l :: l in lines.value ==> l != ""
  }

  /** At most one of name and code, the name not looking like a code and the code looking like one. */
  predicate SlotOk(uc: UnicodeCase, name: Option<string>, code: Option<string>) {
    && FilledOk(name) && FilledOk(code)
    && (name.Some? ==> code.None? && !IsCode(uc, name.value))
    && (code.Some? ==> IsCode(uc, code.value))
  }

  ghost predicate AddressOk(uc: UnicodeCase, parse: JsonParser, a: PostalAddress) {
    && WordsOk(uc, ContextFn(), a.contexts)
    && (a.fullAddress.Some? ==> parse(a.fullAddress.value) == Some(Str(a.fullAddress.value)))
    && LinesOk(a.streetParts) && |Elements(a.streetParts)| <= 3
    && FilledOk(a.locality) && FilledOk(a.postalCode)
    && SlotOk(uc, a.regionName, a.regionCode)
    && SlotOk(uc, a.countryName, a.countryCode)
  }

  ghost predicate NamePartsOk(n: NameParts) {
    && LinesOk(n.prefixes) && LinesOk(n.surnames) && LinesOk(n.middleNames)
    && LinesOk(n.givenNames) && LinesOk(n.suffixes)
    && AnyPart(n)
  }

  predicate ListOk<T(==)>(list: Option<seq<T>>) {
    list != Some([])
  }

  ghost predicate WellFormed(uc: UnicodeCase, parse: JsonParser, c: Contact) {
    && c.IsNonEmpty()
    && ListOk(c.langs) && ListOk(c.nickNames) && ListOk(c.titles) && ListOk(c.roles)
    && ListOk(c.organizationNames) && ListOk(c.contactUris) && ListOk(c.urls)
    && ListOk(c.emails) && ListOk(c.phones) && ListOk(c.postalAddresses)
    && (c.nameParts.Some? ==> NamePartsOk(c.nameParts.value))
    && (forall e :: e in Elements(c.emails) ==> EmailOk(uc, e))
    && (forall p :: p in Elements(c.phones) ==> PhoneOk(uc, p))
    && (forall a :: a in Elements(c.postalAddresses) ==> AddressOk(uc, parse, a))
  }

  lemma ContextsExact(uc: UnicodeCase, contexts: Option<seq<string>>)
    ensures NormContexts(uc, contexts) == contexts <==> WordsOk(uc, ContextFn(), contexts)
  {
    if contexts.Some? && contexts.value != [] {
      SettledWordsStay(uc, ContextFn(), contexts.value);
    }
  }

  lemma PhoneExact(uc: UnicodeCase, p: Phone)
    requires LowerIdempotent(uc)
    ensures NormPhone(uc)(p) == p <==> PhoneOk(uc, p)
  {
    var contexts, features := Elements(p.contexts), Elements(p.features);
    assert PhoneTypes(p) == contexts + features;
    if PhoneOk(uc, p) {
      TypesSplit(uc, contexts, features);
    }
    if NormPhone(uc)(p) == p {
      var read := ReadWords(uc, PhoneTypes(p));
      KeptWordsSettle(uc, ContextFn(), PhoneTypes(p));
      KeptWordsSettle(uc, NotContextFn(), PhoneTypes(p));
      FilterKeepsOnly(ContextFn(), read);
      FilterKeepsOnly(NotContextFn(), read);
      assert read[0] in Filter(ContextFn(), read) || read[0] in Filter(NotContextFn(), read);
    }
  }

  /** A telephone without contexts and features is written with an empty type, and gains an empty feature. */
  lemma BarePhoneGainsFeature(uc: UnicodeCase, p: Phone)
    requires uc.lower("") == "" && PhoneTypes(p) == []
    ensures NormPhone(uc)(p) == p.(contexts := None, features := Some([""]))
    ensures PhoneOf(uc)(PhoneProp()(p)) == Some(p.(contexts := None, features := Some([""])))
  {
    assert ReadWords(uc, PhoneTypes(p)) == [""];
    assert !IsContext("");
    FilterOne(ContextFn(), "");
    FilterOne(NotContextFn(), "");
    PhoneDecodes(uc, p);
  }

  lemma LinesExact(lines: Option<seq<string>>)
    ensures NormNames(lines) == lines <==> LinesOk(lines)
  {
    FilterAll(NonBlankFn(), Elements(lines));
  }

  /** A region or a country comes back in the slot it was in. */
  predicate SlotKept(uc: UnicodeCase, name: Option<string>, code: Option<string>) {
    var read := NonBlank(NameOrCode(name, code));
    NameSlot(uc, read) == name && CodeSlot(uc, read) == code
  }

  lemma SlotExact(uc: UnicodeCase, name: Option<string>, code: Option<string>)
    ensures SlotKept(uc, name, code) <==> SlotOk(uc, name, code)
  {
  }

  predicate StreetKept(street: Option<seq<string>>) {
    NonEmpty(Filter(NonBlankFn(), FirstThree(Elements(street)))) == street
  }

  lemma FilledExact(text: Option<string>)
    ensures NonBlank(OrEmpty(text)) == text <==> FilledOk(text)
  {
  }

  lemma LabelExact(parse: JsonParser, text: Option<string>)
    ensures NormLabel(parse, text) == text <==> (text.Some? ==> parse(text.value) == Some(Str(text.value)))
  {
  }

  lemma StreetExact(street: Option<seq<string>>)
    ensures StreetKept(street) <==> LinesOk(street) && |Elements(street)| <= 3
  {
    LinesExact(street);
    FilterAll(NonBlankFn(), FirstThree(Elements(street)));
  }

  lemma AddressFieldsKept(uc: UnicodeCase, parse: JsonParser, a: PostalAddress)
    ensures NormAddress(uc, parse)(a) == a
       <==> && NormContexts(uc, a.contexts) == a.contexts && NormLabel(parse, a.fullAddress) == a.fullAddress
            && StreetKept(a.streetParts)
            && NonBlank(OrEmpty(a.locality)) == a.locality && NonBlank(OrEmpty(a.postalCode)) == a.postalCode
            && SlotKept(uc, a.regionName, a.regionCode) && SlotKept(uc, a.countryName, a.countryCode)
  {
  }

  lemma AddressExact(uc: UnicodeCase, parse: JsonParser, a: PostalAddress)
    ensures NormAddress(uc, parse)(a) == a <==> AddressOk(uc, parse, a)
  {
    AddressFieldsKept(uc, parse, a);
    ContextsExact(uc, a.contexts);
    LabelExact(parse, a.fullAddress);
    StreetExact(a.streetParts);
    FilledExact(a.locality);
    FilledExact(a.postalCode);
    SlotExact(uc, a.regionName, a.regionCode);
    SlotExact(uc, a.countryName, a.countryCode);
  }

  lemma NamePartsExact(n: Option<NameParts>)
    ensures NormNameParts(n) == n <==> (n.Some? ==> NamePartsOk(n.value))
  {
    if n.Some? {
      LinesExact(n.value.prefixes);
      LinesExact(n.value.surnames);
      LinesExact(n.value.middleNames);
      LinesExact(n.value.givenNames);
      LinesExact(n.value.suffixes);
    }
  }

  lemma ListExact<T>(norm: T -> T, list: Option<seq<T>>)
    ensures NonEmpty(Map(norm, Elements(list))) == list
       <==> list != Some([]) && forall x :: x in Elements(list) ==> norm(x) == x
  {
    var xs := Elements(list);
    if NonEmpty(Map(norm, xs)) == list {
      forall x | x in xs ensures norm(x) == x {
        var i :| 0 <= i < |xs| && xs[i] == x;
        assert Map(norm, xs)[i] == xs[i];
      }
    }
    if forall x :: x in xs ==> norm(x) == x {
      assert Map(norm, xs) == xs;
    }
  }

  lemma NormalFormsAreWellFormed(uc: UnicodeCase, parse: JsonParser, c: Contact)
    requires LowerIdempotent(uc)
    ensures Normalize(uc, parse, c) == c && c.IsNonEmpty() <==> WellFormed(uc, parse, c)
  {
    NamePartsExact(c.nameParts);
    ListExact(NormEmail(uc), c.emails);
    ListExact(NormPhone(uc), c.phones);
    ListExact(NormAddress(uc, parse), c.postalAddresses);
    forall e ensures NormEmail(uc)(e) == e <==> EmailOk(uc, e) {
      ContextsExact(uc, e.contexts);
    }
    forall p ensures NormPhone(uc)(p) == p <==> PhoneOk(uc, p) {
      PhoneExact(uc, p);
    }
    forall a ensures NormAddress(uc, parse)(a) == a <==> AddressOk(uc, parse, a) {
      AddressExact(uc, parse, a);
    }
  }

  /** A contact comes back from its jCard unchanged if and only if it is well formed. */
  lemma RoundTripExactly(uc: UnicodeCase, parse: JsonParser, c: Contact)
    requires LowerIdempotent(uc) && LabelsParse(parse, c)
    ensures FromVcard(uc, Card(parse, c)) == Some(c) <==> WellFormed(uc, parse, c)
  {
    DecodeEncode(uc, parse, c);
    NormalFormsAreWellFormed(uc, parse, c);
  }
}
