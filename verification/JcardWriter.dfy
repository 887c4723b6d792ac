/** Writing a contact as a jCard (RFC 7095 section 3.3). */
module JcardWriter {
  import opened Wrappers
  import opened Sequences
  import opened Text
  import opened JsonValue
  import opened ContactTypes

  type Prop = seq<Value>

  /** Parsing JSON text, which is serde's; none is text it rejects. */
  type JsonParser = string -> Option<Value>

  // ---- single properties ------------------------------------------------------------------

  function VecStringToParam(strings: seq<string>): Value {
    if strings == [] then Str("")
    else if |strings| == 1 then Str(strings[0])
    else Arr(Strs(strings))
  }

  function VecStringToValue(strings: Option<seq<string>>): Value {
    match strings
    case None => Str("")
    case Some(ss) => VecStringToParam(ss)
  }

  function StrFn(): string -> Value {
    (s: string) => Str(s)
  }

  function Strs(strings: seq<string>): seq<Value> {
    Map(StrFn(), strings)
  }

  function PrefParam(preference: Option<u64>): map<string, Value> {
    match preference
    case Some(pref) => map["pref" := Str(Decimal(pref))]
    case None => map[]
  }

  function TypeParam(contexts: Option<seq<string>>): map<string, Value> {
    match contexts
    case Some(words) => map["type" := VecStringToParam(words)]
    case None => map[]
  }

  function LabelParam(parse: JsonParser, fullAddress: Option<string>): map<string, Value> {
    match fullAddress
    case Some(text) => if parse(text).Some? then map["label" := parse(text).value] else map[]
    case None => map[]
  }

  function OrEmpty(s: Option<string>): string {
    match s
    case Some(t) => t
    case None => ""
  }

  /** The name goes first; the code only stands in for a missing name. */
  function NameOrCode(name: Option<string>, code: Option<string>): string {
    if name.Some? then name.value else OrEmpty(code)
  }

  function StreetLine(street: Option<seq<string>>, i: nat): string {
    if street.Some? && i < |street.value| then street.value[i] else ""
  }

  /** The elements of an optional list. */
  function Elements<T>(list: Option<seq<T>>): seq<T> {
    match list
    case Some(xs) => xs
    case None => []
  }

  function TextProp(tag: string, kind: string): string -> Prop {
    (text: string) => [Str(tag), Obj(map[]), Str(kind), Str(text)]
  }

  function LangProp(): Lang -> Prop {
    (lang: Lang) => [Str("lang"), Obj(PrefParam(lang.preference)), Str("language-tag"), Str(lang.tag)]
  }

  function EmailProp(): Email -> Prop {
    (e: Email) => [Str("email"), Obj(PrefParam(e.preference) + TypeParam(e.contexts)), Str("text"), Str(e.email)]
  }

  function PhoneTypes(p: Phone): seq<string> {
    Elements(p.contexts) + Elements(p.features)
  }

  function PhoneProp(): Phone -> Prop {
    (p: Phone) =>
      [Str("tel"), Obj(PrefParam(p.preference)["type" := VecStringToParam(PhoneTypes(p))]), Str("text"), Str(p.phone)]
  }

  function AddressLines(a: PostalAddress): seq<string> {
    [StreetLine(a.streetParts, 0), StreetLine(a.streetParts, 1), StreetLine(a.streetParts, 2),
     OrEmpty(a.locality), NameOrCode(a.regionName, a.regionCode),
     OrEmpty(a.postalCode), NameOrCode(a.countryName, a.countryCode)]
  }

  function AddressParams(parse: JsonParser, a: PostalAddress): map<string, Value> {
    PrefParam(a.preference) + TypeParam(a.contexts) + LabelParam(parse, a.fullAddress)
  }

  function AddressProp(parse: JsonParser): PostalAddress -> Prop {
    (a: PostalAddress) => [Str("adr"), Obj(AddressParams(parse, a)), Str("text"), Arr(Strs(AddressLines(a)))]
  }

  function NamePartsProp(): NameParts -> Prop {
    (n: NameParts) =>
      [Str("n"), Obj(map[]), Str("text"),
       Arr([VecStringToValue(n.surnames), VecStringToValue(n.givenNames), VecStringToValue(n.middleNames),
            VecStringToValue(n.prefixes), VecStringToValue(n.suffixes)])]
  }

  // ---- the card, section by section -------------------------------------------------------

  /** The properties of one name, which the card holds together. */
  datatype Section = Section(tag: string, props: seq<Prop>)

  function Each<A>(tag: string, encode: A -> Prop, values: Option<seq<A>>): Section {
    Section(tag, Map(encode, Elements(values)))
  }

  function Once<A>(tag: string, encode: A -> Prop, value: Option<A>): Section {
    match value
    case Some(v) => Section(tag, [encode(v)])
    case None => Section(tag, [])
  }

  const VERSION := Section("version", [[Str("version"), Obj(map[]), Str("text"), Str("4.0")]])

  const SECTION_COUNT := 14

  /** The sections of a card in the order in which they are written. */
  function SectionAt(parse: JsonParser, c: Contact, k: nat): Section {
    match k
    case 0 => VERSION
    case 1 => Once("fn", TextProp("fn", "text"), c.fullName)
    case 2 => Once("n", NamePartsProp(), c.nameParts)
    case 3 => Once("kind", TextProp("kind", "text"), c.kind)
    case 4 => Each("lang", LangProp(), c.langs)
    case 5 => Each("org", TextProp("org", "text"), c.organizationNames)
    case 6 => Each("title", TextProp("title", "text"), c.titles)
    case 7 => Each("role", TextProp("role", "text"), c.roles)
    case 8 => Each("nickname", TextProp("nickname", "text"), c.nickNames)
    case 9 => Each("email", EmailProp(), c.emails)
    case 10 => Each("tel", PhoneProp(), c.phones)
    case 11 => Each("adr", AddressProp(parse), c.postalAddresses)
    case 12 => Each("contact-uri", TextProp("contact-uri", "uri"), c.contactUris)
    case _ => Each("url", TextProp("url", "uri"), c.urls)
  }

  function Sections(parse: JsonParser, c: Contact): seq<Section> {
    seq(SECTION_COUNT, k requires 0 <= k < SECTION_COUNT => SectionAt(parse, c, k))
  }

  function ArrFn(): Prop -> Value {
    (prop: Prop) => Arr(prop)
  }

  function Flatten(sections: seq<Section>): seq<Value> {
    if sections == [] then [] else Map(ArrFn(), sections[0].props) + Flatten(sections[1..])
  }

  function Card(parse: JsonParser, c: Contact): seq<Value> {
    [Str("vcard"), Arr(Flatten(Sections(parse, c)))]
  }

  /** The program stops when a full address is not JSON text, so its callers must not pass one. */
  ghost predicate LabelsParse(parse: JsonParser, c: Contact) {
    c.postalAddresses.Some? ==>
      forall a :: a in c.postalAddresses.value && a.fullAddress.Some? ==> parse(a.fullAddress.value).Some?
  }

  // ---- what every property looks like -----------------------------------------------------

  /** The type of the value of a property (RFC 6350 section 4). */
  function ValueType(tag: string): string {
    if tag == "lang" then "language-tag" else if tag == "url" || tag == "contact-uri" then "uri" else "text"
  }

  /** A property: its name, its parameters, the type of its value, and the value. */
  predicate IsTyped(prop: Prop) {
    |prop| == 4 && prop[0].Str? && prop[1].Obj? && prop[2] == Str(ValueType(prop[0].s))
  }

  lemma {:induction false} FlattenMembers(sections: seq<Section>, v: Value)
    ensures v in Flatten(sections) <==> exists k :: 0 <= k < |sections| && v.Arr? && v.items in sections[k].props
  {
    if sections != [] {
      FlattenMembers(sections[1..], v);
      var own := Map(ArrFn(), sections[0].props);
      if v in own {
        var i :| 0 <= i < |own| && own[i] == v;
        assert sections[0].props[i] == v.items;
      }
      if v.Arr? && v.items in sections[0].props {
        var i :| 0 <= i < |sections[0].props| && sections[0].props[i] == v.items;
        assert own[i] == v;
      }
      assert forall k :: 0 <= k < |sections| - 1 ==> sections[1..][k] == sections[k + 1];
    }
  }

  ghost predicate AllTyped(section: Section) {
    forall prop :: prop in section.props ==> IsTyped(prop)
  }

  lemma EachIsTyped<A>(tag: string, encode: A -> Prop, values: Option<seq<A>>)
    requires forall a :: IsTyped(encode(a))
    ensures AllTyped(Each(tag, encode, values))
  {
  }

  lemma OnceIsTyped<A>(tag: string, encode: A -> Prop, value: Option<A>)
    requires forall a :: IsTyped(encode(a))
    ensures AllTyped(Once(tag, encode, value))
  {
  }

  lemma TextIsTyped(tag: string, kind: string)
    requires kind == ValueType(tag)
    ensures forall text :: IsTyped(TextProp(tag, kind)(text))
  {
  }

  lemma OnceSectionIsTyped(parse: JsonParser, c: Contact, k: nat)
    requires k < 5
    ensures AllTyped(SectionAt(parse, c, k))
  {
    match k
    case 0 =>
    case 1 =>
      TextIsTyped("fn", "text");
      OnceIsTyped("fn", TextProp("fn", "text"), c.fullName);
    case 2 => OnceIsTyped("n", NamePartsProp(), c.nameParts);
    case 3 =>
      TextIsTyped("kind", "text");
      OnceIsTyped("kind", TextProp("kind", "text"), c.kind);
    case _ => EachIsTyped("lang", LangProp(), c.langs);
  }

  lemma TextSectionIsTyped(tag: string, kind: string, texts: Option<seq<string>>)
    requires kind == ValueType(tag)
    ensures AllTyped(Each(tag, TextProp(tag, kind), texts))
  {
    TextIsTyped(tag, kind);
    EachIsTyped(tag, TextProp(tag, kind), texts);
  }

  lemma EachSectionIsTyped(parse: JsonParser, c: Contact, k: nat)
    requires 5 <= k < SECTION_COUNT
    ensures AllTyped(SectionAt(parse, c, k))
  {
    match k
    case 5 => TextSectionIsTyped("org", "text", c.organizationNames);
    case 6 => TextSectionIsTyped("title", "text", c.titles);
    case 7 => TextSectionIsTyped("role", "text", c.roles);
    case 8 => TextSectionIsTyped("nickname", "text", c.nickNames);
    case 9 => EachIsTyped("email", EmailProp(), c.emails);
    case 10 => EachIsTyped("tel", PhoneProp(), c.phones);
    case 11 => EachIsTyped("adr", AddressProp(parse), c.postalAddresses);
    case 12 => TextSectionIsTyped("contact-uri", "uri", c.contactUris);
    case _ => TextSectionIsTyped("url", "uri", c.urls);
  }

  /** Every property of a written card has four elements and the type of value that belongs to its name. */
  lemma WrittenPropertiesAreTyped(parse: JsonParser, c: Contact)
    ensures Card(parse, c)[0] == Str("vcard") && Card(parse, c)[1].Arr?
    ensures forall v :: v in Card(parse, c)[1].items ==> v.Arr? && IsTyped(v.items)
    ensures Card(parse, c)[1].items != []
      && Card(parse, c)[1].items[0] == Arr([Str("version"), Obj(map[]), Str("text"), Str("4.0")])
  {
    var sections := Sections(parse, c);
    forall v | v in Flatten(sections)
      ensures v.Arr? && IsTyped(v.items)
    {
      FlattenMembers(sections, v);
      var k :| 0 <= k < |sections| && v.Arr? && v.items in sections[k].props;
      if k < 5 {
        OnceSectionIsTyped(parse, c, k);
      } else {
        EachSectionIsTyped(parse, c, k);
      }
    }
    assert sections[0] == VERSION;
  }

  // ---- the program: properties pushed one at a time ---------------------------------------

  lemma {:induction false} FlattenAppend(sections: seq<Section>, last: Section)
    ensures Flatten(sections + [last]) == Flatten(sections) + Map(ArrFn(), last.props)
  {
    if sections == [] {
      assert [] + [last] == [last] && [last][1..] == [];
      assert Map(ArrFn(), last.props) + [] == Map(ArrFn(), last.props);
    } else {
      ConsAppend(sections, [last]);
      FlattenAppend(sections[1..], last);
      AppendAssociative(Map(ArrFn(), sections[0].props), Flatten(sections[1..]), Map(ArrFn(), last.props));
    }
  }

  lemma FlattenOneMore(sections: seq<Section>, k: nat)
    requires k < |sections|
    ensures Flatten(sections[..k + 1]) == Flatten(sections[..k]) + Map(ArrFn(), sections[k].props)
  {
    FlattenAppend(sections[..k], sections[k]);
    assert sections[..k] + [sections[k]] == sections[..k + 1];
  }

  method PushEach<A>(
    vcard: seq<Value>, tag: string, encode: A -> Prop, values: Option<seq<A>>, ghost sections: seq<Section>, ghost k: nat)
    returns (pushed: seq<Value>)
    requires k < |sections| && sections[k] == Each(tag, encode, values)
    requires vcard == Flatten(sections[..k])
    ensures pushed == Flatten(sections[..k + 1])
  {
    pushed := vcard;
    FlattenOneMore(sections, k);
    if values.Some? {
      for i := 0 to |values.value|
        invariant pushed == vcard + Map(ArrFn(), Map(encode, values.value[..i]))
      {
        pushed := pushed + [Arr(encode(values.value[i]))];
        assert Map(ArrFn(), Map(encode, values.value[..i + 1]))
            == Map(ArrFn(), Map(encode, values.value[..i])) + [Arr(encode(values.value[i]))];
      }
      assert values.value[..|values.value|] == values.value;
    }
  }

  method PushOnce<A>(
    vcard: seq<Value>, tag: string, encode: A -> Prop, value: Option<A>, ghost sections: seq<Section>, ghost k: nat)
    returns (pushed: seq<Value>)
    requires k < |sections| && sections[k] == Once(tag, encode, value)
    requires vcard == Flatten(sections[..k])
    ensures pushed == Flatten(sections[..k + 1])
  {
    FlattenOneMore(sections, k);
    pushed := vcard;
    if value.Some? {
      pushed := pushed + [Arr(encode(value.value))];
      assert Map(ArrFn(), [encode(value.value)]) == [Arr(encode(value.value))];
    }
  }

  /** One telephone: the contexts and the features are put into one list of types. */
  method BuildPhone(phone: Phone) returns (prop: Prop)
    ensures prop == PhoneProp()(phone)
  {
    var params: map<string, Value> := map[];
    if phone.preference.Some? {
      params := params["pref" := Str(Decimal(phone.preference.value))];
    }
    var types: seq<string> := [];
    if phone.contexts.Some? {
      types := types + phone.contexts.value;
    }
    if phone.features.Some? {
      types := types + phone.features.value;
    }
    assert types == PhoneTypes(phone);
    params := params["type" := VecStringToParam(types)];
    prop := [Str("tel"), Obj(params), Str("text"), Str(phone.phone)];
  }

  /** The seven components of one address, pushed in order. */
  method PushLines(addr: PostalAddress) returns (lines: seq<string>)
    ensures lines == AddressLines(addr)
  {
    lines := [];
    if addr.streetParts.Some? {
      var parts := addr.streetParts.value;
      lines := lines + [if 0 < |parts| then parts[0] else ""];
      lines := lines + [if 1 < |parts| then parts[1] else ""];
      lines := lines + [if 2 < |parts| then parts[2] else ""];
    } else {
      lines := lines + [""];
      lines := lines + [""];
      lines := lines + [""];
    }
    assert lines == [StreetLine(addr.streetParts, 0), StreetLine(addr.streetParts, 1), StreetLine(addr.streetParts, 2)];
    lines := lines + [if addr.locality.Some? then addr.locality.value else ""];
    if addr.regionName.Some? {
      lines := lines + [addr.regionName.value];
    } else if addr.regionCode.Some? {
      lines := lines + [addr.regionCode.value];
    } else {
      lines := lines + [""];
    }
    lines := lines + [if addr.postalCode.Some? then addr.postalCode.value else ""];
    assert lines == AddressLines(addr)[..6];
    if addr.countryName.Some? {
      lines := lines + [addr.countryName.value];
    } else if addr.countryCode.Some? {
      lines := lines + [addr.countryCode.value];
    } else {
      lines := lines + [""];
    }
  }

  method BuildAddress(parse: JsonParser, addr: PostalAddress) returns (prop: Prop)
    requires addr.fullAddress.Some? ==> parse(addr.fullAddress.value).Some?
    ensures prop == AddressProp(parse)(addr)
  {
    var params: map<string, Value> := map[];
    if addr.preference.Some? {
      params := params["pref" := Str(Decimal(addr.preference.value))];
    }
    if addr.contexts.Some? {
      params := params["type" := VecStringToParam(addr.contexts.value)];
    }
    if addr.fullAddress.Some? {
      params := params["label" := parse(addr.fullAddress.value).value];
    }
    assert params == AddressParams(parse, addr);
    var lines := PushLines(addr);
    prop := [Str("adr"), Obj(params), Str("text"), Arr(Strs(lines))];
  }

  method PushPhones(vcard: seq<Value>, phones: seq<Phone>) returns (pushed: seq<Value>)
    ensures pushed == vcard + Map(ArrFn(), Map(PhoneProp(), phones))
  {
    pushed := vcard;
    for i := 0 to |phones|
      invariant pushed == vcard + Map(ArrFn(), Map(PhoneProp(), phones[..i]))
    {
      var prop := BuildPhone(phones[i]);
      pushed := pushed + [Arr(prop)];
      assert Map(ArrFn(), Map(PhoneProp(), phones[..i + 1]))
          == Map(ArrFn(), Map(PhoneProp(), phones[..i])) + [Arr(prop)];
    }
    assert phones[..|phones|] == phones;
  }

  method PushAddresses(parse: JsonParser, vcard: seq<Value>, addrs: seq<PostalAddress>) returns (pushed: seq<Value>)
    requires forall a :: a in addrs && a.fullAddress.Some? ==> parse(a.fullAddress.value).Some?
    ensures pushed == vcard + Map(ArrFn(), Map(AddressProp(parse), addrs))
  {
    pushed := vcard;
    for i := 0 to |addrs|
      invariant pushed == vcard + Map(ArrFn(), Map(AddressProp(parse), addrs[..i]))
    {
      var prop := BuildAddress(parse, addrs[i]);
      pushed := pushed + [Arr(prop)];
      assert Map(ArrFn(), Map(AddressProp(parse), addrs[..i + 1]))
          == Map(ArrFn(), Map(AddressProp(parse), addrs[..i])) + [Arr(prop)];
    }
    assert addrs[..|addrs|] == addrs;
  }

  ghost predicate AreSections(s: seq<Section>, parse: JsonParser, c: Contact) {
    |s| == SECTION_COUNT && forall k :: 0 <= k < |s| ==> s[k] == SectionAt(parse, c, k)
  }

  /** The version, and who the contact is. */
  method PushIdentity(parse: JsonParser, c: Contact, ghost s: seq<Section>) returns (vcard: seq<Value>)
    requires AreSections(s, parse, c)
    ensures vcard == Flatten(s[..5])
  {
    vcard := [Arr([Str("version"), Obj(map[]), Str("text"), Str("4.0")])];
    FlattenOneMore(s, 0);
    assert vcard == Map(ArrFn(), VERSION.props);
    vcard := PushOnce(vcard, "fn", TextProp("fn", "text"), c.fullName, s, 1);
    vcard := PushOnce(vcard, "n", NamePartsProp(), c.nameParts, s, 2);
    vcard := PushOnce(vcard, "kind", TextProp("kind", "text"), c.kind, s, 3);
    vcard := PushEach(vcard, "lang", LangProp(), c.langs, s, 4);
  }

  /** What the contact does. */
  method PushFunctions(parse: JsonParser, c: Contact, ghost s: seq<Section>, identity: seq<Value>) returns (vcard: seq<Value>)
    requires AreSections(s, parse, c)
    requires identity == Flatten(s[..5])
    ensures vcard == Flatten(s[..9])
  {
    vcard := identity;
    vcard := PushEach(vcard, "org", TextProp("org", "text"), c.organizationNames, s, 5);
    vcard := PushEach(vcard, "title", TextProp("title", "text"), c.titles, s, 6);
    vcard := PushEach(vcard, "role", TextProp("role", "text"), c.roles, s, 7);
    vcard := PushEach(vcard, "nickname", TextProp("nickname", "text"), c.nickNames, s, 8);
  }

  /** How to reach the contact. */
  method PushMeans(parse: JsonParser, c: Contact, ghost s: seq<Section>, identity: seq<Value>) returns (vcard: seq<Value>)
    requires LabelsParse(parse, c) && AreSections(s, parse, c)
    requires identity == Flatten(s[..9])
    ensures vcard == Flatten(s[..12])
  {
    vcard := PushEach(identity, "email", EmailProp(), c.emails, s, 9);
    FlattenOneMore(s, 10);
    vcard := PushPhones(vcard, Elements(c.phones));
    FlattenOneMore(s, 11);
    vcard := PushAddresses(parse, vcard, Elements(c.postalAddresses));
  }

  /** `Contact::to_vcard` */
  method ToVcard(parse: JsonParser, c: Contact) returns (card: seq<Value>)
    requires LabelsParse(parse, c)
    ensures card == Card(parse, c)
  {
    ghost var s := Sections(parse, c);
    var vcard := PushIdentity(parse, c, s);
    vcard := PushFunctions(parse, c, s, vcard);
    vcard := PushMeans(parse, c, s, vcard);
    vcard := PushEach(vcard, "contact-uri", TextProp("contact-uri", "uri"), c.contactUris, s, 12);
    vcard := PushEach(vcard, "url", TextProp("url", "uri"), c.urls, s, 13);
    assert s[..SECTION_COUNT] == s;
    card := [Str("vcard"), Arr(vcard)];
  }
}
