/** Reading a contact out of a jCard (RFC 7095 section 3.3). */
module JcardReader {
  import opened Wrappers
  import opened Sequences
  import opened Text
  import opened JsonValue
  import opened ContactTypes

  type Prop = seq<Value>

  // ---- finding properties -----------------------------------------------------------------

  predicate IsNamed(prop: Value, name: string) {
    && prop.Arr?
    && prop.items != []
    && prop.items[0].Str?
    && EqIgnoreAsciiCase(prop.items[0].s, name)
  }

  function FindProperty(vcard: seq<Value>, name: string): Option<Prop> {
    if vcard == [] then None
    else if IsNamed(vcard[0], name) then Some(vcard[0].items)
    else FindProperty(vcard[1..], name)
  }

  function FindProperties(vcard: seq<Value>, name: string): seq<Prop> {
    if vcard == [] then []
    else if IsNamed(vcard[0], name) then [vcard[0].items] + FindProperties(vcard[1..], name)
    else FindProperties(vcard[1..], name)
  }

  // ---- parameters and values of one property ----------------------------------------------

  function GetText(prop: Prop): Option<string> {
    match At(prop, 3)
    case None => None
    case Some(fourth) => fourth.AsStr()
  }

  function GetParam(prop: Prop, key: string): Option<Value> {
    match At(prop, 1)
    case Some(Obj(params)) => Field(params, key)
    case _ => None
  }

  function GetPreference(prop: Prop): Option<u64> {
    match GetParam(prop, "pref")
    case Some(Str(s)) => ParseU64(s)
    case _ => None
  }

  function GetLabel(prop: Prop): Option<string> {
    match GetParam(prop, "label")
    case Some(text) => text.AsStr()
    case None => None
  }

  function AsStrFn(): Value -> Option<string> {
    (v: Value) => v.AsStr()
  }

  function NotContextFn(): string -> bool {
    (s: string) => !IsContext(s)
  }

  function ContextFn(): string -> bool {
    (s: string) => IsContext(s)
  }

  /** The words of a `type` parameter that pass the filter, in lower case. */
  function GetTypes(uc: UnicodeCase, prop: Prop, keep: string -> bool): Option<seq<string>> {
    match GetParam(prop, "type")
    case Some(Str(word)) =>
      if keep(uc.lower(word)) then Some([uc.lower(word)]) else None
    case Some(Arr(words)) =>
      NonEmpty(Filter(keep, Map(uc.lower, FilterMap(AsStrFn(), words))))
    case _ => None
  }

  function GetContexts(uc: UnicodeCase, prop: Prop): Option<seq<string>> {
    GetTypes(uc, prop, ContextFn())
  }

  function GetFeatures(uc: UnicodeCase, prop: Prop): Option<seq<string>> {
    GetTypes(uc, prop, NotContextFn())
  }

  // ---- lists of properties ----------------------------------------------------------------

  function TextOf(): Prop -> Option<string> {
    (prop: Prop) => GetText(prop)
  }

  function LangOf(): Prop -> Option<Lang> {
    (prop: Prop) =>
      match GetText(prop)
      case None => None
      case Some(tag) => Some(Lang(GetPreference(prop), tag))
  }

  function EmailOf(uc: UnicodeCase): Prop -> Option<Email> {
    (prop: Prop) =>
      match GetText(prop)
      case None => None
      case Some(address) => Some(Email(GetPreference(prop), GetContexts(uc, prop), address))
  }

  function PhoneOf(uc: UnicodeCase): Prop -> Option<Phone> {
    (prop: Prop) =>
      match GetText(prop)
      case None => None
      case Some(number) =>
        Some(Phone(GetPreference(prop), GetContexts(uc, prop), number, GetFeatures(uc, prop)))
  }

  // ---- postal addresses -------------------------------------------------------------------

  /** A string that is present and not empty. */
  function Filled(v: Option<Value>): Option<string> {
    match v
    case Some(Str(s)) => if s == "" then None else Some(s)
    case _ => None
  }

  function FilledFn(): Value -> Option<string> {
    (v: Value) => Filled(Some(v))
  }

  function OptionToSeq<T>(o: Option<T>): seq<T> {
    match o
    case Some(x) => [x]
    case None => []
  }

  /** The street, element 2 of a structured address, may be several lines. */
  function StreetLines(v: Option<Value>): seq<string> {
    match v
    case Some(Arr(lines)) => FilterMap(FilledFn(), lines)
    case _ => OptionToSeq(Filled(v))
  }

  function CodeSlot(uc: UnicodeCase, v: Option<string>): Option<string> {
    match v
    case Some(s) => if IsCode(uc, s) then Some(s) else None
    case None => None
  }

  function NameSlot(uc: UnicodeCase, v: Option<string>): Option<string> {
    match v
    case Some(s) => if IsCode(uc, s) then None else Some(s)
    case None => None
  }

  /** The components of a structured address (RFC 6350 section 6.3.1); none unless it is an array. */
  function Components(prop: Prop): seq<Value> {
    match At(prop, 3)
    case Some(Arr(addr)) => addr
    case _ => []
  }

  /** Post office box, suite and street, in that order, leaving out what is empty. */
  function StreetPartsOf(addr: seq<Value>): seq<string> {
    OptionToSeq(Filled(At(addr, 0))) + OptionToSeq(Filled(At(addr, 1))) + StreetLines(At(addr, 2))
  }

  function PostalAddressOf(uc: UnicodeCase, prop: Prop): PostalAddress {
    var addr := Components(prop);
    PostalAddress(
      GetPreference(prop),
      GetContexts(uc, prop),
      GetLabel(prop),
      NonEmpty(StreetPartsOf(addr)),
      Filled(At(addr, 3)),
      NameSlot(uc, Filled(At(addr, 4))),
      CodeSlot(uc, Filled(At(addr, 4))),
      NameSlot(uc, Filled(At(addr, 6))),
      CodeSlot(uc, Filled(At(addr, 6))),
      Filled(At(addr, 5)))
  }

  function PostalAddressFn(uc: UnicodeCase): Prop -> PostalAddress {
    (prop: Prop) => PostalAddressOf(uc, prop)
  }

  method ReadStreet(addr: seq<Value>) returns (streetParts: seq<string>)
    ensures streetParts == StreetPartsOf(addr)
  {
    streetParts := [];
    if |addr| > 0 && addr[0].Str? && addr[0].s != "" {
      streetParts := streetParts + [addr[0].s];
    }
    if |addr| > 1 && addr[1].Str? && addr[1].s != "" {
      streetParts := streetParts + [addr[1].s];
    }
    if |addr| > 2 && addr[2].Str? && addr[2].s != "" {
      streetParts := streetParts + [addr[2].s];
    } else if |addr| > 2 && addr[2].Arr? {
      var lines := addr[2].items;
      ghost var start := streetParts;
      for i := 0 to |lines|
        invariant streetParts + FilterMap(FilledFn(), lines[i..]) == start + FilterMap(FilledFn(), lines)
      {
        assert lines[i..][1..] == lines[i + 1..];
        if lines[i].Str? && lines[i].s != "" {
          streetParts := streetParts + [lines[i].s];
        }
      }
      assert streetParts + [] == streetParts;
    }
  }

  /** The region and the country are each one component, holding either a name or a code. */
  method ReadNameOrCode(uc: UnicodeCase, v: Value) returns (name: Option<string>, code: Option<string>)
    ensures name == NameSlot(uc, Filled(Some(v)))
    ensures code == CodeSlot(uc, Filled(Some(v)))
  {
    name, code := None, None;
    if v.Str? && v.s != "" {
      if IsCode(uc, v.s) {
        code := Some(v.s);
      } else {
        name := Some(v.s);
      }
    }
  }

  /** One structured address, read the way the program reads it: a mutable local for each component. */
  method ReadPostalAddress(uc: UnicodeCase, prop: Prop) returns (address: PostalAddress)
    ensures address == PostalAddressOf(uc, prop)
  {
    var postalCode: Option<string> := None;
    var countryCode: Option<string> := None;
    var countryName: Option<string> := None;
    var regionCode: Option<string> := None;
    var regionName: Option<string> := None;
    var locality: Option<string> := None;
    var streetParts: seq<string> := [];
    if |prop| > 3 && prop[3].Arr? {
      var addr := prop[3].items;
      streetParts := ReadStreet(addr);
      if |addr| > 3 && addr[3].Str? && addr[3].s != "" {
        locality := Some(addr[3].s);
      }
      if |addr| > 4 {
        regionName, regionCode := ReadNameOrCode(uc, addr[4]);
      }
      if |addr| > 5 && addr[5].Str? && addr[5].s != "" {
        postalCode := Some(addr[5].s);
      }
      if |addr| > 6 {
        countryName, countryCode := ReadNameOrCode(uc, addr[6]);
      }
    }
    address := PostalAddress(GetPreference(prop), GetContexts(uc, prop), GetLabel(prop), NonEmpty(streetParts),
                             locality, regionName, regionCode, countryName, countryCode, postalCode);
  }

  // ---- name parts -------------------------------------------------------------------------

  function GetStringOrVec(v: Value): Option<seq<string>> {
    match v
    case Str(s) => if s == "" then None else Some([s])
    case Arr(parts) => NonEmpty(FilterMap(FilledFn(), parts))
    case _ => None
  }

  function StringOrArrayFn(): Value -> bool {
    (v: Value) => v.Str? || v.Arr?
  }

  function NthPart(parts: seq<Value>, i: nat): Option<seq<string>> {
    match At(parts, i)
    case Some(v) => GetStringOrVec(v)
    case None => None
  }

  predicate AnyPart(n: NameParts) {
    n.surnames.Some? || n.givenNames.Some? || n.middleNames.Some? || n.suffixes.Some? || n.prefixes.Some?
  }

  function NamePartsOf(prop: Option<Prop>): Option<NameParts> {
    match prop
    case None => None
    case Some(values) =>
      match At(values, 3)
      case Some(Arr(components)) =>
        var parts := Filter(StringOrArrayFn(), components);
        var names := NameParts(NthPart(parts, 3), NthPart(parts, 0), NthPart(parts, 2), NthPart(parts, 1), NthPart(parts, 4));
        if AnyPart(names) then Some(names) else None
      case _ => None
  }

  /** The name parts, read the way the program reads them: an iterator advanced once for each part. */
  method ReadNameParts(prop: Option<Prop>) returns (names: Option<NameParts>)
    ensures names == NamePartsOf(prop)
  {
    if prop.None? || |prop.value| <= 3 || !prop.value[3].Arr? {
      return None;
    }
    var iter := Filter(StringOrArrayFn(), prop.value[3].items);
    var prefixes: Option<seq<string>>, surnames: Option<seq<string>>, givenNames: Option<seq<string>> := None, None, None;
    var middleNames: Option<seq<string>>, suffixes: Option<seq<string>> := None, None;
    if iter != [] {
      surnames := GetStringOrVec(iter[0]);
      iter := iter[1..];
    }
    if iter != [] {
      givenNames := GetStringOrVec(iter[0]);
      iter := iter[1..];
    }
    if iter != [] {
      middleNames := GetStringOrVec(iter[0]);
      iter := iter[1..];
    }
    if iter != [] {
      prefixes := GetStringOrVec(iter[0]);
      iter := iter[1..];
    }
    if iter != [] {
      suffixes := GetStringOrVec(iter[0]);
      iter := iter[1..];
    }
    var found := NameParts(prefixes, surnames, middleNames, givenNames, suffixes);
    names := if AnyPart(found) then Some(found) else None;
  }

  // ---- the whole card ---------------------------------------------------------------------

  function TextsOf(vcard: seq<Value>, name: string): Option<seq<string>> {
    NonEmpty(FilterMap(TextOf(), FindProperties(vcard, name)))
  }

  function TextOfFirst(vcard: seq<Value>, name: string): Option<string> {
    match FindProperty(vcard, name)
    case None => None
    case Some(prop) => GetText(prop)
  }

  function ContactOf(uc: UnicodeCase, vcard: seq<Value>): Contact {
    Contact(
      NonEmpty(FilterMap(LangOf(), FindProperties(vcard, "lang"))),
      TextOfFirst(vcard, "kind"),
      TextOfFirst(vcard, "fn"),
      NamePartsOf(FindProperty(vcard, "n")),
      TextsOf(vcard, "nickname"),
      TextsOf(vcard, "title"),
      TextsOf(vcard, "role"),
      TextsOf(vcard, "org"),
      NonEmpty(Map(PostalAddressFn(uc), FindProperties(vcard, "adr"))),
      NonEmpty(FilterMap(EmailOf(uc), FindProperties(vcard, "email"))),
      NonEmpty(FilterMap(PhoneOf(uc), FindProperties(vcard, "tel"))),
      TextsOf(vcard, "contact-uri"),
      TextsOf(vcard, "url"))
  }

  /** `Contact::from_vcard` */
  function FromVcard(uc: UnicodeCase, vcardArray: seq<Value>): Option<Contact> {
    match At(vcardArray, 0)
    case Some(Str(literal)) =>
      if !EqIgnoreAsciiCase(literal, "vcard") then None
      else (
        match At(vcardArray, 1)
        case Some(Arr(vcard)) =>
          var contact := ContactOf(uc, vcard);
          if contact.IsNonEmpty() then Some(contact) else None
        case _ => None
      )
    case _ => None
  }
}
