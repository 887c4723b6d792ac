/** How the conformance checks of a response are made. */
module ConformanceChecks {
  import opened Wrappers
  import opened ContactTypes
  import opened CheckTree
  import JcardReader
  import JsonValue
  import R = Responses
  import Text

  datatype TypeId =
    | DomainType | EntityType | NameserverType | AutnumType | NetworkType | ErrorType | HelpType
    | DomainSearchType | EntitySearchType | NameserverSearchType | NoticeOrRemarkType

  /** What the tables of registered names and the date parser accept, and Unicode case conversion. */
  datatype Recognizers = Recognizers(
    isExtension: string -> bool,
    isRfc3339: string -> bool,
    unicodeCase: UnicodeCase)

  /** What is the same for all checks of a response; `readCard` reads the contact out of a jCard. */
  datatype Context = Context(
    rootType: TypeId,
    allowUnregExt: bool,
    recognizers: Recognizers,
    readCard: seq<JsonValue.Value> -> Option<Contact>)

  datatype CheckParams = CheckParams(doSubchecks: bool, parentType: TypeId, context: Context)
  {
    function FromParent(type_: TypeId): CheckParams {
      this.(parentType := type_)
    }
  }

  // ---- responses --------------------------------------------------------------------------

  datatype Description = One(text: string) | Many(lines: seq<string>)

  datatype NoticeOrRemark = NoticeOrRemark(description: Option<Description>, links: Option<seq<R.Link>>)

  datatype Event = Event(eventAction: Option<string>, eventDate: Option<string>)

  datatype PublicId = PublicId(idType: Option<string>, identifier: Option<string>)

  datatype Cidr0Cidr =
    | V4Cidr(prefix: Option<string>, length: Option<nat>)
    | V6Cidr(prefix: Option<string>, length: Option<nat>)

  datatype Common = Common(rdapConformance: Option<seq<string>>, notices: Option<seq<NoticeOrRemark>>)

  // Optional lists through which the structures nest in one another.

  datatype EntityList = NoEntities | Entities(list: seq<Entity>)
  datatype AutnumList = NoAutnums | Autnums(numbers: seq<Autnum>)
  datatype NetworkList = NoNetworks | Networks(nets: seq<Network>)

  datatype ObjectCommon = ObjectCommon(
    entities: EntityList,
    links: Option<seq<R.Link>>,
    remarks: Option<seq<NoticeOrRemark>>,
    events: Option<seq<Event>>,
    handle: Option<string>,
    status: Option<seq<string>>,
    port43: Option<string>)

  /** The checks do not look at the autnums and networks of an entity. */
  datatype Entity = Entity(
    common: Common,
    objectCommon: ObjectCommon,
    publicIds: Option<seq<PublicId>>,
    roles: Option<seq<string>>,
    vcardArray: Option<seq<JsonValue.Value>>,
    autnums: AutnumList,
    networks: NetworkList)

  /** The result of a check of a field that only one class of object has. */
  type FieldResult = c: Check | c.FieldCheck? witness FieldCheck(0, Informational)

  datatype Nameserver = Nameserver(common: Common, objectCommon: ObjectCommon, fieldResults: seq<FieldResult>)

  datatype Autnum = Autnum(common: Common, objectCommon: ObjectCommon, fieldResults: seq<FieldResult>)

  datatype Network = Network(
    common: Common,
    objectCommon: ObjectCommon,
    cidr0Cidrs: Option<seq<Cidr0Cidr>>,
    fieldResults: seq<FieldResult>)

  /** The checks do not look at the nameservers and the network of a domain. */
  datatype Domain = Domain(
    common: Common,
    objectCommon: ObjectCommon,
    publicIds: Option<seq<PublicId>>,
    nameservers: Option<seq<Nameserver>>,
    network: Option<Network>,
    fieldResults: seq<FieldResult>)

  datatype RdapResponse =
    | EntityRoot(entity: Entity)
    | DomainRoot(domain: Domain)
    | NameserverRoot(nameserver: Nameserver)
    | AutnumRoot(autnum: Autnum)
    | NetworkRoot(network: Network)
    | DomainSearchRoot(searchCommon: Common, domains: seq<Domain>)
    | EntitySearchRoot(searchCommon: Common, entities: seq<Entity>)
    | NameserverSearchRoot(searchCommon: Common, nameservers: seq<Nameserver>)
    | ErrorRoot(errorCommon: Common)
    | HelpRoot(helpCommon: Common)
  {
    /** `get_type` */
    function Type(): TypeId {
      match this
      case EntityRoot(_) => EntityType
      case DomainRoot(_) => DomainType
      case NameserverRoot(_) => NameserverType
      case AutnumRoot(_) => AutnumType
      case NetworkRoot(_) => NetworkType
      case DomainSearchRoot(_, _) => DomainSearchType
      case EntitySearchRoot(_, _) => EntitySearchType
      case NameserverSearchRoot(_, _) => NameserverSearchType
      case ErrorRoot(_) => ErrorType
      case HelpRoot(_) => HelpType
    }

    function RootCommon(): Common {
      match this
      case EntityRoot(e) => e.common
      case DomainRoot(d) => d.common
      case NameserverRoot(n) => n.common
      case AutnumRoot(a) => a.common
      case NetworkRoot(n) => n.common
      case DomainSearchRoot(c, _) => c
      case EntitySearchRoot(c, _) => c
      case NameserverSearchRoot(c, _) => c
      case ErrorRoot(c) => c
      case HelpRoot(c) => c
    }
  }

  function CardReader(recognizers: Recognizers): seq<JsonValue.Value> -> Option<Contact> {
    (vcard: seq<JsonValue.Value>) => JcardReader.FromVcard(recognizers.unicodeCase, vcard)
  }

  /** `CheckParams::for_rdap` */
  function ForRdap(r: RdapResponse, recognizers: Recognizers): CheckParams {
    CheckParams(true, r.Type(), Context(r.Type(), false, recognizers, CardReader(recognizers)))
  }

  // ---- shared structures ------------------------------------------------------------------

  function When(problem: bool, check: Check): seq<CheckItem> {
    if problem then [Item(check)] else []
  }

  function Single(rdapStruct: Structure, check: Check): Checks {
    Checks(rdapStruct, [Item(check)], [])
  }

  function SubWhen(problem: bool, rdapStruct: Structure, check: Check): seq<Checks> {
    if problem then [Single(rdapStruct, check)] else []
  }

  predicate IsUnregistered(extension: string, p: CheckParams) {
    !p.context.allowUnregExt && !p.context.recognizers.isExtension(extension)
  }

  function ExtensionItem(extension: string, p: CheckParams): seq<CheckItem> {
    When(IsUnregistered(extension, p), UnknownExtension)
  }

  function ExtensionItems(exts: seq<string>, p: CheckParams): seq<CheckItem> {
    if exts == [] then [] else ExtensionItems(exts[..|exts| - 1], p) + ExtensionItem(exts[|exts| - 1], p)
  }

  function ConformanceTree(exts: seq<string>, p: CheckParams): Checks {
    Checks(Structure.RdapConformance,
           When(p.parentType != p.context.rootType, RdapConformanceInvalidParent) + ExtensionItems(exts, p), [])
  }

  /** The `get_checks` of `RdapConformance`. */
  method CheckConformance(exts: seq<string>, p: CheckParams) returns (c: Checks)
    ensures c == ConformanceTree(exts, p)
  {
    var items := [];
    if p.parentType != p.context.rootType {
      items := items + [Item(RdapConformanceInvalidParent)];
    }
    ghost var first := items;
    for i := 0 to |exts|
      invariant items == first + ExtensionItems(exts[..i], p)
    {
      assert exts[..i + 1][..i] == exts[..i];
      if !p.context.allowUnregExt {
        if !p.context.recognizers.isExtension(exts[i]) {
          items := items + [Item(UnknownExtension)];
        }
      }
    }
    assert exts[..|exts|] == exts;
    c := Checks(Structure.RdapConformance, items, []);
  }

  predicate HasRelatedAndSelfLinks(t: TypeId) {
    t == DomainType || t == EntityType || t == AutnumType || t == NetworkType
  }

  function RelItems(link: R.Link, p: CheckParams): seq<CheckItem> {
    var rdap := link.mediaType == Some(R.RDAP_MEDIA_TYPE);
    match link.rel
    case None => [Item(LinkMissingRelProperty)]
    case Some("related") =>
      if link.mediaType.None? then [Item(LinkRelatedHasNoType)]
      else When(!rdap && HasRelatedAndSelfLinks(p.parentType), LinkRelatedIsNotRdap)
    case Some("self") =>
      if link.mediaType.None? then [Item(LinkSelfHasNoType)] else When(!rdap, LinkSelfIsNotRdap)
    case _ => When(HasRelatedAndSelfLinks(p.parentType) && p.context.rootType != NameserverType, LinkObjectClassHasNoSelf)
  }

  function LinkTree(link: R.Link, p: CheckParams): Checks {
    Checks(LinkStructure,
           When(link.value.None?, LinkMissingValueProperty) + When(link.href.None?, LinkMissingHrefProperty)
           + RelItems(link, p), [])
  }

  /** The `get_checks` of `Link`. */
  method CheckLink(link: R.Link, p: CheckParams) returns (c: Checks)
    ensures c == LinkTree(link, p)
  {
    var items := [];
    if link.value.None? {
      items := items + [Item(LinkMissingValueProperty)];
    }
    if link.href.None? {
      items := items + [Item(LinkMissingHrefProperty)];
    }
    if link.rel.Some? {
      var rel := link.rel.value;
      if rel == "related" {
        if link.mediaType.Some? {
          if link.mediaType.value != R.RDAP_MEDIA_TYPE && HasRelatedAndSelfLinks(p.parentType) {
            items := items + [Item(LinkRelatedIsNotRdap)];
          }
        } else {
          items := items + [Item(LinkRelatedHasNoType)];
        }
      } else if rel == "self" {
        if link.mediaType.Some? {
          if link.mediaType.value != R.RDAP_MEDIA_TYPE {
            items := items + [Item(LinkSelfIsNotRdap)];
          }
        } else {
          items := items + [Item(LinkSelfHasNoType)];
        }
      } else if HasRelatedAndSelfLinks(p.parentType) && p.context.rootType != NameserverType {
        items := items + [Item(LinkObjectClassHasNoSelf)];
      }
    } else {
      items := items + [Item(LinkMissingRelProperty)];
    }
    c := Checks(LinkStructure, items, []);
  }

  function LinkTrees(links: seq<R.Link>, p: CheckParams): seq<Checks> {
    if links == [] then []
    else LinkTrees(links[..|links| - 1], p) + [LinkTree(links[|links| - 1], p)]
  }

  method CheckEachLink(links: seq<R.Link>, p: CheckParams) returns (subChecks: seq<Checks>)
    ensures subChecks == LinkTrees(links, p)
  {
    subChecks := [];
    for i := 0 to |links|
      invariant subChecks == LinkTrees(links[..i], p)
    {
      assert links[..i + 1][..i] == links[..i];
      var c := CheckLink(links[i], p);
      subChecks := subChecks + [c];
    }
    assert links[..|links|] == links;
  }

  function LinksTree(links: seq<R.Link>, p: CheckParams): Checks {
    Checks(Structure.Links, [], if p.doSubchecks then LinkTrees(links, p) else [])
  }

  /** The `get_checks` of `Links`. */
  method CheckLinks(links: seq<R.Link>, p: CheckParams) returns (c: Checks)
    ensures c == LinksTree(links, p)
  {
    var subChecks := [];
    if p.doSubchecks {
      subChecks := CheckEachLink(links, p);
    }
    c := Checks(Structure.Links, [], subChecks);
  }

  function DescriptionItems(description: Option<Description>): seq<CheckItem> {
    match description
    case Some(One(_)) => [Item(NoticeOrRemarkDescriptionIsString)]
    case Some(Many(_)) => []
    case None => [Item(NoticeOrRemarkDescriptionIsAbsent)]
  }

  function NoteTree(note: NoticeOrRemark, p: CheckParams): Checks {
    Checks(Structure.NoticeOrRemark, DescriptionItems(note.description),
           if p.doSubchecks && note.links.Some? then LinkTrees(note.links.value, p.FromParent(NoticeOrRemarkType)) else [])
  }

  /** The `get_checks` of `NoticeOrRemark`. */
  method CheckNote(note: NoticeOrRemark, p: CheckParams) returns (c: Checks)
    ensures c == NoteTree(note, p)
  {
    var items := [];
    if note.description.Some? {
      if note.description.value.One? {
        items := items + [Item(NoticeOrRemarkDescriptionIsString)];
      }
    } else {
      items := items + [Item(NoticeOrRemarkDescriptionIsAbsent)];
    }
    var subChecks := [];
    if p.doSubchecks {
      if note.links.Some? {
        subChecks := CheckEachLink(note.links.value, p.FromParent(NoticeOrRemarkType));
      }
    }
    c := Checks(Structure.NoticeOrRemark, items, subChecks);
  }

  function NoteTrees(notes: seq<NoticeOrRemark>, p: CheckParams): seq<Checks> {
    if notes == [] then []
    else NoteTrees(notes[..|notes| - 1], p) + [NoteTree(notes[|notes| - 1], p)]
  }

  function NotesTree(rdapStruct: Structure, notes: seq<NoticeOrRemark>, p: CheckParams): Checks {
    Checks(rdapStruct, [], if p.doSubchecks then NoteTrees(notes, p) else [])
  }

  /** The `get_checks` of `Notices` and of `Remarks`. */
  method CheckNotes(rdapStruct: Structure, notes: seq<NoticeOrRemark>, p: CheckParams) returns (c: Checks)
    ensures c == NotesTree(rdapStruct, notes, p)
  {
    var subChecks := [];
    if p.doSubchecks {
      for i := 0 to |notes|
        invariant subChecks == NoteTrees(notes[..i], p)
      {
        assert notes[..i + 1][..i] == notes[..i];
        var note := CheckNote(notes[i], p);
        subChecks := subChecks + [note];
      }
      assert notes[..|notes|] == notes;
    }
    c := Checks(rdapStruct, [], subChecks);
  }

  function PublicIdSubs(id: PublicId): seq<Checks> {
    SubWhen(id.idType.None?, Structure.PublicIds, PublicIdTypeIsAbsent)
    + SubWhen(id.identifier.None?, Structure.PublicIds, PublicIdIdentifierIsAbsent)
  }

  function PublicIdTrees(ids: seq<PublicId>): seq<Checks> {
    if ids == [] then [] else PublicIdTrees(ids[..|ids| - 1]) + PublicIdSubs(ids[|ids| - 1])
  }

  /** The `get_sub_checks` of `PublicIds`. */
  method SubCheckPublicIds(ids: seq<PublicId>) returns (subChecks: seq<Checks>)
    ensures subChecks == PublicIdTrees(ids)
  {
    subChecks := [];
    for i := 0 to |ids|
      invariant subChecks == PublicIdTrees(ids[..i])
    {
      assert ids[..i + 1][..i] == ids[..i];
      if ids[i].idType.None? {
        subChecks := subChecks + [Single(Structure.PublicIds, PublicIdTypeIsAbsent)];
      }
      if ids[i].identifier.None? {
        subChecks := subChecks + [Single(Structure.PublicIds, PublicIdIdentifierIsAbsent)];
      }
    }
    assert ids[..|ids|] == ids;
  }

  function ConformancePart(common: Common, p: CheckParams): seq<Checks> {
    if p.doSubchecks && common.rdapConformance.Some? then [ConformanceTree(common.rdapConformance.value, p)] else []
  }

  function NoticePart(common: Common, p: CheckParams): seq<Checks> {
    if p.doSubchecks && common.notices.Some? then [NotesTree(Structure.Notices, common.notices.value, p)] else []
  }

  function MissingPart(common: Common, p: CheckParams): seq<Checks> {
    SubWhen(p.parentType == p.context.rootType && common.rdapConformance.None?, Structure.RdapConformance, RdapConformanceMissing)
  }

  function CommonTrees(common: Common, p: CheckParams): seq<Checks> {
    ConformancePart(common, p) + NoticePart(common, p) + MissingPart(common, p)
  }

  /** The `get_sub_checks` of `Common`. */
  method SubCheckCommon(common: Common, p: CheckParams) returns (subChecks: seq<Checks>)
    ensures subChecks == CommonTrees(common, p)
  {
    subChecks := [];
    if p.doSubchecks {
      if common.rdapConformance.Some? {
        var c := CheckConformance(common.rdapConformance.value, p);
        subChecks := subChecks + [c];
      }
      if common.notices.Some? {
        var c := CheckNotes(Structure.Notices, common.notices.value, p);
        subChecks := subChecks + [c];
      }
    }
    if p.parentType == p.context.rootType && common.rdapConformance.None? {
      subChecks := subChecks + [Single(Structure.RdapConformance, RdapConformanceMissing)];
    }
  }

  // ---- objects ----------------------------------------------------------------------------

  /** `is_whitespace_or_empty` */
  predicate IsBlank(s: string) {
    forall i :: 0 <= i < |s| ==> Text.IsWhitespace(s[i])
  }

  /** `is_empty_or_any_empty_or_whitespace` */
  predicate IsEmptyOrAnyBlank(ss: seq<string>) {
    ss == [] || exists i :: 0 <= i < |ss| && IsBlank(ss[i])
  }

  predicate HasWrongDate(event: Event, p: CheckParams) {
    event.eventDate.Some? && !p.context.recognizers.isRfc3339(event.eventDate.value)
  }

  function EventSubs(event: Event, p: CheckParams): seq<Checks> {
    SubWhen(HasWrongDate(event, p), Structure.Events, EventDateIsNotRfc3339)
    + SubWhen(event.eventDate.None?, Structure.Events, EventDateIsAbsent)
    + SubWhen(event.eventAction.None?, Structure.Events, EventActionIsAbsent)
  }

  function EventTrees(events: seq<Event>, p: CheckParams): seq<Checks> {
    if events == [] then [] else EventTrees(events[..|events| - 1], p) + EventSubs(events[|events| - 1], p)
  }

  method SubCheckEvent(event: Event, p: CheckParams) returns (subChecks: seq<Checks>)
    ensures subChecks == EventSubs(event, p)
  {
    subChecks := [];
    if event.eventDate.Some? {
      if !p.context.recognizers.isRfc3339(event.eventDate.value) {
        subChecks := subChecks + [Single(Structure.Events, EventDateIsNotRfc3339)];
      }
    } else {
      subChecks := subChecks + [Single(Structure.Events, EventDateIsAbsent)];
    }
    if event.eventAction.None? {
      subChecks := subChecks + [Single(Structure.Events, EventActionIsAbsent)];
    }
  }

  /** The events, as the `get_sub_checks` of `ObjectCommon` checks them. */
  method SubCheckEvents(events: seq<Event>, p: CheckParams) returns (subChecks: seq<Checks>)
    ensures subChecks == EventTrees(events, p)
  {
    subChecks := [];
    for i := 0 to |events|
      invariant subChecks == EventTrees(events[..i], p)
    {
      assert events[..i + 1][..i] == events[..i];
      var event := SubCheckEvent(events[i], p);
      subChecks := subChecks + event;
    }
    assert events[..|events|] == events;
  }

  function HandlePart(o: ObjectCommon): seq<Checks> {
    SubWhen(o.handle.Some? && IsBlank(o.handle.value), Structure.Handle, HandleIsEmpty)
  }

  function StatusPart(o: ObjectCommon): seq<Checks> {
    SubWhen(o.status.Some? && IsEmptyOrAnyBlank(o.status.value), Structure.Status, StatusIsEmpty)
  }

  function Port43Part(o: ObjectCommon): seq<Checks> {
    SubWhen(o.port43.Some? && IsBlank(o.port43.value), Structure.Port43, Port43IsEmpty)
  }

  function BlankTrees(o: ObjectCommon): seq<Checks> {
    HandlePart(o) + StatusPart(o) + Port43Part(o)
  }

  function LinkPart(o: ObjectCommon, p: CheckParams): seq<Checks> {
    if o.links.Some? then [LinksTree(o.links.value, p)]
    else SubWhen(p.context.rootType != NameserverType && p.parentType != NameserverType, Structure.Links, LinkObjectClassHasNoSelf)
  }

  function RemarkPart(o: ObjectCommon, p: CheckParams): seq<Checks> {
    if o.remarks.Some? then [NotesTree(Structure.Remarks, o.remarks.value, p)] else []
  }

  function EventPart(o: ObjectCommon, p: CheckParams): seq<Checks> {
    if o.events.Some? then EventTrees(o.events.value, p) else []
  }

  /** What an object contributes besides its entities. */
  function OwnTrees(o: ObjectCommon, p: CheckParams): seq<Checks> {
    LinkPart(o, p) + RemarkPart(o, p) + EventPart(o, p) + BlankTrees(o)
  }

  function ObjectTrees(o: ObjectCommon, p: CheckParams): seq<Checks>
    decreases o, 1
  {
    (if p.doSubchecks && o.entities.Entities? then EntityTrees(o.entities.list, p) else []) + OwnTrees(o, p)
  }

  function EntityTrees(es: seq<Entity>, p: CheckParams): seq<Checks>
    decreases es, 0
  {
    if es == [] then [] else EntityTrees(es[..|es| - 1], p) + [EntityTree(es[|es| - 1], p)]
  }

  function RoleItems(roles: seq<string>): seq<CheckItem> {
    if roles == [] then []
    else RoleItems(roles[..|roles| - 1]) + When(!IsKnownRole(roles[|roles| - 1]), UnknownRole)
  }

  /** Whether a role is registered. */
  predicate IsKnownRole(role: string) {
    role in ROLES
  }

  const ROLES: seq<string> :=
    ["registrant", "technical", "administrative", "abuse", "billing", "registrar", "reseller", "sponsor", "proxy",
     "notifications", "noc"]

  function VcardItems(vcard: seq<JsonValue.Value>, p: CheckParams): seq<CheckItem> {
    match p.context.readCard(vcard)
    case None => [Item(VcardArrayIsEmpty)]
    case Some(contact) =>
      if contact.fullName.None? then [Item(VcardHasNoFn)] else When(IsBlank(contact.fullName.value), VcardFnIsEmpty)
  }

  function RolePart(roles: Option<seq<string>>): seq<CheckItem> {
    if roles.None? then []
    else if IsEmptyOrAnyBlank(roles.value) then [Item(RoleIsEmpty)]
    else RoleItems(roles.value)
  }

  function VcardPart(vcard: Option<seq<JsonValue.Value>>, p: CheckParams): seq<CheckItem> {
    if vcard.None? then [] else VcardItems(vcard.value, p)
  }

  function EntityItems(e: Entity, p: CheckParams): seq<CheckItem> {
    RolePart(e.roles) + VcardPart(e.vcardArray, p)
  }

  function PublicIdPart(ids: Option<seq<PublicId>>): seq<Checks> {
    if ids.Some? then PublicIdTrees(ids.value) else []
  }

  function EntityTree(e: Entity, p: CheckParams): Checks
    decreases e
  {
    var q := p.FromParent(EntityType);
    Checks(EntityStructure, EntityItems(e, p),
           if p.doSubchecks then CommonTrees(e.common, q) + ObjectTrees(e.objectCommon, q) + PublicIdPart(e.publicIds)
           else [])
  }

  method SubCheckBlanks(o: ObjectCommon) returns (subChecks: seq<Checks>)
    ensures subChecks == BlankTrees(o)
  {
    subChecks := [];
    if o.handle.Some? && IsBlank(o.handle.value) {
      subChecks := subChecks + [Single(Structure.Handle, HandleIsEmpty)];
    }
    if o.status.Some? && IsEmptyOrAnyBlank(o.status.value) {
      subChecks := subChecks + [Single(Structure.Status, StatusIsEmpty)];
    }
    if o.port43.Some? && IsBlank(o.port43.value) {
      subChecks := subChecks + [Single(Structure.Port43, Port43IsEmpty)];
    }
  }

  method SubCheckOwn(o: ObjectCommon, p: CheckParams) returns (subChecks: seq<Checks>)
    ensures subChecks == OwnTrees(o, p)
  {
    subChecks := [];
    // links
    if o.links.Some? {
      var c := CheckLinks(o.links.value, p);
      subChecks := subChecks + [c];
    } else if p.context.rootType != NameserverType && p.parentType != NameserverType {
      subChecks := subChecks + [Single(Structure.Links, LinkObjectClassHasNoSelf)];
    }
    assert subChecks == LinkPart(o, p);
    // remarks
    if o.remarks.Some? {
      var c := CheckNotes(Structure.Remarks, o.remarks.value, p);
      subChecks := subChecks + [c];
    }
    assert subChecks == LinkPart(o, p) + RemarkPart(o, p);
    // events
    if o.events.Some? {
      var cs := SubCheckEvents(o.events.value, p);
      subChecks := subChecks + cs;
    }
    assert subChecks == LinkPart(o, p) + RemarkPart(o, p) + EventPart(o, p);
    var blanks := SubCheckBlanks(o);
    subChecks := subChecks + blanks;
  }

  /** The `get_sub_checks` of `ObjectCommon`. */
  method SubCheckObject(o: ObjectCommon, p: CheckParams) returns (subChecks: seq<Checks>)
    ensures subChecks == ObjectTrees(o, p)
    decreases o
  {
    subChecks := [];
    // entities
    if p.doSubchecks {
      if o.entities.Entities? {
        subChecks := CheckEachEntity(o.entities.list, p);
      }
    }
    var own := SubCheckOwn(o, p);
    subChecks := subChecks + own;
  }

  method CheckEachEntity(es: seq<Entity>, p: CheckParams) returns (subChecks: seq<Checks>)
    ensures subChecks == EntityTrees(es, p)
    decreases es
  {
    subChecks := [];
    for i := 0 to |es|
      invariant subChecks == EntityTrees(es[..i], p)
    {
      assert es[..i + 1][..i] == es[..i];
      var c := CheckEntity(es[i], p);
      subChecks := subChecks + [c];
    }
    assert es[..|es|] == es;
  }

  method CheckRoles(roles: seq<string>) returns (items: seq<CheckItem>)
    ensures items == if IsEmptyOrAnyBlank(roles) then [Item(RoleIsEmpty)] else RoleItems(roles)
  {
    items := [];
    if IsEmptyOrAnyBlank(roles) {
      items := items + [Item(RoleIsEmpty)];
    } else {
      for i := 0 to |roles|
        invariant items == RoleItems(roles[..i])
      {
        assert roles[..i + 1][..i] == roles[..i];
        if !IsKnownRole(roles[i]) {
          items := items + [Item(UnknownRole)];
        }
      }
      assert roles[..|roles|] == roles;
    }
  }

  method CheckVcard(vcard: seq<JsonValue.Value>, p: CheckParams) returns (items: seq<CheckItem>)
    ensures items == VcardItems(vcard, p)
  {
    items := [];
    var contact := p.context.readCard(vcard);
    if contact.Some? {
      if contact.value.fullName.Some? {
        if IsBlank(contact.value.fullName.value) {
          items := items + [Item(VcardFnIsEmpty)];
        }
      } else {
        items := items + [Item(VcardHasNoFn)];
      }
    } else {
      items := items + [Item(VcardArrayIsEmpty)];
    }
  }

  method CheckEntityFields(e: Entity, p: CheckParams) returns (items: seq<CheckItem>)
    ensures items == EntityItems(e, p)
  {
    items := [];
    if e.roles.Some? {
      items := CheckRoles(e.roles.value);
    }
    if e.vcardArray.Some? {
      var vcard := CheckVcard(e.vcardArray.value, p);
      items := items + vcard;
    }
  }

  /** The `get_checks` of `Entity`. */
  method CheckEntity(e: Entity, p: CheckParams) returns (c: Checks)
    ensures c == EntityTree(e, p)
    decreases e
  {
    var subChecks := [];
    if p.doSubchecks {
      subChecks := SubCheckCommon(e.common, p.FromParent(EntityType));
      var object_ := SubCheckObject(e.objectCommon, p.FromParent(EntityType));
      subChecks := subChecks + object_;
      if e.publicIds.Some? {
        var ids := SubCheckPublicIds(e.publicIds.value);
        subChecks := subChecks + ids;
      }
    }
    var items := CheckEntityFields(e, p);
    c := Checks(EntityStructure, items, subChecks);
  }

  // ---- the other responses ----------------------------------------------------------------

  function FieldItems(results: seq<FieldResult>): seq<CheckItem> {
    if results == [] then [] else FieldItems(results[..|results| - 1]) + [Item(results[|results| - 1])]
  }

  /** The sub-checks every object makes of itself. */
  function ObjectPart(common: Common, o: ObjectCommon, p: CheckParams): seq<Checks> {
    CommonTrees(common, p) + ObjectTrees(o, p)
  }

  method SubCheckBoth(common: Common, o: ObjectCommon, p: CheckParams) returns (subChecks: seq<Checks>)
    ensures subChecks == ObjectPart(common, o, p)
  {
    subChecks := SubCheckCommon(common, p);
    var object_ := SubCheckObject(o, p);
    subChecks := subChecks + object_;
  }

  function DomainTree(d: Domain, p: CheckParams): Checks {
    Checks(DomainStructure, FieldItems(d.fieldResults),
           if p.doSubchecks then ObjectPart(d.common, d.objectCommon, p.FromParent(DomainType)) + PublicIdPart(d.publicIds)
           else [])
  }

  /** The `get_checks` of `Domain`. */
  method CheckDomain(d: Domain, p: CheckParams) returns (c: Checks)
    ensures c == DomainTree(d, p)
  {
    var subChecks := [];
    if p.doSubchecks {
      subChecks := SubCheckBoth(d.common, d.objectCommon, p.FromParent(DomainType));
      if d.publicIds.Some? {
        var ids := SubCheckPublicIds(d.publicIds.value);
        subChecks := subChecks + ids;
      }
    }
    c := Checks(DomainStructure, FieldItems(d.fieldResults), subChecks);
  }

  function NameserverTree(n: Nameserver, p: CheckParams): Checks {
    Checks(NameserverStructure, FieldItems(n.fieldResults),
           if p.doSubchecks then ObjectPart(n.common, n.objectCommon, p.FromParent(NameserverType)) else [])
  }

  /** The `get_checks` of `Nameserver`. */
  method CheckNameserver(n: Nameserver, p: CheckParams) returns (c: Checks)
    ensures c == NameserverTree(n, p)
  {
    var subChecks := [];
    if p.doSubchecks {
      subChecks := SubCheckBoth(n.common, n.objectCommon, p.FromParent(NameserverType));
    }
    c := Checks(NameserverStructure, FieldItems(n.fieldResults), subChecks);
  }

  function AutnumTree(a: Autnum, p: CheckParams): Checks {
    Checks(AutnumStructure, FieldItems(a.fieldResults),
           if p.doSubchecks then ObjectPart(a.common, a.objectCommon, p.FromParent(AutnumType)) else [])
  }

  /** The `get_checks` of `Autnum`. */
  method CheckAutnum(a: Autnum, p: CheckParams) returns (c: Checks)
    ensures c == AutnumTree(a, p)
  {
    var subChecks := [];
    if p.doSubchecks {
      subChecks := SubCheckBoth(a.common, a.objectCommon, p.FromParent(AutnumType));
    }
    c := Checks(AutnumStructure, FieldItems(a.fieldResults), subChecks);
  }

  function NoPrefix(cidr: Cidr0Cidr): Check {
    if cidr.V4Cidr? then Cidr0V4PrefixIsAbsent else Cidr0V6PrefixIsAbsent
  }

  function NoLength(cidr: Cidr0Cidr): Check {
    if cidr.V4Cidr? then Cidr0V4LengthIsAbsent else Cidr0V6LengthIsAbsent
  }

  function CidrSubs(cidr: Cidr0Cidr): seq<Checks> {
    SubWhen(cidr.prefix.None?, Structure.Cidr0, NoPrefix(cidr)) + SubWhen(cidr.length.None?, Structure.Cidr0, NoLength(cidr))
  }

  function CidrTrees(cidrs: seq<Cidr0Cidr>): seq<Checks> {
    if cidrs == [] then [] else CidrTrees(cidrs[..|cidrs| - 1]) + CidrSubs(cidrs[|cidrs| - 1])
  }

  method SubCheckCidr(cidr: Cidr0Cidr) returns (subChecks: seq<Checks>)
    ensures subChecks == CidrSubs(cidr)
  {
    subChecks := [];
    match cidr {
      case V4Cidr(prefix, length) =>
        if prefix.None? {
          subChecks := subChecks + [Single(Structure.Cidr0, Cidr0V4PrefixIsAbsent)];
        }
        if length.None? {
          subChecks := subChecks + [Single(Structure.Cidr0, Cidr0V4LengthIsAbsent)];
        }
      case V6Cidr(prefix, length) =>
        if prefix.None? {
          subChecks := subChecks + [Single(Structure.Cidr0, Cidr0V6PrefixIsAbsent)];
        }
        if length.None? {
          subChecks := subChecks + [Single(Structure.Cidr0, Cidr0V6LengthIsAbsent)];
        }
    }
  }

  method SubCheckCidrs(cidrs: seq<Cidr0Cidr>) returns (subChecks: seq<Checks>)
    ensures subChecks == CidrTrees(cidrs)
  {
    subChecks := [];
    for i := 0 to |cidrs|
      invariant subChecks == CidrTrees(cidrs[..i])
    {
      assert cidrs[..i + 1][..i] == cidrs[..i];
      var cidr := SubCheckCidr(cidrs[i]);
      subChecks := subChecks + cidr;
    }
    assert cidrs[..|cidrs|] == cidrs;
  }

  function CidrPart(cidrs: Option<seq<Cidr0Cidr>>): seq<Checks> {
    if cidrs.Some? then CidrTrees(cidrs.value) else []
  }

  function NetworkTree(n: Network, p: CheckParams): Checks {
    Checks(IpNetwork, FieldItems(n.fieldResults),
           if p.doSubchecks then ObjectPart(n.common, n.objectCommon, p.FromParent(NetworkType)) + CidrPart(n.cidr0Cidrs)
           else [])
  }

  /** The `get_checks` of `Network`. */
  method CheckNetwork(n: Network, p: CheckParams) returns (c: Checks)
    ensures c == NetworkTree(n, p)
  {
    var subChecks := [];
    if p.doSubchecks {
      subChecks := SubCheckBoth(n.common, n.objectCommon, p.FromParent(NetworkType));
      if n.cidr0Cidrs.Some? {
        var cidrs := SubCheckCidrs(n.cidr0Cidrs.value);
        subChecks := subChecks + cidrs;
      }
    }
    c := Checks(IpNetwork, FieldItems(n.fieldResults), subChecks);
  }

  function DomainTrees(ds: seq<Domain>, p: CheckParams): seq<Checks> {
    if ds == [] then [] else DomainTrees(ds[..|ds| - 1], p) + [DomainTree(ds[|ds| - 1], p)]
  }

  function NameserverTrees(ns: seq<Nameserver>, p: CheckParams): seq<Checks> {
    if ns == [] then [] else NameserverTrees(ns[..|ns| - 1], p) + [NameserverTree(ns[|ns| - 1], p)]
  }

  method CheckEachDomain(ds: seq<Domain>, p: CheckParams) returns (subChecks: seq<Checks>)
    ensures subChecks == DomainTrees(ds, p)
  {
    subChecks := [];
    for i := 0 to |ds|
      invariant subChecks == DomainTrees(ds[..i], p)
    {
      assert ds[..i + 1][..i] == ds[..i];
      var c := CheckDomain(ds[i], p);
      subChecks := subChecks + [c];
    }
    assert ds[..|ds|] == ds;
  }

  /** The shared fields of a search, error or help response, followed by the trees of the search members. */
  function WithMembers(rdapStruct: Structure, common: Common, p: CheckParams, trees: seq<Checks>): Checks {
    Checks(rdapStruct, [], if p.doSubchecks then CommonTrees(common, p) + trees else [])
  }

  function DomainSearchTree(common: Common, results: seq<Domain>, p: CheckParams): Checks {
    var q := p.FromParent(DomainSearchType);
    WithMembers(Structure.DomainSearchResults, common, q, DomainTrees(results, q))
  }

  /** The `get_checks` of `DomainSearchResults`. */
  method CheckDomainSearch(common: Common, results: seq<Domain>, p: CheckParams) returns (c: Checks)
    ensures c == DomainSearchTree(common, results, p)
  {
    var subChecks := [];
    if p.doSubchecks {
      subChecks := SubCheckCommon(common, p.FromParent(DomainSearchType));
      var found := CheckEachDomain(results, p.FromParent(DomainSearchType));
      subChecks := subChecks + found;
    }
    c := Checks(Structure.DomainSearchResults, [], subChecks);
  }

  method CheckEachNameserver(ns: seq<Nameserver>, p: CheckParams) returns (subChecks: seq<Checks>)
    ensures subChecks == NameserverTrees(ns, p)
  {
    subChecks := [];
    for i := 0 to |ns|
      invariant subChecks == NameserverTrees(ns[..i], p)
    {
      assert ns[..i + 1][..i] == ns[..i];
      var c := CheckNameserver(ns[i], p);
      subChecks := subChecks + [c];
    }
    assert ns[..|ns|] == ns;
  }

  function NameserverSearchTree(common: Common, results: seq<Nameserver>, p: CheckParams): Checks {
    var q := p.FromParent(NameserverSearchType);
    WithMembers(Structure.NameserverSearchResults, common, q, NameserverTrees(results, q))
  }

  /** The `get_checks` of `NameserverSearchResults`. */
  method CheckNameserverSearch(common: Common, results: seq<Nameserver>, p: CheckParams) returns (c: Checks)
    ensures c == NameserverSearchTree(common, results, p)
  {
    var subChecks := [];
    if p.doSubchecks {
      subChecks := SubCheckCommon(common, p.FromParent(NameserverSearchType));
      var found := CheckEachNameserver(results, p.FromParent(NameserverSearchType));
      subChecks := subChecks + found;
    }
    c := Checks(Structure.NameserverSearchResults, [], subChecks);
  }

  function EntitySearchTree(common: Common, results: seq<Entity>, p: CheckParams): Checks {
    var q := p.FromParent(EntitySearchType);
    WithMembers(Structure.EntitySearchResults, common, q, EntityTrees(results, q))
  }

  /** The `get_checks` of `EntitySearchResults`. */
  method CheckEntitySearch(common: Common, results: seq<Entity>, p: CheckParams) returns (c: Checks)
    ensures c == EntitySearchTree(common, results, p)
  {
    var subChecks := [];
    if p.doSubchecks {
      subChecks := SubCheckCommon(common, p.FromParent(EntitySearchType));
      var found := CheckEachEntity(results, p.FromParent(EntitySearchType));
      subChecks := subChecks + found;
    }
    c := Checks(Structure.EntitySearchResults, [], subChecks);
  }

  function CommonOnlyTree(rdapStruct: Structure, type_: TypeId, common: Common, p: CheckParams): Checks {
    WithMembers(rdapStruct, common, p.FromParent(type_), [])
  }

  /** The `get_checks` of `Error` and of `Help`. */
  method CheckCommonOnly(rdapStruct: Structure, type_: TypeId, common: Common, p: CheckParams) returns (c: Checks)
    ensures c == CommonOnlyTree(rdapStruct, type_, common, p)
  {
    var subChecks := [];
    if p.doSubchecks {
      subChecks := SubCheckCommon(common, p.FromParent(type_));
      assert subChecks + [] == subChecks;
    }
    c := Checks(rdapStruct, [], subChecks);
  }

  function ResponseTree(r: RdapResponse, p: CheckParams): Checks {
    match r
    case EntityRoot(e) => EntityTree(e, p)
    case DomainRoot(d) => DomainTree(d, p)
    case NameserverRoot(n) => NameserverTree(n, p)
    case AutnumRoot(a) => AutnumTree(a, p)
    case NetworkRoot(n) => NetworkTree(n, p)
    case DomainSearchRoot(common, results) => DomainSearchTree(common, results, p)
    case EntitySearchRoot(common, results) => EntitySearchTree(common, results, p)
    case NameserverSearchRoot(common, results) => NameserverSearchTree(common, results, p)
    case ErrorRoot(common) => CommonOnlyTree(ErrorStructure, ErrorType, common, p)
    case HelpRoot(common) => CommonOnlyTree(HelpStructure, HelpType, common, p)
  }

  /** The `get_checks` of `RdapResponse`. */
  method CheckResponse(r: RdapResponse, p: CheckParams) returns (c: Checks)
    ensures c == ResponseTree(r, p)
  {
    match r {
      case EntityRoot(e) => c := CheckEntity(e, p);
      case DomainRoot(d) => c := CheckDomain(d, p);
      case NameserverRoot(n) => c := CheckNameserver(n, p);
      case AutnumRoot(a) => c := CheckAutnum(a, p);
      case NetworkRoot(n) => c := CheckNetwork(n, p);
      case DomainSearchRoot(common, results) => c := CheckDomainSearch(common, results, p);
      case EntitySearchRoot(common, results) => c := CheckEntitySearch(common, results, p);
      case NameserverSearchRoot(common, results) => c := CheckNameserverSearch(common, results, p);
      case ErrorRoot(common) => c := CheckCommonOnly(ErrorStructure, ErrorType, common, p);
      case HelpRoot(common) => c := CheckCommonOnly(HelpStructure, HelpType, common, p);
    }
  }
}
