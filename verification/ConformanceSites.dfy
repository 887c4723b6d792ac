/**
 What the checks of a response report, said without the tree: each check is about one kind of site,
 and is reported once for every site, at any depth that the checks visit, that offends against it.
 */
module ConformanceSites {
  import opened Wrappers
  import opened Sequences
  import opened CheckTree
  import opened ConformanceChecks
  import JcardReader
  import Text
  import JsonValue
  import R = Responses

  // ---- sites ------------------------------------------------------------------------------

  datatype Site =
    | CommonSite(common: Common, ofType: TypeId)
    | ExtensionSite(extension: string)
    | LinkSite(link: R.Link, parent: TypeId)
    | NoLinksSite(ofObject: TypeId)
    | NoteSite(note: NoticeOrRemark)
    | EventSite(event: Event)
    | HandleSite(handle: string)
    | StatusSite(status: seq<string>)
    | Port43Site(port43: string)
    | PublicIdSite(id: PublicId)
    | CidrSite(cidr: Cidr0Cidr)
    | RolesSite(roles: seq<string>)
    | RoleSite(role: string, amongBlanks: bool)
    | VcardSite(vcard: seq<JsonValue.Value>)
    | FieldSite(result: FieldResult)

  /** Everything but the fields shared with the root. */
  type Detail = s: Site | !s.CommonSite? witness ExtensionSite("")

  /** Without a character that is not white space. */
  predicate Blank(text: string) {
    Text.Trim(text) == ""
  }

  predicate NoneOrBlank(texts: seq<string>) {
    texts == [] || exists text :: text in texts && Blank(text)
  }

  lemma BlankExactly(text: string)
    ensures IsBlank(text) <==> Blank(text)
  {
    Text.TrimmedToNothing(text);
  }

  lemma NoneOrBlankExactly(texts: seq<string>)
    ensures IsEmptyOrAnyBlank(texts) <==> NoneOrBlank(texts)
  {
    forall text
      ensures IsBlank(text) <==> Blank(text)
    {
      BlankExactly(text);
    }
    if text :| text in texts && Blank(text) {
      var i :| 0 <= i < |texts| && texts[i] == text;
      assert IsBlank(texts[i]);
    }
  }

  /** The roles of section 10.2.4 of RFC 9083. */
  predicate IsRegisteredRole(role: string) {
    || role == "registrant" || role == "technical" || role == "administrative" || role == "abuse" || role == "billing"
    || role == "registrar" || role == "reseller" || role == "sponsor" || role == "proxy" || role == "notifications"
    || role == "noc"
  }

  lemma RolesAreEleven(role: string)
    ensures IsKnownRole(role) <==> IsRegisteredRole(role)
  {
    assert |ROLES| == 11;
    assert ROLES[0] == "registrant" && ROLES[1] == "technical" && ROLES[2] == "administrative" && ROLES[3] == "abuse";
    assert ROLES[4] == "billing" && ROLES[5] == "registrar" && ROLES[6] == "reseller" && ROLES[7] == "sponsor";
    assert ROLES[8] == "proxy" && ROLES[9] == "notifications" && ROLES[10] == "noc";
  }

  /** The classes of objects that are found by a link to themselves. */
  predicate IsLinkedClass(t: TypeId) {
    t in {DomainType, EntityType, AutnumType, NetworkType}
  }

  predicate HasRel(link: R.Link, rel: string) {
    link.rel == Some(rel)
  }

  predicate IsRdap(link: R.Link) {
    link.mediaType == Some(R.RDAP_MEDIA_TYPE)
  }

  /** The full name in a card, or none if the card is not one or has none. */
  function FullName(vcard: seq<JsonValue.Value>, ctx: Context): Option<string> {
    match ctx.readCard(vcard)
    case Some(contact) => contact.fullName
    case None => None
  }

  predicate IsCard(vcard: seq<JsonValue.Value>, ctx: Context) {
    ctx.readCard(vcard).Some?
  }

  // What each check finds fault with, by the kind of site.

  predicate CommonOffends(check: Check, common: Common, ofType: TypeId, ctx: Context) {
    match check
    case RdapConformanceMissing => ofType == ctx.rootType && common.rdapConformance.None?
    case RdapConformanceInvalidParent => ofType != ctx.rootType && common.rdapConformance.Some?
    case _ => false
  }

  predicate ExtensionOffends(check: Check, extension: string, ctx: Context) {
    check == UnknownExtension && !ctx.allowUnregExt && !ctx.recognizers.isExtension(extension)
  }

  predicate LinkOffends(check: Check, link: R.Link, parent: TypeId, ctx: Context) {
    match check
    case LinkMissingValueProperty => link.value.None?
    case LinkMissingHrefProperty => link.href.None?
    case LinkMissingRelProperty => link.rel.None?
    case LinkRelatedHasNoType => HasRel(link, "related") && link.mediaType.None?
    case LinkRelatedIsNotRdap =>
      HasRel(link, "related") && link.mediaType.Some? && !IsRdap(link) && IsLinkedClass(parent)
    case LinkSelfHasNoType => HasRel(link, "self") && link.mediaType.None?
    case LinkSelfIsNotRdap => HasRel(link, "self") && link.mediaType.Some? && !IsRdap(link)
    case LinkObjectClassHasNoSelf =>
      && link.rel.Some? && !HasRel(link, "related") && !HasRel(link, "self")
      && IsLinkedClass(parent) && ctx.rootType != NameserverType
    case _ => false
  }

  predicate NoLinksOffends(check: Check, ofObject: TypeId, ctx: Context) {
    check == LinkObjectClassHasNoSelf && ctx.rootType != NameserverType && ofObject != NameserverType
  }

  predicate NoteOffends(check: Check, note: NoticeOrRemark) {
    match check
    case NoticeOrRemarkDescriptionIsAbsent => note.description.None?
    case NoticeOrRemarkDescriptionIsString => note.description.Some? && note.description.value.One?
    case _ => false
  }

  predicate EventOffends(check: Check, event: Event, ctx: Context) {
    match check
    case EventDateIsAbsent => event.eventDate.None?
    case EventDateIsNotRfc3339 => event.eventDate.Some? && !ctx.recognizers.isRfc3339(event.eventDate.value)
    case EventActionIsAbsent => event.eventAction.None?
    case _ => false
  }

  predicate PublicIdOffends(check: Check, id: PublicId) {
    match check
    case PublicIdTypeIsAbsent => id.idType.None?
    case PublicIdIdentifierIsAbsent => id.identifier.None?
    case _ => false
  }

  predicate CidrOffends(check: Check, cidr: Cidr0Cidr) {
    match check
    case Cidr0V4PrefixIsAbsent => cidr.V4Cidr? && cidr.prefix.None?
    case Cidr0V4LengthIsAbsent => cidr.V4Cidr? && cidr.length.None?
    case Cidr0V6PrefixIsAbsent => cidr.V6Cidr? && cidr.prefix.None?
    case Cidr0V6LengthIsAbsent => cidr.V6Cidr? && cidr.length.None?
    case _ => false
  }

  predicate VcardOffends(check: Check, vcard: seq<JsonValue.Value>, ctx: Context) {
    match check
    case VcardArrayIsEmpty => !IsCard(vcard, ctx)
    case VcardHasNoFn => IsCard(vcard, ctx) && FullName(vcard, ctx).None?
    case VcardFnIsEmpty => FullName(vcard, ctx).Some? && Blank(FullName(vcard, ctx).value)
    case _ => false
  }

  predicate Offends(check: Check, site: Site, ctx: Context) {
    match site
    case CommonSite(common, ofType) => CommonOffends(check, common, ofType, ctx)
    case ExtensionSite(extension) => ExtensionOffends(check, extension, ctx)
    case LinkSite(link, parent) => LinkOffends(check, link, parent, ctx)
    case NoLinksSite(ofObject) => NoLinksOffends(check, ofObject, ctx)
    case NoteSite(note) => NoteOffends(check, note)
    case EventSite(event) => EventOffends(check, event, ctx)
    case HandleSite(handle) => check == HandleIsEmpty && Blank(handle)
    case StatusSite(status) => check == StatusIsEmpty && NoneOrBlank(status)
    case Port43Site(port43) => check == Port43IsEmpty && Blank(port43)
    case PublicIdSite(id) => PublicIdOffends(check, id)
    case CidrSite(cidr) => CidrOffends(check, cidr)
    case RolesSite(roles) => check == RoleIsEmpty && NoneOrBlank(roles)
    case RoleSite(role, amongBlanks) => check == UnknownRole && !amongBlanks && !IsRegisteredRole(role)
    case VcardSite(vcard) => VcardOffends(check, vcard, ctx)
    case FieldSite(result) => check == result
  }

  function Bit(b: bool): nat {
    if b then 1 else 0
  }

  /** How many of the sites offend against the check. */
  function Offences(check: Check, sites: seq<Site>, ctx: Context): nat {
    if sites == [] then 0
    else Offences(check, sites[..|sites| - 1], ctx) + Bit(Offends(check, sites[|sites| - 1], ctx))
  }

  lemma {:induction false} OffencesAppend(check: Check, xs: seq<Site>, ys: seq<Site>, ctx: Context)
    ensures Offences(check, xs + ys, ctx) == Offences(check, xs, ctx) + Offences(check, ys, ctx)
  {
    if ys == [] {
      assert xs + ys == xs;
    } else {
      OffencesAppend(check, xs, ys[..|ys| - 1], ctx);
      assert (xs + ys)[..|xs + ys| - 1] == xs + ys[..|ys| - 1];
    }
  }

  lemma OffencesOne(check: Check, site: Site, ctx: Context)
    ensures Offences(check, [site], ctx) == Bit(Offends(check, site, ctx))
  {
    assert [site][..0] == [];
  }

  lemma OffencesLast(check: Check, front: seq<Site>, last: Site, ctx: Context)
    ensures Offences(check, front + [last], ctx) == Offences(check, front, ctx) + Bit(Offends(check, last, ctx))
  {
    assert (front + [last])[..|front|] == front;
  }

  // ---- the sites of a response ------------------------------------------------------------

  function ExtensionSites(exts: seq<string>): seq<Detail> {
    if exts == [] then [] else ExtensionSites(exts[..|exts| - 1]) + [ExtensionSite(exts[|exts| - 1])]
  }

  function LinkSites(links: seq<R.Link>, parent: TypeId): seq<Detail> {
    if links == [] then [] else LinkSites(links[..|links| - 1], parent) + [LinkSite(links[|links| - 1], parent)]
  }

  function NoteOwnSites(note: NoticeOrRemark): seq<Detail> {
    [NoteSite(note)] + (if note.links.Some? then LinkSites(note.links.value, NoticeOrRemarkType) else [])
  }

  function NoteSites(notes: seq<NoticeOrRemark>): seq<Detail> {
    if notes == [] then [] else NoteSites(notes[..|notes| - 1]) + NoteOwnSites(notes[|notes| - 1])
  }

  function EventSites(events: seq<Event>): seq<Detail> {
    if events == [] then [] else EventSites(events[..|events| - 1]) + [EventSite(events[|events| - 1])]
  }

  function PublicIdSites(ids: seq<PublicId>): seq<Detail> {
    if ids == [] then [] else PublicIdSites(ids[..|ids| - 1]) + [PublicIdSite(ids[|ids| - 1])]
  }

  function CidrSites(cidrs: seq<Cidr0Cidr>): seq<Detail> {
    if cidrs == [] then [] else CidrSites(cidrs[..|cidrs| - 1]) + [CidrSite(cidrs[|cidrs| - 1])]
  }

  function RoleSites(roles: seq<string>, amongBlanks: bool): seq<Detail> {
    if roles == [] then [] else RoleSites(roles[..|roles| - 1], amongBlanks) + [RoleSite(roles[|roles| - 1], amongBlanks)]
  }

  function FieldSites(results: seq<FieldResult>): seq<Detail> {
    if results == [] then [] else FieldSites(results[..|results| - 1]) + [FieldSite(results[|results| - 1])]
  }

  function ExtensionDetails(common: Common): seq<Detail> {
    if common.rdapConformance.Some? then ExtensionSites(common.rdapConformance.value) else []
  }

  function NoticeDetails(common: Common): seq<Detail> {
    if common.notices.Some? then NoteSites(common.notices.value) else []
  }

  function CommonDetails(common: Common): seq<Detail> {
    ExtensionDetails(common) + NoticeDetails(common)
  }

  function LinkDetails(o: ObjectCommon, ofType: TypeId): seq<Detail> {
    if o.links.Some? then LinkSites(o.links.value, ofType) else [NoLinksSite(ofType)]
  }

  function RemarkDetails(o: ObjectCommon): seq<Detail> {
    if o.remarks.Some? then NoteSites(o.remarks.value) else []
  }

  function EventDetails(o: ObjectCommon): seq<Detail> {
    if o.events.Some? then EventSites(o.events.value) else []
  }

  function HandleDetails(o: ObjectCommon): seq<Detail> {
    if o.handle.Some? then [HandleSite(o.handle.value)] else []
  }

  function StatusDetails(o: ObjectCommon): seq<Detail> {
    if o.status.Some? then [StatusSite(o.status.value)] else []
  }

  function Port43Details(o: ObjectCommon): seq<Detail> {
    if o.port43.Some? then [Port43Site(o.port43.value)] else []
  }

  function TextDetails(o: ObjectCommon): seq<Detail> {
    HandleDetails(o) + StatusDetails(o) + Port43Details(o)
  }

  /** The sites of an object itself, without those of its entities. */
  function ObjectDetails(o: ObjectCommon, ofType: TypeId): seq<Detail> {
    LinkDetails(o, ofType) + RemarkDetails(o) + EventDetails(o) + TextDetails(o)
  }

  function IdDetails(ids: Option<seq<PublicId>>): seq<Detail> {
    if ids.Some? then PublicIdSites(ids.value) else []
  }

  function CidrDetails(cidrs: Option<seq<Cidr0Cidr>>): seq<Detail> {
    if cidrs.Some? then CidrSites(cidrs.value) else []
  }

  function RoleDetails(roles: Option<seq<string>>): seq<Detail> {
    if roles.Some? then [RolesSite(roles.value)] + RoleSites(roles.value, NoneOrBlank(roles.value)) else []
  }

  function VcardDetails(vcard: Option<seq<JsonValue.Value>>): seq<Detail> {
    if vcard.Some? then [VcardSite(vcard.value)] else []
  }

  /** A structure that the checks visit: the root, a nested entity, or a search member. */
  datatype Node = Node(
    ofType: TypeId,
    common: Common,
    objectCommon: Option<ObjectCommon>,
    publicIds: Option<seq<PublicId>>,
    cidrs: Option<seq<Cidr0Cidr>>,
    roles: Option<seq<string>>,
    vcard: Option<seq<JsonValue.Value>>,
    fields: seq<FieldResult>)

  function EntityNode(e: Entity): Node {
    Node(EntityType, e.common, Some(e.objectCommon), e.publicIds, None, e.roles, e.vcardArray, [])
  }

  function DomainNode(d: Domain): Node {
    Node(DomainType, d.common, Some(d.objectCommon), d.publicIds, None, None, None, d.fieldResults)
  }

  function NameserverNode(n: Nameserver): Node {
    Node(NameserverType, n.common, Some(n.objectCommon), None, None, None, None, n.fieldResults)
  }

  function AutnumNode(a: Autnum): Node {
    Node(AutnumType, a.common, Some(a.objectCommon), None, None, None, None, a.fieldResults)
  }

  function NetworkNode(n: Network): Node {
    Node(NetworkType, n.common, Some(n.objectCommon), None, n.cidr0Cidrs, None, None, n.fieldResults)
  }

  function CommonNode(ofType: TypeId, common: Common): Node {
    Node(ofType, common, None, None, None, None, None, [])
  }

  /** The sites that come before those shared by all objects, and those that come after. */
  function FirstDetails(n: Node): seq<Detail> {
    FieldSites(n.fields) + RoleDetails(n.roles) + VcardDetails(n.vcard)
  }

  function LastDetails(n: Node): seq<Detail> {
    IdDetails(n.publicIds) + CidrDetails(n.cidrs)
  }

  function SharedDetails(n: Node): seq<Detail> {
    if n.objectCommon.Some? then ObjectDetails(n.objectCommon.value, n.ofType) else []
  }

  function NodeDetails(n: Node): seq<Detail> {
    FirstDetails(n) + CommonDetails(n.common) + SharedDetails(n) + LastDetails(n)
  }

  function NestedNodes(o: ObjectCommon): seq<Node>
    decreases o, 1
  {
    if o.entities.Entities? then ListNodes(o.entities.list) else []
  }

  function ListNodes(es: seq<Entity>): seq<Node>
    decreases es, 0
  {
    if es == [] then [] else ListNodes(es[..|es| - 1]) + EntityNodes(es[|es| - 1])
  }

  /** An entity and all entities nested in it, at any depth. */
  function EntityNodes(e: Entity): seq<Node>
    decreases e
  {
    [EntityNode(e)] + NestedNodes(e.objectCommon)
  }

  function DomainNodes(ds: seq<Domain>): seq<Node> {
    if ds == [] then []
    else DomainNodes(ds[..|ds| - 1]) + ([DomainNode(ds[|ds| - 1])] + NestedNodes(ds[|ds| - 1].objectCommon))
  }

  function NameserverNodes(ns: seq<Nameserver>): seq<Node> {
    if ns == [] then []
    else NameserverNodes(ns[..|ns| - 1]) + ([NameserverNode(ns[|ns| - 1])] + NestedNodes(ns[|ns| - 1].objectCommon))
  }

  function RootNode(r: RdapResponse): Node {
    match r
    case EntityRoot(e) => EntityNode(e)
    case DomainRoot(d) => DomainNode(d)
    case NameserverRoot(n) => NameserverNode(n)
    case AutnumRoot(a) => AutnumNode(a)
    case NetworkRoot(n) => NetworkNode(n)
    case _ => CommonNode(r.Type(), r.RootCommon())
  }

  /** What the checks visit below the root: nested entities and search members. */
  function NodesBelow(r: RdapResponse): seq<Node> {
    match r
    case EntityRoot(e) => NestedNodes(e.objectCommon)
    case DomainRoot(d) => NestedNodes(d.objectCommon)
    case NameserverRoot(n) => NestedNodes(n.objectCommon)
    case AutnumRoot(a) => NestedNodes(a.objectCommon)
    case NetworkRoot(n) => NestedNodes(n.objectCommon)
    case DomainSearchRoot(_, results) => DomainNodes(results)
    case EntitySearchRoot(_, results) => ListNodes(results)
    case NameserverSearchRoot(_, results) => NameserverNodes(results)
    case ErrorRoot(_) => []
    case HelpRoot(_) => []
  }

  function Nodes(r: RdapResponse): seq<Node> {
    [RootNode(r)] + NodesBelow(r)
  }

  function NodeOffences(check: Check, n: Node, ctx: Context): nat {
    Bit(Offends(check, CommonSite(n.common, n.ofType), ctx)) + Offences(check, NodeDetails(n), ctx)
  }

  function OffencesOf(check: Check, ctx: Context): Node -> nat {
    (n: Node) => NodeOffences(check, n, ctx)
  }

  /** How many sites of the structures offend against the check. */
  function AllOffences(check: Check, nodes: seq<Node>, ctx: Context): nat {
    Sum(OffencesOf(check, ctx), nodes)
  }

  lemma AllOffencesAppend(check: Check, xs: seq<Node>, ys: seq<Node>, ctx: Context)
    ensures AllOffences(check, xs + ys, ctx) == AllOffences(check, xs, ctx) + AllOffences(check, ys, ctx)
  {
    SumAppend(OffencesOf(check, ctx), xs, ys);
  }

  lemma AllOffencesOne(check: Check, n: Node, ctx: Context)
    ensures AllOffences(check, [n], ctx) == NodeOffences(check, n, ctx)
  {
    SumOne(OffencesOf(check, ctx), n);
  }

  // ---- what each builder reports ----------------------------------------------------------

  lemma CountWhen(problem: bool, check: Check, reported: Check)
    ensures CountItems(When(problem, check), Item(reported)) == Bit(problem && check == reported)
  {
    assert [Item(check)][..0] == [];
  }

  lemma CountSubWhen(problem: bool, rdapStruct: Structure, check: Check, reported: Check)
    ensures CountForest(SubWhen(problem, rdapStruct, check), Item(reported)) == Bit(problem && check == reported)
  {
    CountWhen(true, check, reported);
    assert When(true, check) == [Item(check)];
    CountForestOne(Single(rdapStruct, check), Item(reported));
  }

  lemma TwoSubs(rdapStruct: Structure, p1: bool, c1: Check, p2: bool, c2: Check, reported: Check)
    ensures CountForest(SubWhen(p1, rdapStruct, c1) + SubWhen(p2, rdapStruct, c2), Item(reported))
         == Bit(p1 && c1 == reported) + Bit(p2 && c2 == reported)
  {
    CountSubWhen(p1, rdapStruct, c1, reported);
    CountSubWhen(p2, rdapStruct, c2, reported);
    CountForestAppend(SubWhen(p1, rdapStruct, c1), SubWhen(p2, rdapStruct, c2), Item(reported));
  }

  /** The trees hold the check once for each site that offends against it. */
  ghost predicate TreesReport(trees: seq<Checks>, sites: seq<Site>, check: Check, ctx: Context) {
    CountForest(trees, Item(check)) == Offences(check, sites, ctx)
  }

  lemma OneMoreSite(trees: seq<Checks>, more: seq<Checks>, sites: seq<Site>, site: Site, check: Check, ctx: Context)
    requires TreesReport(trees, sites, check, ctx) && TreesReport(more, [site], check, ctx)
    ensures TreesReport(trees + more, sites + [site], check, ctx)
  {
    CountForestAppend(trees, more, Item(check));
    OffencesAppend(check, sites, [site], ctx);
  }

  lemma ExtensionReports(extension: string, p: CheckParams, check: Check)
    ensures CountItems(ExtensionItem(extension, p), Item(check)) == Bit(ExtensionOffends(check, extension, p.context))
  {
    CountWhen(IsUnregistered(extension, p), UnknownExtension, check);
  }

  /** Each unregistered extension is reported once. */
  lemma {:induction false} ExtensionsReport(exts: seq<string>, p: CheckParams, check: Check)
    ensures CountItems(ExtensionItems(exts, p), Item(check)) == Offences(check, ExtensionSites(exts), p.context)
  {
    if exts != [] {
      var front, last := exts[..|exts| - 1], exts[|exts| - 1];
      ExtensionsReport(front, p, check);
      ExtensionReports(last, p, check);
      CountItemsAppend(ExtensionItems(front, p), ExtensionItem(last, p), Item(check));
      OffencesLast(check, ExtensionSites(front), ExtensionSite(last), p.context);
    }
  }

  /** What a link offends against besides lacking a value or an address. */
  predicate RelOffends(check: Check, link: R.Link, parent: TypeId, ctx: Context) {
    LinkOffends(check, link, parent, ctx) && !check.LinkMissingValueProperty? && !check.LinkMissingHrefProperty?
  }

  lemma NoRelReports(link: R.Link, p: CheckParams, check: Check)
    requires link.rel.None?
    ensures CountItems(RelItems(link, p), Item(check)) == Bit(RelOffends(check, link, p.parentType, p.context))
  {
    CountWhen(true, LinkMissingRelProperty, check);
  }

  lemma RelatedReports(link: R.Link, p: CheckParams, check: Check)
    requires HasRel(link, "related")
    ensures CountItems(RelItems(link, p), Item(check)) == Bit(RelOffends(check, link, p.parentType, p.context))
  {
    CountWhen(true, LinkRelatedHasNoType, check);
    CountWhen(!IsRdap(link) && HasRelatedAndSelfLinks(p.parentType), LinkRelatedIsNotRdap, check);
  }

  lemma SelfReports(link: R.Link, p: CheckParams, check: Check)
    requires HasRel(link, "self")
    ensures CountItems(RelItems(link, p), Item(check)) == Bit(RelOffends(check, link, p.parentType, p.context))
  {
    CountWhen(true, LinkSelfHasNoType, check);
    CountWhen(!IsRdap(link), LinkSelfIsNotRdap, check);
  }

  lemma OtherRelReports(link: R.Link, p: CheckParams, check: Check)
    requires link.rel.Some? && !HasRel(link, "related") && !HasRel(link, "self")
    ensures CountItems(RelItems(link, p), Item(check)) == Bit(RelOffends(check, link, p.parentType, p.context))
  {
    CountWhen(HasRelatedAndSelfLinks(p.parentType) && p.context.rootType != NameserverType, LinkObjectClassHasNoSelf, check);
  }

  lemma RelReports(link: R.Link, p: CheckParams, check: Check)
    ensures CountItems(RelItems(link, p), Item(check)) == Bit(RelOffends(check, link, p.parentType, p.context))
  {
    if link.rel.None? {
      NoRelReports(link, p, check);
    } else if HasRel(link, "related") {
      RelatedReports(link, p, check);
    } else if HasRel(link, "self") {
      SelfReports(link, p, check);
    } else {
      OtherRelReports(link, p, check);
    }
  }

  lemma LinkBits(link: R.Link, parent: TypeId, check: Check, ctx: Context)
    ensures Bit(link.value.None? && LinkMissingValueProperty == check) + Bit(link.href.None? && LinkMissingHrefProperty == check)
            + Bit(RelOffends(check, link, parent, ctx))
         == Bit(Offends(check, LinkSite(link, parent), ctx))
  {
  }

  lemma LinkCounts(link: R.Link, p: CheckParams, check: Check)
    ensures CountTree(LinkTree(link, p), Item(check))
         == Bit(link.value.None? && LinkMissingValueProperty == check) + Bit(link.href.None? && LinkMissingHrefProperty == check)
            + CountItems(RelItems(link, p), Item(check))
  {
    var value, href := When(link.value.None?, LinkMissingValueProperty), When(link.href.None?, LinkMissingHrefProperty);
    CountWhen(link.value.None?, LinkMissingValueProperty, check);
    CountWhen(link.href.None?, LinkMissingHrefProperty, check);
    CountItemsAppend(value, href, Item(check));
    CountItemsAppend(value + href, RelItems(link, p), Item(check));
    assert LinkTree(link, p).items == value + href + RelItems(link, p);
  }

  /** A link is reported once for each check that it offends against. */
  lemma LinkReports(link: R.Link, p: CheckParams, check: Check)
    ensures CountTree(LinkTree(link, p), Item(check)) == Bit(Offends(check, LinkSite(link, p.parentType), p.context))
  {
    LinkCounts(link, p, check);
    RelReports(link, p, check);
    LinkBits(link, p.parentType, check, p.context);
  }

  lemma {:induction false} LinksReport(links: seq<R.Link>, p: CheckParams, check: Check)
    ensures CountForest(LinkTrees(links, p), Item(check)) == Offences(check, LinkSites(links, p.parentType), p.context)
  {
    if links != [] {
      var front, last := links[..|links| - 1], links[|links| - 1];
      LinksReport(front, p, check);
      LinkReports(last, p, check);
      CountForestOne(LinkTree(last, p), Item(check));
      CountForestAppend(LinkTrees(front, p), [LinkTree(last, p)], Item(check));
      OffencesLast(check, LinkSites(front, p.parentType), LinkSite(last, p.parentType), p.context);
    }
  }

  lemma DescriptionReports(note: NoticeOrRemark, check: Check, ctx: Context)
    ensures CountItems(DescriptionItems(note.description), Item(check)) == Bit(Offends(check, NoteSite(note), ctx))
  {
    CountWhen(true, NoticeOrRemarkDescriptionIsString, check);
    CountWhen(true, NoticeOrRemarkDescriptionIsAbsent, check);
  }

  lemma NoteReports(note: NoticeOrRemark, p: CheckParams, check: Check)
    requires p.doSubchecks
    ensures CountTree(NoteTree(note, p), Item(check)) == Offences(check, NoteOwnSites(note), p.context)
  {
    DescriptionReports(note, check, p.context);
    OffencesOne(check, NoteSite(note), p.context);
    if note.links.Some? {
      LinksReport(note.links.value, p.FromParent(NoticeOrRemarkType), check);
      OffencesAppend(check, [NoteSite(note)], LinkSites(note.links.value, NoticeOrRemarkType), p.context);
    } else {
      assert NoteOwnSites(note) == [NoteSite(note)];
    }
  }

  lemma {:induction false} NotesReport(notes: seq<NoticeOrRemark>, p: CheckParams, check: Check)
    requires p.doSubchecks
    ensures CountForest(NoteTrees(notes, p), Item(check)) == Offences(check, NoteSites(notes), p.context)
  {
    if notes != [] {
      var front, last := notes[..|notes| - 1], notes[|notes| - 1];
      NotesReport(front, p, check);
      NoteReports(last, p, check);
      CountForestOne(NoteTree(last, p), Item(check));
      CountForestAppend(NoteTrees(front, p), [NoteTree(last, p)], Item(check));
      OffencesAppend(check, NoteSites(front), NoteOwnSites(last), p.context);
    }
  }

  /** Notices and remarks, with their links, report what offends in them. */
  lemma NotesTreeReports(rdapStruct: Structure, notes: seq<NoticeOrRemark>, p: CheckParams, check: Check)
    requires p.doSubchecks
    ensures CountForest([NotesTree(rdapStruct, notes, p)], Item(check)) == Offences(check, NoteSites(notes), p.context)
  {
    NotesReport(notes, p, check);
    CountForestOne(NotesTree(rdapStruct, notes, p), Item(check));
  }

  lemma PublicIdReports(id: PublicId, check: Check, ctx: Context)
    ensures TreesReport(PublicIdSubs(id), [PublicIdSite(id)], check, ctx)
  {
    TwoSubs(Structure.PublicIds, id.idType.None?, PublicIdTypeIsAbsent, id.identifier.None?, PublicIdIdentifierIsAbsent, check);
    OffencesOne(check, PublicIdSite(id), ctx);
  }

  /** Public ids report each missing type and each missing identifier once. */
  lemma {:induction false} PublicIdsReport(ids: seq<PublicId>, check: Check, ctx: Context)
    ensures TreesReport(PublicIdTrees(ids), PublicIdSites(ids), check, ctx)
  {
    if ids != [] {
      var front, last := ids[..|ids| - 1], ids[|ids| - 1];
      PublicIdsReport(front, check, ctx);
      PublicIdReports(last, check, ctx);
      OneMoreSite(PublicIdTrees(front), PublicIdSubs(last), PublicIdSites(front), PublicIdSite(last), check, ctx);
    }
  }

  lemma CidrReports(cidr: Cidr0Cidr, check: Check, ctx: Context)
    ensures TreesReport(CidrSubs(cidr), [CidrSite(cidr)], check, ctx)
  {
    TwoSubs(Structure.Cidr0, cidr.prefix.None?, NoPrefix(cidr), cidr.length.None?, NoLength(cidr), check);
    OffencesOne(check, CidrSite(cidr), ctx);
  }

  /** Prefixes report each missing prefix and each missing length once. */
  lemma {:induction false} CidrsReport(cidrs: seq<Cidr0Cidr>, check: Check, ctx: Context)
    ensures TreesReport(CidrTrees(cidrs), CidrSites(cidrs), check, ctx)
  {
    if cidrs != [] {
      var front, last := cidrs[..|cidrs| - 1], cidrs[|cidrs| - 1];
      CidrsReport(front, check, ctx);
      CidrReports(last, check, ctx);
      OneMoreSite(CidrTrees(front), CidrSubs(last), CidrSites(front), CidrSite(last), check, ctx);
    }
  }

  lemma EventBits(event: Event, p: CheckParams, check: Check)
    ensures Bit(HasWrongDate(event, p) && EventDateIsNotRfc3339 == check) + Bit(event.eventDate.None? && EventDateIsAbsent == check)
            + Bit(event.eventAction.None? && EventActionIsAbsent == check)
         == Bit(EventOffends(check, event, p.context))
  {
  }

  lemma EventCounts(event: Event, p: CheckParams, check: Check)
    ensures CountForest(EventSubs(event, p), Item(check))
         == Bit(HasWrongDate(event, p) && EventDateIsNotRfc3339 == check) + Bit(event.eventDate.None? && EventDateIsAbsent == check)
            + Bit(event.eventAction.None? && EventActionIsAbsent == check)
  {
    var a, b := SubWhen(HasWrongDate(event, p), Structure.Events, EventDateIsNotRfc3339),
                SubWhen(event.eventDate.None?, Structure.Events, EventDateIsAbsent);
    TwoSubs(Structure.Events, HasWrongDate(event, p), EventDateIsNotRfc3339, event.eventDate.None?, EventDateIsAbsent, check);
    CountSubWhen(event.eventAction.None?, Structure.Events, EventActionIsAbsent, check);
    CountForestAppend(a + b, SubWhen(event.eventAction.None?, Structure.Events, EventActionIsAbsent), Item(check));
  }

  lemma EventReports(event: Event, p: CheckParams, check: Check)
    ensures TreesReport(EventSubs(event, p), [EventSite(event)], check, p.context)
  {
    EventCounts(event, p, check);
    EventBits(event, p, check);
    OffencesOne(check, EventSite(event), p.context);
  }

  /** Events report each missing or wrong date and each missing action once. */
  lemma {:induction false} EventsReport(events: seq<Event>, p: CheckParams, check: Check)
    ensures TreesReport(EventTrees(events, p), EventSites(events), check, p.context)
  {
    if events != [] {
      var front, last := events[..|events| - 1], events[|events| - 1];
      EventsReport(front, p, check);
      EventReports(last, p, check);
      OneMoreSite(EventTrees(front, p), EventSubs(last, p), EventSites(front), EventSite(last), check, p.context);
    }
  }

  lemma HandleReports(o: ObjectCommon, check: Check, ctx: Context)
    ensures CountForest(HandlePart(o), Item(check))
         == Offences(check, HandleDetails(o), ctx)
  {
    CountSubWhen(o.handle.Some? && IsBlank(o.handle.value), Structure.Handle, HandleIsEmpty, check);
    if o.handle.Some? {
      BlankExactly(o.handle.value);
      OffencesOne(check, HandleSite(o.handle.value), ctx);
    }
  }

  lemma StatusReports(o: ObjectCommon, check: Check, ctx: Context)
    ensures CountForest(StatusPart(o), Item(check))
         == Offences(check, StatusDetails(o), ctx)
  {
    CountSubWhen(o.status.Some? && IsEmptyOrAnyBlank(o.status.value), Structure.Status, StatusIsEmpty, check);
    if o.status.Some? {
      NoneOrBlankExactly(o.status.value);
      OffencesOne(check, StatusSite(o.status.value), ctx);
    }
  }

  lemma Port43Reports(o: ObjectCommon, check: Check, ctx: Context)
    ensures CountForest(Port43Part(o), Item(check))
         == Offences(check, Port43Details(o), ctx)
  {
    CountSubWhen(o.port43.Some? && IsBlank(o.port43.value), Structure.Port43, Port43IsEmpty, check);
    if o.port43.Some? {
      BlankExactly(o.port43.value);
      OffencesOne(check, Port43Site(o.port43.value), ctx);
    }
  }

  lemma TextsReport(o: ObjectCommon, check: Check, ctx: Context)
    ensures CountForest(BlankTrees(o), Item(check)) == Offences(check, TextDetails(o), ctx)
  {
    HandleReports(o, check, ctx);
    StatusReports(o, check, ctx);
    Port43Reports(o, check, ctx);
    ThreeParts(HandlePart(o), StatusPart(o), Port43Part(o), Item(check));
    ThreeDetails(check, HandleDetails(o), StatusDetails(o), Port43Details(o), ctx);
  }

  lemma LinkedReports(o: ObjectCommon, p: CheckParams, check: Check)
    requires p.doSubchecks && o.links.Some?
    ensures CountForest(LinkPart(o, p), Item(check)) == Offences(check, LinkDetails(o, p.parentType), p.context)
  {
    LinksReport(o.links.value, p, check);
    CountForestOne(LinksTree(o.links.value, p), Item(check));
  }

  lemma UnlinkedReports(o: ObjectCommon, p: CheckParams, check: Check)
    requires o.links.None?
    ensures CountForest(LinkPart(o, p), Item(check)) == Offences(check, LinkDetails(o, p.parentType), p.context)
  {
    CountSubWhen(p.context.rootType != NameserverType && p.parentType != NameserverType, Structure.Links,
                 LinkObjectClassHasNoSelf, check);
    OffencesOne(check, NoLinksSite(p.parentType), p.context);
  }

  lemma RemarkPartReports(o: ObjectCommon, p: CheckParams, check: Check)
    requires p.doSubchecks
    ensures CountForest(RemarkPart(o, p), Item(check)) == Offences(check, RemarkDetails(o), p.context)
  {
    if o.remarks.Some? {
      NotesTreeReports(Structure.Remarks, o.remarks.value, p, check);
    }
  }

  lemma EventPartReports(o: ObjectCommon, p: CheckParams, check: Check)
    ensures CountForest(EventPart(o, p), Item(check)) == Offences(check, EventDetails(o), p.context)
  {
    if o.events.Some? {
      EventsReport(o.events.value, p, check);
    }
  }

  /** An object reports what offends in its links, remarks, events and texts. */
  lemma OwnReports(o: ObjectCommon, p: CheckParams, check: Check)
    requires p.doSubchecks
    ensures CountForest(OwnTrees(o, p), Item(check)) == Offences(check, ObjectDetails(o, p.parentType), p.context)
  {
    if o.links.Some? {
      LinkedReports(o, p, check);
    } else {
      UnlinkedReports(o, p, check);
    }
    RemarkPartReports(o, p, check);
    EventPartReports(o, p, check);
    TextsReport(o, check, p.context);
    FourParts(LinkPart(o, p), RemarkPart(o, p), EventPart(o, p), BlankTrees(o), Item(check));
    FourDetails(check, LinkDetails(o, p.parentType), RemarkDetails(o), EventDetails(o), TextDetails(o), p.context);
  }

  lemma ThreeParts(a: seq<Checks>, b: seq<Checks>, c: seq<Checks>, item: CheckItem)
    ensures CountForest(a + b + c, item) == CountForest(a, item) + CountForest(b, item) + CountForest(c, item)
  {
    CountForestAppend(a, b, item);
    CountForestAppend(a + b, c, item);
  }

  lemma ThreeDetails(check: Check, a: seq<Site>, b: seq<Site>, c: seq<Site>, ctx: Context)
    ensures Offences(check, a + b + c, ctx) == Offences(check, a, ctx) + Offences(check, b, ctx) + Offences(check, c, ctx)
  {
    OffencesAppend(check, a, b, ctx);
    OffencesAppend(check, a + b, c, ctx);
  }

  lemma FourParts(a: seq<Checks>, b: seq<Checks>, c: seq<Checks>, d: seq<Checks>, item: CheckItem)
    ensures CountForest(a + b + c + d, item)
         == CountForest(a, item) + CountForest(b, item) + CountForest(c, item) + CountForest(d, item)
  {
    CountForestAppend(a, b, item);
    CountForestAppend(a + b, c, item);
    CountForestAppend(a + b + c, d, item);
  }

  lemma FourDetails(check: Check, a: seq<Site>, b: seq<Site>, c: seq<Site>, d: seq<Site>, ctx: Context)
    ensures Offences(check, a + b + c + d, ctx)
         == Offences(check, a, ctx) + Offences(check, b, ctx) + Offences(check, c, ctx) + Offences(check, d, ctx)
  {
    OffencesAppend(check, a, b, ctx);
    OffencesAppend(check, a + b, c, ctx);
    OffencesAppend(check, a + b + c, d, ctx);
  }

  lemma RoleReports(role: string, amongBlanks: bool, check: Check, ctx: Context)
    ensures Bit(Offends(check, RoleSite(role, amongBlanks), ctx))
         == if amongBlanks then 0 else CountItems(When(!IsKnownRole(role), UnknownRole), Item(check))
  {
    RolesAreEleven(role);
    CountWhen(!IsKnownRole(role), UnknownRole, check);
  }

  lemma {:induction false} RolesReport(roles: seq<string>, amongBlanks: bool, check: Check, ctx: Context)
    ensures Offences(check, RoleSites(roles, amongBlanks), ctx)
         == if amongBlanks then 0 else CountItems(RoleItems(roles), Item(check))
  {
    if roles != [] {
      var front, last := roles[..|roles| - 1], roles[|roles| - 1];
      RolesReport(front, amongBlanks, check, ctx);
      RoleReports(last, amongBlanks, check, ctx);
      CountItemsAppend(RoleItems(front), When(!IsKnownRole(last), UnknownRole), Item(check));
      OffencesLast(check, RoleSites(front, amongBlanks), RoleSite(last, amongBlanks), ctx);
    }
  }

  lemma RoleListReports(roles: seq<string>, blanks: bool, check: Check, ctx: Context)
    requires blanks == NoneOrBlank(roles)
    ensures CountItems(if blanks then [Item(RoleIsEmpty)] else RoleItems(roles), Item(check))
         == Bit(Offends(check, RolesSite(roles), ctx)) + Offences(check, RoleSites(roles, blanks), ctx)
  {
    RolesReport(roles, blanks, check, ctx);
    if blanks {
      CountWhen(true, RoleIsEmpty, check);
    }
  }

  /** Roles are reported one by one, unless one of them is blank, which is reported instead. */
  lemma RolePartReports(roles: Option<seq<string>>, check: Check, ctx: Context)
    ensures CountItems(RolePart(roles), Item(check)) == Offences(check, RoleDetails(roles), ctx)
  {
    if roles.Some? {
      var blanks := NoneOrBlank(roles.value);
      NoneOrBlankExactly(roles.value);
      RoleListReports(roles.value, blanks, check, ctx);
      OffencesAppend(check, [RolesSite(roles.value)], RoleSites(roles.value, blanks), ctx);
      OffencesOne(check, RolesSite(roles.value), ctx);
    }
  }

  lemma VcardPartReports(vcard: Option<seq<JsonValue.Value>>, p: CheckParams, check: Check)
    ensures CountItems(VcardPart(vcard, p), Item(check)) == Offences(check, VcardDetails(vcard), p.context)
  {
    if vcard.Some? {
      CountWhen(true, VcardArrayIsEmpty, check);
      CountWhen(true, VcardHasNoFn, check);
      if FullName(vcard.value, p.context).Some? {
        BlankExactly(FullName(vcard.value, p.context).value);
      }
      CountWhen(FullName(vcard.value, p.context).Some? && IsBlank(FullName(vcard.value, p.context).value), VcardFnIsEmpty, check);
      OffencesOne(check, VcardSite(vcard.value), p.context);
    }
  }

  lemma {:induction false} FieldsReport(results: seq<FieldResult>, check: Check, ctx: Context)
    ensures CountItems(FieldItems(results), Item(check)) == Offences(check, FieldSites(results), ctx)
  {
    if results != [] {
      var front, last := results[..|results| - 1], results[|results| - 1];
      FieldsReport(front, check, ctx);
      CountWhen(true, last, check);
      CountItemsAppend(FieldItems(front), [Item(last)], Item(check));
      OffencesLast(check, FieldSites(front), FieldSite(last), ctx);
    }
  }

  lemma ConformanceReports(exts: seq<string>, p: CheckParams, check: Check)
    ensures CountForest([ConformanceTree(exts, p)], Item(check))
         == Bit(check.RdapConformanceInvalidParent? && p.parentType != p.context.rootType)
            + Offences(check, ExtensionSites(exts), p.context)
  {
    var first := When(p.parentType != p.context.rootType, RdapConformanceInvalidParent);
    CountForestOne(ConformanceTree(exts, p), Item(check));
    ExtensionsReport(exts, p, check);
    CountWhen(p.parentType != p.context.rootType, RdapConformanceInvalidParent, check);
    CountItemsAppend(first, ExtensionItems(exts, p), Item(check));
  }

  lemma ConformancePartReports(common: Common, p: CheckParams, check: Check)
    ensures CountForest(ConformancePart(common, p), Item(check))
         == if p.doSubchecks
            then Bit(check.RdapConformanceInvalidParent? && p.parentType != p.context.rootType && common.rdapConformance.Some?)
                 + Offences(check, ExtensionDetails(common), p.context)
            else 0
  {
    if common.rdapConformance.Some? {
      ConformanceReports(common.rdapConformance.value, p, check);
    }
  }

  lemma NoticePartReports(common: Common, p: CheckParams, check: Check)
    requires p.doSubchecks
    ensures CountForest(NoticePart(common, p), Item(check)) == Offences(check, NoticeDetails(common), p.context)
  {
    if common.notices.Some? {
      NotesTreeReports(Structure.Notices, common.notices.value, p, check);
    }
  }

  /** The shared fields of a structure: missing or misplaced conformance, extensions, and notices. */
  lemma CommonReports(common: Common, p: CheckParams, check: Check)
    requires p.doSubchecks
    ensures CountForest(CommonTrees(common, p), Item(check))
         == Bit(Offends(check, CommonSite(common, p.parentType), p.context)) + Offences(check, CommonDetails(common), p.context)
  {
    ConformancePartReports(common, p, check);
    NoticePartReports(common, p, check);
    CountSubWhen(p.parentType == p.context.rootType && common.rdapConformance.None?, Structure.RdapConformance,
                 RdapConformanceMissing, check);
    ThreeParts(ConformancePart(common, p), NoticePart(common, p), MissingPart(common, p), Item(check));
    OffencesAppend(check, ExtensionDetails(common), NoticeDetails(common), p.context);
  }

  // ---- what the tree of a response reports ------------------------------------------------

  /** The tree holds the check once for each site of the structures that offends against it. */
  ghost predicate Agrees(tree: Checks, nodes: seq<Node>, check: Check, ctx: Context) {
    CountTree(tree, Item(check)) == AllOffences(check, nodes, ctx)
  }

  ghost predicate ForestAgrees(trees: seq<Checks>, nodes: seq<Node>, check: Check, ctx: Context) {
    CountForest(trees, Item(check)) == AllOffences(check, nodes, ctx)
  }

  lemma OneMore(trees: seq<Checks>, tree: Checks, nodes: seq<Node>, more: seq<Node>, check: Check, ctx: Context)
    requires ForestAgrees(trees, nodes, check, ctx) && Agrees(tree, more, check, ctx)
    ensures ForestAgrees(trees + [tree], nodes + more, check, ctx)
  {
    CountForestOne(tree, Item(check));
    CountForestAppend(trees, [tree], Item(check));
    AllOffencesAppend(check, nodes, more, ctx);
  }

  /** What stands in the tree of one object, its nested entities between its own parts. */
  lemma StructureReports(check: Check, n: Node, items: seq<CheckItem>, o: ObjectCommon, p: CheckParams, rest: seq<Checks>)
    requires p.doSubchecks && n.ofType == p.parentType && n.objectCommon == Some(o)
    requires CountItems(items, Item(check)) == Offences(check, FirstDetails(n), p.context)
    requires CountForest(rest, Item(check)) == Offences(check, LastDetails(n), p.context)
    requires CountForest(ObjectTrees(o, p), Item(check))
          == AllOffences(check, NestedNodes(o), p.context) + Offences(check, ObjectDetails(o, p.parentType), p.context)
    ensures CountItems(items, Item(check)) + CountForest(CommonTrees(n.common, p) + ObjectTrees(o, p) + rest, Item(check))
         == AllOffences(check, [n] + NestedNodes(o), p.context)
  {
    CommonReports(n.common, p, check);
    ThreeParts(CommonTrees(n.common, p), ObjectTrees(o, p), rest, Item(check));
    FourDetails(check, FirstDetails(n), CommonDetails(n.common), SharedDetails(n), LastDetails(n), p.context);
    AllOffencesAppend(check, [n], NestedNodes(o), p.context);
    AllOffencesOne(check, n, p.context);
  }

  lemma {:induction false} NestedReports(o: ObjectCommon, p: CheckParams, check: Check)
    requires p.doSubchecks
    ensures CountForest(ObjectTrees(o, p), Item(check))
         == AllOffences(check, NestedNodes(o), p.context) + Offences(check, ObjectDetails(o, p.parentType), p.context)
    decreases o, 1
  {
    OwnReports(o, p, check);
    if o.entities.Entities? {
      ListReports(o.entities.list, p, check);
      CountForestAppend(EntityTrees(o.entities.list, p), OwnTrees(o, p), Item(check));
    } else {
      assert ObjectTrees(o, p) == OwnTrees(o, p);
    }
  }

  lemma {:induction false} ListReports(es: seq<Entity>, p: CheckParams, check: Check)
    requires p.doSubchecks
    ensures ForestAgrees(EntityTrees(es, p), ListNodes(es), check, p.context)
    decreases es, 0
  {
    if es != [] {
      var front, last := es[..|es| - 1], es[|es| - 1];
      ListReports(front, p, check);
      EntityReports(last, p, check);
      OneMore(EntityTrees(front, p), EntityTree(last, p), ListNodes(front), EntityNodes(last), check, p.context);
    }
  }

  lemma {:induction false} EntityReports(e: Entity, p: CheckParams, check: Check)
    requires p.doSubchecks
    ensures Agrees(EntityTree(e, p), EntityNodes(e), check, p.context)
    decreases e
  {
    var q := p.FromParent(EntityType);
    NestedReports(e.objectCommon, q, check);
    EntityItemsReport(e, p, check);
    LastPartReports(EntityNode(e), PublicIdPart(e.publicIds), check, p.context);
    StructureReports(check, EntityNode(e), EntityItems(e, p), e.objectCommon, q, PublicIdPart(e.publicIds));
  }

  lemma EntityItemsReport(e: Entity, p: CheckParams, check: Check)
    ensures CountItems(EntityItems(e, p), Item(check)) == Offences(check, FirstDetails(EntityNode(e)), p.context)
  {
    RolePartReports(e.roles, check, p.context);
    VcardPartReports(e.vcardArray, p, check);
    CountItemsAppend(RolePart(e.roles), VcardPart(e.vcardArray, p), Item(check));
    ThreeDetails(check, FieldSites([]), RoleDetails(e.roles), VcardDetails(e.vcardArray), p.context);
  }

  lemma FieldItemsReport(n: Node, check: Check, ctx: Context)
    requires n.roles.None? && n.vcard.None?
    ensures CountItems(FieldItems(n.fields), Item(check)) == Offences(check, FirstDetails(n), ctx)
  {
    FieldsReport(n.fields, check, ctx);
    ThreeDetails(check, FieldSites(n.fields), [], [], ctx);
  }

  lemma LastPartReports(n: Node, rest: seq<Checks>, check: Check, ctx: Context)
    requires (rest == PublicIdPart(n.publicIds) && n.cidrs.None?) || (rest == CidrPart(n.cidrs) && n.publicIds.None?)
    ensures CountForest(rest, Item(check)) == Offences(check, LastDetails(n), ctx)
  {
    OffencesAppend(check, IdDetails(n.publicIds), CidrDetails(n.cidrs), ctx);
    if n.publicIds.Some? {
      PublicIdsReport(n.publicIds.value, check, ctx);
    }
    if n.cidrs.Some? {
      CidrsReport(n.cidrs.value, check, ctx);
    }
  }

  /** The tree of an object other than an entity. */
  lemma ObjectReports(check: Check, n: Node, c: Checks, o: ObjectCommon, p: CheckParams, rest: seq<Checks>)
    requires p.doSubchecks && n.ofType == p.parentType && n.objectCommon == Some(o) && n.roles.None? && n.vcard.None?
    requires c.items == FieldItems(n.fields) && c.subChecks == ObjectPart(n.common, o, p) + rest
    requires (rest == PublicIdPart(n.publicIds) && n.cidrs.None?) || (rest == CidrPart(n.cidrs) && n.publicIds.None?)
    ensures Agrees(c, [n] + NestedNodes(o), check, p.context)
  {
    FieldItemsReport(n, check, p.context);
    LastPartReports(n, rest, check, p.context);
    NestedReports(o, p, check);
    StructureReports(check, n, c.items, o, p, rest);
  }

  lemma DomainReports(d: Domain, p: CheckParams, check: Check)
    requires p.doSubchecks
    ensures Agrees(DomainTree(d, p), [DomainNode(d)] + NestedNodes(d.objectCommon), check, p.context)
  {
    ObjectReports(check, DomainNode(d), DomainTree(d, p), d.objectCommon, p.FromParent(DomainType), PublicIdPart(d.publicIds));
  }

  lemma NothingMore(cs: seq<Checks>)
    ensures cs + [] == cs
  {
  }

  lemma NameserverReports(n: Nameserver, p: CheckParams, check: Check)
    requires p.doSubchecks
    ensures Agrees(NameserverTree(n, p), [NameserverNode(n)] + NestedNodes(n.objectCommon), check, p.context)
  {
    NothingMore(NameserverTree(n, p).subChecks);
    ObjectReports(check, NameserverNode(n), NameserverTree(n, p), n.objectCommon, p.FromParent(NameserverType), []);
  }

  lemma AutnumReports(a: Autnum, p: CheckParams, check: Check)
    requires p.doSubchecks
    ensures Agrees(AutnumTree(a, p), [AutnumNode(a)] + NestedNodes(a.objectCommon), check, p.context)
  {
    NothingMore(AutnumTree(a, p).subChecks);
    ObjectReports(check, AutnumNode(a), AutnumTree(a, p), a.objectCommon, p.FromParent(AutnumType), []);
  }

  lemma NetworkReports(n: Network, p: CheckParams, check: Check)
    requires p.doSubchecks
    ensures Agrees(NetworkTree(n, p), [NetworkNode(n)] + NestedNodes(n.objectCommon), check, p.context)
  {
    ObjectReports(check, NetworkNode(n), NetworkTree(n, p), n.objectCommon, p.FromParent(NetworkType), CidrPart(n.cidr0Cidrs));
  }

  lemma {:induction false} DomainsReport(ds: seq<Domain>, p: CheckParams, check: Check)
    requires p.doSubchecks
    ensures ForestAgrees(DomainTrees(ds, p), DomainNodes(ds), check, p.context)
  {
    if ds != [] {
      var front, last := ds[..|ds| - 1], ds[|ds| - 1];
      DomainsReport(front, p, check);
      DomainReports(last, p, check);
      OneMore(DomainTrees(front, p), DomainTree(last, p), DomainNodes(front),
              [DomainNode(last)] + NestedNodes(last.objectCommon), check, p.context);
    }
  }

  lemma {:induction false} NameserversReport(ns: seq<Nameserver>, p: CheckParams, check: Check)
    requires p.doSubchecks
    ensures ForestAgrees(NameserverTrees(ns, p), NameserverNodes(ns), check, p.context)
  {
    if ns != [] {
      var front, last := ns[..|ns| - 1], ns[|ns| - 1];
      NameserversReport(front, p, check);
      NameserverReports(last, p, check);
      OneMore(NameserverTrees(front, p), NameserverTree(last, p), NameserverNodes(front),
              [NameserverNode(last)] + NestedNodes(last.objectCommon), check, p.context);
    }
  }

  ghost predicate ReportsEach(r: RdapResponse, p: CheckParams, check: Check) {
    Agrees(ResponseTree(r, p), Nodes(r), check, p.context)
  }

  lemma CommonNodeReports(common: Common, p: CheckParams, check: Check)
    requires p.doSubchecks
    ensures CountForest(CommonTrees(common, p), Item(check)) == NodeOffences(check, CommonNode(p.parentType, common), p.context)
  {
    var n := CommonNode(p.parentType, common);
    CommonReports(common, p, check);
    FourDetails(check, FirstDetails(n), CommonDetails(common), [], [], p.context);
  }

  lemma MembersReport(
    rdapStruct: Structure, common: Common, p: CheckParams, check: Check, trees: seq<Checks>, below: seq<Node>)
    requires p.doSubchecks
    requires ForestAgrees(trees, below, check, p.context)
    ensures Agrees(WithMembers(rdapStruct, common, p, trees), [CommonNode(p.parentType, common)] + below, check, p.context)
  {
    var n := CommonNode(p.parentType, common);
    CommonNodeReports(common, p, check);
    CountForestAppend(CommonTrees(common, p), trees, Item(check));
    AllOffencesAppend(check, [n], below, p.context);
    AllOffencesOne(check, n, p.context);
  }

  lemma DomainSearchShape(common: Common, results: seq<Domain>, p: CheckParams)
    ensures ResponseTree(DomainSearchRoot(common, results), p)
         == WithMembers(Structure.DomainSearchResults, common, p.FromParent(DomainSearchType), DomainTrees(results, p.FromParent(DomainSearchType)))
    ensures Nodes(DomainSearchRoot(common, results)) == [CommonNode(DomainSearchType, common)] + DomainNodes(results)
  {
  }

  lemma DomainSearchReports(common: Common, results: seq<Domain>, p: CheckParams, check: Check)
    requires p.doSubchecks
    ensures ReportsEach(DomainSearchRoot(common, results), p, check)
  {
    var q := p.FromParent(DomainSearchType);
    DomainSearchShape(common, results, p);
    DomainsReport(results, q, check);
    MembersReport(Structure.DomainSearchResults, common, q, check, DomainTrees(results, q), DomainNodes(results));
  }

  lemma EntitySearchShape(common: Common, results: seq<Entity>, p: CheckParams)
    ensures ResponseTree(EntitySearchRoot(common, results), p)
         == WithMembers(Structure.EntitySearchResults, common, p.FromParent(EntitySearchType), EntityTrees(results, p.FromParent(EntitySearchType)))
    ensures Nodes(EntitySearchRoot(common, results)) == [CommonNode(EntitySearchType, common)] + ListNodes(results)
  {
  }

  lemma EntitySearchReports(common: Common, results: seq<Entity>, p: CheckParams, check: Check)
    requires p.doSubchecks
    ensures ReportsEach(EntitySearchRoot(common, results), p, check)
  {
    var q := p.FromParent(EntitySearchType);
    EntitySearchShape(common, results, p);
    ListReports(results, q, check);
    MembersReport(Structure.EntitySearchResults, common, q, check, EntityTrees(results, q), ListNodes(results));
  }

  lemma NameserverSearchShape(common: Common, results: seq<Nameserver>, p: CheckParams)
    ensures ResponseTree(NameserverSearchRoot(common, results), p)
         == WithMembers(Structure.NameserverSearchResults, common, p.FromParent(NameserverSearchType), NameserverTrees(results, p.FromParent(NameserverSearchType)))
    ensures Nodes(NameserverSearchRoot(common, results)) == [CommonNode(NameserverSearchType, common)] + NameserverNodes(results)
  {
  }

  lemma NameserverSearchReports(common: Common, results: seq<Nameserver>, p: CheckParams, check: Check)
    requires p.doSubchecks
    ensures ReportsEach(NameserverSearchRoot(common, results), p, check)
  {
    var q := p.FromParent(NameserverSearchType);
    NameserverSearchShape(common, results, p);
    NameserversReport(results, q, check);
    MembersReport(Structure.NameserverSearchResults, common, q, check, NameserverTrees(results, q), NameserverNodes(results));
  }

  lemma ErrorShape(common: Common, p: CheckParams)
    ensures ResponseTree(ErrorRoot(common), p) == WithMembers(ErrorStructure, common, p.FromParent(ErrorType), [])
    ensures Nodes(ErrorRoot(common)) == [CommonNode(ErrorType, common)] + []
  {
  }

  lemma ErrorReports(common: Common, p: CheckParams, check: Check)
    requires p.doSubchecks
    ensures ReportsEach(ErrorRoot(common), p, check)
  {
    ErrorShape(common, p);
    MembersReport(ErrorStructure, common, p.FromParent(ErrorType), check, [], []);
  }

  lemma HelpShape(common: Common, p: CheckParams)
    ensures ResponseTree(HelpRoot(common), p) == WithMembers(HelpStructure, common, p.FromParent(HelpType), [])
    ensures Nodes(HelpRoot(common)) == [CommonNode(HelpType, common)] + []
  {
  }

  lemma HelpReports(common: Common, p: CheckParams, check: Check)
    requires p.doSubchecks
    ensures ReportsEach(HelpRoot(common), p, check)
  {
    HelpShape(common, p);
    MembersReport(HelpStructure, common, p.FromParent(HelpType), check, [], []);
  }

  lemma ObjectRootReports(r: RdapResponse, p: CheckParams, check: Check)
    requires p.doSubchecks
    requires r.EntityRoot? || r.DomainRoot? || r.NameserverRoot? || r.AutnumRoot? || r.NetworkRoot?
    ensures ReportsEach(r, p, check)
  {
    match r
    case EntityRoot(e) => EntityReports(e, p, check);
    case DomainRoot(d) => DomainReports(d, p, check);
    case NameserverRoot(n) => NameserverReports(n, p, check);
    case AutnumRoot(a) => AutnumReports(a, p, check);
    case NetworkRoot(n) => NetworkReports(n, p, check);
  }

  lemma OtherRootReports(r: RdapResponse, p: CheckParams, check: Check)
    requires p.doSubchecks
    requires r.DomainSearchRoot? || r.EntitySearchRoot? || r.NameserverSearchRoot? || r.ErrorRoot? || r.HelpRoot?
    ensures ReportsEach(r, p, check)
  {
    match r
    case DomainSearchRoot(common, results) => DomainSearchReports(common, results, p, check);
    case EntitySearchRoot(common, results) => EntitySearchReports(common, results, p, check);
    case NameserverSearchRoot(common, results) => NameserverSearchReports(common, results, p, check);
    case ErrorRoot(common) => ErrorReports(common, p, check);
    case HelpRoot(common) => HelpReports(common, p, check);
  }

  /** For every check, the tree of a response holds it once for each visited site that offends against it. */
  lemma TreeReports(r: RdapResponse, p: CheckParams, check: Check)
    requires p.doSubchecks
    ensures ReportsEach(r, p, check)
  {
    if r.EntityRoot? || r.DomainRoot? || r.NameserverRoot? || r.AutnumRoot? || r.NetworkRoot? {
      ObjectRootReports(r, p, check);
    } else {
      OtherRootReports(r, p, check);
    }
  }

  /** How often checking a response and traversing the checks for some classes reports a check. */
  function Reports(r: RdapResponse, recognizers: Recognizers, classes: seq<CheckClass>, check: Check): nat {
    ReportsOf(ResponseTree(r, ForRdap(r, recognizers)), classes, check)
  }

  function ReportsOf(tree: Checks, classes: seq<CheckClass>, check: Check): nat {
    CountCalls(Callbacks(tree, classes, ROOT), Item(check))
  }

  lemma WantedAreReported(tree: Checks, nodes: seq<Node>, classes: seq<CheckClass>, check: Check, ctx: Context)
    requires Agrees(tree, nodes, check, ctx) && ClassOf(check) in classes
    ensures ReportsOf(tree, classes, check) == AllOffences(check, nodes, ctx)
  {
    TreeCalls(tree, classes, ROOT, Item(check));
  }

  lemma UnwantedAreNot(tree: Checks, classes: seq<CheckClass>, check: Check)
    requires ClassOf(check) !in classes
    ensures ReportsOf(tree, classes, check) == 0
  {
    TreeNotCalled(tree, classes, ROOT, Item(check));
  }

  /**
   Checking a response and traversing the result reports every check of a wanted class once for each
   visited site, at any depth, that offends against it, and no check of another class.
   */
  lemma EveryOffenceIsReportedOnce(r: RdapResponse, recognizers: Recognizers, classes: seq<CheckClass>, check: Check)
    ensures Reports(r, recognizers, classes, check)
         == if ClassOf(check) in classes then AllOffences(check, Nodes(r), ForRdap(r, recognizers).context) else 0
  {
    var p := ForRdap(r, recognizers);
    if ClassOf(check) in classes {
      TreeReports(r, p, check);
      WantedAreReported(ResponseTree(r, p), Nodes(r), classes, check, p.context);
    } else {
      UnwantedAreNot(ResponseTree(r, p), classes, check);
    }
  }

  /** The program: the checks of a response, traversed for some classes. */
  method ReportClasses(r: RdapResponse, recognizers: Recognizers, classes: seq<CheckClass>, f: Recorder)
    returns (found: bool)
    modifies f
    ensures f.calls == old(f.calls) + Callbacks(ResponseTree(r, ForRdap(r, recognizers)), classes, ROOT)
    ensures found <==> f.calls != old(f.calls)
  {
    var checks := CheckResponse(r, ForRdap(r, recognizers));
    found := TraverseChecks(checks, classes, None, f);
  }

  // ---- that offences are reported ---------------------------------------------------------

  lemma {:induction false} OffenceCounts(check: Check, sites: seq<Site>, site: Site, ctx: Context)
    requires site in sites && Offends(check, site, ctx)
    ensures Offences(check, sites, ctx) > 0
  {
    if site != sites[|sites| - 1] {
      OffenceCounts(check, sites[..|sites| - 1], site, ctx);
    }
  }

  lemma {:induction false} NodeCounts(check: Check, nodes: seq<Node>, n: Node, ctx: Context)
    requires n in nodes
    ensures NodeOffences(check, n, ctx) <= AllOffences(check, nodes, ctx)
  {
    var front, last := nodes[..|nodes| - 1], nodes[|nodes| - 1];
    assert nodes == front + [last];
    AllOffencesAppend(check, front, [last], ctx);
    AllOffencesOne(check, last, ctx);
    if n != last {
      NodeCounts(check, front, n, ctx);
    }
  }

  /** What a check is made for is reported, wherever it stands in what is visited. */
  lemma OffenceIsReported(
    r: RdapResponse, recognizers: Recognizers, classes: seq<CheckClass>, check: Check, n: Node, site: Detail)
    requires n in Nodes(r) && site in NodeDetails(n) && ClassOf(check) in classes
    requires Offends(check, site, ForRdap(r, recognizers).context)
    ensures Reports(r, recognizers, classes, check) > 0
  {
    EveryOffenceIsReportedOnce(r, recognizers, classes, check);
    OffenceCounts(check, NodeDetails(n), site, ForRdap(r, recognizers).context);
    NodeCounts(check, Nodes(r), n, ForRdap(r, recognizers).context);
  }

  lemma {:induction false} ExtensionIsSite(exts: seq<string>, e: string)
    requires e in exts
    ensures ExtensionSite(e) in ExtensionSites(exts)
  {
    if e != exts[|exts| - 1] {
      ExtensionIsSite(exts[..|exts| - 1], e);
    }
  }

  lemma ExtensionIsDetail(n: Node, exts: seq<string>, e: string)
    requires n.common.rdapConformance == Some(exts) && ExtensionSite(e) in ExtensionSites(exts)
    ensures ExtensionSite(e) in NodeDetails(n)
  {
    assert ExtensionSite(e) in CommonDetails(n.common);
  }

  lemma ExtensionContext(r: RdapResponse, recognizers: Recognizers)
    ensures ForRdap(r, recognizers).context.recognizers == recognizers && !ForRdap(r, recognizers).context.allowUnregExt
  {
  }

  lemma UnregisteredOffends(e: string, ctx: Context)
    requires !ctx.allowUnregExt && !ctx.recognizers.isExtension(e)
    ensures Offends(UnknownExtension, ExtensionSite(e), ctx) && ClassOf(UnknownExtension) in [StdWarning]
  {
  }

  /** An extension that is not registered is a warning, in any response. */
  lemma UnregisteredExtensionIsReported(r: RdapResponse, recognizers: Recognizers, n: Node, exts: seq<string>, e: string)
    requires n in Nodes(r) && n.common.rdapConformance == Some(exts) && e in exts && !recognizers.isExtension(e)
    ensures Reports(r, recognizers, [StdWarning], UnknownExtension) > 0
  {
    ExtensionIsSite(exts, e);
    ExtensionIsDetail(n, exts, e);
    ExtensionContext(r, recognizers);
    UnregisteredOffends(e, ForRdap(r, recognizers).context);
    OffenceIsReported(r, recognizers, [StdWarning], UnknownExtension, n, ExtensionSite(e));
  }

  lemma CardIsSite(n: Node, vcard: seq<JsonValue.Value>)
    requires n.vcard == Some(vcard)
    ensures VcardSite(vcard) in NodeDetails(n)
  {
    assert VcardDetails(n.vcard) == [VcardSite(vcard)];
    assert VcardSite(vcard) in FirstDetails(n);
  }

  lemma CardContext(r: RdapResponse, recognizers: Recognizers, vcard: seq<JsonValue.Value>)
    ensures ForRdap(r, recognizers).context.readCard(vcard) == JcardReader.FromVcard(recognizers.unicodeCase, vcard)
  {
  }

  lemma BadCardOffends(vcard: seq<JsonValue.Value>, ctx: Context)
    ensures ctx.readCard(vcard).None? ==> Offends(VcardArrayIsEmpty, VcardSite(vcard), ctx)
    ensures ctx.readCard(vcard).Some? && ctx.readCard(vcard).value.fullName.None? ==> Offends(VcardHasNoFn, VcardSite(vcard), ctx)
  {
  }

  lemma CardIsReported(r: RdapResponse, recognizers: Recognizers, check: Check, n: Node, vcard: seq<JsonValue.Value>, ctx: Context)
    requires n in Nodes(r) && n.vcard == Some(vcard) && ctx == ForRdap(r, recognizers).context
    requires ClassOf(check) in [StdError] && Offends(check, VcardSite(vcard), ctx)
    ensures Reports(r, recognizers, [StdError], check) > 0
  {
    CardIsSite(n, vcard);
    OffenceIsReported(r, recognizers, [StdError], check, n, VcardSite(vcard));
  }

  /** A card that is no contact, or a contact without a name, is an error, in any response. */
  lemma BadCardIsReported(r: RdapResponse, recognizers: Recognizers, n: Node, vcard: seq<JsonValue.Value>)
    requires n in Nodes(r) && n.vcard == Some(vcard)
    ensures JcardReader.FromVcard(recognizers.unicodeCase, vcard).None? ==>
      Reports(r, recognizers, [StdError], VcardArrayIsEmpty) > 0
    ensures var contact := JcardReader.FromVcard(recognizers.unicodeCase, vcard);
      contact.Some? && contact.value.fullName.None? ==> Reports(r, recognizers, [StdError], VcardHasNoFn) > 0
  {
    var ctx := ForRdap(r, recognizers).context;
    CardContext(r, recognizers, vcard);
    BadCardOffends(vcard, ctx);
    if ctx.readCard(vcard).None? {
      CardIsReported(r, recognizers, VcardArrayIsEmpty, n, vcard, ctx);
    } else if ctx.readCard(vcard).value.fullName.None? {
      CardIsReported(r, recognizers, VcardHasNoFn, n, vcard, ctx);
    }
  }

  /** The link of a redirect gives its target as address and value, and offends against no check of links anywhere. */
  lemma RedirectLinkIsInOrder(url: string, parent: TypeId, check: Check, ctx: Context)
    ensures var e := R.NewRedirect(url);
      && e.notices.Some? && |e.notices.value| == 1
      && e.notices.value[0].links.Some? && |e.notices.value[0].links.value| == 1
      && var link := e.notices.value[0].links.value[0];
        link.href == link.value == Some(url) && !Offends(check, LinkSite(link, parent), ctx)
  {
  }
}
