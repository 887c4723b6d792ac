/**
 What is reported about `rdapConformance`, and what should be. Section 4.1 of RFC 9083 has it in the
 topmost object only. The checks visit nested entities and search members, but not the nameservers
 and the network of a domain, nor the autnums and the networks of an entity.
 */
module ConformanceCounts {
  import opened Wrappers
  import opened Sequences
  import opened CheckTree
  import opened ConformanceChecks
  import opened ConformanceSites

  /** A structure that may hold `rdapConformance`: the fields it shares with the root, and its class. */
  datatype Holder = Holder(common: Common, ofType: TypeId)

  predicate Carries(h: Holder) {
    h.common.rdapConformance.Some?
  }

  function CarriesFn(): Holder -> bool {
    (h: Holder) => Carries(h)
  }

  function LacksFn(): Holder -> bool {
    (h: Holder) => !Carries(h)
  }

  function Carriers(hs: seq<Holder>): nat {
    |Filter(CarriesFn(), hs)|
  }

  // ---- the holders that the checks visit --------------------------------------------------

  function HolderOf(n: Node): Holder {
    Holder(n.common, n.ofType)
  }

  function HolderFn(): Node -> Holder {
    (n: Node) => HolderOf(n)
  }

  function HoldersOf(nodes: seq<Node>): seq<Holder> {
    Map(HolderFn(), nodes)
  }

  /** The nested entities and search members below the root. */
  function VisitedBelow(r: RdapResponse): seq<Holder> {
    HoldersOf(NodesBelow(r))
  }

  lemma HoldersOfAppend(xs: seq<Node>, ys: seq<Node>)
    ensures HoldersOf(xs + ys) == HoldersOf(xs) + HoldersOf(ys)
  {
  }

  // ---- all holders ------------------------------------------------------------------------

  function AllOfNested(o: ObjectCommon): seq<Holder>
    decreases o, 1
  {
    if o.entities.Entities? then AllOfEntities(o.entities.list) else []
  }

  function AllOfEntities(es: seq<Entity>): seq<Holder>
    decreases es, 0
  {
    if es == [] then [] else AllOfEntities(es[..|es| - 1]) + AllOfEntity(es[|es| - 1])
  }

  /** An entity and everything inside it, at any depth. */
  function AllOfEntity(e: Entity): seq<Holder>
    decreases e, 1
  {
    [Holder(e.common, EntityType)] + AllOfNested(e.objectCommon) + InsideEntity(e)
  }

  /** The autnums and the networks of an entity, with everything inside them. */
  function InsideEntity(e: Entity): seq<Holder>
    decreases e, 0
  {
    (if e.autnums.Autnums? then AllOfAutnums(e.autnums.numbers) else [])
    + (if e.networks.Networks? then AllOfNetworks(e.networks.nets) else [])
  }

  function AllOfAutnums(numbers: seq<Autnum>): seq<Holder>
    decreases numbers, 0
  {
    if numbers == [] then []
    else
      var last := numbers[|numbers| - 1];
      AllOfAutnums(numbers[..|numbers| - 1]) + ([Holder(last.common, AutnumType)] + AllOfNested(last.objectCommon))
  }

  function AllOfNetworks(nets: seq<Network>): seq<Holder>
    decreases nets, 0
  {
    if nets == [] then []
    else
      var last := nets[|nets| - 1];
      AllOfNetworks(nets[..|nets| - 1]) + ([Holder(last.common, NetworkType)] + AllOfNested(last.objectCommon))
  }

  function AllOfNameservers(ns: seq<Nameserver>): seq<Holder> {
    if ns == [] then []
    else
      var last := ns[|ns| - 1];
      AllOfNameservers(ns[..|ns| - 1]) + ([Holder(last.common, NameserverType)] + AllOfNested(last.objectCommon))
  }

  /** The nameservers and the network of a domain, with everything inside them. */
  function InsideDomain(d: Domain): seq<Holder> {
    (if d.nameservers.Some? then AllOfNameservers(d.nameservers.value) else [])
    + (if d.network.Some? then AllOfNetworks([d.network.value]) else [])
  }

  function AllOfDomains(ds: seq<Domain>): seq<Holder> {
    if ds == [] then []
    else
      var last := ds[|ds| - 1];
      AllOfDomains(ds[..|ds| - 1])
      + ([Holder(last.common, DomainType)] + AllOfNested(last.objectCommon) + InsideDomain(last))
  }

  /** Everything below the root that may hold `rdapConformance`. */
  function AllBelow(r: RdapResponse): seq<Holder> {
    match r
    case EntityRoot(e) => AllOfNested(e.objectCommon) + InsideEntity(e)
    case DomainRoot(d) => AllOfNested(d.objectCommon) + InsideDomain(d)
    case NameserverRoot(n) => AllOfNested(n.objectCommon)
    case AutnumRoot(a) => AllOfNested(a.objectCommon)
    case NetworkRoot(n) => AllOfNested(n.objectCommon)
    case DomainSearchRoot(_, results) => AllOfDomains(results)
    case EntitySearchRoot(_, results) => AllOfEntities(results)
    case NameserverSearchRoot(_, results) => AllOfNameservers(results)
    case ErrorRoot(_) => []
    case HelpRoot(_) => []
  }

  // ---- the holders that the checks do not visit -------------------------------------------

  /** What stands inside the entities nested in an object without being one of them. */
  function EmbeddedInNested(o: ObjectCommon): seq<Holder>
    decreases o, 1
  {
    if o.entities.Entities? then EmbeddedInEntities(o.entities.list) else []
  }

  function EmbeddedInEntities(es: seq<Entity>): seq<Holder>
    decreases es, 0
  {
    if es == [] then [] else EmbeddedInEntities(es[..|es| - 1]) + EmbeddedInEntity(es[|es| - 1])
  }

  function EmbeddedInEntity(e: Entity): seq<Holder>
    decreases e
  {
    EmbeddedInNested(e.objectCommon) + InsideEntity(e)
  }

  function EmbeddedInDomains(ds: seq<Domain>): seq<Holder> {
    if ds == [] then []
    else
      var last := ds[|ds| - 1];
      EmbeddedInDomains(ds[..|ds| - 1]) + (EmbeddedInNested(last.objectCommon) + InsideDomain(last))
  }

  function EmbeddedInNameservers(ns: seq<Nameserver>): seq<Holder> {
    if ns == [] then [] else EmbeddedInNameservers(ns[..|ns| - 1]) + EmbeddedInNested(ns[|ns| - 1].objectCommon)
  }

  /** What the checks pass over: embedded structures and everything inside them, at any depth. */
  function EmbeddedBelow(r: RdapResponse): seq<Holder> {
    match r
    case EntityRoot(e) => EmbeddedInEntity(e)
    case DomainRoot(d) => EmbeddedInNested(d.objectCommon) + InsideDomain(d)
    case NameserverRoot(n) => EmbeddedInNested(n.objectCommon)
    case AutnumRoot(a) => EmbeddedInNested(a.objectCommon)
    case NetworkRoot(n) => EmbeddedInNested(n.objectCommon)
    case DomainSearchRoot(_, results) => EmbeddedInDomains(results)
    case EntitySearchRoot(_, results) => EmbeddedInEntities(results)
    case NameserverSearchRoot(_, results) => EmbeddedInNameservers(results)
    case ErrorRoot(_) => []
    case HelpRoot(_) => []
  }

  // ---- each holder is either visited or embedded ------------------------------------------

  /** The holders are the visited ones and the embedded ones, in some order. */
  ghost predicate Splits(all: seq<Holder>, visited: seq<Node>, embedded: seq<Holder>) {
    multiset(all) == multiset(HoldersOf(visited)) + multiset(embedded)
  }

  lemma SplitsAppend(
    all: seq<Holder>, visited: seq<Node>, embedded: seq<Holder>,
    all': seq<Holder>, visited': seq<Node>, embedded': seq<Holder>)
    requires Splits(all, visited, embedded) && Splits(all', visited', embedded')
    ensures Splits(all + all', visited + visited', embedded + embedded')
  {
    HoldersOfAppend(visited, visited');
  }

  /** A visited structure, followed by what is nested in it and by what is embedded in it. */
  lemma SplitsStructure(n: Node, all: seq<Holder>, visited: seq<Node>, embedded: seq<Holder>, inside: seq<Holder>)
    requires Splits(all, visited, embedded)
    ensures Splits([HolderOf(n)] + all + inside, [n] + visited, embedded + inside)
  {
    HoldersOfAppend([n], visited);
    assert HoldersOf([n]) == [HolderOf(n)];
  }

  lemma SplitsNested(all: seq<Holder>, visited: seq<Node>, embedded: seq<Holder>, inside: seq<Holder>)
    requires Splits(all, visited, embedded)
    ensures Splits(all + inside, visited, embedded + inside)
  {
  }

  lemma {:induction false} NestedSplits(o: ObjectCommon)
    ensures Splits(AllOfNested(o), NestedNodes(o), EmbeddedInNested(o))
    decreases o, 1
  {
    if o.entities.Entities? {
      EntitiesSplit(o.entities.list);
    }
  }

  lemma {:induction false} EntitiesSplit(es: seq<Entity>)
    ensures Splits(AllOfEntities(es), ListNodes(es), EmbeddedInEntities(es))
    decreases es, 0
  {
    if es != [] {
      var front, last := es[..|es| - 1], es[|es| - 1];
      EntitiesSplit(front);
      EntitySplits(last);
      SplitsAppend(AllOfEntities(front), ListNodes(front), EmbeddedInEntities(front),
                   AllOfEntity(last), EntityNodes(last), EmbeddedInEntity(last));
    }
  }

  lemma {:induction false} EntitySplits(e: Entity)
    ensures Splits(AllOfEntity(e), EntityNodes(e), EmbeddedInEntity(e))
    decreases e
  {
    NestedSplits(e.objectCommon);
    SplitsStructure(EntityNode(e), AllOfNested(e.objectCommon), NestedNodes(e.objectCommon),
                    EmbeddedInNested(e.objectCommon), InsideEntity(e));
  }

  lemma {:induction false} DomainsSplit(ds: seq<Domain>)
    ensures Splits(AllOfDomains(ds), DomainNodes(ds), EmbeddedInDomains(ds))
  {
    if ds != [] {
      var front, last := ds[..|ds| - 1], ds[|ds| - 1];
      var o := last.objectCommon;
      DomainsSplit(front);
      NestedSplits(o);
      SplitsStructure(DomainNode(last), AllOfNested(o), NestedNodes(o), EmbeddedInNested(o), InsideDomain(last));
      SplitsAppend(AllOfDomains(front), DomainNodes(front), EmbeddedInDomains(front),
                   [Holder(last.common, DomainType)] + AllOfNested(o) + InsideDomain(last),
                   [DomainNode(last)] + NestedNodes(o), EmbeddedInNested(o) + InsideDomain(last));
    }
  }

  lemma {:induction false} NameserversSplit(ns: seq<Nameserver>)
    ensures Splits(AllOfNameservers(ns), NameserverNodes(ns), EmbeddedInNameservers(ns))
  {
    if ns != [] {
      var front, last := ns[..|ns| - 1], ns[|ns| - 1];
      var o := last.objectCommon;
      NameserversSplit(front);
      NestedSplits(o);
      SplitsStructure(NameserverNode(last), AllOfNested(o), NestedNodes(o), EmbeddedInNested(o), []);
      assert [HolderOf(NameserverNode(last))] + AllOfNested(o) + [] == [Holder(last.common, NameserverType)] + AllOfNested(o);
      assert EmbeddedInNested(o) + [] == EmbeddedInNested(o);
      SplitsAppend(AllOfNameservers(front), NameserverNodes(front), EmbeddedInNameservers(front),
                   [Holder(last.common, NameserverType)] + AllOfNested(o), [NameserverNode(last)] + NestedNodes(o),
                   EmbeddedInNested(o));
    }
  }

  ghost predicate RootSplits(r: RdapResponse) {
    Splits(AllBelow(r), NodesBelow(r), EmbeddedBelow(r))
  }

  lemma EntityRootSplits(e: Entity)
    ensures RootSplits(EntityRoot(e))
  {
    var o := e.objectCommon;
    NestedSplits(o);
    SplitsNested(AllOfNested(o), NestedNodes(o), EmbeddedInNested(o), InsideEntity(e));
  }

  lemma DomainRootSplits(d: Domain)
    ensures RootSplits(DomainRoot(d))
  {
    var o := d.objectCommon;
    NestedSplits(o);
    SplitsNested(AllOfNested(o), NestedNodes(o), EmbeddedInNested(o), InsideDomain(d));
  }

  lemma ObjectRootSplits(r: RdapResponse)
    requires r.EntityRoot? || r.DomainRoot? || r.NameserverRoot? || r.AutnumRoot? || r.NetworkRoot?
    ensures RootSplits(r)
  {
    match r
    case EntityRoot(e) => EntityRootSplits(e);
    case DomainRoot(d) => DomainRootSplits(d);
    case NameserverRoot(n) => NestedSplits(n.objectCommon);
    case AutnumRoot(a) => NestedSplits(a.objectCommon);
    case NetworkRoot(n) => NestedSplits(n.objectCommon);
  }

  lemma DomainSearchSplits(common: Common, results: seq<Domain>)
    ensures RootSplits(DomainSearchRoot(common, results))
  {
    DomainsSplit(results);
  }

  lemma EntitySearchSplits(common: Common, results: seq<Entity>)
    ensures RootSplits(EntitySearchRoot(common, results))
  {
    EntitiesSplit(results);
  }

  lemma NameserverSearchSplits(common: Common, results: seq<Nameserver>)
    ensures RootSplits(NameserverSearchRoot(common, results))
  {
    NameserversSplit(results);
  }

  lemma OtherRootSplits(r: RdapResponse)
    requires r.DomainSearchRoot? || r.EntitySearchRoot? || r.NameserverSearchRoot? || r.ErrorRoot? || r.HelpRoot?
    ensures RootSplits(r)
  {
    match r
    case DomainSearchRoot(common, results) => DomainSearchSplits(common, results);
    case EntitySearchRoot(common, results) => EntitySearchSplits(common, results);
    case NameserverSearchRoot(common, results) => NameserverSearchSplits(common, results);
    case ErrorRoot(_) =>
    case HelpRoot(_) =>
  }

  /** Everything below the root is either visited by the checks or embedded, and not both. */
  lemma VisitedOrEmbedded(r: RdapResponse)
    ensures multiset(AllBelow(r)) == multiset(VisitedBelow(r)) + multiset(EmbeddedBelow(r))
  {
    if r.EntityRoot? || r.DomainRoot? || r.NameserverRoot? || r.AutnumRoot? || r.NetworkRoot? {
      ObjectRootSplits(r);
    } else {
      OtherRootSplits(r);
    }
  }

  /** A holder taken out of a list is counted once and leaves the count of the others. */
  lemma CountTakenOut(p: Holder -> bool, before: seq<Holder>, h: Holder, after: seq<Holder>)
    ensures |Filter(p, before + ([h] + after))| == |Filter(p, [h])| + |Filter(p, before + after)|
  {
    FilterAppend(p, before, [h] + after);
    FilterAppend(p, [h], after);
    FilterAppend(p, before, after);
  }

  lemma TakenOut(hs: seq<Holder>, before: seq<Holder>, h: Holder, after: seq<Holder>)
    requires multiset([h] + hs) == multiset(before + ([h] + after))
    ensures multiset(hs) == multiset(before + after)
  {
    assert multiset(before + ([h] + after)) == multiset([h]) + multiset(before + after);
    assert multiset(hs) == multiset([h] + hs) - multiset([h]);
  }

  lemma {:induction false} CountIsPerElement(p: Holder -> bool, hs: seq<Holder>, ks: seq<Holder>)
    requires multiset(hs) == multiset(ks)
    ensures |Filter(p, hs)| == |Filter(p, ks)|
    decreases |hs|
  {
    if hs == [] {
      assert |multiset(ks)| == 0;
    } else {
      var h, rest := hs[0], hs[1..];
      assert hs == [h] + rest;
      assert h in multiset(ks);
      var i :| 0 <= i < |ks| && ks[i] == h;
      var before, after := ks[..i], ks[i + 1..];
      assert ks == before + ([h] + after);
      TakenOut(rest, before, h, after);
      CountIsPerElement(p, rest, before + after);
      CountTakenOut(p, before, h, after);
      FilterAppend(p, [h], rest);
    }
  }

  /** Each carrier below the root is counted once, among the visited or among the embedded. */
  lemma CarriersBelow(r: RdapResponse)
    ensures Carriers(AllBelow(r)) == Carriers(VisitedBelow(r)) + Carriers(EmbeddedBelow(r))
  {
    VisitedOrEmbedded(r);
    CountIsPerElement(CarriesFn(), AllBelow(r), VisitedBelow(r) + EmbeddedBelow(r));
    FilterAppend(CarriesFn(), VisitedBelow(r), EmbeddedBelow(r));
  }

  // ---- what is reported about the visited -------------------------------------------------

  predicate IsPlacement(check: Check) {
    check.RdapConformanceMissing? || check.RdapConformanceInvalidParent?
  }

  predicate Reported(check: Check, rootType: TypeId, h: Holder) {
    if check.RdapConformanceMissing? then h.ofType == rootType && !Carries(h)
    else h.ofType != rootType && Carries(h)
  }

  function ReportedFn(check: Check, rootType: TypeId): Holder -> bool {
    (h: Holder) => Reported(check, rootType, h)
  }

  /** No site but the shared fields is reported missing or misplaced. */
  lemma {:induction false} DetailsAreQuiet(check: Check, details: seq<Detail>, ctx: Context)
    requires IsPlacement(check)
    ensures Offences(check, details, ctx) == 0
  {
    if details != [] {
      DetailsAreQuiet(check, details[..|details| - 1], ctx);
    }
  }

  lemma NodeReports(check: Check, n: Node, ctx: Context)
    requires IsPlacement(check)
    ensures NodeOffences(check, n, ctx) == Bit(Reported(check, ctx.rootType, HolderOf(n)))
  {
    DetailsAreQuiet(check, NodeDetails(n), ctx);
  }

  ghost predicate NodesAreReported(check: Check, nodes: seq<Node>, ctx: Context) {
    AllOffences(check, nodes, ctx) == |Filter(ReportedFn(check, ctx.rootType), HoldersOf(nodes))|
  }

  lemma OneMoreNode(check: Check, front: seq<Node>, last: Node, ctx: Context)
    requires IsPlacement(check) && NodesAreReported(check, front, ctx)
    ensures NodesAreReported(check, front + [last], ctx)
  {
    NodeReports(check, last, ctx);
    AllOffencesAppend(check, front, [last], ctx);
    AllOffencesOne(check, last, ctx);
    HoldersOfAppend(front, [last]);
    assert HoldersOf([last]) == [HolderOf(last)];
    FilterOne(ReportedFn(check, ctx.rootType), HolderOf(last));
    FilterAppend(ReportedFn(check, ctx.rootType), HoldersOf(front), [HolderOf(last)]);
  }

  lemma {:induction false} NodesReport(check: Check, nodes: seq<Node>, ctx: Context)
    requires IsPlacement(check)
    ensures NodesAreReported(check, nodes, ctx)
  {
    if nodes != [] {
      var front, last := nodes[..|nodes| - 1], nodes[|nodes| - 1];
      assert nodes == front + [last];
      NodesReport(check, front, ctx);
      OneMoreNode(check, front, last, ctx);
    }
  }

  function Root(r: RdapResponse): Holder {
    Holder(r.RootCommon(), r.Type())
  }

  lemma RootIsVisited(r: RdapResponse)
    ensures HoldersOf(Nodes(r)) == [Root(r)] + VisitedBelow(r)
  {
    assert HolderOf(RootNode(r)) == Root(r);
  }

  /** How often checking a response and traversing the checks for errors reports a check. */
  function Errors(r: RdapResponse, recognizers: Recognizers, check: Check): nat {
    Reports(r, recognizers, [StdError], check)
  }

  lemma PlacementIsError(check: Check)
    requires IsPlacement(check)
    ensures ClassOf(check) in [StdError]
  {
  }

  lemma ErrorsOfTree(tree: Checks, nodes: seq<Node>, check: Check, ctx: Context)
    requires IsPlacement(check) && Agrees(tree, nodes, check, ctx) && NodesAreReported(check, nodes, ctx)
    ensures ReportsOf(tree, [StdError], check) == |Filter(ReportedFn(check, ctx.rootType), HoldersOf(nodes))|
  {
    PlacementIsError(check);
    WantedAreReported(tree, nodes, [StdError], check, ctx);
  }

  lemma ErrorsOfNodes(r: RdapResponse, recognizers: Recognizers, check: Check)
    requires IsPlacement(check)
    ensures Errors(r, recognizers, check) == |Filter(ReportedFn(check, r.Type()), HoldersOf(Nodes(r)))|
  {
    var p := ForRdap(r, recognizers);
    TreeReports(r, p, check);
    NodesReport(check, Nodes(r), p.context);
    ErrorsOfTree(ResponseTree(r, p), Nodes(r), check, p.context);
  }

  lemma ErrorsAreReported(r: RdapResponse, recognizers: Recognizers, check: Check)
    requires IsPlacement(check)
    ensures Errors(r, recognizers, check)
         == Bit(Reported(check, r.Type(), Root(r))) + |Filter(ReportedFn(check, r.Type()), VisitedBelow(r))|
  {
    ErrorsOfNodes(r, recognizers, check);
    RootIsVisited(r);
    FilterOne(ReportedFn(check, r.Type()), Root(r));
    FilterAppend(ReportedFn(check, r.Type()), [Root(r)], VisitedBelow(r));
  }

  ghost predicate AreOf(nodes: seq<Node>, types: set<TypeId>) {
    forall n :: n in nodes ==> n.ofType in types
  }

  lemma {:induction false} NestedAreEntities(o: ObjectCommon)
    ensures AreOf(NestedNodes(o), {EntityType})
    decreases o, 1
  {
    if o.entities.Entities? {
      ListsAreEntities(o.entities.list);
    }
  }

  lemma {:induction false} ListsAreEntities(es: seq<Entity>)
    ensures AreOf(ListNodes(es), {EntityType})
    decreases es, 0
  {
    if es != [] {
      ListsAreEntities(es[..|es| - 1]);
      EntitiesAreEntities(es[|es| - 1]);
    }
  }

  lemma {:induction false} EntitiesAreEntities(e: Entity)
    ensures AreOf(EntityNodes(e), {EntityType})
    decreases e
  {
    NestedAreEntities(e.objectCommon);
  }

  lemma {:induction false} DomainsAreNotSearches(ds: seq<Domain>)
    ensures AreOf(DomainNodes(ds), {DomainType, EntityType})
  {
    if ds != [] {
      DomainsAreNotSearches(ds[..|ds| - 1]);
      NestedAreEntities(ds[|ds| - 1].objectCommon);
    }
  }

  lemma {:induction false} NameserversAreNotSearches(ns: seq<Nameserver>)
    ensures AreOf(NameserverNodes(ns), {NameserverType, EntityType})
  {
    if ns != [] {
      NameserversAreNotSearches(ns[..|ns| - 1]);
      NestedAreEntities(ns[|ns| - 1].objectCommon);
    }
  }

  /** What is visited below the root has the class of the root only under an entity. */
  lemma TypesBelow(r: RdapResponse)
    ensures forall h :: h in VisitedBelow(r) ==> (h.ofType == r.Type() <==> r.EntityRoot?)
  {
    match r
    case EntityRoot(e) => NestedAreEntities(e.objectCommon);
    case DomainRoot(d) => NestedAreEntities(d.objectCommon);
    case NameserverRoot(n) => NestedAreEntities(n.objectCommon);
    case AutnumRoot(a) => NestedAreEntities(a.objectCommon);
    case NetworkRoot(n) => NestedAreEntities(n.objectCommon);
    case DomainSearchRoot(_, results) => DomainsAreNotSearches(results);
    case EntitySearchRoot(_, results) => ListsAreEntities(results);
    case NameserverSearchRoot(_, results) => NameserversAreNotSearches(results);
    case ErrorRoot(_) =>
    case HelpRoot(_) =>
  }

  lemma {:induction false} FilterAgrees<A>(f: A -> bool, g: A -> bool, xs: seq<A>)
    requires forall x :: x in xs ==> f(x) == g(x)
    ensures Filter(f, xs) == Filter(g, xs)
  {
    if xs != [] {
      FilterAgrees(f, g, xs[1..]);
    }
  }

  /**
   Under a root other than an entity, a missing `rdapConformance` is reported exactly once, and
   exactly if the root lacks it; a misplaced one is reported exactly once for each nested entity and
   search member that carries it, at any depth.
   */
  lemma PlacementReports(r: RdapResponse, recognizers: Recognizers)
    requires !r.EntityRoot?
    ensures Errors(r, recognizers, RdapConformanceMissing) == Bit(!Carries(Root(r)))
    ensures Errors(r, recognizers, RdapConformanceInvalidParent) == Carriers(VisitedBelow(r))
  {
    TypesBelow(r);
    ErrorsAreReported(r, recognizers, RdapConformanceMissing);
    ErrorsAreReported(r, recognizers, RdapConformanceInvalidParent);
    FilterNone(ReportedFn(RdapConformanceMissing, r.Type()), VisitedBelow(r));
    FilterAgrees(ReportedFn(RdapConformanceInvalidParent, r.Type()), CarriesFn(), VisitedBelow(r));
  }

  /**
   Under an entity, which has the class of everything nested in it, a missing `rdapConformance` is
   reported for every visited entity that lacks it, and a misplaced one is never reported.
   */
  lemma EntityRootReports(r: RdapResponse, recognizers: Recognizers)
    requires r.EntityRoot?
    ensures Errors(r, recognizers, RdapConformanceMissing)
         == Bit(!Carries(Root(r))) + |Filter(LacksFn(), VisitedBelow(r))|
    ensures Errors(r, recognizers, RdapConformanceInvalidParent) == 0
  {
    TypesBelow(r);
    ErrorsAreReported(r, recognizers, RdapConformanceMissing);
    ErrorsAreReported(r, recognizers, RdapConformanceInvalidParent);
    FilterAgrees(ReportedFn(RdapConformanceMissing, r.Type()), LacksFn(), VisitedBelow(r));
    FilterNone(ReportedFn(RdapConformanceInvalidParent, r.Type()), VisitedBelow(r));
  }

  // ---- when the reports are right ---------------------------------------------------------

  lemma {:induction false} CarriesOrLacks(hs: seq<Holder>)
    ensures Carriers(hs) + |Filter(LacksFn(), hs)| == |hs|
  {
    if hs != [] {
      CarriesOrLacks(hs[1..]);
    }
  }

  lemma NoCarriers(hs: seq<Holder>)
    ensures Carriers(hs) == 0 <==> forall h :: h in hs ==> !Carries(h)
  {
    FilterKeepsOnly(CarriesFn(), hs);
    if Carriers(hs) != 0 {
      assert Filter(CarriesFn(), hs)[0] in Filter(CarriesFn(), hs);
    } else {
      assert forall h :: h !in Filter(CarriesFn(), hs);
    }
  }

  /**
   A missing `rdapConformance` is reported once if the root lacks it, and a misplaced one once for
   each structure below the root that carries it, whatever holds the structure.
   */
  ghost predicate PlacementIsRight(r: RdapResponse, recognizers: Recognizers) {
    && Errors(r, recognizers, RdapConformanceMissing) == Bit(!Carries(Root(r)))
    && Errors(r, recognizers, RdapConformanceInvalidParent) == Carriers(AllBelow(r))
  }

  /**
   The reports are right exactly if the root is not an entity with entities nested in it, and no
   embedded structure, which is never visited, carries `rdapConformance`.
   */
  lemma PlacementRightExactly(r: RdapResponse, recognizers: Recognizers)
    ensures PlacementIsRight(r, recognizers)
       <==> !(r.EntityRoot? && NodesBelow(r) != []) && forall h :: h in EmbeddedBelow(r) ==> !Carries(h)
  {
    CarriersBelow(r);
    NoCarriers(EmbeddedBelow(r));
    if r.EntityRoot? {
      EntityRootReports(r, recognizers);
      CarriesOrLacks(VisitedBelow(r));
    } else {
      PlacementReports(r, recognizers);
    }
  }

  const CONFORMANT := Common(Some(["rdap_level_0"]), None)

  function Holding(entities: EntityList): ObjectCommon {
    ObjectCommon(entities, None, None, None, None, None, None)
  }

  /** A domain with a nameserver and an entity inside the nameserver. */
  function WithNameserver(common: Common): Domain {
    var inner := Entity(common, Holding(NoEntities), None, None, None, NoAutnums, NoNetworks);
    var nameserver := Nameserver(common, Holding(Entities([inner])), []);
    Domain(CONFORMANT, Holding(NoEntities), None, Some([nameserver]), None, [])
  }

  /** All three carry `rdapConformance`, and nothing is reported. */
  lemma NameserverGoesUnreported(recognizers: Recognizers)
    ensures Errors(DomainRoot(WithNameserver(CONFORMANT)), recognizers, RdapConformanceInvalidParent) == 0
    ensures Carriers(AllBelow(DomainRoot(WithNameserver(CONFORMANT)))) == 2
    ensures !PlacementIsRight(DomainRoot(WithNameserver(CONFORMANT)), recognizers)
  {
    var d := WithNameserver(CONFORMANT);
    var nameserver := d.nameservers.value[0];
    var inner := nameserver.objectCommon.entities.list[0];
    PlacementReports(DomainRoot(d), recognizers);
    assert AllOfEntities([inner]) == [Holder(CONFORMANT, EntityType)] by {
      assert [inner][..0] == [];
      assert AllOfEntity(inner) == [Holder(CONFORMANT, EntityType)];
    }
    assert AllOfNameservers([nameserver]) == [Holder(CONFORMANT, NameserverType), Holder(CONFORMANT, EntityType)] by {
      assert [nameserver][..0] == [];
    }
    assert AllBelow(DomainRoot(d)) == [Holder(CONFORMANT, NameserverType)] + [Holder(CONFORMANT, EntityType)];
    FilterOne(CarriesFn(), Holder(CONFORMANT, NameserverType));
    FilterOne(CarriesFn(), Holder(CONFORMANT, EntityType));
    FilterAppend(CarriesFn(), [Holder(CONFORMANT, NameserverType)], [Holder(CONFORMANT, EntityType)]);
  }
}
