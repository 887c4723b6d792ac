/** Trees of conformance checks and their traversal. */
module CheckTree {
  import opened Wrappers

  datatype CheckClass = Informational | SpecificationNote | StdWarning | StdError | Cidr0Error | IcannError

  datatype Structure =
    | AutnumStructure | Cidr0 | DomainStructure | DomainSearchResults | EntityStructure | EntitySearchResults
    | Events | ErrorStructure | HelpStructure | Handle | IpNetwork | LinkStructure | Links | NameserverStructure
    | NameserverSearchResults | NoticeOrRemark | Notices | PublicIds | Port43 | RdapConformance | Remarks | Status

  /** How a structure is spelled in a path. */
  function Name(s: Structure): string {
    match s
    case AutnumStructure => "autnum"
    case Cidr0 => "cidr0"
    case DomainStructure => "domain"
    case DomainSearchResults => "domain_search_results"
    case EntityStructure => "entity"
    case EntitySearchResults => "entity_search_results"
    case Events => "events"
    case ErrorStructure => "error"
    case HelpStructure => "help"
    case Handle => "handle"
    case IpNetwork => "ip_network"
    case LinkStructure => "link"
    case Links => "links"
    case NameserverStructure => "nameserver"
    case NameserverSearchResults => "nameserver_search_results"
    case NoticeOrRemark => "notice_or_remark"
    case Notices => "notices"
    case PublicIds => "publid_ids"
    case Port43 => "port43"
    case RdapConformance => "rdap_conformance"
    case Remarks => "remarks"
    case Status => "status"
  }

  /** No two structures are spelled alike. */
  lemma NamesDiffer(a: Structure, b: Structure)
    ensures Name(a) == Name(b) ==> a == b
  {
  }

  /**
   The checks of the shared structures and of entities. A check of a field that only domains,
   nameservers, autnums or networks have is a `FieldCheck`, told apart by its number.
   */
  datatype Check =
    | RdapConformanceMissing
    | RdapConformanceInvalidParent
    | UnknownExtension
    | LinkMissingValueProperty
    | LinkMissingRelProperty
    | LinkRelatedHasNoType
    | LinkRelatedIsNotRdap
    | LinkSelfHasNoType
    | LinkSelfIsNotRdap
    | LinkObjectClassHasNoSelf
    | LinkMissingHrefProperty
    | EventDateIsAbsent
    | EventDateIsNotRfc3339
    | EventActionIsAbsent
    | NoticeOrRemarkDescriptionIsAbsent
    | NoticeOrRemarkDescriptionIsString
    | HandleIsEmpty
    | StatusIsEmpty
    | RoleIsEmpty
    | UnknownRole
    | VcardArrayIsEmpty
    | VcardHasNoFn
    | VcardFnIsEmpty
    | Port43IsEmpty
    | PublicIdTypeIsAbsent
    | PublicIdIdentifierIsAbsent
    | Cidr0V4PrefixIsAbsent
    | Cidr0V4LengthIsAbsent
    | Cidr0V6PrefixIsAbsent
    | Cidr0V6LengthIsAbsent
    | FieldCheck(number: nat, ofClass: CheckClass)

  function ClassOf(c: Check): CheckClass {
    if c.FieldCheck? then c.ofClass
    else if c.LinkObjectClassHasNoSelf? || c.VcardFnIsEmpty? then SpecificationNote
    else if c.Cidr0V4PrefixIsAbsent? || c.Cidr0V4LengthIsAbsent? || c.Cidr0V6PrefixIsAbsent? || c.Cidr0V6LengthIsAbsent?
    then Cidr0Error
    else if c.UnknownExtension? || c.LinkRelatedHasNoType? || c.LinkRelatedIsNotRdap? || c.LinkSelfHasNoType?
            || c.LinkSelfIsNotRdap? || c.HandleIsEmpty? || c.UnknownRole?
    then StdWarning
    else StdError
  }

  datatype CheckItem = CheckItem(checkClass: CheckClass, check: Check)

  function Item(c: Check): CheckItem {
    CheckItem(ClassOf(c), c)
  }

  datatype Checks = Checks(rdapStruct: Structure, items: seq<CheckItem>, subChecks: seq<Checks>)

  // ---- traversal --------------------------------------------------------------------------

  datatype Callback = Callback(path: string, item: CheckItem)

  const ROOT := "[ROOT]"

  function PathOf(c: Checks, parent: string): string {
    parent + "/" + Name(c.rdapStruct)
  }

  function OwnCallbacks(items: seq<CheckItem>, classes: seq<CheckClass>, path: string): seq<Callback> {
    if items == [] then []
    else
      var front := OwnCallbacks(items[..|items| - 1], classes, path);
      var last := items[|items| - 1];
      if last.checkClass in classes then front + [Callback(path, last)] else front
  }

  function Callbacks(c: Checks, classes: seq<CheckClass>, parent: string): seq<Callback>
    decreases c, 1
  {
    OwnCallbacks(c.items, classes, PathOf(c, parent)) + ForestCallbacks(c.subChecks, classes, PathOf(c, parent))
  }

  function ForestCallbacks(cs: seq<Checks>, classes: seq<CheckClass>, parent: string): seq<Callback>
    decreases cs, 0
  {
    if cs == [] then [] else Callbacks(cs[0], classes, parent) + ForestCallbacks(cs[1..], classes, parent)
  }

  /** The callback, as the list of calls it has received. */
  class Recorder {
    var calls: seq<Callback>

    constructor ()
      ensures calls == []
    {
      calls := [];
    }

    method Call(path: string, item: CheckItem)
      modifies this
      ensures calls == old(calls) + [Callback(path, item)]
    {
      calls := calls + [Callback(path, item)];
    }
  }

  lemma {:induction false} ForestCallbacksPrefix(cs: seq<Checks>, classes: seq<CheckClass>, parent: string, i: nat)
    requires i < |cs|
    ensures ForestCallbacks(cs[..i + 1], classes, parent)
         == ForestCallbacks(cs[..i], classes, parent) + Callbacks(cs[i], classes, parent)
  {
    assert cs[..i + 1][0] == cs[0];
    if i == 0 {
      assert cs[..1][1..] == [];
    } else {
      assert cs[..i + 1][1..] == cs[1..][..i] && cs[..i][1..] == cs[1..][..i - 1];
      ForestCallbacksPrefix(cs[1..], classes, parent, i - 1);
    }
  }

  /** The first loop of `traverse_checks`. */
  method TraverseItems(items: seq<CheckItem>, classes: seq<CheckClass>, structTree: string, f: Recorder)
    returns (found: bool)
    modifies f
    ensures f.calls == old(f.calls) + OwnCallbacks(items, classes, structTree)
    ensures found <==> OwnCallbacks(items, classes, structTree) != []
  {
    found := false;
    for i := 0 to |items|
      invariant f.calls == old(f.calls) + OwnCallbacks(items[..i], classes, structTree)
      invariant found <==> OwnCallbacks(items[..i], classes, structTree) != []
    {
      assert items[..i + 1][..i] == items[..i];
      if items[i].checkClass in classes {
        f.Call(structTree, items[i]);
        found := true;
      }
    }
    assert items[..|items|] == items;
  }

  lemma ConcatAssociative<T>(a: seq<T>, b: seq<T>, c: seq<T>, d: seq<T>)
    ensures (a + (b + c)) + d == a + (b + (c + d))
    ensures b + (c + d) == (b + c) + d
  {
  }

  function ParentOf(parentTree: Option<string>): string {
    if parentTree.Some? then parentTree.value else ROOT
  }

  /** `traverse_checks` */
  method TraverseChecks(checks: Checks, classes: seq<CheckClass>, parentTree: Option<string>, f: Recorder)
    returns (found: bool)
    modifies f
    ensures f.calls == old(f.calls) + Callbacks(checks, classes, ParentOf(parentTree))
    ensures found <==> Callbacks(checks, classes, ParentOf(parentTree)) != []
    ensures parentTree.None? ==> f.calls == old(f.calls) + Callbacks(checks, classes, "[ROOT]")
    ensures parentTree.Some? ==> f.calls == old(f.calls) + Callbacks(checks, classes, parentTree.value)
    decreases checks
  {
    var structTree := PathOf(checks, ParentOf(parentTree));
    found := TraverseItems(checks.items, classes, structTree, f);
    ghost var own := OwnCallbacks(checks.items, classes, structTree);
    for i := 0 to |checks.subChecks|
      invariant f.calls == old(f.calls) + (own + ForestCallbacks(checks.subChecks[..i], classes, structTree))
      invariant found <==> own + ForestCallbacks(checks.subChecks[..i], classes, structTree) != []
    {
      ForestCallbacksPrefix(checks.subChecks, classes, structTree, i);
      ConcatAssociative(old(f.calls), own, ForestCallbacks(checks.subChecks[..i], classes, structTree),
                        Callbacks(checks.subChecks[i], classes, structTree));
      var sub := TraverseChecks(checks.subChecks[i], classes, Some(structTree), f);
      if sub {
        found := true;
      }
    }
    assert checks.subChecks[..|checks.subChecks|] == checks.subChecks;
  }

  // ---- preorder ---------------------------------------------------------------------------

  /** An item of a tree: the way down to its node, and its place there. */
  datatype Visit = Visit(address: seq<nat>, index: nat)

  function NodeAt(c: Checks, address: seq<nat>): Option<Checks> {
    if address == [] then Some(c)
    else if address[0] < |c.subChecks| then NodeAt(c.subChecks[address[0]], address[1..])
    else None
  }

  /** The names of the structures on the way down, the first included. */
  function PathTo(c: Checks, address: seq<nat>): string {
    "/" + Name(c.rdapStruct)
    + (if address != [] && address[0] < |c.subChecks| then PathTo(c.subChecks[address[0]], address[1..]) else "")
  }

  predicate IsVisit(c: Checks, v: Visit) {
    NodeAt(c, v.address).Some? && v.index < |NodeAt(c, v.address).value.items|
  }

  /** A node comes before the nodes below it, and those below an earlier child before those below a later. */
  predicate AddressBefore(a: seq<nat>, b: seq<nat>) {
    b != [] && (a == [] || a[0] < b[0] || (a[0] == b[0] && AddressBefore(a[1..], b[1..])))
  }

  predicate Before(v: Visit, w: Visit) {
    AddressBefore(v.address, w.address) || (v.address == w.address && v.index < w.index)
  }

  ghost predicate InOrder(vs: seq<Visit>) {
    forall i, j :: 0 <= i < j < |vs| ==> Before(vs[i], vs[j])
  }

  function Below(k: nat, vs: seq<Visit>): seq<Visit> {
    seq(|vs|, i requires 0 <= i < |vs| => Visit([k] + vs[i].address, vs[i].index))
  }

  function OwnVisits(n: nat): seq<Visit> {
    seq(n, i requires 0 <= i < n => Visit([], i))
  }

  function Visits(c: Checks): seq<Visit>
    decreases c, 1
  {
    OwnVisits(|c.items|) + ForestVisits(c.subChecks, 0)
  }

  function ForestVisits(cs: seq<Checks>, k: nat): seq<Visit>
    decreases cs, 0
  {
    if cs == [] then [] else Below(k, Visits(cs[0])) + ForestVisits(cs[1..], k + 1)
  }

  lemma BelowInOrder(k: nat, vs: seq<Visit>)
    requires InOrder(vs)
    ensures InOrder(Below(k, vs))
  {
    forall i, j | 0 <= i < j < |vs|
      ensures Before(Below(k, vs)[i], Below(k, vs)[j])
    {
      assert Before(vs[i], vs[j]);
      assert ([k] + vs[i].address)[1..] == vs[i].address && ([k] + vs[j].address)[1..] == vs[j].address;
    }
  }

  lemma InOrderConcat(vs: seq<Visit>, ws: seq<Visit>)
    requires InOrder(vs) && InOrder(ws)
    requires forall v, w :: v in vs && w in ws ==> Before(v, w)
    ensures InOrder(vs + ws)
  {
    var all := vs + ws;
    forall i, j | 0 <= i < j < |all|
      ensures Before(all[i], all[j])
    {
      if i < |vs| <= j {
        assert all[i] in vs && all[j] in ws;
      }
    }
  }

  lemma {:induction false} ForestAddresses(cs: seq<Checks>, k: nat, v: Visit)
    ensures v in ForestVisits(cs, k)
       <==> v.address != [] && k <= v.address[0] < k + |cs|
            && Visit(v.address[1..], v.index) in Visits(cs[v.address[0] - k])
  {
    if cs != [] {
      ForestAddresses(cs[1..], k + 1, v);
      BelowMembers(k, Visits(cs[0]), v);
    }
  }

  lemma BelowMembers(k: nat, vs: seq<Visit>, v: Visit)
    ensures v in Below(k, vs) <==> v.address != [] && v.address[0] == k && Visit(v.address[1..], v.index) in vs
  {
    if v in Below(k, vs) {
      var i :| 0 <= i < |vs| && Below(k, vs)[i] == v;
      assert v.address[1..] == vs[i].address;
    }
    if v.address != [] && v.address[0] == k && Visit(v.address[1..], v.index) in vs {
      var i :| 0 <= i < |vs| && vs[i] == Visit(v.address[1..], v.index);
      assert [k] + v.address[1..] == v.address;
      assert Below(k, vs)[i] == v;
    }
  }

  lemma {:induction false} ForestInOrder(cs: seq<Checks>, k: nat)
    ensures InOrder(ForestVisits(cs, k))
    decreases cs, 0
  {
    if cs != [] {
      VisitsInOrder(cs[0]);
      BelowInOrder(k, Visits(cs[0]));
      ForestInOrder(cs[1..], k + 1);
      forall v, w | v in Below(k, Visits(cs[0])) && w in ForestVisits(cs[1..], k + 1)
        ensures Before(v, w)
      {
        BelowMembers(k, Visits(cs[0]), v);
        ForestAddresses(cs[1..], k + 1, w);
      }
      InOrderConcat(Below(k, Visits(cs[0])), ForestVisits(cs[1..], k + 1));
    }
  }

  /** The visits are in preorder, and no two are the same. */
  lemma {:induction false} VisitsInOrder(c: Checks)
    ensures InOrder(Visits(c))
    decreases c, 1
  {
    ForestInOrder(c.subChecks, 0);
    forall v, w | v in OwnVisits(|c.items|) && w in ForestVisits(c.subChecks, 0)
      ensures Before(v, w)
    {
      ForestAddresses(c.subChecks, 0, w);
    }
    InOrderConcat(OwnVisits(|c.items|), ForestVisits(c.subChecks, 0));
  }

  /** Every item of the tree is visited, and nothing else. */
  lemma {:induction false} VisitsComplete(c: Checks, v: Visit)
    ensures v in Visits(c) <==> IsVisit(c, v)
    decreases |v.address|
  {
    ForestAddresses(c.subChecks, 0, v);
    if v.address == [] {
      if v.index < |c.items| {
        assert OwnVisits(|c.items|)[v.index] == v;
      }
    } else if v.address[0] < |c.subChecks| {
      VisitsComplete(c.subChecks[v.address[0]], Visit(v.address[1..], v.index));
    }
  }

  /** The callbacks for some visits: those to items of the wanted classes, with their full path. */
  ghost function Called(c: Checks, classes: seq<CheckClass>, parent: string, vs: seq<Visit>): seq<Callback>
    requires forall v :: v in vs ==> IsVisit(c, v)
  {
    if vs == [] then []
    else
      assert IsVisit(c, vs[0]);
      var item := NodeAt(c, vs[0].address).value.items[vs[0].index];
      var rest := Called(c, classes, parent, vs[1..]);
      if item.checkClass in classes then [Callback(parent + PathTo(c, vs[0].address), item)] + rest else rest
  }

  lemma {:induction false} CalledAppend(c: Checks, classes: seq<CheckClass>, parent: string, vs: seq<Visit>, ws: seq<Visit>)
    requires forall v :: v in vs + ws ==> IsVisit(c, v)
    requires forall v :: v in vs ==> IsVisit(c, v)
    requires forall v :: v in ws ==> IsVisit(c, v)
    ensures Called(c, classes, parent, vs + ws) == Called(c, classes, parent, vs) + Called(c, classes, parent, ws)
  {
    if vs == [] {
      assert vs + ws == ws;
    } else {
      assert (vs + ws)[1..] == vs[1..] + ws;
      CalledAppend(c, classes, parent, vs[1..], ws);
    }
  }

  lemma NodeBelow(c: Checks, parent: string, k: nat, address: seq<nat>)
    requires k < |c.subChecks|
    ensures NodeAt(c, [k] + address) == NodeAt(c.subChecks[k], address)
    ensures parent + PathTo(c, [k] + address) == PathOf(c, parent) + PathTo(c.subChecks[k], address)
  {
    assert ([k] + address)[1..] == address;
  }

  lemma {:induction false} CalledBelow(c: Checks, classes: seq<CheckClass>, parent: string, k: nat, vs: seq<Visit>)
    requires k < |c.subChecks|
    requires forall v :: v in vs ==> IsVisit(c.subChecks[k], v)
    requires forall v :: v in Below(k, vs) ==> IsVisit(c, v)
    ensures Called(c, classes, parent, Below(k, vs)) == Called(c.subChecks[k], classes, PathOf(c, parent), vs)
  {
    if vs != [] {
      assert Below(k, vs)[1..] == Below(k, vs[1..]);
      CalledBelow(c, classes, parent, k, vs[1..]);
      NodeBelow(c, parent, k, vs[0].address);
      assert Below(k, vs)[0] == Visit([k] + vs[0].address, vs[0].index);
    }
  }

  lemma CalledOne(c: Checks, classes: seq<CheckClass>, parent: string, i: nat)
    requires i < |c.items|
    ensures IsVisit(c, Visit([], i))
    ensures Called(c, classes, parent, [Visit([], i)])
         == if c.items[i].checkClass in classes then [Callback(PathOf(c, parent), c.items[i])] else []
  {
    assert [Visit([], i)][1..] == [];
    assert parent + PathTo(c, []) == PathOf(c, parent);
  }

  lemma {:induction false} CalledOwn(c: Checks, classes: seq<CheckClass>, parent: string, n: nat)
    requires n <= |c.items|
    requires forall v :: v in OwnVisits(n) ==> IsVisit(c, v)
    ensures Called(c, classes, parent, OwnVisits(n)) == OwnCallbacks(c.items[..n], classes, PathOf(c, parent))
  {
    if n > 0 {
      var last := Visit([], n - 1);
      assert OwnVisits(n) == OwnVisits(n - 1) + [last];
      assert forall v :: v in OwnVisits(n - 1) ==> v in OwnVisits(n);
      CalledOwn(c, classes, parent, n - 1);
      CalledAppend(c, classes, parent, OwnVisits(n - 1), [last]);
      CalledOne(c, classes, parent, n - 1);
      assert c.items[..n][..n - 1] == c.items[..n - 1];
    }
  }

  lemma {:induction false} CalledForest(c: Checks, classes: seq<CheckClass>, parent: string, k: nat)
    requires k <= |c.subChecks|
    requires forall v :: v in ForestVisits(c.subChecks[k..], k) ==> IsVisit(c, v)
    ensures Called(c, classes, parent, ForestVisits(c.subChecks[k..], k))
         == ForestCallbacks(c.subChecks[k..], classes, PathOf(c, parent))
    decreases c, 0, |c.subChecks| - k
  {
    var rest := c.subChecks[k..];
    if rest != [] {
      assert rest[1..] == c.subChecks[k + 1..];
      var below, later := Below(k, Visits(rest[0])), ForestVisits(rest[1..], k + 1);
      assert forall v :: v in below || v in later ==> v in ForestVisits(rest, k);
      CallbacksInPreorder(rest[0], classes, PathOf(c, parent));
      CalledForest(c, classes, parent, k + 1);
      CalledAppend(c, classes, parent, below, later);
      CalledBelow(c, classes, parent, k, Visits(rest[0]));
    }
  }

  /**
   The callbacks are those for all items of the wanted classes, in the order of the visits, which is
   preorder, each with the path of the structures that enclose it.
   */
  lemma {:induction false} CallbacksInPreorder(c: Checks, classes: seq<CheckClass>, parent: string)
    ensures forall v :: v in Visits(c) ==> IsVisit(c, v)
    ensures Callbacks(c, classes, parent) == Called(c, classes, parent, Visits(c))
    decreases c, 1
  {
    forall v ensures v in Visits(c) <==> IsVisit(c, v) {
      VisitsComplete(c, v);
    }
    var own, below := OwnVisits(|c.items|), ForestVisits(c.subChecks, 0);
    assert forall v :: v in own || v in below ==> v in Visits(c);
    CalledAppend(c, classes, parent, own, below);
    CalledOwn(c, classes, parent, |c.items|);
    assert c.items[..|c.items|] == c.items && c.subChecks[0..] == c.subChecks;
    CalledForest(c, classes, parent, 0);
  }

  // ---- counting ---------------------------------------------------------------------------

  function CountItems(items: seq<CheckItem>, item: CheckItem): nat {
    if items == [] then 0
    else CountItems(items[..|items| - 1], item) + (if items[|items| - 1] == item then 1 else 0)
  }

  /** How often an item stands in a tree. */
  function CountTree(c: Checks, item: CheckItem): nat
    decreases c, 1
  {
    CountItems(c.items, item) + CountForest(c.subChecks, item)
  }

  function CountForest(cs: seq<Checks>, item: CheckItem): nat
    decreases cs, 0
  {
    if cs == [] then 0 else CountTree(cs[0], item) + CountForest(cs[1..], item)
  }

  /** How often an item is reported. */
  function CountCalls(calls: seq<Callback>, item: CheckItem): nat {
    if calls == [] then 0
    else CountCalls(calls[..|calls| - 1], item) + (if calls[|calls| - 1].item == item then 1 else 0)
  }

  lemma {:induction false} CountItemsAppend(xs: seq<CheckItem>, ys: seq<CheckItem>, item: CheckItem)
    ensures CountItems(xs + ys, item) == CountItems(xs, item) + CountItems(ys, item)
  {
    if ys == [] {
      assert xs + ys == xs;
    } else {
      CountItemsAppend(xs, ys[..|ys| - 1], item);
      assert (xs + ys)[..|xs + ys| - 1] == xs + ys[..|ys| - 1];
    }
  }

  lemma {:induction false} CountCallsAppend(xs: seq<Callback>, ys: seq<Callback>, item: CheckItem)
    ensures CountCalls(xs + ys, item) == CountCalls(xs, item) + CountCalls(ys, item)
  {
    if ys == [] {
      assert xs + ys == xs;
    } else {
      CountCallsAppend(xs, ys[..|ys| - 1], item);
      assert (xs + ys)[..|xs + ys| - 1] == xs + ys[..|ys| - 1];
    }
  }

  lemma {:induction false} CountForestAppend(xs: seq<Checks>, ys: seq<Checks>, item: CheckItem)
    ensures CountForest(xs + ys, item) == CountForest(xs, item) + CountForest(ys, item)
  {
    if xs == [] {
      assert xs + ys == ys;
    } else {
      CountForestAppend(xs[1..], ys, item);
      assert (xs + ys)[1..] == xs[1..] + ys;
    }
  }

  lemma CountForestOne(c: Checks, item: CheckItem)
    ensures CountForest([c], item) == CountTree(c, item)
  {
    assert [c][1..] == [];
  }

  lemma {:induction false} OwnCalls(items: seq<CheckItem>, classes: seq<CheckClass>, path: string, item: CheckItem)
    requires item.checkClass in classes
    ensures CountCalls(OwnCallbacks(items, classes, path), item) == CountItems(items, item)
  {
    if items != [] {
      OwnCalls(items[..|items| - 1], classes, path, item);
      var front, last := OwnCallbacks(items[..|items| - 1], classes, path), items[|items| - 1];
      CountCallsAppend(front, [Callback(path, last)], item);
    }
  }

  lemma {:induction false} ForestCalls(cs: seq<Checks>, classes: seq<CheckClass>, parent: string, item: CheckItem)
    requires item.checkClass in classes
    ensures CountCalls(ForestCallbacks(cs, classes, parent), item) == CountForest(cs, item)
    decreases cs, 0
  {
    if cs != [] {
      TreeCalls(cs[0], classes, parent, item);
      ForestCalls(cs[1..], classes, parent, item);
      CountCallsAppend(Callbacks(cs[0], classes, parent), ForestCallbacks(cs[1..], classes, parent), item);
    }
  }

  /** Traversing for the class of an item reports it as often as it stands in the tree. */
  lemma {:induction false} TreeCalls(c: Checks, classes: seq<CheckClass>, parent: string, item: CheckItem)
    requires item.checkClass in classes
    ensures CountCalls(Callbacks(c, classes, parent), item) == CountTree(c, item)
    decreases c, 1
  {
    OwnCalls(c.items, classes, PathOf(c, parent), item);
    ForestCalls(c.subChecks, classes, PathOf(c, parent), item);
    CountCallsAppend(OwnCallbacks(c.items, classes, PathOf(c, parent)),
                     ForestCallbacks(c.subChecks, classes, PathOf(c, parent)), item);
  }

  lemma {:induction false} OwnNotCalled(items: seq<CheckItem>, classes: seq<CheckClass>, path: string, item: CheckItem)
    requires item.checkClass !in classes
    ensures CountCalls(OwnCallbacks(items, classes, path), item) == 0
  {
    if items != [] {
      OwnNotCalled(items[..|items| - 1], classes, path, item);
      var front, last := OwnCallbacks(items[..|items| - 1], classes, path), items[|items| - 1];
      CountCallsAppend(front, [Callback(path, last)], item);
    }
  }

  lemma {:induction false} ForestNotCalled(cs: seq<Checks>, classes: seq<CheckClass>, parent: string, item: CheckItem)
    requires item.checkClass !in classes
    ensures CountCalls(ForestCallbacks(cs, classes, parent), item) == 0
    decreases cs, 0
  {
    if cs != [] {
      TreeNotCalled(cs[0], classes, parent, item);
      ForestNotCalled(cs[1..], classes, parent, item);
      CountCallsAppend(Callbacks(cs[0], classes, parent), ForestCallbacks(cs[1..], classes, parent), item);
    }
  }

  /** An item of another class is not reported. */
  lemma {:induction false} TreeNotCalled(c: Checks, classes: seq<CheckClass>, parent: string, item: CheckItem)
    requires item.checkClass !in classes
    ensures CountCalls(Callbacks(c, classes, parent), item) == 0
    decreases c, 1
  {
    OwnNotCalled(c.items, classes, PathOf(c, parent), item);
    ForestNotCalled(c.subChecks, classes, PathOf(c, parent), item);
    CountCallsAppend(OwnCallbacks(c.items, classes, PathOf(c, parent)),
                     ForestCallbacks(c.subChecks, classes, PathOf(c, parent)), item);
  }
}
