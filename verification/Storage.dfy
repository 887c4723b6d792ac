/**
 Loading the data directory into the store. The store is the abstract map that its contract
 describes: a transaction works on a copy, or on nothing after truncation, and becomes visible when
 it commits.
 */
module Storage {
  import opened Wrappers
  import opened Sequences
  import opened Text
  import opened Responses
  import opened SelfLinks

  datatype Key =
    | LdhName(name: string)
    | UnicodeName(name: string)
    | EntityHandle(handle: string)
    | NameserverName(name: string)
    | AutnumNumber(num: nat)
    | NetworkPrefix(v4: bool, prefix: seq<bool>)
    | HelpHost(host: string)

  type Contents = map<Key, Response>

  datatype LoadError = NonJsonFile(file: string) | NonRdapJsonFile(file: string) | EmptyIndexData(field: string) | IoError

  // ---- templates --------------------------------------------------------------------------

  datatype DomainId = DomainId(ldhName: string, unicodeName: Option<string>)
  datatype EntityId = EntityId(handle: string)
  datatype NameserverId = NameserverId(ldhName: string, unicodeName: Option<string>)
  datatype AutnumId = AutnumId(start: nat, end: nat)
  /** A network in CIDR notation: its text and its leading bits. */
  datatype NetworkId = NetworkId(v4: bool, prefix: seq<bool>, text: string)

  datatype OrError<+T> = Object(object: T) | AnError(error: Error)

  datatype Template =
    | DomainTemplate(domain: OrError<Domain>, domainIds: seq<DomainId>)
    | EntityTemplate(entity: OrError<Entity>, entityIds: seq<EntityId>)
    | NameserverTemplate(nameserver: OrError<Nameserver>, nameserverIds: seq<NameserverId>)
    | AutnumTemplate(autnum: OrError<Autnum>, autnumIds: seq<AutnumId>)
    | NetworkTemplate(network: OrError<Network>, networkIds: seq<NetworkId>)

  function Relinked(body: Body, segment: string, id: string): Body {
    body.(links := ChangeSelfLink(body.links, segment, id))
  }

  function MakeDomain(d: Domain, id: DomainId): Domain {
    Domain(Some(id.ldhName), if id.unicodeName.Some? then id.unicodeName else d.unicodeName,
           Relinked(d.body, "domain", id.ldhName))
  }

  function MakeEntity(e: Entity, id: EntityId): Entity {
    Entity(Some(id.handle), Relinked(e.body, "entity", id.handle))
  }

  function MakeNameserver(n: Nameserver, id: NameserverId): Nameserver {
    Nameserver(Some(id.ldhName), if id.unicodeName.Some? then id.unicodeName else n.unicodeName,
               Relinked(n.body, "nameserver", id.ldhName))
  }

  function MakeAutnum(a: Autnum, id: AutnumId): Autnum {
    Autnum(Some(id.start), Some(id.end), Relinked(a.body, "autnum", Decimal(id.start)))
  }

  function MakeNetwork(n: Network, id: NetworkId): Network {
    Network([id.prefix], id.v4, Relinked(n.body, "ip", id.text))
  }

  // ---- what one addition writes -----------------------------------------------------------

  type Written = Result<Contents, LoadError>

  function DomainRecords(d: Domain): Written {
    if d.ldhName.None? then Failure(EmptyIndexData("ldhName"))
    else
      var byLdh := map[LdhName(d.ldhName.value) := DomainResponse(d)];
      Success(if d.unicodeName.Some? then byLdh[UnicodeName(d.unicodeName.value) := DomainResponse(d)] else byLdh)
  }

  function EntityRecords(e: Entity): Written {
    if e.handle.None? then Failure(EmptyIndexData("handle"))
    else Success(map[EntityHandle(e.handle.value) := EntityResponse(e)])
  }

  function NameserverRecords(n: Nameserver): Written {
    if n.ldhName.None? then Failure(EmptyIndexData("ldhName"))
    else Success(map[NameserverName(n.ldhName.value) := NameserverResponse(n)])
  }

  /** A range of numbers is stored number by number. */
  function NumberRecords(start: nat, end: nat, r: Response): Contents {
    map n: nat | start <= n <= end :: AutnumNumber(n) := r
  }

  function AutnumRecords(a: Autnum): Written {
    if a.startAutnum.None? then Failure(EmptyIndexData("startNum"))
    else if a.endAutnum.None? then Failure(EmptyIndexData("endNum"))
    else Success(NumberRecords(a.startAutnum.value, a.endAutnum.value, AutnumResponse(a)))
  }

  function NetworkRecords(n: Network): Contents {
    map prefix | prefix in n.cidrs :: NetworkPrefix(n.v4, prefix) := NetworkResponse(n)
  }

  /** What the template writes for its i-th id. */
  function TemplateRecord(t: Template, i: nat): Written
    requires i < IdCount(t)
  {
    match t
    case DomainTemplate(Object(d), ids) => DomainRecords(MakeDomain(d, ids[i]))
    case DomainTemplate(AnError(e), ids) => Success(map[LdhName(ids[i].ldhName) := ErrorResponse(e)])
    case EntityTemplate(Object(e), ids) => EntityRecords(MakeEntity(e, ids[i]))
    case EntityTemplate(AnError(e), ids) => Success(map[EntityHandle(ids[i].handle) := ErrorResponse(e)])
    case NameserverTemplate(Object(n), ids) => NameserverRecords(MakeNameserver(n, ids[i]))
    case NameserverTemplate(AnError(e), ids) => Success(map[NameserverName(ids[i].ldhName) := ErrorResponse(e)])
    case AutnumTemplate(Object(a), ids) => AutnumRecords(MakeAutnum(a, ids[i]))
    case AutnumTemplate(AnError(e), ids) => Success(NumberRecords(ids[i].start, ids[i].end, ErrorResponse(e)))
    case NetworkTemplate(Object(n), ids) => Success(NetworkRecords(MakeNetwork(n, ids[i])))
    case NetworkTemplate(AnError(e), ids) => Success(map[NetworkPrefix(ids[i].v4, ids[i].prefix) := ErrorResponse(e)])
  }

  function IdCount(t: Template): nat {
    match t
    case DomainTemplate(_, ids) => |ids|
    case EntityTemplate(_, ids) => |ids|
    case NameserverTemplate(_, ids) => |ids|
    case AutnumTemplate(_, ids) => |ids|
    case NetworkTemplate(_, ids) => |ids|
  }

  /** One set of records over another, unless either failed; the first failure counts. */
  function Over(first: Written, second: Written): Written {
    if first.Failure? then first
    else if second.Failure? then second
    else Success(first.value + second.value)
  }

  function OverAll(list: seq<Written>): Written {
    if list == [] then Success(map[]) else Over(OverAll(list[..|list| - 1]), list[|list| - 1])
  }

  function TemplateRecords(t: Template): seq<Written> {
    seq(IdCount(t), i requires 0 <= i < IdCount(t) => TemplateRecord(t, i))
  }

  // ---- files ------------------------------------------------------------------------------

  /** What a file holds once it has been parsed. */
  datatype FileContent =
    | TemplateText(template: Template)
    | ResponseText(response: Response)
    | OtherJson
    | NotJson(text: string)
    | Unreadable

  type Directory = map<string, FileContent>

  /** What follows the last dot of a file name, unless that dot is the first character. */
  function Extension(name: string): string {
    match RSplitOnce(name, ".")
    case Some((stem, extension)) => if stem == "" then "" else extension
    case None => ""
  }

  lemma DotAt(stem: string, extension: string, i: nat)
    requires '.' !in extension && OccursAt(stem + "." + extension, ".", i)
    ensures i <= |stem|
  {
    var name := stem + "." + extension;
    assert name[i..i + 1][0] == name[i];
    assert forall j :: |stem| < j < |name| ==> name[j] == extension[j - |stem| - 1];
  }

  lemma ExtensionAfterLastDot(stem: string, extension: string)
    requires stem != "" && '.' !in extension
    ensures Extension(stem + "." + extension) == extension
  {
    var name := stem + "." + extension;
    assert name[|stem|..|stem| + 1] == ".";
    assert OccursAt(name, ".", |stem|);
    RSplitOnceFindsLast(name, ".");
    var (before, after) := RSplitOnce(name, ".").value;
    DotAt(stem, extension, |before|);
    assert after == name[|stem| + 1..] == extension;
  }

  function RdapRecords(name: string, content: FileContent): Written {
    match content
    case ResponseText(EntityResponse(e)) => EntityRecords(e)
    case ResponseText(DomainResponse(d)) => DomainRecords(d)
    case ResponseText(NameserverResponse(n)) => NameserverRecords(n)
    case ResponseText(AutnumResponse(a)) => AutnumRecords(a)
    case ResponseText(NetworkResponse(n)) => Success(NetworkRecords(n))
    case NotJson(_) => Failure(NonJsonFile(name))
    case _ => Failure(NonRdapJsonFile(name))
  }

  function HelpRecords(name: string, content: FileContent): Written {
    if !EndsWith(name, ".help") then Failure(NonRdapJsonFile(name))
    else
      var host := Replace(name[..|name| - 5], "_", ".");
      match content
      case ResponseText(HelpResponse(text)) => Success(map[HelpHost(host) := HelpResponse(text)])
      case NotJson(_) => Failure(NonJsonFile(name))
      case _ => Failure(NonRdapJsonFile(name))
  }

  function FileRecords(name: string, content: FileContent): Written {
    if content.Unreadable? then Failure(IoError)
    else if Extension(name) == "template" then
      (match content
       case TemplateText(t) => OverAll(TemplateRecords(t))
       case _ => Failure(NonJsonFile(name)))
    else if Extension(name) == "json" then RdapRecords(name, content)
    else if Extension(name) == "help" then HelpRecords(name, content)
    else Success(map[])
  }

  function FileWrites(dir: Directory, order: seq<string>): seq<Written>
    requires forall name :: name in order ==> name in dir
  {
    seq(|order|, i requires 0 <= i < |order| => FileRecords(order[i], dir[order[i]]))
  }

  /** What the files of a directory write, taken in the given order. */
  function Snapshot(dir: Directory, order: seq<string>): Written
    requires forall name :: name in order ==> name in dir
  {
    OverAll(FileWrites(dir, order))
  }

  /** The order in which a directory is read: every file once. */
  ghost predicate IsListing(dir: Directory, order: seq<string>) {
    && (forall name :: name in order <==> name in dir)
    && (forall i, j :: 0 <= i < j < |order| ==> order[i] != order[j])
  }

  /** The visible store after a load. */
  function Loaded(before: Contents, written: Option<Written>, truncate: bool): Contents {
    match written
    case Some(Success(records)) => (if truncate then map[] else before) + records
    case _ => before
  }

  // ---- the program ------------------------------------------------------------------------

  class Store {
    var visible: Contents

    constructor ()
      ensures visible == map[]
    {
      visible := map[];
    }
  }

  class Transaction {
    var pending: Contents

    /** `new_tx` */
    constructor Copy(store: Store)
      ensures pending == store.visible
    {
      pending := store.visible;
    }

    /** `new_truncate_tx` */
    constructor Truncate()
      ensures pending == map[]
    {
      pending := map[];
    }

    /** The `add_*` operations. */
    method Add(records: Written) returns (r: Result<(), LoadError>)
      modifies this
      ensures records.Failure? ==> r == Failure(records.error) && pending == old(pending)
      ensures records.Success? ==> r == Success(()) && pending == old(pending) + records.value
    {
      if records.Failure? {
        return Failure(records.error);
      }
      pending := pending + records.value;
      return Success(());
    }

    method Commit(store: Store)
      modifies store
      ensures store.visible == pending
    {
      store.visible := pending;
    }
  }

  lemma {:induction false} FailureStays(list: seq<Written>, i: nat)
    requires i <= |list| && OverAll(list[..i]).Failure?
    ensures OverAll(list) == OverAll(list[..i])
    decreases |list|
  {
    if i == |list| {
      assert list[..i] == list;
    } else {
      assert list[..|list| - 1][..i] == list[..i];
      FailureStays(list[..|list| - 1], i);
    }
  }

  /** The records after one more element of the list. */
  lemma OneMore(base: Contents, list: seq<Written>, i: nat)
    requires i < |list| && OverAll(list[..i]).Success?
    ensures OverAll(list[..i + 1]) == Over(OverAll(list[..i]), list[i])
    ensures list[i].Success? ==>
      (base + OverAll(list[..i]).value) + list[i].value == base + OverAll(list[..i + 1]).value
  {
    assert list[..i + 1][..i] == list[..i];
  }

  /** `load_rdap_template`, on a template that parsed: one addition for each id. */
  method LoadTemplate(tx: Transaction, t: Template) returns (r: Result<(), LoadError>)
    modifies tx
    ensures OverAll(TemplateRecords(t)).Failure? ==> r == Failure(OverAll(TemplateRecords(t)).error)
    ensures OverAll(TemplateRecords(t)).Success?
      ==> r == Success(()) && tx.pending == old(tx.pending) + OverAll(TemplateRecords(t)).value
  {
    var list := TemplateRecords(t);
    assert old(tx.pending) + map[] == old(tx.pending);
    for i := 0 to |list|
      invariant OverAll(list[..i]).Success?
      invariant tx.pending == old(tx.pending) + OverAll(list[..i]).value
    {
      OneMore(old(tx.pending), list, i);
      var added := tx.Add(list[i]);
      if added.Failure? {
        FailureStays(list, i + 1);
        return added;
      }
    }
    assert list[..|list|] == list;
    return Success(());
  }

  method LoadFile(tx: Transaction, name: string, content: FileContent) returns (r: Result<(), LoadError>)
    modifies tx
    ensures FileRecords(name, content).Failure? ==> r == Failure(FileRecords(name, content).error)
    ensures FileRecords(name, content).Success?
      ==> r == Success(()) && tx.pending == old(tx.pending) + FileRecords(name, content).value
  {
    if content.Unreadable? {
      return Failure(IoError);
    }
    if Extension(name) == "template" {
      if !content.TemplateText? {
        return Failure(NonJsonFile(name));
      }
      r := LoadTemplate(tx, content.template);
    } else if Extension(name) == "json" {
      r := tx.Add(RdapRecords(name, content));
    } else if Extension(name) == "help" {
      r := tx.Add(HelpRecords(name, content));
    } else {
      assert old(tx.pending) + map[] == old(tx.pending);
      return Success(());
    }
  }

  /** What a load writes, if there is a directory to load. */
  function LoadWrites(dir: Option<Directory>, order: seq<string>): Option<Written>
    requires dir.Some? ==> forall name :: name in order ==> name in dir.value
  {
    match dir
    case Some(d) => Some(Snapshot(d, order))
    case None => None
  }

  /** The loop over the files of a directory. */
  method LoadFiles(tx: Transaction, dir: Directory, order: seq<string>) returns (r: Result<(), LoadError>)
    requires IsListing(dir, order)
    modifies tx
    ensures Snapshot(dir, order).Failure? ==> r == Failure(Snapshot(dir, order).error)
    ensures Snapshot(dir, order).Success?
      ==> r == Success(()) && tx.pending == old(tx.pending) + Snapshot(dir, order).value
  {
    ghost var list := FileWrites(dir, order);
    assert old(tx.pending) + map[] == old(tx.pending);
    for i := 0 to |order|
      invariant OverAll(list[..i]).Success?
      invariant tx.pending == old(tx.pending) + OverAll(list[..i]).value
    {
      OneMore(old(tx.pending), list, i);
      var loaded := LoadFile(tx, order[i], dir[order[i]]);
      if loaded.Failure? {
        FailureStays(list, i + 1);
        return loaded;
      }
    }
    assert list[..|list|] == list;
    return Success(());
  }

  /** `load_data`; there may be no directory. */
  method LoadData(store: Store, dir: Option<Directory>, order: seq<string>, truncate: bool)
    returns (r: Result<(), LoadError>)
    requires dir.Some? ==> IsListing(dir.value, order)
    modifies store
    ensures store.visible == Loaded(old(store.visible), LoadWrites(dir, order), truncate)
    ensures dir.Some? && Snapshot(dir.value, order).Success? ==>
      store.visible == (if truncate then map[] else old(store.visible)) + Snapshot(dir.value, order).value
    ensures dir.None? || Snapshot(dir.value, order).Failure? ==> store.visible == old(store.visible)
    ensures r == if dir.Some? && Snapshot(dir.value, order).Failure? then Failure(Snapshot(dir.value, order).error)
                 else Success(())
  {
    var tx: Transaction;
    if truncate {
      tx := new Transaction.Truncate();
    } else {
      tx := new Transaction.Copy(store);
    }
    if dir.None? {
      return Success(());
    }
    r := LoadFiles(tx, dir.value, order);
    if r.Success? {
      tx.Commit(store);
    }
  }
}
