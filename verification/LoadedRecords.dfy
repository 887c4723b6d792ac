/**
 What stands in the store after a load: for each kind of file, and for each kind of object, which keys
 are stored, and what under each.
 */
module LoadedRecords {
  import opened Wrappers
  import opened Sequences
  import opened Text
  import opened Responses
  import opened SelfLinks
  import opened Storage
  import opened LoadHistory

  // ---- files that are loaded together -----------------------------------------------------

  /** What is visible after loading a directory with just this file, from an empty store. */
  function StoredBy(name: string, content: FileContent): Contents {
    Loaded(map[], Some(Snapshot(map[name := content], [name])), true)
  }

  /** The file by itself can be loaded. */
  predicate Loads(name: string, content: FileContent) {
    Snapshot(map[name := content], [name]).Success?
  }

  lemma OneFile(name: string, content: FileContent)
    ensures Snapshot(map[name := content], [name]) == FileRecords(name, content)
    ensures Loads(name, content) <==> FileRecords(name, content).Success?
    ensures Loads(name, content) ==> StoredBy(name, content) == FileRecords(name, content).value
  {
    OneInList(FileRecords(name, content));
    assert FileWrites(map[name := content], [name]) == [FileRecords(name, content)];
    if FileRecords(name, content).Success? {
      assert map[] + FileRecords(name, content).value == FileRecords(name, content).value;
    }
  }

  lemma OneInList(records: Written)
    ensures OverAll([records]) == records
  {
    assert [records][..0] == [];
    assert OverAll([records]) == Over(Success(map[]), records);
    if records.Success? {
      assert map[] + records.value == records.value;
    }
  }

  ghost predicate AllLoad(dir: Directory) {
    forall f :: f in dir ==> Loads(f, dir[f])
  }

  /** A directory can be loaded exactly if each of its files can be. */
  lemma DirectoryLoadsExactly(dir: Directory, order: seq<string>)
    requires IsListing(dir, order)
    ensures Snapshot(dir, order).Success? <==> AllLoad(dir)
  {
    var list := FileWrites(dir, order);
    SnapshotSucceeds(list);
    forall f | f in dir
      ensures FileRecords(f, dir[f]) in list && (Loads(f, dir[f]) <==> FileRecords(f, dir[f]).Success?)
    {
      ListingWrites(dir, order, f);
      OneFile(f, dir[f]);
    }
    forall w | w in list
      ensures exists f :: f in dir && w == FileRecords(f, dir[f])
    {
      var i :| 0 <= i < |list| && list[i] == w;
      assert order[i] in dir;
    }
  }

  /** The file stores the key, and no later file of the listing does. */
  ghost predicate StoresLast(dir: Directory, order: seq<string>, k: Key, i: nat) {
    && i < |order| && order[i] in dir && k in StoredBy(order[i], dir[order[i]])
    && forall j :: i < j < |order| && order[j] in dir ==> k !in StoredBy(order[j], dir[order[j]])
  }

  ghost predicate SomeFileStores(dir: Directory, k: Key) {
    exists f :: f in dir && k in StoredBy(f, dir[f])
  }

  lemma StoredAre(dir: Directory, order: seq<string>, i: nat, k: Key)
    requires IsListing(dir, order) && Snapshot(dir, order).Success? && i < |order|
    ensures order[i] in dir && FileWrites(dir, order)[i].Success?
    ensures StoredBy(order[i], dir[order[i]]) == FileWrites(dir, order)[i].value
  {
    assert order[i] in dir;
    SnapshotSucceeds(FileWrites(dir, order));
    assert FileWrites(dir, order)[i] in FileWrites(dir, order);
    OneFile(order[i], dir[order[i]]);
  }

  lemma SnapshotStores(dir: Directory, order: seq<string>, k: Key) returns (i: nat)
    requires IsListing(dir, order) && Snapshot(dir, order).Success?
    ensures k in Snapshot(dir, order).value <==> SomeFileStores(dir, k)
    ensures k in Snapshot(dir, order).value ==>
      StoresLast(dir, order, k, i) && Snapshot(dir, order).value[k] == StoredBy(order[i], dir[order[i]])[k]
  {
    SnapshotSucceeds(FileWrites(dir, order));
    SnapshotKeys(dir, order, k);
    i := SnapshotLookup(FileWrites(dir, order), k);
    forall j: nat | j < |order|
      ensures order[j] in dir && StoredBy(order[j], dir[order[j]]) == FileWrites(dir, order)[j].value
    {
      StoredAre(dir, order, j, k);
    }
    forall f | f in dir
      ensures FileRecords(f, dir[f]).Success? && StoredBy(f, dir[f]) == FileRecords(f, dir[f]).value
    {
      OneFile(f, dir[f]);
    }
  }

  /**
   What a load leaves under a key: what the last file that stores the key stores there, if any does; and
   otherwise what was there before, unless the load truncates.
   */
  lemma LastFileStores(dir: Directory, order: seq<string>, before: Contents, truncate: bool, k: Key) returns (i: nat)
    requires IsListing(dir, order) && AllLoad(dir)
    ensures Snapshot(dir, order).Success?
    ensures var visible := Loaded(before, Some(Snapshot(dir, order)), truncate);
      if SomeFileStores(dir, k)
      then StoresLast(dir, order, k, i) && k in visible && visible[k] == StoredBy(order[i], dir[order[i]])[k]
      else (k in visible <==> !truncate && k in before) && (k in visible ==> visible[k] == before[k])
  {
    DirectoryLoadsExactly(dir, order);
    i := SnapshotStores(dir, order, k);
  }

  /** A load fails with the error of the first file that cannot be loaded. */
  lemma {:induction false} FirstErrorCounts(list: seq<Written>) returns (i: nat)
    ensures OverAll(list).Failure? ==>
      i < |list| && list[i] == OverAll(list) && forall j :: 0 <= j < i ==> list[j].Success?
  {
    i := 0;
    if list != [] {
      var front := list[..|list| - 1];
      SnapshotSucceeds(front);
      i := FirstErrorCounts(front);
      if OverAll(front).Success? {
        assert forall j :: 0 <= j < |front| ==> front[j] in front && list[j] == front[j];
        i := |front|;
      }
    }
  }

  lemma FirstErrorOfLoad(dir: Directory, order: seq<string>) returns (i: nat)
    requires IsListing(dir, order) && Snapshot(dir, order).Failure?
    ensures i < |order| && order[i] in dir
    ensures Snapshot(map[order[i] := dir[order[i]]], [order[i]]) == Snapshot(dir, order)
    ensures forall j :: 0 <= j < i && order[j] in dir ==> Loads(order[j], dir[order[j]])
  {
    var list := FileWrites(dir, order);
    i := FirstErrorCounts(list);
    forall j: nat | j < |order|
      ensures order[j] in dir
      ensures Snapshot(map[order[j] := dir[order[j]]], [order[j]]) == list[j]
    {
      assert order[j] in dir;
      OneFile(order[j], dir[order[j]]);
    }
  }

  lemma NamedFile(stem: string, extension: string)
    requires stem != "" && '.' !in extension
    ensures Extension(stem + "." + extension) == extension
  {
    ExtensionAfterLastDot(stem, extension);
  }

  function JsonFile(stem: string): string {
    stem + "." + "json"
  }

  function TemplateFile(stem: string): string {
    stem + "." + "template"
  }

  // ---- objects ----------------------------------------------------------------------------

  /** The store holds exactly these keys, and under each the response. */
  ghost predicate HoldsJust(stored: Contents, keys: set<Key>, r: Response) {
    && (forall k :: k in stored <==> k in keys)
    && (forall k :: k in stored ==> stored[k] == r)
  }

  /** A domain stands under its LDH name and, if it has one, under its Unicode name. */
  function DomainKeys(ldhName: string, unicodeName: Option<string>): set<Key> {
    if unicodeName.Some? then {LdhName(ldhName), UnicodeName(unicodeName.value)} else {LdhName(ldhName)}
  }

  ghost predicate InRangeKey(k: Key, start: nat, end: nat) {
    k.AutnumNumber? && start <= k.num <= end
  }

  /**
   Files of objects: each object is stored, under all of its names, its handle, every number of its range
   or every one of its prefixes, and under nothing else; without what it is to be stored under, it fails.
   */
  lemma ObjectFilesStore(stem: string, r: Response)
    requires stem != ""
    ensures var name, content := JsonFile(stem), ResponseText(r);
      match r
      case DomainResponse(d) =>
        if d.ldhName.None? then Snapshot(map[name := content], [name]) == Failure(EmptyIndexData("ldhName"))
        else Loads(name, content) && HoldsJust(StoredBy(name, content), DomainKeys(d.ldhName.value, d.unicodeName), r)
      case EntityResponse(e) =>
        if e.handle.None? then Snapshot(map[name := content], [name]) == Failure(EmptyIndexData("handle"))
        else Loads(name, content) && HoldsJust(StoredBy(name, content), {EntityHandle(e.handle.value)}, r)
      case NameserverResponse(n) =>
        if n.ldhName.None? then Snapshot(map[name := content], [name]) == Failure(EmptyIndexData("ldhName"))
        else Loads(name, content) && HoldsJust(StoredBy(name, content), {NameserverName(n.ldhName.value)}, r)
      case AutnumResponse(a) =>
        if a.startAutnum.None? then Snapshot(map[name := content], [name]) == Failure(EmptyIndexData("startNum"))
        else if a.endAutnum.None? then Snapshot(map[name := content], [name]) == Failure(EmptyIndexData("endNum"))
        else
          && Loads(name, content)
          && (forall k :: k in StoredBy(name, content) <==> InRangeKey(k, a.startAutnum.value, a.endAutnum.value))
          && (forall k :: k in StoredBy(name, content) ==> StoredBy(name, content)[k] == r)
      case NetworkResponse(n) =>
        && Loads(name, content)
        && (forall k :: k in StoredBy(name, content) <==> k.NetworkPrefix? && k.v4 == n.v4 && k.prefix in n.cidrs)
        && (forall k :: k in StoredBy(name, content) ==> StoredBy(name, content)[k] == r)
      case _ => Snapshot(map[name := content], [name]) == Failure(NonRdapJsonFile(name))
  {
    NamedFile(stem, "json");
    OneFile(JsonFile(stem), ResponseText(r));
  }

  lemma HelpSuffix(stem: string)
    ensures var name := stem + "." + "help";
      EndsWith(name, ".help") && |name| >= 5 && name[..|name| - 5] == stem
  {
    var name := stem + "." + "help";
    assert name[|name| - 5..] == ".help" && name[..|name| - 5] == stem;
  }

  /** Help is stored under the host that the name of its file spells with underscores for dots. */
  lemma HelpFilesStore(stem: string, text: string)
    requires stem != ""
    ensures var name, content := stem + "." + "help", ResponseText(HelpResponse(text));
      Loads(name, content) && HoldsJust(StoredBy(name, content), {HelpHost(Replace(stem, "_", "."))}, HelpResponse(text))
  {
    NamedFile(stem, "help");
    HelpSuffix(stem);
    OneFile(stem + "." + "help", ResponseText(HelpResponse(text)));
  }

  /** Files that are not what their names say fail; files with any other extension are passed over. */
  lemma OtherFiles(stem: string, extension: string, content: FileContent)
    requires stem != "" && '.' !in extension
    ensures var name := stem + "." + extension;
      && (content.Unreadable? ==> Snapshot(map[name := content], [name]) == Failure(IoError))
      && (!content.Unreadable? && extension != "json" && extension != "template" && extension != "help" ==>
            Loads(name, content) && StoredBy(name, content) == map[])
      && (content.NotJson? && (extension == "json" || extension == "template" || extension == "help") ==>
            Snapshot(map[name := content], [name]) == Failure(NonJsonFile(name)))
  {
    var name := stem + "." + extension;
    NamedFile(stem, extension);
    OneFile(name, content);
    if extension == "help" {
      assert name[|name| - 5..] == ".help";
    }
  }

  lemma DotAfterStem(name: string, stem: string, extension: string)
    requires name == stem + "." + extension
    ensures '.' in name && (|stem| > 0 ==> '.' in name[1..])
  {
    assert name[|stem|] == '.';
    if |stem| > 0 {
      assert name[1..][|stem| - 1] == '.';
    }
  }

  /** Files without an extension are passed over: without a dot, or with just one, at the front. */
  lemma FilesWithoutExtension(name: string, content: FileContent)
    requires !content.Unreadable?
    requires '.' !in name || (name[0] == '.' && '.' !in name[1..])
    ensures Loads(name, content) && StoredBy(name, content) == map[]
  {
    OneFile(name, content);
    RSplitOnceFindsLast(name, ".");
    if RSplitOnce(name, ".").Some? {
      var (stem, extension) := RSplitOnce(name, ".").value;
      DotAfterStem(name, stem, extension);
    }
  }

  // ---- templates --------------------------------------------------------------------------

  /** The body of the template with its self link, if usable, rewritten under the segment for the id. */
  ghost predicate IsBodyFor(body: Body, template: Body, segment: string, id: string) {
    body.rest == template.rest && body.links == ChangeSelfLink(template.links, segment, id)
  }

  /** What the i-th id of the template stands for: the keys it is stored under, and what is stored there. */
  ghost predicate StandsFor(t: Template, i: nat, k: Key)
    requires i < IdCount(t)
  {
    match t
    case DomainTemplate(Object(d), ids) =>
      k in DomainKeys(ids[i].ldhName, if ids[i].unicodeName.Some? then ids[i].unicodeName else d.unicodeName)
    case DomainTemplate(AnError(_), ids) => k == LdhName(ids[i].ldhName)
    case EntityTemplate(_, ids) => k == EntityHandle(ids[i].handle)
    case NameserverTemplate(_, ids) => k == NameserverName(ids[i].ldhName)
    case AutnumTemplate(_, ids) => InRangeKey(k, ids[i].start, ids[i].end)
    case NetworkTemplate(_, ids) => k == NetworkPrefix(ids[i].v4, ids[i].prefix)
  }

  ghost predicate IsMadeFrom(t: Template, i: nat, r: Response)
    requires i < IdCount(t)
  {
    match t
    case DomainTemplate(Object(d), ids) =>
      && r.DomainResponse? && r.domain.ldhName == Some(ids[i].ldhName)
      && r.domain.unicodeName == (if ids[i].unicodeName.Some? then ids[i].unicodeName else d.unicodeName)
      && IsBodyFor(r.domain.body, d.body, "domain", ids[i].ldhName)
    case EntityTemplate(Object(e), ids) =>
      r.EntityResponse? && r.entity.handle == Some(ids[i].handle) && IsBodyFor(r.entity.body, e.body, "entity", ids[i].handle)
    case NameserverTemplate(Object(n), ids) =>
      && r.NameserverResponse? && r.nameserver.ldhName == Some(ids[i].ldhName)
      && r.nameserver.unicodeName == (if ids[i].unicodeName.Some? then ids[i].unicodeName else n.unicodeName)
      && IsBodyFor(r.nameserver.body, n.body, "nameserver", ids[i].ldhName)
    case AutnumTemplate(Object(a), ids) =>
      && r.AutnumResponse? && r.autnum.startAutnum == Some(ids[i].start) && r.autnum.endAutnum == Some(ids[i].end)
      && IsBodyFor(r.autnum.body, a.body, "autnum", Decimal(ids[i].start))
    case NetworkTemplate(Object(n), ids) =>
      && r.NetworkResponse? && r.network.cidrs == [ids[i].prefix] && r.network.v4 == ids[i].v4
      && IsBodyFor(r.network.body, n.body, "ip", ids[i].text)
    case DomainTemplate(AnError(e), _) => r == ErrorResponse(e)
    case EntityTemplate(AnError(e), _) => r == ErrorResponse(e)
    case NameserverTemplate(AnError(e), _) => r == ErrorResponse(e)
    case AutnumTemplate(AnError(e), _) => r == ErrorResponse(e)
    case NetworkTemplate(AnError(e), _) => r == ErrorResponse(e)
  }

  lemma OneIdStores(t: Template, i: nat, k: Key)
    requires i < IdCount(t)
    ensures TemplateRecord(t, i).Success?
    ensures k in TemplateRecord(t, i).value <==> StandsFor(t, i, k)
    ensures k in TemplateRecord(t, i).value ==> IsMadeFrom(t, i, TemplateRecord(t, i).value[k])
  {
  }

  /**
   Files of templates, of all five kinds: they load, and a key is stored exactly if some id stands for it;
   what is stored is made for the last such id: the object with the fields of the id and with the self
   link rewritten for it, or the error.
   */
  lemma TemplateFilesStore(stem: string, t: Template, k: Key) returns (i: nat)
    requires stem != ""
    ensures var name, content := TemplateFile(stem), TemplateText(t);
      && Loads(name, content)
      && (k in StoredBy(name, content) <==> exists j :: 0 <= j < IdCount(t) && StandsFor(t, j, k))
      && (k in StoredBy(name, content) ==>
            && i < IdCount(t) && StandsFor(t, i, k)
            && (forall j :: i < j < IdCount(t) ==> !StandsFor(t, j, k))
            && IsMadeFrom(t, i, StoredBy(name, content)[k]))
  {
    var name, content, list := TemplateFile(stem), TemplateText(t), TemplateRecords(t);
    NamedFile(stem, "template");
    OneFile(name, content);
    forall j | 0 <= j < |list|
      ensures list[j] == TemplateRecord(t, j) && list[j].Success? && (k in list[j].value <==> StandsFor(t, j, k))
      ensures k in list[j].value ==> IsMadeFrom(t, j, list[j].value[k])
    {
      OneIdStores(t, j, k);
    }
    i := SnapshotLookup(list, k);
    assert forall j :: 0 <= j < |list| ==> list[j] in list;
  }
}
