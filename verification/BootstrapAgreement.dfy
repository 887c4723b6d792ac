/**
 The client resolves a domain name by scanning the registry for the longest suffix; the server
 compiles the same registry into redirects, loads them and walks up the labels. Here the two meet.
 */
module BootstrapAgreement {
  import opened Wrappers
  import opened Sequences
  import opened Text
  import opened IanaRegistry
  import opened Responses
  import opened SelfLinks
  import opened Storage
  import opened LoadHistory
  import opened RedirectWalk
  import opened ServerBootstrap

  // ---- what the server's store holds after compiling and loading --------------------------

  lemma TemplateExtension(family: RegistryType, num: nat)
    ensures Extension(TemplateName(family, num)) == "template"
  {
    var stem := Prefix(family) + "_" + Decimal(num);
    ExtensionAfterLastDot(stem, "template");
    assert TemplateName(family, num) == stem + "." + "template";
  }

  // ---- what the template of a service writes ----------------------------------------------

  function ServiceUrl(service: Service): string
    requires service != []
  {
    match PreferredUrl(Last(service))
    case Some(url) => url
    case None => ""
  }

  /** The template redirects whatever it writes. */
  predicate RedirectsTo(t: Template, e: Error) {
    match t
    case DomainTemplate(o, _) => o == AnError(e)
    case EntityTemplate(o, _) => o == AnError(e)
    case NameserverTemplate(o, _) => o == AnError(e)
    case AutnumTemplate(o, _) => o == AnError(e)
    case NetworkTemplate(o, _) => o == AnError(e)
  }

  ghost predicate WritesKey(t: Template, k: Key) {
    exists i :: 0 <= i < IdCount(t) && TemplateRecord(t, i).Success? && k in TemplateRecord(t, i).value
  }

  lemma RedirectTemplateRecords(t: Template, e: Error, k: Key)
    requires RedirectsTo(t, e)
    ensures var records := OverAll(TemplateRecords(t));
      && records.Success?
      && (k in records.value <==> WritesKey(t, k))
      && (k in records.value ==> records.value[k] == ErrorResponse(e))
  {
    var list := TemplateRecords(t);
    assert forall i :: 0 <= i < |list| ==> list[i] == TemplateRecord(t, i) && list[i].Success?;
    var i := SnapshotLookup(list, k);
    if WritesKey(t, k) {
      var j :| 0 <= j < IdCount(t) && TemplateRecord(t, j).Success? && k in TemplateRecord(t, j).value;
      assert list[j] in list;
    }
  }

  /** The service is one that the registry of the family lists the key under. */
  predicate Lists(family: RegistryType, parse: NetworkParser, s: Service, k: Key)
    requires ServiceTemplate(family, parse, s).Some?
  {
    match family
    case Dns => k.LdhName? && k.name in s[0]
    case Asn =>
      k.AutnumNumber? && exists i :: 0 <= i < |s[0]| && InRange(AutnumRange(s[0][i]), k.num)
    case ObjectTags =>
      k.EntityHandle? && exists i :: 0 <= i < |s[1]| && TagHandle(s[1][i]) == k.handle
    case _ =>
      k.NetworkPrefix? && exists i :: 0 <= i < |s[0]| && IsPrefix(parse(s[0][i]), k.v4, k.prefix)
  }

  predicate InRange(range: Option<AutnumId>, n: nat) {
    range.Some? && range.value.start <= n <= range.value.end
  }

  predicate IsPrefix(network: Option<NetworkId>, v4: bool, prefix: seq<bool>) {
    network.Some? && network.value.v4 == v4 && network.value.prefix == prefix
  }

  lemma {:induction false} ParseAllExactly<T>(parse: string -> Option<T>, texts: seq<string>)
    requires ParseAll(parse, texts).Some?
    ensures |ParseAll(parse, texts).value| == |texts|
    ensures forall i :: 0 <= i < |texts| ==> parse(texts[i]) == Some(ParseAll(parse, texts).value[i])
  {
    if texts != [] {
      ParseAllExactly(parse, texts[1..]);
    }
  }

  lemma DnsServiceWrites(parse: NetworkParser, s: Service, k: Key)
    requires ServiceTemplate(Dns, parse, s).Some?
    ensures WritesKey(ServiceTemplate(Dns, parse, s).value, k) <==> Lists(Dns, parse, s, k)
  {
    var t := ServiceTemplate(Dns, parse, s).value;
    if Lists(Dns, parse, s, k) {
      var i :| 0 <= i < |s[0]| && s[0][i] == k.name;
      assert k in TemplateRecord(t, i).value;
    }
  }

  lemma AsnServiceWrites(parse: NetworkParser, s: Service, k: Key)
    requires ServiceTemplate(Asn, parse, s).Some?
    ensures WritesKey(ServiceTemplate(Asn, parse, s).value, k) <==> Lists(Asn, parse, s, k)
  {
    var t := ServiceTemplate(Asn, parse, s).value;
    ParseAllExactly(RangeFn(), s[0]);
    assert forall i :: 0 <= i < |s[0]| ==> RangeFn()(s[0][i]) == Some(t.autnumIds[i]);
    if Lists(Asn, parse, s, k) {
      var i :| 0 <= i < |s[0]| && InRange(AutnumRange(s[0][i]), k.num);
      assert k in TemplateRecord(t, i).value;
    }
  }

  lemma TagServiceWrites(parse: NetworkParser, s: Service, k: Key)
    requires ServiceTemplate(ObjectTags, parse, s).Some?
    ensures WritesKey(ServiceTemplate(ObjectTags, parse, s).value, k) <==> Lists(ObjectTags, parse, s, k)
  {
    var t := ServiceTemplate(ObjectTags, parse, s).value;
    if Lists(ObjectTags, parse, s, k) {
      var i :| 0 <= i < |s[1]| && TagHandle(s[1][i]) == k.handle;
      assert k in TemplateRecord(t, i).value;
    }
  }

  lemma IpServiceWrites(family: RegistryType, parse: NetworkParser, s: Service, k: Key)
    requires family.Ipv4? || family.Ipv6?
    requires ServiceTemplate(family, parse, s).Some?
    ensures WritesKey(ServiceTemplate(family, parse, s).value, k) <==> Lists(family, parse, s, k)
  {
    var t := ServiceTemplate(family, parse, s).value;
    ParseAllExactly(parse, s[0]);
    if Lists(family, parse, s, k) {
      var i :| 0 <= i < |s[0]| && IsPrefix(parse(s[0][i]), k.v4, k.prefix);
      assert k in TemplateRecord(t, i).value;
    }
  }

  /** The template of a service writes the redirect to its URL, under the keys it is listed for and no other. */
  lemma ServiceRecords(family: RegistryType, parse: NetworkParser, s: Service, k: Key)
    requires ServiceTemplate(family, parse, s).Some?
    ensures s != []
    ensures var records := OverAll(TemplateRecords(ServiceTemplate(family, parse, s).value));
      && records.Success?
      && (k in records.value <==> Lists(family, parse, s, k))
      && (k in records.value ==> records.value[k] == ErrorResponse(NewRedirect(ServiceUrl(s))))
  {
    RedirectTemplateRecords(ServiceTemplate(family, parse, s).value, NewRedirect(ServiceUrl(s)), k);
    match family
    case Dns => DnsServiceWrites(parse, s, k);
    case Asn => AsnServiceWrites(parse, s, k);
    case ObjectTags => TagServiceWrites(parse, s, k);
    case _ => IpServiceWrites(family, parse, s, k);
  }

  // ---- what the store holds after compiling and loading ------------------------------------

  /** No file outside the family writes the key. */
  ghost predicate OnlyFamilyWrites(files: Directory, family: RegistryType, k: Key) {
    forall f :: f in files && !Owned(family, f) ==> !Writes(files, f, k)
  }

  ghost predicate IsListed(family: RegistryType, parse: NetworkParser, services: seq<Service>, k: Key)
    requires WellFormedServices(family, parse, services)
  {
    exists i :: 0 <= i < |services| && services[i] in services && Lists(family, parse, services[i], k)
  }

  lemma FamilyFileRecords(files: Directory, family: RegistryType, parse: NetworkParser, services: seq<Service>, num: nat, k: Key)
    requires num < |services| && WellFormedServices(family, parse, services) && services[num] in services
    requires HoldsTemplate(files, TemplateName(family, num), ServiceTemplate(family, parse, services[num]))
    ensures services[num] != []
    ensures var f := TemplateName(family, num);
      && FileRecords(f, files[f]).Success?
      && (k in FileRecords(f, files[f]).value <==> Lists(family, parse, services[num], k))
      && (k in FileRecords(f, files[f]).value
          ==> FileRecords(f, files[f]).value[k] == ErrorResponse(NewRedirect(ServiceUrl(services[num]))))
  {
    TemplateExtension(family, num);
    ServiceRecords(family, parse, services[num], k);
  }

  lemma WrittenKeyIsListed(files: Directory, family: RegistryType, parse: NetworkParser, fetch: Fetch, f: string, k: Key)
    returns (num: nat)
    requires fetch.Fetched? && Succeeds(family, parse, fetch)
    requires var after := AfterRefresh(files, family, parse, fetch);
      OnlyFamilyWrites(after, family, k) && f in after && Writes(after, f, k)
    ensures var after := AfterRefresh(files, family, parse, fetch);
      && num < |fetch.services| && fetch.services[num] in fetch.services && fetch.services[num] != []
      && Lists(family, parse, fetch.services[num], k)
      && FileRecords(f, after[f]).value[k] == ErrorResponse(NewRedirect(ServiceUrl(fetch.services[num])))
  {
    var after := AfterRefresh(files, family, parse, fetch);
    NoResidue(files, family, parse, fetch, f);
    num :| num < |fetch.services| && f == TemplateName(family, num);
    assert fetch.services[num] in fetch.services;
    FamilyFileRecords(after, family, parse, fetch.services, num, k);
  }

  lemma ListedKeyIsWritten(files: Directory, family: RegistryType, parse: NetworkParser, fetch: Fetch, k: Key)
    requires fetch.Fetched? && Succeeds(family, parse, fetch) && IsListed(family, parse, fetch.services, k)
    ensures var after := AfterRefresh(files, family, parse, fetch);
      exists f :: f in after && Writes(after, f, k)
  {
    var after, services := AfterRefresh(files, family, parse, fetch), fetch.services;
    var num :| 0 <= num < |services| && services[num] in services && Lists(family, parse, services[num], k);
    NoResidue(files, family, parse, fetch, "");
    FamilyFileRecords(after, family, parse, services, num, k);
    assert TemplateName(family, num) in after && Writes(after, TemplateName(family, num), k);
  }

  /**
   After an error-free refresh of any registry and a truncating load, the keys that only the family
   writes are in the store exactly if the registry lists them, and each holds the redirect of a
   service listing it: names for DNS, every number of a range, networks, and upper-cased tags.
   */
  lemma RedirectKeysAreEntries(
    files: Directory, family: RegistryType, parse: NetworkParser, fetch: Fetch, order: seq<string>, before: Contents, k: Key)
    returns (num: nat)
    requires fetch.Fetched? && Succeeds(family, parse, fetch)
    requires var after := AfterRefresh(files, family, parse, fetch);
      IsListing(after, order) && Snapshot(after, order).Success? && OnlyFamilyWrites(after, family, k)
    ensures var visible := Loaded(before, Some(Snapshot(AfterRefresh(files, family, parse, fetch), order)), true);
      && (k in visible <==> IsListed(family, parse, fetch.services, k))
      && (k in visible ==>
            num < |fetch.services| && fetch.services[num] in fetch.services && fetch.services[num] != []
            && Lists(family, parse, fetch.services[num], k)
            && visible[k] == ErrorResponse(NewRedirect(ServiceUrl(fetch.services[num]))))
  {
    var after := AfterRefresh(files, family, parse, fetch);
    var visible := Loaded(before, Some(Snapshot(after, order)), true);
    assert visible == Snapshot(after, order).value;
    SnapshotKeys(after, order, k);
    var f := SnapshotValue(after, order, k);
    num := 0;
    if k in visible {
      num := WrittenKeyIsListed(files, family, parse, fetch, f, k);
    }
    if IsListed(family, parse, fetch.services, k) {
      ListedKeyIsWritten(files, family, parse, fetch, k);
    }
  }

  /**
   After an update, which does not truncate, the keys of a kind that only the family writes are exactly
   those the registry lists, if and only if the registry lists every key of that kind that the store
   held before. So redirects that left the registry are what an update gets wrong, and nothing else.
   */
  lemma UpdateMatchesRegistryExactly(
    files: Directory, family: RegistryType, parse: NetworkParser, fetch: Fetch, order: seq<string>, before: Contents,
    kind: Key -> bool)
    requires fetch.Fetched? && Succeeds(family, parse, fetch)
    requires var after := AfterRefresh(files, family, parse, fetch);
      && IsListing(after, order) && Snapshot(after, order).Success?
      && (forall k :: kind(k) ==> OnlyFamilyWrites(after, family, k))
    ensures var visible := Loaded(before, Some(Snapshot(AfterRefresh(files, family, parse, fetch), order)), false);
      (forall k :: kind(k) ==> (k in visible <==> IsListed(family, parse, fetch.services, k)))
      <==> (forall k :: kind(k) && k in before ==> IsListed(family, parse, fetch.services, k))
  {
    var snapshot := Snapshot(AfterRefresh(files, family, parse, fetch), order);
    var visible, reloaded := Loaded(before, Some(snapshot), false), Loaded(before, Some(snapshot), true);
    forall k | kind(k)
      ensures k in visible <==> k in before || IsListed(family, parse, fetch.services, k)
    {
      var num := RedirectKeysAreEntries(files, family, parse, fetch, order, before, k);
      assert k in visible <==> k in before || k in reloaded;
    }
  }

  // ---- the store as the registry determines it --------------------------------------------

  ghost predicate DistinctNames(entries: seq<Entry>) {
    forall i, j :: 0 <= i < j < |entries| ==> entries[i].name != entries[j].name
  }

  function EntryUrl(e: Entry): string {
    match PreferredUrl(e.urls)
    case Some(url) => url
    case None => ""
  }

  /** The store holds a redirect for every entry of the registry and no other domain record. */
  ghost predicate HoldsRegistry(visible: Contents, services: seq<Service>) {
    && (forall name :: LdhName(name) in visible <==> exists e :: e in Entries(services) && e.name == name)
    && (forall e :: e in Entries(services) ==> visible[LdhName(e.name)] == ErrorResponse(NewRedirect(EntryUrl(e))))
  }

  lemma {:induction false} EntriesOfServices(services: seq<Service>, name: string, s: Service)
    ensures s in services && s != [] && name in s[0] ==> Entry(name, Last(s)) in Entries(services)
    ensures forall e :: e in Entries(services) ==>
      exists t :: t in services && t != [] && e.name in t[0] && e.urls == Last(t)
  {
    if services != [] {
      var front, last := services[..|services| - 1], Last(services);
      EntriesOfServices(front, name, s);
      assert forall t :: t in services <==> t in front || t == last;
      assert forall e :: e in Entries(services) <==> e in Entries(front) || e in ServiceEntries(last);
      if s == last && s != [] && name in s[0] {
        var i :| 0 <= i < |s[0]| && s[0][i] == name;
        assert ServiceEntries(s)[i] == Entry(name, Last(s));
      }
      forall e | e in ServiceEntries(last)
        ensures last != [] && e.name in last[0] && e.urls == Last(last)
      {
        var i :| 0 <= i < |ServiceEntries(last)| && ServiceEntries(last)[i] == e;
        assert last[0][i] == e.name;
      }
    }
  }

  /** Apart from the DNS templates no file registers a domain by its LDH name. */
  ghost predicate NoOtherDomains(files: Directory) {
    forall name :: OnlyFamilyWrites(files, Dns, LdhName(name))
  }

  /** Compiling the registry and loading it leaves a store that holds the registry. */
  lemma CompiledStoreHoldsRegistry(
    files: Directory, parse: NetworkParser, fetch: Fetch, order: seq<string>, before: Contents)
    requires fetch.Fetched? && Succeeds(Dns, parse, fetch) && DistinctNames(Entries(fetch.services))
    requires var after := AfterRefresh(files, Dns, parse, fetch);
      IsListing(after, order) && Snapshot(after, order).Success? && NoOtherDomains(after)
    ensures HoldsRegistry(Loaded(before, Some(Snapshot(AfterRefresh(files, Dns, parse, fetch), order)), true),
                          fetch.services)
  {
    var services := fetch.services;
    var visible := Loaded(before, Some(Snapshot(AfterRefresh(files, Dns, parse, fetch), order)), true);
    EntriesOfServices(services, "", []);
    forall name
      ensures LdhName(name) in visible <==> exists e :: e in Entries(services) && e.name == name
      ensures forall e :: e in Entries(services) && e.name == name ==>
        LdhName(name) in visible && visible[LdhName(name)] == ErrorResponse(NewRedirect(EntryUrl(e)))
    {
      var num := RedirectKeysAreEntries(files, Dns, parse, fetch, order, before, LdhName(name));
      if LdhName(name) in visible {
        var s := services[num];
        EntriesOfServices(services, name, s);
        forall e | e in Entries(services) && e.name == name
          ensures e == Entry(name, Last(s))
        {
          SameNameSameEntry(Entries(services), e, Entry(name, Last(s)));
        }
      }
      if e :| e in Entries(services) && e.name == name {
        EntryIsListed(parse, services, e);
      }
    }
  }

  lemma EntryIsListed(parse: NetworkParser, services: seq<Service>, e: Entry)
    requires WellFormedServices(Dns, parse, services) && e in Entries(services)
    ensures IsListed(Dns, parse, services, LdhName(e.name))
  {
    EntriesOfServices(services, "", []);
    var t :| t in services && t != [] && e.name in t[0] && e.urls == Last(t);
    var i :| 0 <= i < |services| && services[i] == t;
    assert Lists(Dns, parse, services[i], LdhName(e.name));
  }

  lemma SameNameSameEntry(entries: seq<Entry>, e: Entry, f: Entry)
    requires DistinctNames(entries) && e in entries && f in entries && e.name == f.name
    ensures e == f
  {
    var i :| 0 <= i < |entries| && entries[i] == e;
    var j :| 0 <= j < |entries| && entries[j] == f;
    assert i == j;
  }

  // ---- the client's URL -------------------------------------------------------------------

  /** `QueryType::query_url` for a domain; `encode` is percent-encoding, which a library does. */
  function QueryUrl(baseUrl: string, name: string, encode: string -> string): string {
    TrimEndChar(baseUrl, '/') + "/domain/" + encode(TrimStartChar(name, '.'))
  }

  /** The URL the client asks, or why it does not know one. */
  ghost function ClientUrl(services: seq<Service>, name: string, encode: string -> string): Result<string, RegistryError> {
    match DnsUrls(services, name)
    case Failure(e) => Failure(e)
    case Success(urls) =>
      match GetPreferredUrl(urls)
      case Failure(e) => Failure(e)
      case Success(base) => Success(QueryUrl(base, name, encode))
  }

  predicate AtMostOneSlash(url: string) {
    !EndsWith(url, "//")
  }

  lemma {:induction false} TrimEndStops(s: string, c: char)
    ensures TrimEndChar(s, c) <= s
    ensures TrimEndChar(s, c) == "" || TrimEndChar(s, c)[|TrimEndChar(s, c)| - 1] != c
    ensures |TrimEndChar(s, c)| < |s| ==> s[|s| - 1] == c
  {
    if s != "" && s[|s| - 1] == c {
      TrimEndStops(s[..|s| - 1], c);
    }
  }

  lemma EndsWithChar(s: string, c: char)
    ensures EndsWith(s, [c]) <==> s != "" && s[|s| - 1] == c
    ensures EndsWith(s, [c]) ==> s == s[..|s| - 1] + [c]
  {
    if s != "" {
      assert s[|s| - 1..] == [s[|s| - 1]];
    }
  }

  lemma TwoSlashes(front: string)
    ensures EndsWith(front + "/", "//") <==> EndsWith(front, "/")
  {
    EndsWithChar(front, '/');
    if front != "" {
      assert (front + "/")[|front| - 1..] == [front[|front| - 1], '/'];
    }
  }

  /** Trimming all slashes and adding one is adding one if missing, unless there are two or more. */
  lemma SlashesAgreeExactly(url: string, rest: string)
    ensures TrimEndChar(url, '/') + "/" + rest == WithSlash(url) + rest <==> AtMostOneSlash(url)
  {
    TrimEndStops(url, '/');
    EndsWithChar(url, '/');
    if EndsWith(url, "/") {
      var front := url[..|url| - 1];
      TwoSlashes(front);
      TrimEndStops(front, '/');
      EndsWithChar(front, '/');
      assert TrimEndChar(url, '/') == TrimEndChar(front, '/');
      if EndsWith(front, "/") {
        TrimEndStops(front[..|front| - 1], '/');
        assert |TrimEndChar(url, '/') + "/" + rest| < |url + rest|;
      } else {
        assert TrimEndChar(url, '/') == front;
      }
    } else {
      NotEvenOne(url);
      assert TrimEndChar(url, '/') == url;
    }
  }

  lemma NotEvenOne(url: string)
    requires !EndsWith(url, "/")
    ensures AtMostOneSlash(url)
  {
    EndsWithChar(url, '/');
    assert |url| >= 2 ==> url[|url| - 2..][1] == url[|url| - 1];
  }

  // ---- the agreement ----------------------------------------------------------------------

  /**
   What the query has to be for the comparison: canonical, without a leading dot, unchanged by
   percent-encoding (as names of letters, digits, hyphens and dots are), and not itself registered.
   */
  ghost predicate PlainQuery(visible: Contents, name: string, encode: string -> string) {
    && Canonical(name) == name
    && TrimStartChar(name, '.') == name
    && encode(name) == name
    && LdhName(name) !in visible && UnicodeName(name) !in visible
  }

  lemma EntriesAreRedirects(visible: Contents, services: seq<Service>, suffix: string)
    requires HoldsRegistry(visible, services)
    ensures HoldsRedirect(visible, suffix) <==> exists e :: e in Entries(services) && e.name == suffix
  {
    if e :| e in Entries(services) && e.name == suffix {
      assert visible[LdhName(suffix)] == ErrorResponse(NewRedirect(EntryUrl(e)));
    }
  }

  /** The client knows no server for the name: then neither does the server. */
  lemma BothFindNothing(visible: Contents, services: seq<Service>, name: string, encode: string -> string)
    requires HoldsRegistry(visible, services) && PlainQuery(visible, name, encode)
    requires LongestMatch(Entries(services), name).None?
    ensures DomainAnswer(visible, true, name) == NOT_FOUND
  {
    var k := LongestMatchIsFirstLongest(Entries(services), name);
    WalkFindsLongest(visible, name);
    forall suffix | IsLabelSuffix(name, suffix)
      ensures !HoldsRedirect(visible, suffix)
    {
      EntriesAreRedirects(visible, services, suffix);
      LabelSuffixIsShorter(name, suffix);
      assert forall e :: e in Entries(services) && e.name == suffix ==> Matches(e, name);
    }
  }

  /** No entry on a label boundary is longer than the client's. */
  lemma BoundaryEntriesAreShorter(services: seq<Service>, name: string, suffix: string)
    requires LongestMatch(Entries(services), name).Some? && IsLabelSuffix(name, suffix)
    requires exists e :: e in Entries(services) && e.name == suffix
    ensures var entry := LongestMatch(Entries(services), name).value;
      && entry in Entries(services) && EndsWith(name, entry.name)
      && |suffix| <= |entry.name|
      && (|suffix| == |entry.name| ==> suffix == entry.name)
  {
    var entries := Entries(services);
    var k := LongestMatchIsFirstLongest(entries, name);
    LabelSuffixIsShorter(name, suffix);
    var j :| 0 <= j < |entries| && entries[j].name == suffix;
    assert Matches(entries[j], name) && Matches(entries[k], name);
    assert suffix == name[|name| - |suffix|..] && entries[k].name == name[|name| - |entries[k].name|..];
  }

  /** The server's walk stops at the client's entry if and only if that entry sits on a label boundary. */
  lemma WalkStopsAtClientEntryExactly(visible: Contents, services: seq<Service>, name: string)
    requires HoldsRegistry(visible, services)
    requires LongestMatch(Entries(services), name).Some?
    ensures var entry := LongestMatch(Entries(services), name).value;
      && entry in Entries(services)
      && (FirstRedirect(visible, name) == Some(entry.name) <==> IsLabelSuffix(name, entry.name))
  {
    var entry := LongestMatch(Entries(services), name).value;
    var k := LongestMatchIsFirstLongest(Entries(services), name);
    WalkFindsLongest(visible, name);
    if IsLabelSuffix(name, entry.name) {
      EntriesAreRedirects(visible, services, entry.name);
      EntriesAreRedirects(visible, services, FirstRedirect(visible, name).value);
      BoundaryEntriesAreShorter(services, name, FirstRedirect(visible, name).value);
    }
  }

  lemma EntryUrlOfUsable(services: seq<Service>, e: Entry)
    requires (forall s :: s in services ==> s != [] && Last(s) != []) && e in Entries(services)
    ensures e.urls != []
    ensures EntryUrl(e) == WithSlash(GetPreferredUrl(e.urls).value)
  {
    EntriesOfServices(services, "", []);
  }

  /** A redirect the server would give for a query, as the address it points to. */
  function ServerTarget(visible: Contents, name: string): Option<string> {
    match DomainAnswer(visible, true, name)
    case ErrorResponse(e) => if 299 < e.errorCode < 400 then RedirectTarget(e) else None
    case _ => None
  }

  lemma PathAppended(base: string, name: string)
    ensures base + "domain" + "/" + name == base + ("domain/" + name)
    ensures base + "/domain/" + name == base + "/" + ("domain/" + name)
  {
  }

  lemma ServerRedirects(visible: Contents, services: seq<Service>, name: string, entry: Entry)
    requires HoldsRegistry(visible, services) && entry in Entries(services)
    requires Canonical(name) == name && LdhName(name) !in visible && UnicodeName(name) !in visible
    requires FirstRedirect(visible, name) == Some(entry.name)
    ensures ServerTarget(visible, name) == Some(EntryUrl(entry) + "domain" + "/" + name)
  {
    var url := EntryUrl(entry);
    assert Lookup(visible, LdhName(entry.name)) == ErrorResponse(NewRedirect(url));
    RedirectsPointThere(url, name);
    RedirectsPointThere(url + "domain" + "/" + name, name);
    NothingExact(visible, name);
  }

  lemma RedirectsPointThere(url: string, name: string)
    ensures RedirectTarget(NewRedirect(url)) == Some(url)
    ensures ToBootstrap(ErrorResponse(NewRedirect(url)), "domain", name)
         == ErrorResponse(NewRedirect(url + "domain" + "/" + name))
  {
  }

  lemma NothingExact(visible: Contents, name: string)
    requires Canonical(name) == name && LdhName(name) !in visible && UnicodeName(name) !in visible
    requires FirstRedirect(visible, name).Some?
    ensures DomainAnswer(visible, true, name)
         == ToBootstrap(Lookup(visible, LdhName(FirstRedirect(visible, name).value)), "domain", name)
  {
  }

  /** The entry is the longest of those that stand on a label boundary of the name. */
  ghost predicate IsBoundaryBest(entries: seq<Entry>, name: string, e: Entry) {
    && e in entries && IsLabelSuffix(name, e.name)
    && forall f :: f in entries && IsLabelSuffix(name, f.name) ==> |f.name| <= |e.name|
  }

  lemma LabelSuffixesByLength(name: string, s: string, t: string)
    requires IsLabelSuffix(name, s) && IsLabelSuffix(name, t) && |s| == |t|
    ensures s == t
  {
    LabelSuffixIsShorter(name, s);
    LabelSuffixIsShorter(name, t);
  }

  /** The server's walk stops at the longest entry on a label boundary, if there is one. */
  lemma WalkStopsAtBoundaryBest(visible: Contents, services: seq<Service>, name: string)
    requires HoldsRegistry(visible, services)
    ensures forall e :: IsBoundaryBest(Entries(services), name, e) ==> FirstRedirect(visible, name) == Some(e.name)
    ensures FirstRedirect(visible, name).Some?
      ==> exists e :: IsBoundaryBest(Entries(services), name, e) && e.name == FirstRedirect(visible, name).value
  {
    WalkFindsLongest(visible, name);
    forall e | e in Entries(services)
      ensures HoldsRedirect(visible, e.name)
    {
      EntriesAreRedirects(visible, services, e.name);
    }
    if FirstRedirect(visible, name).Some? {
      var suffix := FirstRedirect(visible, name).value;
      EntriesAreRedirects(visible, services, suffix);
      var e :| e in Entries(services) && e.name == suffix;
      assert IsBoundaryBest(Entries(services), name, e);
      forall f | IsBoundaryBest(Entries(services), name, f)
        ensures f.name == suffix
      {
        LabelSuffixesByLength(name, f.name, suffix);
      }
    }
  }

  /** The base URL that the client chooses. */
  function ClientBase(entry: Entry): string {
    match GetPreferredUrl(entry.urls)
    case Success(url) => url
    case Failure(_) => ""
  }

  lemma AppendCancels(a: string, b: string, rest: string)
    ensures a + rest == b + rest <==> a == b
  {
    if a + rest == b + rest {
      assert a == (a + rest)[..|a|] && b == (b + rest)[..|b|];
    }
  }

  lemma ServerUrl(visible: Contents, services: seq<Service>, name: string, encode: string -> string, e: Entry, base: string)
    requires HoldsRegistry(visible, services) && PlainQuery(visible, name, encode)
    requires IsBoundaryBest(Entries(services), name, e)
    ensures ServerTarget(visible, name) == Some(QueryUrl(base, name, encode))
       <==> EntryUrl(e) == TrimEndChar(base, '/') + "/"
  {
    WalkStopsAtBoundaryBest(visible, services, name);
    ServerRedirects(visible, services, name, e);
    PathAppended(EntryUrl(e), name);
    PathAppended(TrimEndChar(base, '/'), name);
    AppendCancels(EntryUrl(e), TrimEndChar(base, '/') + "/", "domain/" + name);
  }

  lemma NoBoundaryNoAnswer(visible: Contents, services: seq<Service>, name: string, encode: string -> string)
    requires HoldsRegistry(visible, services) && PlainQuery(visible, name, encode)
    ensures FirstRedirect(visible, name).None? ==>
      DomainAnswer(visible, true, name) == NOT_FOUND && ServerTarget(visible, name).None?
  {
  }

  lemma ClientUrlOfMatch(services: seq<Service>, name: string, encode: string -> string)
    requires forall s :: s in services ==> s != [] && Last(s) != []
    requires LongestMatch(Entries(services), name).Some?
    ensures var entry := LongestMatch(Entries(services), name).value;
      entry in Entries(services) && ClientUrl(services, name, encode) == Success(QueryUrl(ClientBase(entry), name, encode))
  {
    var k := LongestMatchIsFirstLongest(Entries(services), name);
    EntryUrlOfUsable(services, LongestMatch(Entries(services), name).value);
  }

  lemma OneSlashExactly(url: string)
    ensures WithSlash(url) == TrimEndChar(url, '/') + "/" <==> AtMostOneSlash(url)
  {
    SlashesAgreeExactly(url, "");
    assert TrimEndChar(url, '/') + "/" + "" == TrimEndChar(url, '/') + "/" && WithSlash(url) + "" == WithSlash(url);
  }

  /**
   For every plain query: when the client knows no server, neither does the server; otherwise the
   server's redirect points to the URL that the client would ask if and only if some entry stands on a
   label boundary of the name and the URL of the longest such entry is the client's base URL with its
   trailing slashes replaced by one.
   */
  lemma ClientAndServerAgreeExactly(visible: Contents, services: seq<Service>, name: string, encode: string -> string)
    requires forall s :: s in services ==> s != [] && Last(s) != []
    requires HoldsRegistry(visible, services) && PlainQuery(visible, name, encode)
    ensures var client, match_ := ClientUrl(services, name, encode), LongestMatch(Entries(services), name);
      && (client.Success? <==> match_.Some?)
      && (match_.None? ==> DomainAnswer(visible, true, name) == NOT_FOUND)
      && (match_.Some? ==>
            (ServerTarget(visible, name) == Some(client.value)
             <==> exists e :: IsBoundaryBest(Entries(services), name, e)
                    && EntryUrl(e) == TrimEndChar(ClientBase(match_.value), '/') + "/"))
  {
    if LongestMatch(Entries(services), name).None? {
      BothFindNothing(visible, services, name, encode);
    } else {
      var entry := LongestMatch(Entries(services), name).value;
      var base := ClientBase(entry);
      ClientUrlOfMatch(services, name, encode);
      WalkStopsAtBoundaryBest(visible, services, name);
      NoBoundaryNoAnswer(visible, services, name, encode);
      forall e | IsBoundaryBest(Entries(services), name, e)
        ensures ServerTarget(visible, name) == Some(QueryUrl(base, name, encode)) <==> EntryUrl(e) == TrimEndChar(base, '/') + "/"
      {
        ServerUrl(visible, services, name, encode, e, base);
      }
    }
  }

  /**
   When the longest entry on a label boundary has the URLs of the client's entry, above all when it is
   that entry, the two agree if and only if the chosen base URL does not end with two slashes. So they
   can agree although the client's entry stands off every boundary.
   */
  lemma SameUrlsAgreeExactly(
    visible: Contents, services: seq<Service>, name: string, encode: string -> string, e: Entry)
    requires forall s :: s in services ==> s != [] && Last(s) != []
    requires HoldsRegistry(visible, services) && PlainQuery(visible, name, encode)
    requires IsBoundaryBest(Entries(services), name, e)
    requires LongestMatch(Entries(services), name).Some? && e.urls == LongestMatch(Entries(services), name).value.urls
    ensures var client, base := ClientUrl(services, name, encode), ClientBase(LongestMatch(Entries(services), name).value);
      client.Success? && (ServerTarget(visible, name) == Some(client.value) <==> AtMostOneSlash(base))
  {
    var entry := LongestMatch(Entries(services), name).value;
    ClientUrlOfMatch(services, name, encode);
    EntryUrlOfUsable(services, entry);
    EntryUrlOfUsable(services, e);
    ServerUrl(visible, services, name, encode, e, ClientBase(entry));
    OneSlashExactly(ClientBase(entry));
  }

  /** The client's entry, when it stands on a label boundary, is the longest that does. */
  lemma ClientEntryIsBoundaryBest(services: seq<Service>, name: string)
    requires LongestMatch(Entries(services), name).Some?
    requires IsLabelSuffix(name, LongestMatch(Entries(services), name).value.name)
    ensures IsBoundaryBest(Entries(services), name, LongestMatch(Entries(services), name).value)
  {
    var k := LongestMatchIsFirstLongest(Entries(services), name);
    forall f | f in Entries(services) && IsLabelSuffix(name, f.name)
      ensures |f.name| <= |LongestMatch(Entries(services), name).value.name|
    {
      BoundaryEntriesAreShorter(services, name, f.name);
    }
  }

  /**
   When the client's entry stands on a label boundary of the name, the two agree if and only if the
   chosen base URL does not end with two slashes.
   */
  lemma OnBoundaryAgreesExactly(visible: Contents, services: seq<Service>, name: string, encode: string -> string)
    requires forall s :: s in services ==> s != [] && Last(s) != []
    requires HoldsRegistry(visible, services) && PlainQuery(visible, name, encode)
    requires LongestMatch(Entries(services), name).Some?
    requires IsLabelSuffix(name, LongestMatch(Entries(services), name).value.name)
    ensures var client, base := ClientUrl(services, name, encode), ClientBase(LongestMatch(Entries(services), name).value);
      client.Success? && (ServerTarget(visible, name) == Some(client.value) <==> AtMostOneSlash(base))
  {
    ClientEntryIsBoundaryBest(services, name);
    SameUrlsAgreeExactly(visible, services, name, encode, LongestMatch(Entries(services), name).value);
  }

  lemma WellFormedServicesHaveUrls(parse: NetworkParser, services: seq<Service>)
    requires WellFormedServices(Dns, parse, services)
    ensures forall s :: s in services ==> s != [] && Last(s) != []
  {
    forall s | s in services
      ensures s != [] && Last(s) != []
    {
      assert ServiceTemplate(Dns, parse, s).Some?;
    }
  }

  /**
   The whole way: the server refreshes its DNS registry, loads its directory and answers a query; the
   client looks the name up in the same registry. They agree under the same exact condition.
   */
  lemma CompiledServerAgreesExactly(
    files: Directory, parse: NetworkParser, fetch: Fetch, order: seq<string>, before: Contents,
    name: string, encode: string -> string)
    requires fetch.Fetched? && Succeeds(Dns, parse, fetch) && DistinctNames(Entries(fetch.services))
    requires var after := AfterRefresh(files, Dns, parse, fetch);
      IsListing(after, order) && Snapshot(after, order).Success? && NoOtherDomains(after)
    requires PlainQuery(Loaded(before, Some(Snapshot(AfterRefresh(files, Dns, parse, fetch), order)), true), name, encode)
    ensures var visible := Loaded(before, Some(Snapshot(AfterRefresh(files, Dns, parse, fetch), order)), true);
      var client, match_ := ClientUrl(fetch.services, name, encode), LongestMatch(Entries(fetch.services), name);
      && (client.Success? <==> match_.Some?)
      && (match_.None? ==> DomainAnswer(visible, true, name) == NOT_FOUND)
      && (match_.Some? ==>
            (ServerTarget(visible, name) == Some(client.value)
             <==> exists e :: IsBoundaryBest(Entries(fetch.services), name, e)
                    && EntryUrl(e) == TrimEndChar(ClientBase(match_.value), '/') + "/"))
  {
    var visible := Loaded(before, Some(Snapshot(AfterRefresh(files, Dns, parse, fetch), order)), true);
    WellFormedServicesHaveUrls(parse, fetch.services);
    CompiledStoreHoldsRegistry(files, parse, fetch, order, before);
    ClientAndServerAgreeExactly(visible, fetch.services, name, encode);
  }

  /** What the store holds after compiling and loading a registry of one entry. */
  function StoreOfOne(entry: string, url: string): Contents {
    map[LdhName(entry) := ErrorResponse(NewRedirect(WithSlash(url)))]
  }

  lemma OneEntryHeld(entry: string, url: string)
    ensures HoldsRegistry(StoreOfOne(entry, url), [[[entry], [url]]])
  {
    OneEntry(entry, url);
    OnePreferred(url);
    var services: seq<Service>, e := [[[entry], [url]]], Entry(entry, [url]);
    assert e in Entries(services);
    EntryUrlOfOne(url, e);
  }

  lemma EntryUrlOfOne(url: string, e: Entry)
    requires e.urls == [url]
    ensures EntryUrl(e) == WithSlash(url)
  {
    OnePreferred(url);
    assert e.urls[1..] == [];
  }

  /** With one entry and a name under it, both sides arrive at the same URL. */
  lemma OneEntryAgrees(entry: string, url: string, head: string, encode: string -> string)
    requires head != "" && head[0] != '.' && AtMostOneSlash(url)
    requires Canonical(head + "." + entry) == head + "." + entry && encode(head + "." + entry) == head + "." + entry
    ensures ServerTarget(StoreOfOne(entry, url), head + "." + entry) == Some(QueryUrl(url, head + "." + entry, encode))
    ensures ClientUrl([[[entry], [url]]], head + "." + entry, encode) == Success(QueryUrl(url, head + "." + entry, encode))
  {
    var services: seq<Service>, name, visible := [[[entry], [url]]], head + "." + entry, StoreOfOne(entry, url);
    OneEntry(entry, url);
    OneEntryHeld(entry, url);
    OnePreferred(url);
    assert EndsWith(name, entry);
    OneMatch(Entry(entry, [url]), name);
    assert name[|head|] == '.' && SuffixAfterDot(name, entry, |head|);
    assert |name| > |entry|;
    assert TrimStartChar(name, '.') == name;
    assert Entries(services) == [Entry(entry, [url])];
    assert IsBoundaryBest(Entries(services), name, Entry(entry, [url]));
    SameUrlsAgreeExactly(visible, services, name, encode, Entry(entry, [url]));
  }

  /**
   In a registry of one entry without a dot, that entry is enough for the client wherever it ends a
   name, and too little for the server off a label boundary: with `ample` registered, `example` has a
   server for the one but not for the other.
   */
  lemma OffBoundaryDisagrees(entry: string, url: string, head: string, encode: string -> string, visible: Contents)
    requires head != "" && '.' !in entry && head[|head| - 1] != '.'
    requires HoldsRegistry(visible, [[[entry], [url]]])
    requires UnicodeName(head + entry) !in visible && Canonical(head + entry) == head + entry
    ensures ClientUrl([[[entry], [url]]], head + entry, encode) == Success(QueryUrl(url, head + entry, encode))
    ensures DomainAnswer(visible, true, head + entry) == NOT_FOUND
  {
    assert EndsWith(head + entry, entry);
    OneEntry(entry, url);
    OneMatch(Entry(entry, [url]), head + entry);
    OnePreferred(url);
    OffBoundaryWalk(entry, url, head, visible);
  }

  lemma OffBoundaryWalk(entry: string, url: string, head: string, visible: Contents)
    requires head != "" && '.' !in entry && head[|head| - 1] != '.'
    requires HoldsRegistry(visible, [[[entry], [url]]])
    requires UnicodeName(head + entry) !in visible && Canonical(head + entry) == head + entry
    ensures DomainAnswer(visible, true, head + entry) == NOT_FOUND
  {
    var name := head + entry;
    NoRedirectAbove(entry, url, head, visible);
    WalkFindsLongest(visible, name);
    OneEntry(entry, url);
    assert |name| > |entry|;
  }

  lemma NoRedirectAbove(entry: string, url: string, head: string, visible: Contents)
    requires head != "" && head[|head| - 1] != '.'
    requires HoldsRegistry(visible, [[[entry], [url]]])
    ensures forall suffix :: IsLabelSuffix(head + entry, suffix) ==> !HoldsRedirect(visible, suffix)
  {
    OneEntry(entry, url);
    NotOnBoundary(head, entry);
    forall suffix | IsLabelSuffix(head + entry, suffix)
      ensures !HoldsRedirect(visible, suffix)
    {
      EntriesAreRedirects(visible, [[[entry], [url]]], suffix);
    }
  }

  lemma OneEntry(entry: string, url: string)
    ensures Entries([[[entry], [url]]]) == [Entry(entry, [url])]
  {
    var services: seq<Service>, service: Service := [[[entry], [url]]], [[entry], [url]];
    assert services[..0] == [] && Last(services) == service;
    assert service[0] == [entry] && Last(service) == [url];
    assert ServiceEntries(service) == [Entry(entry, [url])];
  }

  lemma OneMatch(e: Entry, name: string)
    requires Matches(e, name)
    ensures LongestMatch([e], name) == Some(e)
  {
    assert [e][..0] == [];
  }

  lemma OnePreferred(url: string)
    ensures GetPreferredUrl([url]) == Success(url)
  {
    assert [url][1..] == [] && FirstHttps([]) == None;
  }

  lemma NotOnBoundary(head: string, entry: string)
    requires head != "" && head[|head| - 1] != '.'
    ensures !IsLabelSuffix(head + entry, entry)
  {
    var name := head + entry;
    forall i: nat | i < |name| && name[i + 1..] == entry
      ensures name[i] != '.'
    {
      assert |name[i + 1..]| == |name| - i - 1;
      assert name[i] == head[|head| - 1];
    }
  }
}
