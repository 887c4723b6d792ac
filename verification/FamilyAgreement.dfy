/**
 Where client and server send a query for a number, a network or an object tag. Several services of a
 registry may list the same thing. The client then takes the first service, or the last; in the server
 the file that is loaded last wins, and the order of files in a directory is not fixed.
 */
module FamilyAgreement {
  import opened Wrappers
  import opened Sequences
  import opened Text
  import opened IanaRegistry
  import opened PrefixIndex
  import opened ClientLookups
  import opened Responses
  import opened SelfLinks
  import opened Storage
  import opened LoadHistory
  import opened RedirectWalk
  import opened ServerBootstrap
  import opened BootstrapAgreement

  // ---- which redirect is in the store -----------------------------------------------------

  /** The store after loading the directory in the given order. */
  function Reloaded(files: Directory, order: seq<string>): Contents
    requires forall name :: name in order ==> name in files
  {
    Loaded(map[], Some(Snapshot(files, order)), true)
  }

  /** All services that list the key have the URL. */
  ghost predicate AllSend(family: RegistryType, parse: NetworkParser, services: seq<Service>, k: Key, url: string)
    requires WellFormedServices(family, parse, services)
  {
    forall s :: s in services && s != [] && Lists(family, parse, s, k) ==> ServiceUrl(s) == url
  }

  /** In whatever order the directory is read, the key holds the redirect to the URL. */
  ghost predicate AlwaysRedirects(files: Directory, k: Key, url: string) {
    forall order :: IsListing(files, order) ==>
      k in Reloaded(files, order) && Reloaded(files, order)[k] == ErrorResponse(NewRedirect(url))
  }

  /** A refresh of the family after which the directory can be loaded, and only the family writes the key. */
  ghost predicate Refreshed(
    files: Directory, family: RegistryType, parse: NetworkParser, fetch: Fetch, order: seq<string>, k: Key)
  {
    && fetch.Fetched? && Succeeds(family, parse, fetch)
    && var after := AfterRefresh(files, family, parse, fetch);
      IsListing(after, order) && Snapshot(after, order).Success? && OnlyFamilyWrites(after, family, k)
  }

  lemma RedirectsDiffer(a: string, b: string)
    ensures ErrorResponse(NewRedirect(a)) == ErrorResponse(NewRedirect(b)) ==> a == b
  {
    assert RedirectTarget(NewRedirect(a)) == Some(a) && RedirectTarget(NewRedirect(b)) == Some(b);
  }

  /** Every listing of the directory can be loaded when one can. */
  lemma AnyOrderLoads(
    files: Directory, family: RegistryType, parse: NetworkParser, fetch: Fetch, order: seq<string>, k: Key, other: seq<string>)
    requires Refreshed(files, family, parse, fetch, order, k)
    requires IsListing(AfterRefresh(files, family, parse, fetch), other)
    ensures Refreshed(files, family, parse, fetch, other, k)
  {
    SuccessTransfers(AfterRefresh(files, family, parse, fetch), order, other);
  }

  lemma KeyInAnyOrder(
    files: Directory, family: RegistryType, parse: NetworkParser, fetch: Fetch, order: seq<string>, k: Key, other: seq<string>)
    returns (num: nat)
    requires Refreshed(files, family, parse, fetch, order, k)
    requires IsListing(AfterRefresh(files, family, parse, fetch), other)
    ensures var visible := Reloaded(AfterRefresh(files, family, parse, fetch), other);
      && (k in visible <==> IsListed(family, parse, fetch.services, k))
      && (k in visible ==>
            num < |fetch.services| && fetch.services[num] in fetch.services && fetch.services[num] != []
            && Lists(family, parse, fetch.services[num], k)
            && visible[k] == ErrorResponse(NewRedirect(ServiceUrl(fetch.services[num]))))
  {
    AnyOrderLoads(files, family, parse, fetch, order, k, other);
    num := RedirectKeysAreEntries(files, family, parse, fetch, other, map[], k);
  }

  /** The file of a service that lists the key writes the redirect to its URL. */
  lemma ServiceFileWrites(
    files: Directory, family: RegistryType, parse: NetworkParser, fetch: Fetch, k: Key, num: nat)
    requires fetch.Fetched? && Succeeds(family, parse, fetch)
    requires num < |fetch.services| && fetch.services[num] in fetch.services
    requires Lists(family, parse, fetch.services[num], k)
    ensures fetch.services[num] != []
    ensures var after, f := AfterRefresh(files, family, parse, fetch), TemplateName(family, num);
      && f in after && Writes(after, f, k)
      && ValueIn(after, f, k) == ErrorResponse(NewRedirect(ServiceUrl(fetch.services[num])))
  {
    NoResidue(files, family, parse, fetch, "");
    FamilyFileRecords(AfterRefresh(files, family, parse, fetch), family, parse, fetch.services, num, k);
  }

  /** Each file that writes a key is the one that decides it in some order. */
  lemma SomeOrderTakes(after: Directory, order: seq<string>, f: string, k: Key) returns (last: seq<string>)
    requires IsListing(after, order) && Snapshot(after, order).Success? && f in after && Writes(after, f, k)
    ensures IsListing(after, last) && k in Reloaded(after, last) && Reloaded(after, last)[k] == ValueIn(after, f, k)
  {
    last := ReadLast(after, order, f);
    SuccessTransfers(after, order, last);
    LastFileDecides(after, last, f, k);
  }

  /**
   Whatever the order of the directory, the store redirects a listed key to the URL, if and only if all
   services that list it have this URL.
   */
  lemma AlwaysRedirectsExactly(
    files: Directory, family: RegistryType, parse: NetworkParser, fetch: Fetch, order: seq<string>, k: Key, url: string)
    requires Refreshed(files, family, parse, fetch, order, k)
    requires IsListed(family, parse, fetch.services, k)
    ensures AlwaysRedirects(AfterRefresh(files, family, parse, fetch), k, url)
       <==> AllSend(family, parse, fetch.services, k, url)
  {
    var after, services := AfterRefresh(files, family, parse, fetch), fetch.services;
    if AllSend(family, parse, services, k, url) {
      forall other | IsListing(after, other)
        ensures k in Reloaded(after, other) && Reloaded(after, other)[k] == ErrorResponse(NewRedirect(url))
      {
        var num := KeyInAnyOrder(files, family, parse, fetch, order, k, other);
      }
    }
    if AlwaysRedirects(after, k, url) {
      forall s | s in services && s != [] && Lists(family, parse, s, k)
        ensures ServiceUrl(s) == url
      {
        var num :| 0 <= num < |services| && services[num] == s;
        ServiceFileWrites(files, family, parse, fetch, k, num);
        var last := SomeOrderTakes(after, order, TemplateName(family, num), k);
        RedirectsDiffer(ServiceUrl(s), url);
      }
    }
  }

  // ---- what the two sides answer ----------------------------------------------------------

  /** The address a response redirects to. */
  function TargetOf(r: Response): Option<string> {
    match r
    case ErrorResponse(e) => if 299 < e.errorCode < 400 then RedirectTarget(e) else None
    case _ => None
  }

  /** `QueryType::query_url` for one path and id; `encode` is percent-encoding, which a library does. */
  function ItemUrl(baseUrl: string, path: string, id: string, encode: string -> string): string {
    TrimEndChar(baseUrl, '/') + "/" + path + "/" + encode(id)
  }

  /** The URL the client chooses among those of a service, with its trailing slashes replaced by one. */
  function OneSlash(urls: seq<string>): string {
    match GetPreferredUrl(urls)
    case Success(base) => TrimEndChar(base, '/') + "/"
    case Failure(_) => ""
  }

  /** The address the client asks, given the URLs it has looked up. */
  function ClientAddress(urls: seq<string>, path: string, id: string, encode: string -> string): Option<string> {
    match GetPreferredUrl(urls)
    case Success(base) => Some(ItemUrl(base, path, id, encode))
    case Failure(_) => None
  }

  lemma RedirectAddress(url: string, path: string, id: string)
    ensures TargetOf(ToBootstrap(ErrorResponse(NewRedirect(url)), path, id)) == Some(url + path + "/" + id)
  {
    assert RedirectTarget(NewRedirect(url)) == Some(url);
    assert RedirectTarget(NewRedirect(url + path + "/" + id)) == Some(url + path + "/" + id);
  }

  /** The redirect leads to the client's address if and only if its URL is the client's with one slash. */
  lemma AddressesAgreeExactly(url: string, urls: seq<string>, path: string, id: string, encode: string -> string)
    requires GetPreferredUrl(urls).Success? && encode(id) == id
    ensures TargetOf(ToBootstrap(ErrorResponse(NewRedirect(url)), path, id)) == ClientAddress(urls, path, id, encode)
       <==> url == OneSlash(urls)
  {
    var trimmed, rest := TrimEndChar(GetPreferredUrl(urls).value, '/'), path + "/" + id;
    RedirectAddress(url, path, id);
    assert url + path + "/" + id == url + rest;
    assert trimmed + "/" + path + "/" + id == (trimmed + "/") + rest;
    AppendCancels(url, trimmed + "/", rest);
  }

  lemma ListedServiceHasUrls(family: RegistryType, parse: NetworkParser, s: Service)
    requires ServiceTemplate(family, parse, s).Some?
    ensures s != [] && GetPreferredUrl(Last(s)).Success?
    ensures ServiceUrl(s) == WithSlash(GetPreferredUrl(Last(s)).value)
  {
  }

  /** The redirect under the key leads to the client's address. */
  ghost predicate LeadsTo(visible: Contents, k: Key, path: string, id: string, urls: seq<string>, encode: string -> string) {
    k in visible && TargetOf(ToBootstrap(visible[k], path, id)) == ClientAddress(urls, path, id, encode)
  }

  ghost predicate AlwaysLeadsTo(
    files: Directory, k: Key, path: string, id: string, urls: seq<string>, encode: string -> string)
  {
    forall order :: IsListing(files, order) ==> LeadsTo(Reloaded(files, order), k, path, id, urls, encode)
  }

  /**
   Whatever the order of the directory, the redirect for a listed key leads to the client's address, if
   and only if all services that list the key have the client's URL, with one slash at its end.
   */
  lemma AlwaysLeadsToExactly(
    files: Directory, family: RegistryType, parse: NetworkParser, fetch: Fetch, order: seq<string>, k: Key,
    path: string, id: string, urls: seq<string>, encode: string -> string)
    requires Refreshed(files, family, parse, fetch, order, k) && IsListed(family, parse, fetch.services, k)
    requires GetPreferredUrl(urls).Success? && encode(id) == id
    ensures AlwaysLeadsTo(AfterRefresh(files, family, parse, fetch), k, path, id, urls, encode)
       <==> AllSend(family, parse, fetch.services, k, OneSlash(urls))
  {
    var after := AfterRefresh(files, family, parse, fetch);
    forall other | IsListing(after, other)
      ensures LeadsTo(Reloaded(after, other), k, path, id, urls, encode)
         <==> k in Reloaded(after, other) && Reloaded(after, other)[k] == ErrorResponse(NewRedirect(OneSlash(urls)))
    {
      var num := KeyInAnyOrder(files, family, parse, fetch, order, k, other);
      var url := ServiceUrl(fetch.services[num]);
      AddressesAgreeExactly(url, urls, path, id, encode);
      RedirectsDiffer(url, OneSlash(urls));
    }
    AlwaysRedirectsExactly(files, family, parse, fetch, order, k, OneSlash(urls));
  }

  // ---- autonomous system numbers ----------------------------------------------------------

  /** `autnum_by_num` */
  function AutnumByNum(visible: Contents, bootstrap: bool, asNum: nat): Response {
    var autnum := Lookup(visible, AutnumNumber(asNum));
    if bootstrap then ToBootstrap(autnum, "autnum", Decimal(asNum)) else autnum
  }

  lemma AsnServicesAreReadable(parse: NetworkParser, services: seq<Service>)
    requires WellFormedServices(Asn, parse, services)
    ensures ReadableServices(services)
  {
    forall i | 0 <= i < |services|
      ensures services[i] != [] && ReadableRanges(services[i][0])
    {
      assert services[i] in services && ServiceTemplate(Asn, parse, services[i]).Some?;
      ParseAllExactly(RangeFn(), services[i][0]);
      forall j | 0 <= j < |services[i][0]|
        ensures InAsRange(services[i][0][j], 0).Success?
      {
        assert RangeFn()(services[i][0][j]).Some?;
      }
    }
  }

  lemma CoveringIsListing(parse: NetworkParser, s: Service, n: nat)
    requires ServiceTemplate(Asn, parse, s).Some?
    ensures s != []
    ensures CoversNumber(s[0], n) <==> Lists(Asn, parse, s, AutnumNumber(n))
  {
    assert forall j :: 0 <= j < |s[0]| ==> (InAsRange(s[0][j], n) == Success(true) <==> InRange(AutnumRange(s[0][j]), n));
    if CoversNumber(s[0], n) {
      var j :| 0 <= j < |s[0]| && InAsRange(s[0][j], n) == Success(true);
      assert InRange(AutnumRange(s[0][j]), n);
    }
  }

  /** In a registry that the server compiles, the client finds the first service listing the number. */
  lemma AsnClientFindsFirst(parse: NetworkParser, services: seq<Service>, n: nat) returns (k: nat)
    requires WellFormedServices(Asn, parse, services) && n < 0x1_0000_0000
    ensures IsListed(Asn, parse, services, AutnumNumber(n)) ==>
      k < |services| && services[k] in services && services[k] != [] && Lists(Asn, parse, services[k], AutnumNumber(n))
      && AsnUrls(services, Decimal(n)) == Success(Last(services[k]))
    ensures !IsListed(Asn, parse, services, AutnumNumber(n)) ==> AsnUrls(services, Decimal(n)) == Failure(NoBootstrapUrls)
  {
    SmallDecimalRoundTrip(n);
    DecimalIsTrimmed(n);
    AsnServicesAreReadable(parse, services);
    k := FirstCoveringDecides(services, n);
    forall i | 0 <= i < |services|
      ensures services[i] in services && services[i] != []
      ensures CoversNumber(services[i][0], n) <==> Lists(Asn, parse, services[i], AutnumNumber(n))
    {
      assert services[i] in services;
      CoveringIsListing(parse, services[i], n);
    }
  }

  /** In every order the server redirects a query for the number to where the client asks. */
  ghost predicate NumberAgrees(files: Directory, n: nat, urls: seq<string>, encode: string -> string) {
    forall order :: IsListing(files, order) ==>
      TargetOf(AutnumByNum(Reloaded(files, order), true, n)) == ClientAddress(urls, "autnum", Decimal(n), encode)
  }

  /**
   Autonomous system numbers: the client knows a server exactly for the numbers that are listed, and then
   the server sends to the same address, in whatever order its directory is read, if and only if all
   services that list the number have the URL of the first one, with one slash at its end.
   */
  lemma NumbersAgreeExactly(
    files: Directory, parse: NetworkParser, fetch: Fetch, order: seq<string>, n: nat, encode: string -> string)
    requires Refreshed(files, Asn, parse, fetch, order, AutnumNumber(n))
    requires n < 0x1_0000_0000 && encode(Decimal(n)) == Decimal(n)
    ensures var after, urls := AfterRefresh(files, Asn, parse, fetch), AsnUrls(fetch.services, Decimal(n));
      && (urls.Success? <==> IsListed(Asn, parse, fetch.services, AutnumNumber(n)))
      && (urls.Failure? ==> AutnumByNum(Reloaded(after, order), true, n) == NOT_FOUND)
      && (urls.Success? ==>
            (NumberAgrees(after, n, urls.value, encode)
             <==> AllSend(Asn, parse, fetch.services, AutnumNumber(n), OneSlash(urls.value))))
  {
    var after, key := AfterRefresh(files, Asn, parse, fetch), AutnumNumber(n);
    var k := AsnClientFindsFirst(parse, fetch.services, n);
    var urls := AsnUrls(fetch.services, Decimal(n));
    if urls.Success? {
      ListedServiceHasUrls(Asn, parse, fetch.services[k]);
      forall other | IsListing(after, other)
        ensures key in Reloaded(after, other)
      {
        var num := KeyInAnyOrder(files, Asn, parse, fetch, order, key, other);
      }
      AlwaysLeadsToExactly(files, Asn, parse, fetch, order, key, "autnum", Decimal(n), urls.value, encode);
      assert NumberAgrees(after, n, urls.value, encode)
        <==> AlwaysLeadsTo(after, key, "autnum", Decimal(n), urls.value, encode);
    } else {
      var num := KeyInAnyOrder(files, Asn, parse, fetch, order, key, order);
    }
  }

  // ---- object tags ------------------------------------------------------------------------

  /** `entity_by_handle` */
  function EntityByHandle(visible: Contents, bootstrap: bool, handle: string): Response {
    var entity := Lookup(visible, EntityHandle(handle));
    if bootstrap && !entity.EntityResponse? && !entity.IsRedirect() then
      match RSplitOnce(handle, "-")
      case None => entity
      case Some((_, tag)) =>
        var found := Lookup(visible, EntityHandle(TagHandle(tag)));
        if found.IsRedirect() then ToBootstrap(found, "entity", handle) else entity
    else entity
  }

  /** `get_entity_handle_query_urls` */
  function HandleUrls(services: seq<Service>, handle: string): Result<seq<string>, RegistryError> {
    match RSplitOnce(handle, "-")
    case None => Failure(InvalidBootstrapInput)
    case Some((_, tag)) => TagUrls(services, tag)
  }

  lemma SameTagHandle(a: string, b: string)
    ensures TagHandle(a) == TagHandle(b) <==> ToAsciiUpper(a) == ToAsciiUpper(b)
  {
    assert TagHandle(a)[1..] == ToAsciiUpper(a) && TagHandle(b)[1..] == ToAsciiUpper(b);
  }

  lemma FirstTagIsListed(parse: NetworkParser, s: Service, tag: string)
    requires ServiceTemplate(ObjectTags, parse, s).Some? && FirstTagIs(s, tag)
    ensures Lists(ObjectTags, parse, s, EntityHandle(TagHandle(tag)))
  {
    SameTagHandle(s[1][0], tag);
  }

  /** A service before which, and in which, every service has a tag, and whose first tag is the given one. */
  predicate Reachable(services: seq<Service>, tag: string, i: nat) {
    i < |services| && FirstTagIs(services[i], tag) && forall j :: 0 <= j < i ==> HasTag(services[j])
  }

  ghost predicate KnownToClient(services: seq<Service>, tag: string) {
    exists i: nat :: Reachable(services, tag, i)
  }

  /** The client knows a server for a tag if and only if it gets to a service that has it as its first tag. */
  lemma TagClientKnowsExactly(services: seq<Service>, tag: string) returns (k: nat)
    ensures TagUrls(services, tag).Success? <==> KnownToClient(services, tag)
    ensures TagUrls(services, tag).Success? ==>
      k < |services| && services[k] != [] && FirstTagIs(services[k], tag) && TagUrls(services, tag) == Success(Last(services[k]))
  {
    k := FirstTaggedDecides(services, tag);
    if TagUrls(services, tag).Success? {
      assert Reachable(services, tag, k);
    }
    if KnownToClient(services, tag) {
      var i: nat :| Reachable(services, tag, i);
      assert k <= i && k < |services|;
      assert k < i ==> HasTag(services[k]);
    }
  }

  /** No file of the directory writes the key. */
  ghost predicate Unwritten(files: Directory, k: Key) {
    forall f :: f in files ==> !Writes(files, f, k)
  }

  lemma UnwrittenIsAbsent(files: Directory, order: seq<string>, k: Key)
    requires IsListing(files, order) && Snapshot(files, order).Success? && Unwritten(files, k)
    ensures k !in Reloaded(files, order)
  {
    SnapshotKeys(files, order, k);
  }

  /** In every order the server redirects a query for the handle to where the client asks. */
  ghost predicate HandleAgrees(files: Directory, handle: string, urls: seq<string>, encode: string -> string) {
    forall order :: IsListing(files, order) ==>
      TargetOf(EntityByHandle(Reloaded(files, order), true, handle)) == ClientAddress(urls, "entity", handle, encode)
  }

  /** The server's answer for a handle that is not itself stored, in any order. */
  lemma TagAnswer(
    files: Directory, parse: NetworkParser, fetch: Fetch, order: seq<string>, handle: string, tag: string, other: seq<string>)
    requires Refreshed(files, ObjectTags, parse, fetch, order, EntityHandle(TagHandle(tag)))
    requires RSplitOnce(handle, "-").Some? && RSplitOnce(handle, "-").value.1 == tag
    requires Unwritten(AfterRefresh(files, ObjectTags, parse, fetch), EntityHandle(handle))
    requires IsListing(AfterRefresh(files, ObjectTags, parse, fetch), other)
    ensures var visible, key := Reloaded(AfterRefresh(files, ObjectTags, parse, fetch), other), EntityHandle(TagHandle(tag));
      && (key in visible <==> IsListed(ObjectTags, parse, fetch.services, key))
      && EntityByHandle(visible, true, handle)
         == if key in visible then ToBootstrap(visible[key], "entity", handle) else NOT_FOUND
  {
    var key := EntityHandle(TagHandle(tag));
    AnyOrderLoads(files, ObjectTags, parse, fetch, order, key, other);
    UnwrittenIsAbsent(AfterRefresh(files, ObjectTags, parse, fetch), other, EntityHandle(handle));
    var num := KeyInAnyOrder(files, ObjectTags, parse, fetch, order, key, other);
  }

  /**
   Object tags, for a handle that is not itself stored: the server knows a redirect exactly for the tags
   that are listed; and when the client knows one too, they lead to the same address, in whatever order
   the directory is read, if and only if all services that list the tag have the client's URL, with one
   slash at its end.
   */
  lemma TagsAgreeExactly(
    files: Directory, parse: NetworkParser, fetch: Fetch, order: seq<string>, handle: string, tag: string,
    encode: string -> string)
    requires Refreshed(files, ObjectTags, parse, fetch, order, EntityHandle(TagHandle(tag)))
    requires RSplitOnce(handle, "-").Some? && RSplitOnce(handle, "-").value.1 == tag && encode(handle) == handle
    requires Unwritten(AfterRefresh(files, ObjectTags, parse, fetch), EntityHandle(handle))
    ensures var after, key := AfterRefresh(files, ObjectTags, parse, fetch), EntityHandle(TagHandle(tag));
      var urls := HandleUrls(fetch.services, handle);
      && (EntityByHandle(Reloaded(after, order), true, handle) == NOT_FOUND
          <==> !IsListed(ObjectTags, parse, fetch.services, key))
      && (urls.Success? ==>
            && IsListed(ObjectTags, parse, fetch.services, key)
            && (HandleAgrees(after, handle, urls.value, encode)
                <==> AllSend(ObjectTags, parse, fetch.services, key, OneSlash(urls.value))))
  {
    var after, key := AfterRefresh(files, ObjectTags, parse, fetch), EntityHandle(TagHandle(tag));
    TagAnswer(files, parse, fetch, order, handle, tag, order);
    NeverNotFound(files, parse, fetch, order, handle, tag);
    var k := TagClientKnowsExactly(fetch.services, tag);
    var urls := HandleUrls(fetch.services, handle);
    if urls.Success? {
      assert fetch.services[k] in fetch.services;
      FirstTagIsListed(parse, fetch.services[k], tag);
      ListedServiceHasUrls(ObjectTags, parse, fetch.services[k]);
      forall other | IsListing(after, other)
        ensures key in Reloaded(after, other)
        ensures EntityByHandle(Reloaded(after, other), true, handle) == ToBootstrap(Reloaded(after, other)[key], "entity", handle)
      {
        TagAnswer(files, parse, fetch, order, handle, tag, other);
      }
      AlwaysLeadsToExactly(files, ObjectTags, parse, fetch, order, key, "entity", handle, urls.value, encode);
      assert HandleAgrees(after, handle, urls.value, encode)
        <==> AlwaysLeadsTo(after, key, "entity", handle, urls.value, encode);
    }
  }

  lemma NeverNotFound(
    files: Directory, parse: NetworkParser, fetch: Fetch, order: seq<string>, handle: string, tag: string)
    requires Refreshed(files, ObjectTags, parse, fetch, order, EntityHandle(TagHandle(tag)))
    ensures var visible, key := Reloaded(AfterRefresh(files, ObjectTags, parse, fetch), order), EntityHandle(TagHandle(tag));
      key in visible ==> ToBootstrap(visible[key], "entity", handle) != NOT_FOUND
  {
    var num := KeyInAnyOrder(files, ObjectTags, parse, fetch, order, EntityHandle(TagHandle(tag)), order);
    if EntityHandle(TagHandle(tag)) in Reloaded(AfterRefresh(files, ObjectTags, parse, fetch), order) {
      RedirectAddress(ServiceUrl(fetch.services[num]), "entity", handle);
    }
  }

  /** The client gets to each listed tag. */
  ghost predicate AllTagsReached(services: seq<Service>) {
    forall s, j :: s in services && |s| == 3 && 0 <= j < |s[1]| ==> KnownToClient(services, s[1][j])
  }

  ghost predicate SameTagsKnown(parse: NetworkParser, services: seq<Service>)
    requires WellFormedServices(ObjectTags, parse, services)
  {
    forall tag :: TagUrls(services, tag).Success? <==> IsListed(ObjectTags, parse, services, EntityHandle(TagHandle(tag)))
  }

  /**
   The client knows a server for every tag that is listed, and so for every tag that the server knows, if
   and only if each listed tag is the first tag of a service that the client gets to.
   */
  lemma SameTagsKnownExactly(parse: NetworkParser, services: seq<Service>)
    requires WellFormedServices(ObjectTags, parse, services)
    ensures SameTagsKnown(parse, services)
       <==> AllTagsReached(services)
  {
    if SameTagsKnown(parse, services) {
      forall s, j | s in services && |s| == 3 && 0 <= j < |s[1]|
        ensures KnownToClient(services, s[1][j])
      {
        var num :| 0 <= num < |services| && services[num] == s;
        assert Lists(ObjectTags, parse, services[num], EntityHandle(TagHandle(s[1][j])));
        var k := TagClientKnowsExactly(services, s[1][j]);
      }
    }
    if AllTagsReached(services) {
      forall tag
        ensures TagUrls(services, tag).Success? <==> IsListed(ObjectTags, parse, services, EntityHandle(TagHandle(tag)))
      {
        KnownIfAllReachable(parse, services, tag);
      }
    }
  }

  lemma KnownIfAllReachable(parse: NetworkParser, services: seq<Service>, tag: string)
    requires WellFormedServices(ObjectTags, parse, services)
    requires AllTagsReached(services)
    ensures TagUrls(services, tag).Success? <==> IsListed(ObjectTags, parse, services, EntityHandle(TagHandle(tag)))
  {
    var k := TagClientKnowsExactly(services, tag);
    if TagUrls(services, tag).Success? {
      assert services[k] in services;
      FirstTagIsListed(parse, services[k], tag);
    }
    if IsListed(ObjectTags, parse, services, EntityHandle(TagHandle(tag))) {
      var num :| 0 <= num < |services| && services[num] in services
        && Lists(ObjectTags, parse, services[num], EntityHandle(TagHandle(tag)));
      var j :| 0 <= j < |services[num][1]| && TagHandle(services[num][1][j]) == TagHandle(tag);
      SameTagHandle(services[num][1][j], tag);
      assert KnownToClient(services, services[num][1][j]);
      var i: nat :| Reachable(services, services[num][1][j], i);
      assert Reachable(services, tag, i);
    }
  }

  /** A second tag of a service: listed, and unknown to the client. */
  lemma SecondTagUnknown(parse: NetworkParser, url: string)
    ensures var services: seq<Service> := [[["contact"], ["ARIN", "ARIN2"], [url]]];
      && TagUrls(services, "ARIN2") == Failure(NoBootstrapUrls)
      && WellFormedServices(ObjectTags, parse, services)
      && IsListed(ObjectTags, parse, services, EntityHandle(TagHandle("ARIN2")))
  {
    var s: Service := [["contact"], ["ARIN", "ARIN2"], [url]];
    OnePreferred(url);
    assert Last(s) == [url];
    assert ServiceTemplate(ObjectTags, parse, s).Some?;
    assert |ToAsciiUpper(s[1][0])| != |ToAsciiUpper("ARIN2")|;
    assert [s][1..] == [] && [s][0] == s && s in [s];
    assert TagHandle(s[1][1]) == TagHandle("ARIN2");
    assert Lists(ObjectTags, parse, [s][0], EntityHandle(TagHandle("ARIN2")));
  }

  // ---- networks ---------------------------------------------------------------------------

  /** `get_lpm` on the stored networks: the longest that contains the given one. */
  function LongestStored(visible: Contents, v4: bool, bits: Bits): Option<Bits>
    decreases |bits|
  {
    if NetworkPrefix(v4, bits) in visible then Some(bits)
    else if bits == [] then None
    else LongestStored(visible, v4, bits[..|bits| - 1])
  }

  /** `network_by_netid`; `parseId` parses an address or a network, which the address library does. */
  function NetworkByNetid(visible: Contents, bootstrap: bool, v4: bool, parseId: CidrParser, netid: string): Response {
    match parseId(netid)
    case None => BAD_REQUEST
    case Some(bits) =>
      var network :=
        match LongestStored(visible, v4, bits)
        case Some(p) => Lookup(visible, NetworkPrefix(v4, p))
        case None => NOT_FOUND;
      if bootstrap then ToBootstrap(network, "ip", netid) else network
  }

  lemma {:induction false} LongestStoredIsLongest(visible: Contents, v4: bool, bits: Bits)
    ensures var p := LongestStored(visible, v4, bits);
      && (p.Some? ==> p.value <= bits && NetworkPrefix(v4, p.value) in visible)
      && (forall q :: q <= bits && NetworkPrefix(v4, q) in visible ==> p.Some? && |q| <= |p.value|)
    decreases |bits|
  {
    if NetworkPrefix(v4, bits) !in visible && bits != [] {
      var front := bits[..|bits| - 1];
      LongestStoredIsLongest(visible, v4, front);
      forall q | q <= bits && NetworkPrefix(v4, q) in visible
        ensures q <= front
      {
        assert |q| == |bits| ==> q == bits;
      }
    }
  }

  lemma PrefixesByLength(p: Bits, q: Bits, bits: Bits)
    requires p <= bits && q <= bits && |p| == |q|
    ensures p == q
  {
  }

  function IpFamily(v4: bool): RegistryType {
    if v4 then Ipv4 else Ipv6
  }

  /** The client parses networks like the server, but only those of the family. */
  ghost predicate SameNetworks(v4: bool, parse: NetworkParser, cidr: CidrParser) {
    forall text :: cidr(text) == match parse(text)
                                 case Some(n) => if n.v4 == v4 then Some(n.prefix) else None
                                 case None => None
  }

  /** The route is that of a network of the service. */
  predicate FromService(r: Route<seq<string>>, s: Service, cidr: CidrParser) {
    s != [] && r.value == Last(s) && exists j :: 0 <= j < |s[0]| && cidr(s[0][j]) == Some(r.bits)
  }

  lemma {:induction false} CidrRoutesMembers(cidrs: seq<string>, urls: seq<string>, cidr: CidrParser, r: Route<seq<string>>)
    requires CidrRoutes(cidrs, urls, cidr).Success?
    ensures r in CidrRoutes(cidrs, urls, cidr).value
       <==> r.value == urls && exists j :: 0 <= j < |cidrs| && cidr(cidrs[j]) == Some(r.bits)
  {
    if cidrs != [] {
      var front := cidrs[..|cidrs| - 1];
      CidrRoutesMembers(front, urls, cidr, r);
      assert cidr(Last(cidrs)).Some?;
      assert forall j :: 0 <= j < |front| ==> front[j] == cidrs[j];
      assert cidrs[|front|] == Last(cidrs);
    }
  }

  lemma {:induction false} RoutesMembers(services: seq<Service>, cidr: CidrParser, r: Route<seq<string>>)
    requires Routes(services, cidr).Success?
    ensures r in Routes(services, cidr).value <==> exists s :: s in services && FromService(r, s, cidr)
  {
    if services != [] {
      var front, last := services[..|services| - 1], Last(services);
      RoutesMembers(front, cidr, r);
      CidrRoutesMembers(last[0], Last(last), cidr, r);
      assert forall s :: s in services <==> s in front || s == last;
      assert r in Routes(services, cidr).value <==> r in Routes(front, cidr).value || FromService(r, last, cidr);
    }
  }

  lemma RoutesAreListed(v4: bool, parse: NetworkParser, services: seq<Service>, cidr: CidrParser, p: Bits)
    requires SameNetworks(v4, parse, cidr) && WellFormedServices(IpFamily(v4), parse, services)
    requires Routes(services, cidr).Success?
    ensures IsListed(IpFamily(v4), parse, services, NetworkPrefix(v4, p))
       <==> exists r :: r in Routes(services, cidr).value && r.bits == p
  {
    var key := NetworkPrefix(v4, p);
    if IsListed(IpFamily(v4), parse, services, key) {
      var i :| 0 <= i < |services| && services[i] in services && Lists(IpFamily(v4), parse, services[i], key);
      var r := Route(p, Last(services[i]));
      ListsIsFromService(v4, parse, services[i], cidr, p);
      RoutesMembers(services, cidr, r);
      assert r in Routes(services, cidr).value && r.bits == p;
    }
    if r :| r in Routes(services, cidr).value && r.bits == p {
      RoutesMembers(services, cidr, r);
      var s :| s in services && FromService(r, s, cidr);
      ListsIsFromService(v4, parse, s, cidr, p);
      var i :| 0 <= i < |services| && services[i] == s;
      assert Lists(IpFamily(v4), parse, services[i], key);
    }
  }

  lemma ListsIsFromService(v4: bool, parse: NetworkParser, s: Service, cidr: CidrParser, p: Bits)
    requires SameNetworks(v4, parse, cidr) && ServiceTemplate(IpFamily(v4), parse, s).Some?
    ensures s != []
    ensures Lists(IpFamily(v4), parse, s, NetworkPrefix(v4, p)) <==> FromService(Route(p, Last(s)), s, cidr)
  {
    forall j | 0 <= j < |s[0]|
      ensures IsPrefix(parse(s[0][j]), v4, p) <==> cidr(s[0][j]) == Some(p)
    {
    }
  }

  /** The longest listed network that contains the given one. */
  ghost predicate IsLongestListed(v4: bool, parse: NetworkParser, services: seq<Service>, bits: Bits, p: Bits)
    requires WellFormedServices(IpFamily(v4), parse, services)
  {
    && p <= bits && IsListed(IpFamily(v4), parse, services, NetworkPrefix(v4, p))
    && forall q :: q <= bits && IsListed(IpFamily(v4), parse, services, NetworkPrefix(v4, q)) ==> |q| <= |p|
  }

  lemma {:induction false} CidrRoutesFailOtherwise(cidrs: seq<string>, urls: seq<string>, cidr: CidrParser)
    ensures CidrRoutes(cidrs, urls, cidr).Failure? ==> CidrRoutes(cidrs, urls, cidr).error != NoBootstrapUrls
  {
    if cidrs != [] {
      CidrRoutesFailOtherwise(cidrs[..|cidrs| - 1], urls, cidr);
    }
  }

  /** A registry that cannot be read is another error than a network that is not listed. */
  lemma {:induction false} RoutesFailOtherwise(services: seq<Service>, cidr: CidrParser)
    ensures Routes(services, cidr).Failure? ==> Routes(services, cidr).error != NoBootstrapUrls
  {
    if services != [] {
      RoutesFailOtherwise(services[..|services| - 1], cidr);
      if Last(services) != [] {
        CidrRoutesFailOtherwise(Last(services)[0], Last(Last(services)), cidr);
      }
    }
  }

  /** The client's URLs are those of a service listing the longest listed network that contains the given one. */
  lemma IpClientFindsLongest(
    v4: bool, parse: NetworkParser, services: seq<Service>, cidr: CidrParser, query: string, bits: Bits)
    returns (p: Bits)
    requires SameNetworks(v4, parse, cidr) && WellFormedServices(IpFamily(v4), parse, services)
    requires cidr(query) == Some(bits)
    ensures var urls := IpUrls(services, query, cidr);
      && (urls.Success? ==> IsLongestListed(v4, parse, services, bits, p)
                            && exists s :: s in services && s != [] && urls.value == Last(s))
      && (urls == Failure(NoBootstrapUrls) ==>
            forall q :: q <= bits ==> !IsListed(IpFamily(v4), parse, services, NetworkPrefix(v4, q)))
  {
    p := [];
    if Routes(services, cidr).Success? {
      var routes := Routes(services, cidr).value;
      var k := ScanKeepsLastLongest(routes, bits);
      forall q
        ensures IsListed(IpFamily(v4), parse, services, NetworkPrefix(v4, q)) <==> exists r :: r in routes && r.bits == q
      {
        RoutesAreListed(v4, parse, services, cidr, q);
      }
      if Scan(routes, bits).Some? {
        p := routes[k].bits;
        assert routes[k] in routes;
        RoutesMembers(services, cidr, routes[k]);
      }
    } else {
      RoutesFailOtherwise(services, cidr);
    }
  }

  /** In every order the server redirects a query for the network to where the client asks. */
  ghost predicate NetworkAgrees(
    files: Directory, v4: bool, parseId: CidrParser, netid: string, urls: seq<string>, encode: string -> string)
  {
    forall order :: IsListing(files, order) ==>
      TargetOf(NetworkByNetid(Reloaded(files, order), true, v4, parseId, netid)) == ClientAddress(urls, "ip", netid, encode)
  }

  /** Only the family writes networks that contain the given one. */
  ghost predicate NetworksRefreshed(
    files: Directory, v4: bool, parse: NetworkParser, fetch: Fetch, order: seq<string>, bits: Bits)
  {
    && IsListing(AfterRefresh(files, IpFamily(v4), parse, fetch), order)
    && forall q :: q <= bits ==> Refreshed(files, IpFamily(v4), parse, fetch, order, NetworkPrefix(v4, q))
  }

  lemma NetworksRefreshedAny(files: Directory, v4: bool, parse: NetworkParser, fetch: Fetch, order: seq<string>, bits: Bits)
    requires NetworksRefreshed(files, v4, parse, fetch, order, bits)
    ensures Refreshed(files, IpFamily(v4), parse, fetch, order, NetworkPrefix(v4, bits))
  {
    assert bits <= bits;
  }

  /** What is stored under networks containing the given one, in any order, is what is listed. */
  lemma StoredIsListed(
    files: Directory, v4: bool, parse: NetworkParser, fetch: Fetch, order: seq<string>, bits: Bits, other: seq<string>)
    requires NetworksRefreshed(files, v4, parse, fetch, order, bits)
    requires fetch.Fetched? && WellFormedServices(IpFamily(v4), parse, fetch.services)
    requires IsListing(AfterRefresh(files, IpFamily(v4), parse, fetch), other)
    ensures var visible := Reloaded(AfterRefresh(files, IpFamily(v4), parse, fetch), other);
      forall q :: q <= bits ==>
        (NetworkPrefix(v4, q) in visible <==> IsListed(IpFamily(v4), parse, fetch.services, NetworkPrefix(v4, q)))
  {
    forall q | q <= bits
      ensures NetworkPrefix(v4, q) in Reloaded(AfterRefresh(files, IpFamily(v4), parse, fetch), other)
         <==> IsListed(IpFamily(v4), parse, fetch.services, NetworkPrefix(v4, q))
    {
      var num := KeyInAnyOrder(files, IpFamily(v4), parse, fetch, order, NetworkPrefix(v4, q), other);
    }
  }

  lemma LongestStoredIsListed(
    files: Directory, v4: bool, parse: NetworkParser, fetch: Fetch, order: seq<string>, bits: Bits, other: seq<string>, p: Bits)
    requires NetworksRefreshed(files, v4, parse, fetch, order, bits)
    requires fetch.Fetched? && WellFormedServices(IpFamily(v4), parse, fetch.services)
    requires IsListing(AfterRefresh(files, IpFamily(v4), parse, fetch), other)
    requires IsLongestListed(v4, parse, fetch.services, bits, p)
    ensures LongestStored(Reloaded(AfterRefresh(files, IpFamily(v4), parse, fetch), other), v4, bits) == Some(p)
    ensures NetworkPrefix(v4, p) in Reloaded(AfterRefresh(files, IpFamily(v4), parse, fetch), other)
  {
    var visible := Reloaded(AfterRefresh(files, IpFamily(v4), parse, fetch), other);
    StoredIsListed(files, v4, parse, fetch, order, bits, other);
    LongestStoredIsLongest(visible, v4, bits);
    PrefixesByLength(p, LongestStored(visible, v4, bits).value, bits);
  }

  /**
   Networks: when the client knows a server for a network, it is that of the longest listed network that
   contains it; and the server sends to the same address, in whatever order its directory is read, if
   and only if all services that list that network have the client's URL, with one slash at its end. When
   nothing listed contains the network, the server finds nothing either.
   */
  lemma NetworksAgreeExactly(
    files: Directory, v4: bool, parse: NetworkParser, fetch: Fetch, order: seq<string>, cidr: CidrParser, query: string,
    parseId: CidrParser, netid: string, bits: Bits, encode: string -> string)
    returns (p: Bits)
    requires NetworksRefreshed(files, v4, parse, fetch, order, bits)
    requires fetch.Fetched? && WellFormedServices(IpFamily(v4), parse, fetch.services)
    requires SameNetworks(v4, parse, cidr) && cidr(query) == Some(bits) && parseId(netid) == Some(bits)
    requires encode(netid) == netid
    ensures var after, urls := AfterRefresh(files, IpFamily(v4), parse, fetch), IpUrls(fetch.services, query, cidr);
      && (urls == Failure(NoBootstrapUrls) ==>
            NetworkByNetid(Reloaded(after, order), true, v4, parseId, netid) == NOT_FOUND)
      && (urls.Success? ==>
            && IsLongestListed(v4, parse, fetch.services, bits, p)
            && (NetworkAgrees(after, v4, parseId, netid, urls.value, encode)
                <==> AllSend(IpFamily(v4), parse, fetch.services, NetworkPrefix(v4, p), OneSlash(urls.value))))
  {
    NetworksRefreshedAny(files, v4, parse, fetch, order, bits);
    var after, urls := AfterRefresh(files, IpFamily(v4), parse, fetch), IpUrls(fetch.services, query, cidr);
    p := IpClientFindsLongest(v4, parse, fetch.services, cidr, query, bits);
    if urls.Success? {
      NetworkFollowsStore(files, v4, parse, fetch, order, parseId, netid, bits, p, urls.value, encode);
    } else if urls == Failure(NoBootstrapUrls) {
      StoredIsListed(files, v4, parse, fetch, order, bits, order);
      LongestStoredIsLongest(Reloaded(after, order), v4, bits);
    }
  }

  lemma NetworkFollowsStore(
    files: Directory, v4: bool, parse: NetworkParser, fetch: Fetch, order: seq<string>,
    parseId: CidrParser, netid: string, bits: Bits, p: Bits, urls: seq<string>, encode: string -> string)
    requires NetworksRefreshed(files, v4, parse, fetch, order, bits)
    requires fetch.Fetched? && WellFormedServices(IpFamily(v4), parse, fetch.services)
    requires parseId(netid) == Some(bits) && encode(netid) == netid
    requires IsLongestListed(v4, parse, fetch.services, bits, p)
    requires exists s :: s in fetch.services && s != [] && urls == Last(s)
    ensures NetworkAgrees(AfterRefresh(files, IpFamily(v4), parse, fetch), v4, parseId, netid, urls, encode)
       <==> AllSend(IpFamily(v4), parse, fetch.services, NetworkPrefix(v4, p), OneSlash(urls))
  {
    var after, key := AfterRefresh(files, IpFamily(v4), parse, fetch), NetworkPrefix(v4, p);
    var s :| s in fetch.services && s != [] && urls == Last(s);
    ListedServiceHasUrls(IpFamily(v4), parse, s);
    forall other | IsListing(after, other)
      ensures key in Reloaded(after, other)
      ensures NetworkByNetid(Reloaded(after, other), true, v4, parseId, netid) == ToBootstrap(Reloaded(after, other)[key], "ip", netid)
    {
      LongestStoredIsListed(files, v4, parse, fetch, order, bits, other, p);
    }
    AlwaysLeadsToExactly(files, IpFamily(v4), parse, fetch, order, key, "ip", netid, urls, encode);
    assert NetworkAgrees(after, v4, parseId, netid, urls, encode) <==> AlwaysLeadsTo(after, key, "ip", netid, urls, encode);
  }
}
