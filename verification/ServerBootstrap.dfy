/**
 Turning the bootstrap registries into redirect templates in the data directory of the server. A
 refresh of one registry deletes the templates of the previous one and writes the new ones.
 */
module ServerBootstrap {
  import opened Wrappers
  import opened Sequences
  import opened Text
  import opened IanaRegistry
  import opened Responses
  import opened Storage

  const IANA_CACHE_SUFFIX := ".iana_cache"
  const UPDATE := "update"
  const RELOAD := "reload"

  function Prefix(family: RegistryType): string {
    match family
    case Dns => "bootstrap_dns"
    case Asn => "bootstrap_asn"
    case Ipv4 => "bootstrap_ipv4"
    case Ipv6 => "bootstrap_ipv6"
    case ObjectTags => "bootstrap_objtag"
  }

  /** The last part of the URL of the registry. */
  function RegistryFileName(family: RegistryType): string {
    match family
    case Dns => "dns.json"
    case Asn => "asn.json"
    case Ipv4 => "ipv4.json"
    case Ipv6 => "ipv6.json"
    case ObjectTags => "object-tags.json"
  }

  function CacheName(family: RegistryType): string {
    RegistryFileName(family) + IANA_CACHE_SUFFIX
  }

  /** The files of each family: its cache, and its templates by number. */
  lemma FileNames(num: nat)
    ensures CacheName(Dns) == "dns.json.iana_cache" && CacheName(Asn) == "asn.json.iana_cache"
    ensures CacheName(Ipv4) == "ipv4.json.iana_cache" && CacheName(Ipv6) == "ipv6.json.iana_cache"
    ensures CacheName(ObjectTags) == "object-tags.json.iana_cache"
    ensures TemplateName(Dns, num) == "bootstrap_dns" + "_" + Decimal(num) + ".template"
    ensures TemplateName(Asn, num) == "bootstrap_asn" + "_" + Decimal(num) + ".template"
    ensures TemplateName(Ipv4, num) == "bootstrap_ipv4" + "_" + Decimal(num) + ".template"
    ensures TemplateName(Ipv6, num) == "bootstrap_ipv6" + "_" + Decimal(num) + ".template"
    ensures TemplateName(ObjectTags, num) == "bootstrap_objtag" + "_" + Decimal(num) + ".template"
  {
  }

  // ---- templates --------------------------------------------------------------------------

  function WithSlash(url: string): string {
    if EndsWith(url, "/") then url else url + "/"
  }

  /** `get_preferred_url` of the server, which makes sure that the URL ends with a slash. */
  function PreferredUrl(urls: seq<string>): Option<string> {
    match GetPreferredUrl(urls)
    case Success(url) => Some(WithSlash(url))
    case Failure(_) => None
  }

  function AutnumRange(range: string): Option<AutnumId> {
    var parts := Split(range, '-');
    match (ParseU32(parts[0]), ParseU32(Last(parts)))
    case (Some(start), Some(end)) => Some(AutnumId(start, end))
    case _ => None
  }

  /** Every element parsed, or none when one of them does not parse. */
  function ParseAll<T>(parse: string -> Option<T>, texts: seq<string>): Option<seq<T>> {
    if texts == [] then Some([])
    else
      match (parse(texts[0]), ParseAll(parse, texts[1..]))
      case (Some(first), Some(rest)) => Some([first] + rest)
      case _ => None
  }

  /** The handle under which the redirect for an object tag is stored. */
  function TagHandle(tag: string): string {
    "-" + ToAsciiUpper(tag)
  }

  /** Parsing a network in CIDR notation, which the address library does. */
  type NetworkParser = string -> Option<NetworkId>

  function RangeFn(): string -> Option<AutnumId> {
    (range: string) => AutnumRange(range)
  }

  function DomainIdFn(): string -> DomainId {
    (name: string) => DomainId(name, None)
  }

  function TagIdFn(): string -> EntityId {
    (tag: string) => EntityId(TagHandle(tag))
  }

  /** The template for one service, or none when the service is malformed. */
  function ServiceTemplate(family: RegistryType, parse: NetworkParser, service: Service): Option<Template> {
    if service == [] || (family.ObjectTags? && |service| != 3) || PreferredUrl(Last(service)).None? then None
    else
      var redirect := NewRedirect(PreferredUrl(Last(service)).value);
      match family
      case Dns => Some(DomainTemplate(AnError(redirect), Map(DomainIdFn(), service[0])))
      case Asn => (
        match ParseAll(RangeFn(), service[0])
        case Some(ids) => Some(AutnumTemplate(AnError(redirect), ids))
        case None => None
      )
      case ObjectTags => Some(EntityTemplate(AnError(redirect), Map(TagIdFn(), service[1])))
      case _ => (
        match ParseAll(parse, service[0])
        case Some(ids) => Some(NetworkTemplate(AnError(redirect), ids))
        case None => None
      )
  }

  function TemplateName(family: RegistryType, num: nat): string {
    Prefix(family) + "_" + Decimal(num) + ".template"
  }

  // ---- the directory ----------------------------------------------------------------------

  predicate Owned(family: RegistryType, name: string) {
    StartsWith(name, Prefix(family))
  }

  /** The files that do not belong to the family. */
  function Without(files: Directory, family: RegistryType): Directory {
    map name | name in files && !Owned(family, name) :: files[name]
  }

  /** The files, without those of the family that are listed. */
  function Removed(files: Directory, family: RegistryType, listed: seq<string>): Directory {
    map name | name in files && !(Owned(family, name) && name in listed) :: files[name]
  }

  lemma RemovedStep(files: Directory, family: RegistryType, listed: seq<string>, name: string)
    ensures Removed(files, family, listed + [name])
         == if Owned(family, name) then Removed(files, family, listed) - {name} else Removed(files, family, listed)
  {
    assert forall other :: other in listed + [name] <==> other in listed || other == name;
  }

  lemma RemovedAll(files: Directory, family: RegistryType, order: seq<string>)
    requires IsListing(files, order)
    ensures Removed(files, family, order) == Without(files, family)
  {
  }

  /** The templates of the first `n` services written over the files. */
  function WithTemplates(
    files: Directory, family: RegistryType, parse: NetworkParser, services: seq<Service>, n: nat): Directory
    requires n <= |services|
  {
    if n == 0 then files
    else
      var before := WithTemplates(files, family, parse, services, n - 1);
      match ServiceTemplate(family, parse, services[n - 1])
      case Some(template) => before[TemplateName(family, n - 1) := TemplateText(template)]
      case None => before
  }

  /** The index, from `n` on, of the first malformed service. */
  function FirstMalformed(family: RegistryType, parse: NetworkParser, services: seq<Service>, n: nat): (k: nat)
    requires n <= |services|
    ensures n <= k <= |services|
    decreases |services| - n
  {
    if n == |services| || ServiceTemplate(family, parse, services[n]).None? then n
    else FirstMalformed(family, parse, services, n + 1)
  }

  lemma {:induction false} MalformedStops(
    family: RegistryType, parse: NetworkParser, services: seq<Service>, n: nat, i: nat)
    requires n <= i < |services|
    ensures ServiceTemplate(family, parse, services[i]).None? ==> FirstMalformed(family, parse, services, n) <= i
    decreases i - n
  {
    if n < i {
      MalformedStops(family, parse, services, n + 1, i);
    }
  }

  lemma {:induction false} StopsAtMalformed(family: RegistryType, parse: NetworkParser, services: seq<Service>, n: nat)
    requires n <= |services|
    ensures var k := FirstMalformed(family, parse, services, n);
      k < |services| ==> ServiceTemplate(family, parse, services[k]).None?
    decreases |services| - n
  {
    if n < |services| && ServiceTemplate(family, parse, services[n]).Some? {
      StopsAtMalformed(family, parse, services, n + 1);
    }
  }

  lemma NoneMalformed(family: RegistryType, parse: NetworkParser, services: seq<Service>)
    ensures FirstMalformed(family, parse, services, 0) == |services| <==> WellFormedServices(family, parse, services)
  {
    StopsAtMalformed(family, parse, services, 0);
    forall s | s in services && ServiceTemplate(family, parse, s).None?
      ensures FirstMalformed(family, parse, services, 0) < |services|
    {
      var i :| 0 <= i < |services| && services[i] == s;
      MalformedStops(family, parse, services, 0, i);
    }
  }

  /** A range of numbers is two numbers with a dash between them, or one number; anything else is unreadable. */
  lemma RangeIsReadExactly(front: string, back: string)
    requires '-' !in front && '-' !in back
    ensures AutnumRange(front + "-" + back)
         == if ParseU32(front).Some? && ParseU32(back).Some?
            then Some(AutnumId(ParseU32(front).value, ParseU32(back).value)) else None
    ensures AutnumRange(front)
         == if ParseU32(front).Some? then Some(AutnumId(ParseU32(front).value, ParseU32(front).value)) else None
  {
    SplitFirst(front, back, '-');
    SplitWithout(front, '-');
    SplitWithout(back, '-');
  }

  /**
   A service of a registry is malformed if it has no arrays, or no URLs in its last one; and in the registry
   of numbers or of networks if some range or network cannot be read, and in that of tags if it has not
   three arrays.
   */
  lemma MalformedExactly(family: RegistryType, parse: NetworkParser, s: Service)
    ensures ServiceTemplate(family, parse, s).None?
       <==> || s == [] || Last(s) == []
            || (family.Asn? && exists i :: 0 <= i < |s[0]| && AutnumRange(s[0][i]).None?)
            || ((family.Ipv4? || family.Ipv6?) && exists i :: 0 <= i < |s[0]| && parse(s[0][i]).None?)
            || (family.ObjectTags? && |s| != 3)
  {
    if s != [] {
      ParseAllFailsExactly(RangeFn(), s[0]);
      ParseAllFailsExactly(parse, s[0]);
      assert forall i :: 0 <= i < |s[0]| ==> RangeFn()(s[0][i]) == AutnumRange(s[0][i]);
    }
  }

  lemma {:induction false} ParseAllFailsExactly<T>(parse: string -> Option<T>, texts: seq<string>)
    ensures ParseAll(parse, texts).None? <==> exists i :: 0 <= i < |texts| && parse(texts[i]).None?
  {
    if texts != [] {
      ParseAllFailsExactly(parse, texts[1..]);
      assert forall i :: 0 <= i < |texts| - 1 ==> texts[1..][i] == texts[i + 1];
      if parse(texts[0]).Some? && exists i :: 0 <= i < |texts| && parse(texts[i]).None? {
        var i :| 0 <= i < |texts| && parse(texts[i]).None?;
        assert parse(texts[1..][i - 1]).None?;
      }
    }
  }

  predicate WellFormedServices(family: RegistryType, parse: NetworkParser, services: seq<Service>) {
    forall s :: s in services ==> ServiceTemplate(family, parse, s).Some?
  }

  /** What asking for a registry gives: nothing new, new services with the text for the cache, or an error. */
  datatype Fetch = Fresh | Fetched(services: seq<Service>, cache: FileContent) | FetchFailed

  predicate Succeeds(family: RegistryType, parse: NetworkParser, fetch: Fetch) {
    match fetch
    case Fresh => true
    case Fetched(services, _) => WellFormedServices(family, parse, services)
    case FetchFailed => false
  }

  function AfterRefresh(files: Directory, family: RegistryType, parse: NetworkParser, fetch: Fetch): Directory {
    match fetch
    case Fetched(services, cache) =>
      WithTemplates(Without(files[CacheName(family) := cache], family), family, parse, services,
                    FirstMalformed(family, parse, services, 0))
    case _ => files
  }

  /** The file is there or not, and holds, as before. */
  predicate SameAt(files: Directory, after: Directory, name: string) {
    (name in after <==> name in files) && (name in files ==> after[name] == files[name])
  }

  lemma TemplateIsOwned(family: RegistryType, num: nat)
    ensures Owned(family, TemplateName(family, num))
  {
    assert TemplateName(family, num)[..|Prefix(family)|] == Prefix(family);
  }

  /** Templates of different services have different names. */
  lemma TemplateNamesDiffer(family: RegistryType, m: nat, n: nat)
    ensures TemplateName(family, m) == TemplateName(family, n) ==> m == n
  {
    var p := |Prefix(family)| + 1;
    var x, y := TemplateName(family, m), TemplateName(family, n);
    assert x[p..|x| - 9] == Decimal(m) && y[p..|y| - 9] == Decimal(n);
    DecimalInjective(m, n);
  }

  /** The five prefixes are prefix-free, so no name belongs to two families. */
  lemma FamiliesDisjoint(f: RegistryType, g: RegistryType, name: string)
    requires f != g && Owned(f, name)
    ensures !Owned(g, name)
  {
    assert Prefix(f) == name[..|Prefix(f)|];
    assert |Prefix(g)| <= |name| ==> |name[..|Prefix(g)|]| == |Prefix(g)|;
    assert f.Dns? ==> name[10] == 'd';
    assert f.Asn? ==> name[10] == 'a';
    assert f.Ipv4? ==> name[10] == 'i' && name[13] == '4';
    assert f.Ipv6? ==> name[10] == 'i' && name[13] == '6';
    assert f.ObjectTags? ==> name[10] == 'o';
  }

  /** The registry caches and the trigger files belong to no family. */
  lemma CachesNotOwned(f: RegistryType, g: RegistryType)
    ensures !Owned(f, CacheName(g)) && !Owned(f, UPDATE) && !Owned(f, RELOAD)
  {
    assert Prefix(f)[0] == 'b';
    assert CacheName(g)[0] == RegistryFileName(g)[0];
  }

  // ---- no residue -------------------------------------------------------------------------

  /** The name is that of one of the first `n` templates of the family. */
  predicate IsTemplate(family: RegistryType, n: nat, name: string) {
    exists num: nat | num < n :: name == TemplateName(family, num)
  }

  lemma IsTemplateStep(family: RegistryType, n: nat, name: string)
    requires n > 0
    ensures IsTemplate(family, n, name) <==> IsTemplate(family, n - 1, name) || name == TemplateName(family, n - 1)
  {
  }

  lemma OneMoreTemplate(files: Directory, family: RegistryType, parse: NetworkParser, services: seq<Service>, n: nat)
    returns (before: Directory, text: FileContent)
    requires 0 < n <= FirstMalformed(family, parse, services, 0)
    ensures before == WithTemplates(files, family, parse, services, n - 1)
    ensures ServiceTemplate(family, parse, services[n - 1]).Some?
    ensures text == TemplateText(ServiceTemplate(family, parse, services[n - 1]).value)
    ensures WithTemplates(files, family, parse, services, n) == before[TemplateName(family, n - 1) := text]
  {
    MalformedStops(family, parse, services, 0, n - 1);
    before := WithTemplates(files, family, parse, services, n - 1);
    text := TemplateText(ServiceTemplate(family, parse, services[n - 1]).value);
  }

  lemma {:induction false} TemplateOrOld(
    files: Directory, family: RegistryType, parse: NetworkParser, services: seq<Service>, n: nat, name: string)
    requires n <= FirstMalformed(family, parse, services, 0)
    ensures name in WithTemplates(files, family, parse, services, n) <==> name in files || IsTemplate(family, n, name)
    ensures !IsTemplate(family, n, name) && name in files
      ==> WithTemplates(files, family, parse, services, n)[name] == files[name]
  {
    if n > 0 {
      TemplateOrOld(files, family, parse, services, n - 1, name);
      IsTemplateStep(family, n, name);
      var before, text := OneMoreTemplate(files, family, parse, services, n);
    }
  }

  /** The file holds the template of the service. */
  predicate HoldsTemplate(files: Directory, name: string, template: Option<Template>) {
    template.Some? && name in files && files[name] == TemplateText(template.value)
  }

  lemma OtherTemplateStays(before: Directory, name: string, text: FileContent, other: string, template: Option<Template>)
    requires HoldsTemplate(before, other, template) && name != other
    ensures HoldsTemplate(before[name := text], other, template)
  {
  }

  lemma {:induction false} TemplateHolds(
    files: Directory, family: RegistryType, parse: NetworkParser, services: seq<Service>, n: nat, num: nat)
    requires num < n <= FirstMalformed(family, parse, services, 0)
    ensures HoldsTemplate(WithTemplates(files, family, parse, services, n), TemplateName(family, num),
                          ServiceTemplate(family, parse, services[num]))
  {
    var before, text := OneMoreTemplate(files, family, parse, services, n);
    if num < n - 1 {
      TemplateHolds(files, family, parse, services, n - 1, num);
      TemplateNamesDiffer(family, num, n - 1);
      OtherTemplateStays(before, TemplateName(family, n - 1), text, TemplateName(family, num),
                         ServiceTemplate(family, parse, services[num]));
    }
  }

  /** The templates of the services are written, with their own content, and nothing else changes. */
  lemma TemplatesWritten(
    files: Directory, family: RegistryType, parse: NetworkParser, services: seq<Service>, n: nat, name: string)
    requires n <= FirstMalformed(family, parse, services, 0)
    ensures name in WithTemplates(files, family, parse, services, n)
       <==> name in files || exists num: nat | num < n :: name == TemplateName(family, num)
    ensures forall num: nat | num < n ::
      HoldsTemplate(WithTemplates(files, family, parse, services, n), TemplateName(family, num),
                    ServiceTemplate(family, parse, services[num]))
    ensures (forall num: nat | num < n :: name != TemplateName(family, num)) && name in files
      ==> WithTemplates(files, family, parse, services, n)[name] == files[name]
  {
    TemplateOrOld(files, family, parse, services, n, name);
    forall num: nat | num < n
      ensures HoldsTemplate(WithTemplates(files, family, parse, services, n), TemplateName(family, num),
                            ServiceTemplate(family, parse, services[num]))
    {
      TemplateHolds(files, family, parse, services, n, num);
    }
  }

  /**
   After a refresh, error-free or not, the files of the family are exactly the templates of the
   services before the first malformed one, whatever was there before; the cache is the new one and
   every other file is as it was.
   */
  lemma RefreshLeavesExactly(files: Directory, family: RegistryType, parse: NetworkParser, fetch: Fetch, name: string)
    requires fetch.Fetched?
    ensures var after, services := AfterRefresh(files, family, parse, fetch), fetch.services;
      var n := FirstMalformed(family, parse, services, 0);
      && (Owned(family, name) ==> (name in after <==> IsTemplate(family, n, name)))
      && (forall num: nat | num < n ::
            HoldsTemplate(after, TemplateName(family, num), ServiceTemplate(family, parse, services[num])))
      && CacheName(family) in after && after[CacheName(family)] == fetch.cache
      && (!Owned(family, name) && name != CacheName(family) ==> SameAt(files, after, name))
  {
    var services := fetch.services;
    var n := FirstMalformed(family, parse, services, 0);
    var cleared := Without(files[CacheName(family) := fetch.cache], family);
    TemplatesWritten(cleared, family, parse, services, n, name);
    TemplatesWritten(cleared, family, parse, services, n, CacheName(family));
    CachesNotOwned(family, family);
    forall num: nat | num < n
      ensures Owned(family, TemplateName(family, num))
    {
      TemplateIsOwned(family, num);
    }
  }

  /** Every service fetched has its template in the directory. */
  ghost predicate Complete(after: Directory, family: RegistryType, parse: NetworkParser, services: seq<Service>) {
    forall num: nat | num < |services| ::
      HoldsTemplate(after, TemplateName(family, num), ServiceTemplate(family, parse, services[num]))
  }

  /** A refresh makes the family complete if and only if no service is malformed. */
  lemma RefreshIsCompleteExactly(files: Directory, family: RegistryType, parse: NetworkParser, fetch: Fetch)
    requires fetch.Fetched?
    ensures Complete(AfterRefresh(files, family, parse, fetch), family, parse, fetch.services)
       <==> WellFormedServices(family, parse, fetch.services)
  {
    RefreshLeavesExactly(files, family, parse, fetch, "");
    NoneMalformed(family, parse, fetch.services);
    StopsAtMalformed(family, parse, fetch.services, 0);
  }

  /** After an error-free refresh the files of the family are exactly the templates of the new services. */
  lemma NoResidue(files: Directory, family: RegistryType, parse: NetworkParser, fetch: Fetch, name: string)
    requires fetch.Fetched? && Succeeds(family, parse, fetch)
    ensures var after := AfterRefresh(files, family, parse, fetch);
      && (Owned(family, name) ==> (name in after <==> IsTemplate(family, |fetch.services|, name)))
      && Complete(after, family, parse, fetch.services)
      && CacheName(family) in after && after[CacheName(family)] == fetch.cache
      && (!Owned(family, name) && name != CacheName(family) ==> SameAt(files, after, name))
  {
    NoneMalformed(family, parse, fetch.services);
    RefreshLeavesExactly(files, family, parse, fetch, name);
  }

  /** A refresh of one family leaves the templates and the cache of another, and both triggers, alone. */
  lemma RefreshIsLocal(
    files: Directory, family: RegistryType, parse: NetworkParser, fetch: Fetch, other: RegistryType, name: string)
    requires (other != family && (Owned(other, name) || name == CacheName(other))) || name == UPDATE || name == RELOAD
    ensures SameAt(files, AfterRefresh(files, family, parse, fetch), name)
  {
    if fetch.Fetched? {
      RefreshLeavesExactly(files, family, parse, fetch, name);
      if other != family && Owned(other, name) {
        FamiliesDisjoint(other, family, name);
      }
      CachesNotOwned(family, other);
      CachesNotOwned(other, family);
      CacheNamesDiffer(family, other);
    }
  }

  lemma CacheNamesDiffer(f: RegistryType, g: RegistryType)
    ensures CacheName(f) == CacheName(g) ==> f == g
    ensures CacheName(f) != UPDATE && CacheName(f) != RELOAD
  {
    assert |CacheName(f)| == |RegistryFileName(f)| + 11 && |CacheName(g)| == |RegistryFileName(g)| + 11;
    assert CacheName(f)[0] == RegistryFileName(f)[0] && CacheName(g)[0] == RegistryFileName(g)[0];
    assert CacheName(f)[3] == RegistryFileName(f)[3] && CacheName(g)[3] == RegistryFileName(g)[3];
  }
}
