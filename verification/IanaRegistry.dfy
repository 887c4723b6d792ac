/** The IANA bootstrap registries and the client's lookups in them (RFC 9224 sections 4 and 5). */
module IanaRegistry {
  import opened Wrappers
  import opened Sequences
  import opened Text

  datatype RegistryType = Dns | Asn | Ipv4 | Ipv6 | ObjectTags

  /** A service is a list of arrays: the first holds the entries, the last the URLs. */
  type Service = seq<seq<string>>

  datatype RegistryError =
    | EmptyService
    | EmptyUrlSet
    | InvalidBootstrapInput
    | NoBootstrapUrls
    | InvalidBootstrapService

  function Last<T>(xs: seq<T>): T
    requires xs != []
  {
    xs[|xs| - 1]
  }

  // ---- preferring HTTPS -------------------------------------------------------------------

  function FirstHttps(urls: seq<string>): Option<string> {
    if urls == [] then None
    else if StartsWith(urls[0], "https://") then Some(urls[0])
    else FirstHttps(urls[1..])
  }

  /** `get_preferred_url` of the client */
  function GetPreferredUrl(urls: seq<string>): Result<string, RegistryError> {
    if urls == [] then Failure(EmptyUrlSet)
    else
      match FirstHttps(urls)
      case Some(url) => Success(url)
      case None => Success(urls[0])
  }

  predicate IsHttps(url: string) {
    StartsWith(url, "https://")
  }

  ghost predicate IsFirstHttps(urls: seq<string>, i: nat) {
    i < |urls| && IsHttps(urls[i]) && forall j :: 0 <= j < i ==> !IsHttps(urls[j])
  }

  /**
   Of the URLs of a service the first that begins with `https://` is preferred, whatever stands before it,
   and without one the first of all; there is none only if there are no URLs.
   */
  lemma PreferredExactly(urls: seq<string>)
    ensures GetPreferredUrl(urls).Failure? <==> urls == []
    ensures forall i: nat :: IsFirstHttps(urls, i) ==> GetPreferredUrl(urls) == Success(urls[i])
    ensures urls != [] && (forall i :: 0 <= i < |urls| ==> !IsHttps(urls[i])) ==> GetPreferredUrl(urls) == Success(urls[0])
  {
    FirstHttpsExactly(urls);
  }

  lemma {:induction false} FirstHttpsExactly(urls: seq<string>)
    ensures forall i: nat :: IsFirstHttps(urls, i) ==> FirstHttps(urls) == Some(urls[i])
    ensures (forall i :: 0 <= i < |urls| ==> !IsHttps(urls[i])) ==> FirstHttps(urls) == None
  {
    if urls != [] && !IsHttps(urls[0]) {
      FirstHttpsExactly(urls[1..]);
      forall i: nat | IsFirstHttps(urls, i)
        ensures FirstHttps(urls) == Some(urls[i])
      {
        assert IsFirstHttps(urls[1..], i - 1) by {
          assert forall j :: 0 <= j < i - 1 ==> urls[1..][j] == urls[j + 1];
        }
      }
      assert forall i :: 0 <= i < |urls| - 1 ==> urls[1..][i] == urls[i + 1];
    }
  }

  // ---- domain names -----------------------------------------------------------------------

  /** One name of a service with the URLs of that service. */
  datatype Entry = Entry(name: string, urls: seq<string>)

  function ServiceEntries(service: Service): seq<Entry> {
    if service == [] then []
    else seq(|service[0]|, i requires 0 <= i < |service[0]| => Entry(service[0][i], Last(service)))
  }

  /** All entries of all services, in document order. */
  function Entries(services: seq<Service>): seq<Entry> {
    if services == [] then [] else Entries(services[..|services| - 1]) + ServiceEntries(Last(services))
  }

  ghost predicate Matches(e: Entry, ldh: string) {
    EndsWith(ldh, e.name)
  }

  /** The entry kept by a scan that replaces its match only by a strictly longer one. */
  ghost function LongestMatch(entries: seq<Entry>, ldh: string): Option<Entry> {
    if entries == [] then None
    else
      var best := LongestMatch(entries[..|entries| - 1], ldh);
      var e := Last(entries);
      if Matches(e, ldh) && (best.None? || Utf8Len(best.value.name) < Utf8Len(e.name)) then Some(e) else best
  }

  ghost function DnsUrls(services: seq<Service>, ldh: string): Result<seq<string>, RegistryError> {
    if [] in services then Failure(EmptyService)
    else
      match LongestMatch(Entries(services), ldh)
      case Some(e) => Success(e.urls)
      case None => Failure(NoBootstrapUrls)
  }

  /** The match so far, as the scan holds it. */
  ghost function AsPair(best: Option<Entry>): Option<(nat, seq<string>)> {
    match best
    case Some(e) => Some((Utf8Len(e.name), e.urls))
    case None => None
  }

  lemma LongestMatchStep(entries: seq<Entry>, e: Entry, ldh: string)
    ensures var best := AsPair(LongestMatch(entries, ldh));
      AsPair(LongestMatch(entries + [e], ldh))
      == if Matches(e, ldh) && (best.None? || best.value.0 < Utf8Len(e.name)) then Some((Utf8Len(e.name), e.urls)) else best
  {
    assert (entries + [e])[..|entries|] == entries;
  }

  lemma LongestMatchNext(before: seq<Entry>, own: seq<Entry>, j: nat, ldh: string)
    requires j < |own|
    ensures var best := AsPair(LongestMatch(before + own[..j], ldh));
      AsPair(LongestMatch(before + own[..j + 1], ldh))
      == if Matches(own[j], ldh) && (best.None? || best.value.0 < Utf8Len(own[j].name))
         then Some((Utf8Len(own[j].name), own[j].urls)) else best
  {
    assert own[..j + 1] == own[..j] + [own[j]];
    AppendAssociative(before, own[..j], [own[j]]);
    LongestMatchStep(before + own[..j], own[j], ldh);
  }

  /** The inner loop, over the names of one service. */
  method ScanService(service: Service, ldh: string, soFar: Option<(nat, seq<string>)>, ghost before: seq<Entry>)
    returns (longestMatch: Option<(nat, seq<string>)>)
    requires service != []
    requires soFar == AsPair(LongestMatch(before, ldh))
    ensures longestMatch == AsPair(LongestMatch(before + ServiceEntries(service), ldh))
  {
    longestMatch := soFar;
    var tlds := service[0];
    ghost var own := ServiceEntries(service);
    assert before + own[..0] == before;
    for j := 0 to |tlds|
      invariant longestMatch == AsPair(LongestMatch(before + own[..j], ldh))
    {
      var tld := tlds[j];
      LongestMatchNext(before, own, j, ldh);
      if EndsWith(ldh, tld) || tld == "" {
        var urls := Last(service);
        if longestMatch.None? {
          longestMatch := Some((Utf8Len(tld), urls));
        }
        if longestMatch.value.0 < Utf8Len(tld) {
          longestMatch := Some((Utf8Len(tld), urls));
        }
      }
    }
    assert own[..|tlds|] == own;
  }

  /** `get_dns_bootstrap_urls` */
  method GetDnsBootstrapUrls(services: seq<Service>, ldh: string) returns (r: Result<seq<string>, RegistryError>)
    ensures r == DnsUrls(services, ldh)
  {
    var longestMatch: Option<(nat, seq<string>)> := None;
    for i := 0 to |services|
      invariant [] !in services[..i]
      invariant longestMatch == AsPair(LongestMatch(Entries(services[..i]), ldh))
    {
      var service := services[i];
      if service == [] {
        return Failure(EmptyService);
      }
      assert services[..i + 1][..i] == services[..i] && Last(services[..i + 1]) == service;
      longestMatch := ScanService(service, ldh, longestMatch, Entries(services[..i]));
    }
    assert services[..|services|] == services;
    if longestMatch.None? {
      return Failure(NoBootstrapUrls);
    }
    return Success(longestMatch.value.1);
  }

  /** The entry at `k` is the first, in document order, among the longest that match. */
  ghost predicate IsFirstLongest(entries: seq<Entry>, ldh: string, k: nat) {
    && k < |entries|
    && Matches(entries[k], ldh)
    && (forall j :: 0 <= j < |entries| && Matches(entries[j], ldh) ==> |entries[j].name| <= |entries[k].name|)
    && (forall j :: 0 <= j < k && Matches(entries[j], ldh) ==> |entries[j].name| < |entries[k].name|)
  }

  /**
   The scan fails to match exactly when no entry is a suffix of the name, and otherwise keeps the
   first of the longest entries that are.
   */
  lemma {:induction false} LongestMatchIsFirstLongest(entries: seq<Entry>, ldh: string) returns (k: nat)
    ensures LongestMatch(entries, ldh).None? <==> forall e :: e in entries ==> !Matches(e, ldh)
    ensures LongestMatch(entries, ldh).Some?
      ==> IsFirstLongest(entries, ldh, k) && LongestMatch(entries, ldh) == Some(entries[k])
  {
    k := 0;
    if entries != [] {
      var front, e := entries[..|entries| - 1], Last(entries);
      k := LongestMatchIsFirstLongest(front, ldh);
      assert forall x :: x in entries <==> x in front || x == e;
      if LongestMatch(front, ldh).None? {
        if Matches(e, ldh) {
          FirstMatch(front, e, ldh);
          k := |front|;
        }
      } else if Matches(e, ldh) {
        SuffixLengthsAgree(ldh, front[k].name, e.name);
        LaterMatch(front, e, ldh, k);
        k := if |front[k].name| < |e.name| then |front| else k;
      } else {
        NoMatch(front, e, ldh, k);
      }
      assert entries == front + [e];
    }
  }

  lemma FirstMatch(front: seq<Entry>, e: Entry, ldh: string)
    requires (forall x :: x in front ==> !Matches(x, ldh)) && Matches(e, ldh)
    ensures IsFirstLongest(front + [e], ldh, |front|)
  {
  }

  lemma LaterMatch(front: seq<Entry>, e: Entry, ldh: string, k: nat)
    requires IsFirstLongest(front, ldh, k) && Matches(e, ldh)
    ensures IsFirstLongest(front + [e], ldh, if |front[k].name| < |e.name| then |front| else k)
  {
  }

  lemma NoMatch(front: seq<Entry>, e: Entry, ldh: string, k: nat)
    requires IsFirstLongest(front, ldh, k) && !Matches(e, ldh)
    ensures IsFirstLongest(front + [e], ldh, k)
  {
  }

  /**
   The answer to a name: empty-service if some service has no arrays, whatever else matches; no-URLs if no
   entry is a suffix of the name; and else the URLs of the first of the longest that are.
   */
  lemma DnsAnswerExactly(services: seq<Service>, ldh: string) returns (k: nat)
    ensures [] in services ==> DnsUrls(services, ldh) == Failure(EmptyService)
    ensures [] !in services && (forall e :: e in Entries(services) ==> !EndsWith(ldh, e.name)) ==>
      DnsUrls(services, ldh) == Failure(NoBootstrapUrls)
    ensures [] !in services && (exists e :: e in Entries(services) && EndsWith(ldh, e.name)) ==>
      IsFirstLongest(Entries(services), ldh, k) && DnsUrls(services, ldh) == Success(Entries(services)[k].urls)
  {
    k := LongestMatchIsFirstLongest(Entries(services), ldh);
    assert forall e :: e in Entries(services) ==> (Matches(e, ldh) <==> EndsWith(ldh, e.name));
  }
}
