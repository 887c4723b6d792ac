/**
 Longest-prefix lookup of an address. The client indexes the registry in a prefix map; the map here
 is a bit trie of our own, with the overwrite-on-insert behaviour of the library's.
 */
module PrefixIndex {
  import opened Wrappers
  import opened IanaRegistry

  /** A network: the leading bits that its addresses share, whatever the width of an address. */
  type Bits = seq<bool>

  datatype Trie<+V> = Empty | Node(value: Option<V>, zero: Trie<V>, one: Trie<V>)

  function Insert<V>(t: Trie<V>, bits: Bits, value: V): Trie<V>
    decreases |bits|
  {
    var node := if t.Empty? then Node(None, Empty, Empty) else t;
    if bits == [] then node.(value := Some(value))
    else if bits[0] then node.(one := Insert(node.one, bits[1..], value))
    else node.(zero := Insert(node.zero, bits[1..], value))
  }

  /** A match: the length of the prefix and what is stored under it. */
  datatype Match<+V> = Match(length: nat, value: V)

  /** `PrefixMap::get_lpm` */
  function LongestPrefix<V>(t: Trie<V>, query: Bits): Option<Match<V>>
    decreases |query|
  {
    if t.Empty? then None
    else
      var here := if t.value.Some? then Some(Match(0, t.value.value)) else None;
      if query == [] then here
      else
        match LongestPrefix(if query[0] then t.one else t.zero, query[1..])
        case Some(m) => Some(Match(m.length + 1, m.value))
        case None => here
  }

  // ---- the flat scan that the index stands for --------------------------------------------

  datatype Route<+V> = Route(bits: Bits, value: V)

  /** The match kept by a scan that replaces it by any match that is at least as long. */
  function Scan<V>(routes: seq<Route<V>>, query: Bits): Option<Match<V>> {
    if routes == [] then None
    else
      var best := Scan(routes[..|routes| - 1], query);
      var r := Last(routes);
      if r.bits <= query && (best.None? || best.value.length <= |r.bits|) then Some(Match(|r.bits|, r.value)) else best
  }

  function InsertAll<V>(routes: seq<Route<V>>): Trie<V> {
    if routes == [] then Empty
    else Insert(InsertAll(routes[..|routes| - 1]), Last(routes).bits, Last(routes).value)
  }

  /** What an insertion does to a lookup. */
  lemma {:induction false} LookupAfterInsert<V>(t: Trie<V>, bits: Bits, value: V, query: Bits)
    ensures LongestPrefix(Insert(t, bits, value), query)
         == var before := LongestPrefix(t, query);
            if bits <= query && (before.None? || before.value.length <= |bits|) then Some(Match(|bits|, value)) else before
    decreases |bits|
  {
    var node := if t.Empty? then Node(None, Empty, Empty) else t;
    if bits != [] && query != [] {
      assert bits <= query <==> bits[0] == query[0] && bits[1..] <= query[1..] by {
        assert bits == [bits[0]] + bits[1..] && query == [query[0]] + query[1..];
      }
      LookupAfterInsert(if bits[0] then node.one else node.zero, bits[1..], value, query[1..]);
    }
  }

  /** The index answers like the flat scan. */
  lemma {:induction false} IndexRefinesScan<V>(routes: seq<Route<V>>, query: Bits)
    ensures LongestPrefix(InsertAll(routes), query) == Scan(routes, query)
  {
    if routes != [] {
      IndexRefinesScan(routes[..|routes| - 1], query);
      LookupAfterInsert(InsertAll(routes[..|routes| - 1]), Last(routes).bits, Last(routes).value, query);
    }
  }

  ghost predicate IsLastLongest<V>(routes: seq<Route<V>>, query: Bits, k: nat) {
    && k < |routes|
    && routes[k].bits <= query
    && (forall j :: 0 <= j < |routes| && routes[j].bits <= query ==> |routes[j].bits| <= |routes[k].bits|)
    && (forall j :: k < j < |routes| && routes[j].bits <= query ==> |routes[j].bits| < |routes[k].bits|)
  }

  /** The scan keeps the last of the longest networks that contain the queried one, if any does. */
  lemma {:induction false} ScanKeepsLastLongest<V>(routes: seq<Route<V>>, query: Bits) returns (k: nat)
    ensures Scan(routes, query).None? <==> forall r :: r in routes ==> !(r.bits <= query)
    ensures Scan(routes, query).Some?
      ==> IsLastLongest(routes, query, k) && Scan(routes, query) == Some(Match(|routes[k].bits|, routes[k].value))
  {
    k := 0;
    if routes != [] {
      var front, r := routes[..|routes| - 1], Last(routes);
      k := ScanKeepsLastLongest(front, query);
      assert forall x :: x in routes <==> x in front || x == r;
      assert forall j :: 0 <= j < |front| ==> routes[j] == front[j];
      if r.bits <= query && (Scan(front, query).None? || Scan(front, query).value.length <= |r.bits|) {
        k := |front|;
      }
    }
  }

  // ---- the client's lookup ----------------------------------------------------------------

  /** Parsing a network, which the address library does; none is text it rejects. */
  type CidrParser = string -> Option<Bits>

  function CidrRoutes(cidrs: seq<string>, urls: seq<string>, parse: CidrParser): Result<seq<Route<seq<string>>>, RegistryError> {
    if cidrs == [] then Success([])
    else
      match CidrRoutes(cidrs[..|cidrs| - 1], urls, parse)
      case Failure(e) => Failure(e)
      case Success(front) =>
        match parse(Last(cidrs))
        case Some(bits) => Success(front + [Route(bits, urls)])
        case None => Failure(InvalidBootstrapService)
  }

  /** The networks of all services in document order, or what is wrong with the first bad service. */
  function Routes(services: seq<Service>, parse: CidrParser): Result<seq<Route<seq<string>>>, RegistryError> {
    if services == [] then Success([])
    else
      match Routes(services[..|services| - 1], parse)
      case Failure(e) => Failure(e)
      case Success(front) =>
        if Last(services) == [] then Failure(EmptyService)
        else
          match CidrRoutes(Last(services)[0], Last(Last(services)), parse)
          case Failure(e) => Failure(e)
          case Success(own) => Success(front + own)
  }

  function IpUrls(services: seq<Service>, query: string, parse: CidrParser): Result<seq<string>, RegistryError> {
    match Routes(services, parse)
    case Failure(e) => Failure(e)
    case Success(routes) =>
      match parse(query)
      case None => Failure(InvalidBootstrapInput)
      case Some(bits) =>
        match Scan(routes, bits)
        case Some(m) => Success(m.value)
        case None => Failure(NoBootstrapUrls)
  }

  /** A service without arrays, or with a network that cannot be read. */
  ghost predicate IsBad(service: Service, parse: CidrParser) {
    service == [] || exists j :: 0 <= j < |service[0]| && parse(service[0][j]).None?
  }

  lemma {:induction false} CidrRoutesFailExactly(cidrs: seq<string>, urls: seq<string>, parse: CidrParser)
    ensures CidrRoutes(cidrs, urls, parse).Failure? <==> exists j :: 0 <= j < |cidrs| && parse(cidrs[j]).None?
    ensures CidrRoutes(cidrs, urls, parse).Failure? ==> CidrRoutes(cidrs, urls, parse) == Failure(InvalidBootstrapService)
  {
    if cidrs != [] {
      var front := cidrs[..|cidrs| - 1];
      CidrRoutesFailExactly(front, urls, parse);
      assert forall j :: 0 <= j < |front| ==> front[j] == cidrs[j];
      assert Last(cidrs) == cidrs[|front|];
    }
  }

  /** The first bad service is what a registry fails with. */
  lemma {:induction false} RoutesFailExactly(services: seq<Service>, parse: CidrParser) returns (i: nat)
    ensures Routes(services, parse).Success? <==> forall k :: 0 <= k < |services| ==> !IsBad(services[k], parse)
    ensures Routes(services, parse).Failure? ==>
      && i < |services| && IsBad(services[i], parse) && (forall k :: 0 <= k < i ==> !IsBad(services[k], parse))
      && Routes(services, parse).error == if services[i] == [] then EmptyService else InvalidBootstrapService
  {
    i := 0;
    if services != [] {
      var front, last := services[..|services| - 1], Last(services);
      i := RoutesFailExactly(front, parse);
      assert forall k :: 0 <= k < |front| ==> front[k] == services[k];
      assert last == services[|front|];
      if last != [] {
        CidrRoutesFailExactly(last[0], Last(last), parse);
      }
      if Routes(front, parse).Success? {
        i := |front|;
      }
    }
  }

  /**
   The answer to a query: the error of the first bad service, if there is one, before any other; then the
   query must be a network; and then the last of the longest networks containing it gives its URLs.
   */
  lemma IpAnswerExactly(services: seq<Service>, query: string, parse: CidrParser) returns (k: nat)
    ensures (exists i :: 0 <= i < |services| && IsBad(services[i], parse)) <==> Routes(services, parse).Failure?
    ensures Routes(services, parse).Failure? ==> IpUrls(services, query, parse) == Failure(Routes(services, parse).error)
    ensures Routes(services, parse).Success? && parse(query).None? ==> IpUrls(services, query, parse) == Failure(InvalidBootstrapInput)
    ensures Routes(services, parse).Success? && parse(query).Some? ==>
      var routes, bits := Routes(services, parse).value, parse(query).value;
      if exists r :: r in routes && r.bits <= bits
      then IsLastLongest(routes, bits, k) && IpUrls(services, query, parse) == Success(routes[k].value)
      else IpUrls(services, query, parse) == Failure(NoBootstrapUrls)
  {
    var i := RoutesFailExactly(services, parse);
    k := 0;
    if Routes(services, parse).Success? && parse(query).Some? {
      k := ScanKeepsLastLongest(Routes(services, parse).value, parse(query).value);
    }
  }

  lemma {:induction false} InsertAllAppend<V>(routes: seq<Route<V>>, r: Route<V>)
    ensures InsertAll(routes + [r]) == Insert(InsertAll(routes), r.bits, r.value)
  {
    assert (routes + [r])[..|routes|] == routes;
  }

  lemma {:induction false} CidrFailureStays(cidrs: seq<string>, urls: seq<string>, parse: CidrParser, j: nat)
    requires j <= |cidrs| && CidrRoutes(cidrs[..j], urls, parse).Failure?
    ensures CidrRoutes(cidrs, urls, parse) == CidrRoutes(cidrs[..j], urls, parse)
    decreases |cidrs|
  {
    if j == |cidrs| {
      assert cidrs[..j] == cidrs;
    } else {
      assert cidrs[..|cidrs| - 1][..j] == cidrs[..j];
      CidrFailureStays(cidrs[..|cidrs| - 1], urls, parse, j);
    }
  }

  lemma {:induction false} RoutesFailureStays(services: seq<Service>, parse: CidrParser, i: nat)
    requires i <= |services| && Routes(services[..i], parse).Failure?
    ensures Routes(services, parse) == Routes(services[..i], parse)
    decreases |services|
  {
    if i == |services| {
      assert services[..i] == services;
    } else {
      assert services[..|services| - 1][..i] == services[..i];
      RoutesFailureStays(services[..|services| - 1], parse, i);
    }
  }

  /** One service, inserted network by network. */
  method InsertService(pm: Trie<seq<string>>, cidrs: seq<string>, urls: seq<string>, parse: CidrParser,
                       ghost routes: seq<Route<seq<string>>>)
    returns (r: Result<Trie<seq<string>>, RegistryError>)
    requires pm == InsertAll(routes)
    ensures CidrRoutes(cidrs, urls, parse).Failure? ==> r == Failure(CidrRoutes(cidrs, urls, parse).error)
    ensures CidrRoutes(cidrs, urls, parse).Success?
      ==> r == Success(InsertAll(routes + CidrRoutes(cidrs, urls, parse).value))
  {
    var index := pm;
    assert cidrs[..0] == [] && routes + [] == routes;
    for j := 0 to |cidrs|
      invariant CidrRoutes(cidrs[..j], urls, parse).Success?
      invariant index == InsertAll(routes + CidrRoutes(cidrs[..j], urls, parse).value)
    {
      assert cidrs[..j + 1][..j] == cidrs[..j] && Last(cidrs[..j + 1]) == cidrs[j];
      var net := parse(cidrs[j]);
      if net.None? {
        CidrFailureStays(cidrs, urls, parse, j + 1);
        return Failure(InvalidBootstrapService);
      }
      ghost var soFar := routes + CidrRoutes(cidrs[..j], urls, parse).value;
      index := Insert(index, net.value, urls);
      InsertAllAppend(soFar, Route(net.value, urls));
      assert soFar + [Route(net.value, urls)] == routes + CidrRoutes(cidrs[..j + 1], urls, parse).value;
    }
    assert cidrs[..|cidrs|] == cidrs;
    return Success(index);
  }

  /** `get_ipv4_bootstrap_urls` and `get_ipv6_bootstrap_urls` */
  method GetIpBootstrapUrls(services: seq<Service>, query: string, parse: CidrParser)
    returns (r: Result<seq<string>, RegistryError>)
    ensures r == IpUrls(services, query, parse)
  {
    var pm: Trie<seq<string>> := Empty;
    for i := 0 to |services|
      invariant Routes(services[..i], parse).Success?
      invariant pm == InsertAll(Routes(services[..i], parse).value)
    {
      var service := services[i];
      assert services[..i + 1][..i] == services[..i] && Last(services[..i + 1]) == service;
      if service == [] {
        RoutesFailureStays(services, parse, i + 1);
        return Failure(EmptyService);
      }
      var inserted := InsertService(pm, service[0], Last(service), parse, Routes(services[..i], parse).value);
      if inserted.Failure? {
        RoutesFailureStays(services, parse, i + 1);
        return Failure(inserted.error);
      }
      pm := inserted.value;
    }
    assert services[..|services|] == services;
    var net := parse(query);
    if net.None? {
      return Failure(InvalidBootstrapInput);
    }
    IndexRefinesScan(Routes(services, parse).value, net.value);
    var found := LongestPrefix(pm, net.value);
    if found.None? {
      return Failure(NoBootstrapUrls);
    }
    return Success(found.value.value);
  }
}
