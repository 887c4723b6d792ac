/**
 Where the client keeps the registries it has fetched: in memory, or in one file each. Both answer
 the same after the same registries have been put.
 */
module BootstrapStores {
  import opened Wrappers
  import opened Text
  import opened IanaRegistry
  import opened HttpCache
  import opened PrefixIndex
  import opened ClientLookups

  datatype Held = Held(services: seq<Service>, http: HttpData)

  /** What a store holds, by kind of registry. */
  type Slots = map<RegistryType, Held>

  datatype StoreError = BootstrapUnavailable | IoFailure | InRegistry(error: RegistryError)

  predicate FreshIn(slots: Slots, t: RegistryType, now: int, parseDate: DateParser) {
    t in slots && !IsExpired(slots[t].http, SECONDS_IN_WEEK, now, parseDate)
  }

  /** An error of a registry, as an error of the store that holds it. */
  function InStore(r: Result<seq<string>, RegistryError>): Result<seq<string>, StoreError> {
    match r
    case Success(urls) => Success(urls)
    case Failure(e) => Failure(InRegistry(e))
  }

  /** One of the five lookups; `cidr` parses networks of the family that is asked for. */
  datatype Query =
    | DnsQuery(ldh: string)
    | AsnQuery(asn: string)
    | Ipv4Query(ipv4: string, cidr: CidrParser)
    | Ipv6Query(ipv6: string, cidr: CidrParser)
    | TagQuery(tag: string)
  {
    function Registry(): RegistryType {
      match this
      case DnsQuery(_) => Dns
      case AsnQuery(_) => Asn
      case Ipv4Query(_, _) => Ipv4
      case Ipv6Query(_, _) => Ipv6
      case TagQuery(_) => ObjectTags
    }
  }

  ghost function UrlsIn(services: seq<Service>, q: Query): Result<seq<string>, RegistryError> {
    match q
    case DnsQuery(ldh) => DnsUrls(services, ldh)
    case AsnQuery(asn) => AsnUrls(services, asn)
    case Ipv4Query(ipv4, cidr) => IpUrls(services, ipv4, cidr)
    case Ipv6Query(ipv6, cidr) => IpUrls(services, ipv6, cidr)
    case TagQuery(tag) => TagUrls(services, tag)
  }

  /** The answer to a lookup; `missing` is the store's error when it has no such registry. */
  ghost function Answer(slots: Slots, q: Query, missing: StoreError): Result<seq<string>, StoreError> {
    if q.Registry() in slots then InStore(UrlsIn(slots[q.Registry()].services, q)) else Failure(missing)
  }

  // ---- in memory --------------------------------------------------------------------------

  class MemoryBootstrapStore {
    var dns: Option<Held>
    var autnum: Option<Held>
    var ipv4: Option<Held>
    var ipv6: Option<Held>
    var tag: Option<Held>

    function Slot(t: RegistryType): Option<Held>
      reads this
    {
      match t
      case Dns => dns
      case Asn => autnum
      case Ipv4 => ipv4
      case Ipv6 => ipv6
      case ObjectTags => tag
    }

    ghost function Contents(): (slots: Slots)
      reads this
      ensures forall t :: t in slots <==> Slot(t).Some?
      ensures forall t :: t in slots ==> Slot(t) == Some(slots[t])
    {
      map t: RegistryType | t in {Dns, Asn, Ipv4, Ipv6, ObjectTags} && Slot(t).Some? :: Slot(t).value
    }

    constructor ()
      ensures Contents() == map[]
    {
      dns, autnum, ipv4, ipv6, tag := None, None, None, None, None;
    }

    method HasBootstrapRegistry(t: RegistryType, now: int, parseDate: DateParser) returns (has: bool)
      ensures has == FreshIn(Contents(), t, now, parseDate)
    {
      var slot := Slot(t);
      has := slot.Some? && !IsExpired(slot.value.http, SECONDS_IN_WEEK, now, parseDate);
    }

    method PutBootstrapRegistry(t: RegistryType, held: Held)
      modifies this
      ensures Contents() == old(Contents())[t := held]
    {
      match t
      case Dns => dns := Some(held);
      case Asn => autnum := Some(held);
      case Ipv4 => ipv4 := Some(held);
      case Ipv6 => ipv6 := Some(held);
      case ObjectTags => tag := Some(held);
    }

    method GetDnsUrls(ldh: string) returns (r: Result<seq<string>, StoreError>)
      ensures r == Answer(Contents(), DnsQuery(ldh), BootstrapUnavailable)
    {
      if dns.None? {
        return Failure(BootstrapUnavailable);
      }
      var urls := GetDnsBootstrapUrls(dns.value.services, ldh);
      r := InStore(urls);
    }

    method GetAsnUrls(asn: string) returns (r: Result<seq<string>, StoreError>)
      ensures r == Answer(Contents(), AsnQuery(asn), BootstrapUnavailable)
    {
      if autnum.None? {
        return Failure(BootstrapUnavailable);
      }
      var urls := GetAsnBootstrapUrls(autnum.value.services, asn);
      r := InStore(urls);
    }

    method GetIpv4Urls(address: string, cidr: CidrParser) returns (r: Result<seq<string>, StoreError>)
      ensures r == Answer(Contents(), Ipv4Query(address, cidr), BootstrapUnavailable)
    {
      if ipv4.None? {
        return Failure(BootstrapUnavailable);
      }
      var urls := GetIpBootstrapUrls(ipv4.value.services, address, cidr);
      r := InStore(urls);
    }

    method GetIpv6Urls(address: string, cidr: CidrParser) returns (r: Result<seq<string>, StoreError>)
      ensures r == Answer(Contents(), Ipv6Query(address, cidr), BootstrapUnavailable)
    {
      if ipv6.None? {
        return Failure(BootstrapUnavailable);
      }
      var urls := GetIpBootstrapUrls(ipv6.value.services, address, cidr);
      r := InStore(urls);
    }

    method GetTagUrls(objectTag: string) returns (r: Result<seq<string>, StoreError>)
      ensures r == Answer(Contents(), TagQuery(objectTag), BootstrapUnavailable)
    {
      if tag.None? {
        return Failure(BootstrapUnavailable);
      }
      var urls := GetTagBootstrapUrls(tag.value.services, objectTag);
      r := InStore(urls);
    }

    /** `fetch_bootstrap`; `response` is what the request would give, none being an error. */
    method FetchBootstrap(t: RegistryType, response: Option<Held>, now: int, parseDate: DateParser) returns (ok: bool)
      modifies this
      ensures ok <==> old(FreshIn(Contents(), t, now, parseDate)) || response.Some?
      ensures Contents() == if old(FreshIn(Contents(), t, now, parseDate)) || response.None? then old(Contents())
                            else old(Contents())[t := response.value]
    {
      var has := HasBootstrapRegistry(t, now, parseDate);
      if !has {
        if response.None? {
          return false;
        }
        PutBootstrapRegistry(t, response.value);
      }
      return true;
    }
  }

  // ---- in files ---------------------------------------------------------------------------

  /** Printing and parsing of headers and registries, which the JSON library does. */
  datatype Codec = Codec(
    printHttp: HttpData -> string,
    parseHttp: string -> Option<HttpData>,
    printRegistry: seq<Service> -> string,
    parseRegistry: string -> Option<seq<Service>>)

  /** What is printed can be parsed; a printed registry may be broken into lines between its tokens. */
  ghost predicate Sound(codec: Codec) {
    && (forall h :: OneLineHeader(codec.printHttp(h)) && codec.parseHttp(codec.printHttp(h)) == Some(h))
    && (forall s :: '\r' !in codec.printRegistry(s)
                    && codec.parseRegistry(WithoutNewlines(codec.printRegistry(s))) == Some(s))
  }

  /** What reading the text of a file gives; the program stops on a file without a separator line. */
  datatype CacheRead = Cached(held: Held) | Unreadable | Stops

  function ReadCache(codec: Codec, text: string): CacheRead {
    match SplitLines(BufLines(text), codec.parseHttp)
    case BadHeader => Unreadable
    case NoSeparator => Stops
    case Parsed(http, body) =>
      match codec.parseRegistry(Concat(body))
      case Some(services) => Cached(Held(services, http))
      case None => Unreadable
  }

  type Files = map<RegistryType, string>

  /** The registries that the files hold, leaving out files that cannot be read. */
  function ReadAll(codec: Codec, files: Files): Slots {
    map t | t in files && ReadCache(codec, files[t]).Cached? :: ReadCache(codec, files[t]).held
  }

  predicate Stopping(codec: Codec, files: Files, t: RegistryType) {
    t in files && ReadCache(codec, files[t]).Stops?
  }

  predicate Broken(codec: Codec, files: Files, t: RegistryType) {
    t in files && ReadCache(codec, files[t]).Unreadable?
  }

  lemma WrittenCacheReads(codec: Codec, held: Held)
    requires Sound(codec)
    ensures ReadCache(codec, CacheText(codec.printHttp(held.http), codec.printRegistry(held.services))) == Cached(held)
  {
    var header, body := codec.printHttp(held.http), codec.printRegistry(held.services);
    CacheFileRoundTrip(header, body, codec.parseHttp, held.http);
    LinesLoseOnlyNewlines(body);
  }

  /**
   What reading any file comes to: its first line that begins with a separator ends the header, which must
   parse; without such a line the program stops; and then the lines after it must parse as a registry.
   */
  lemma CacheReadsExactly(codec: Codec, text: string, n: nat)
    requires var lines := BufLines(text);
      && n <= |lines| && (forall i :: 0 <= i < n ==> !StartsWith(lines[i], "---"))
      && (n < |lines| ==> StartsWith(lines[n], "---"))
    ensures var lines := BufLines(text);
      ReadCache(codec, text)
      == match codec.parseHttp(Concat(lines[..n]))
         case None => Unreadable
         case Some(http) =>
           if n == |lines| then Stops
           else match codec.parseRegistry(Concat(lines[n + 1..]))
                case None => Unreadable
                case Some(services) => Cached(Held(services, http))
  {
    HeaderCountIs(BufLines(text), n);
  }

  class FileCacheBootstrapStore {
    const codec: Codec
    var files: Files

    constructor (codec: Codec)
      ensures this.codec == codec && files == map[]
    {
      this.codec := codec;
      files := map[];
    }

    ghost function Contents(): Slots
      reads this
    {
      ReadAll(codec, files)
    }

    /** `fetch_file_cache_bootstrap` */
    method FetchFileCacheBootstrap(t: RegistryType) returns (r: Result<Held, StoreError>)
      requires !Stopping(codec, files, t)
      ensures r == if t in Contents() then Success(Contents()[t]) else Failure(IoFailure)
    {
      if t !in files {
        return Failure(IoFailure);
      }
      var input := BufLines(files[t]);
      var lines := [];
      for i := 0 to |input|
        invariant lines == input[..i]
      {
        lines := lines + [input[i]];
      }
      assert lines == input;
      match SplitLines(lines, codec.parseHttp)
      case Parsed(http, body) =>
        var iana := codec.parseRegistry(Concat(body));
        r := if iana.Some? then Success(Held(iana.value, http)) else Failure(IoFailure);
      case _ =>
        r := Failure(IoFailure);
    }

    /** A file that cannot be read is an error, while a missing one is only absent. */
    method HasBootstrapRegistry(t: RegistryType, now: int, parseDate: DateParser)
      returns (has: Result<bool, StoreError>)
      requires !Stopping(codec, files, t)
      ensures has == if Broken(codec, files, t) then Failure(IoFailure) else Success(FreshIn(Contents(), t, now, parseDate))
    {
      if t in files {
        var held := FetchFileCacheBootstrap(t);
        match held
        case Success(h) => return Success(!IsExpired(h.http, SECONDS_IN_WEEK, now, parseDate));
        case Failure(e) => return Failure(e);
      }
      return Success(false);
    }

    method PutBootstrapRegistry(t: RegistryType, held: Held)
      requires Sound(codec)
      modifies this
      ensures Contents() == old(Contents())[t := held]
      ensures !Broken(codec, files, t) && !Stopping(codec, files, t)
      ensures forall u :: u != t ==> (u in files <==> u in old(files)) && (u in files ==> files[u] == old(files[u]))
    {
      var text := ToLines(codec.printHttp(held.http), codec.printRegistry(held.services));
      WrittenCacheReads(codec, held);
      files := files[t := text];
    }

    method GetDnsUrls(ldh: string) returns (r: Result<seq<string>, StoreError>)
      requires !Stopping(codec, files, Dns)
      ensures r == Answer(Contents(), DnsQuery(ldh), IoFailure)
    {
      var held := FetchFileCacheBootstrap(Dns);
      if held.Failure? {
        return Failure(held.error);
      }
      var urls := GetDnsBootstrapUrls(held.value.services, ldh);
      r := InStore(urls);
    }

    method GetAsnUrls(asn: string) returns (r: Result<seq<string>, StoreError>)
      requires !Stopping(codec, files, Asn)
      ensures r == Answer(Contents(), AsnQuery(asn), IoFailure)
    {
      var held := FetchFileCacheBootstrap(Asn);
      if held.Failure? {
        return Failure(held.error);
      }
      var urls := GetAsnBootstrapUrls(held.value.services, asn);
      r := InStore(urls);
    }

    method GetIpv4Urls(address: string, cidr: CidrParser) returns (r: Result<seq<string>, StoreError>)
      requires !Stopping(codec, files, Ipv4)
      ensures r == Answer(Contents(), Ipv4Query(address, cidr), IoFailure)
    {
      var held := FetchFileCacheBootstrap(Ipv4);
      if held.Failure? {
        return Failure(held.error);
      }
      var urls := GetIpBootstrapUrls(held.value.services, address, cidr);
      r := InStore(urls);
    }

    method GetIpv6Urls(address: string, cidr: CidrParser) returns (r: Result<seq<string>, StoreError>)
      requires !Stopping(codec, files, Ipv6)
      ensures r == Answer(Contents(), Ipv6Query(address, cidr), IoFailure)
    {
      var held := FetchFileCacheBootstrap(Ipv6);
      if held.Failure? {
        return Failure(held.error);
      }
      var urls := GetIpBootstrapUrls(held.value.services, address, cidr);
      r := InStore(urls);
    }

    method GetTagUrls(objectTag: string) returns (r: Result<seq<string>, StoreError>)
      requires !Stopping(codec, files, ObjectTags)
      ensures r == Answer(Contents(), TagQuery(objectTag), IoFailure)
    {
      var held := FetchFileCacheBootstrap(ObjectTags);
      if held.Failure? {
        return Failure(held.error);
      }
      var urls := GetTagBootstrapUrls(held.value.services, objectTag);
      r := InStore(urls);
    }

    /** `fetch_bootstrap`; `response` is what the request would give, none being an error. */
    method FetchBootstrap(t: RegistryType, response: Option<Held>, now: int, parseDate: DateParser) returns (ok: bool)
      requires Sound(codec) && !Stopping(codec, files, t)
      modifies this
      ensures var fresh_ := old(FreshIn(Contents(), t, now, parseDate));
        && (ok <==> !old(Broken(codec, files, t)) && (fresh_ || response.Some?))
        && Contents() == if !ok || fresh_ then old(Contents()) else old(Contents())[t := response.value]
    {
      var has := HasBootstrapRegistry(t, now, parseDate);
      if has.Failure? {
        return false;
      }
      if !has.value {
        if response.None? {
          return false;
        }
        PutBootstrapRegistry(t, response.value);
      }
      return true;
    }
  }

  // ---- the two stores agree ---------------------------------------------------------------

  datatype Put = Put(t: RegistryType, held: Held)

  function PutAll(slots: Slots, puts: seq<Put>): Slots {
    if puts == [] then slots else PutAll(slots, puts[..|puts| - 1])[puts[|puts| - 1].t := puts[|puts| - 1].held]
  }

  function WriteAll(codec: Codec, files: Files, puts: seq<Put>): Files {
    if puts == [] then files
    else
      var last := puts[|puts| - 1];
      WriteAll(codec, files, puts[..|puts| - 1])
        [last.t := CacheText(codec.printHttp(last.held.http), codec.printRegistry(last.held.services))]
  }

  lemma {:induction false} WrittenFilesRead(codec: Codec, puts: seq<Put>, t: RegistryType)
    requires Sound(codec)
    ensures var files := WriteAll(codec, map[], puts);
      && (t in files <==> t in PutAll(map[], puts))
      && (t in files ==> ReadCache(codec, files[t]) == Cached(PutAll(map[], puts)[t]))
  {
    if puts != [] {
      WrittenFilesRead(codec, puts[..|puts| - 1], t);
      WrittenCacheReads(codec, puts[|puts| - 1].held);
    }
  }

  /**
   After any sequence of puts every file can be read, and the files read as what the memory holds. So
   expiry and lookups agree: both are functions of the slots alone.
   */
  lemma FilesRefineMemory(codec: Codec, puts: seq<Put>)
    requires Sound(codec)
    ensures forall t :: !Broken(codec, WriteAll(codec, map[], puts), t) && !Stopping(codec, WriteAll(codec, map[], puts), t)
    ensures ReadAll(codec, WriteAll(codec, map[], puts)) == PutAll(map[], puts)
  {
    forall t
      ensures var files := WriteAll(codec, map[], puts);
        && (t in files <==> t in PutAll(map[], puts))
        && (t in files ==> ReadCache(codec, files[t]) == Cached(PutAll(map[], puts)[t]))
    {
      WrittenFilesRead(codec, puts, t);
    }
  }

  /** So every lookup, in any of the five registries, gives the same in both. */
  lemma LookupsAgree(codec: Codec, puts: seq<Put>, q: Query, missing: StoreError)
    requires Sound(codec)
    ensures Answer(ReadAll(codec, WriteAll(codec, map[], puts)), q, missing) == Answer(PutAll(map[], puts), q, missing)
  {
    FilesRefineMemory(codec, puts);
  }

  /** A lookup goes to the registry of its own kind, and to no other. */
  lemma AnswerComesFromItsRegistry(slots: Slots, t: RegistryType, held: Held, missing: StoreError)
    ensures forall ldh :: Answer(slots[Dns := held], DnsQuery(ldh), missing) == InStore(DnsUrls(held.services, ldh))
    ensures forall asn :: Answer(slots[Asn := held], AsnQuery(asn), missing) == InStore(AsnUrls(held.services, asn))
    ensures forall ip, cidr :: Answer(slots[Ipv4 := held], Ipv4Query(ip, cidr), missing) == InStore(IpUrls(held.services, ip, cidr))
    ensures forall ip, cidr :: Answer(slots[Ipv6 := held], Ipv6Query(ip, cidr), missing) == InStore(IpUrls(held.services, ip, cidr))
    ensures forall tag :: Answer(slots[ObjectTags := held], TagQuery(tag), missing) == InStore(TagUrls(held.services, tag))
    ensures forall q: Query :: q.Registry() != t ==> Answer(slots[t := held], q, missing) == Answer(slots, q, missing)
    ensures forall q: Query :: q.Registry() !in slots ==> Answer(slots, q, missing) == Failure(missing)
  {
  }
}
