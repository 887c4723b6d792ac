/** The client's lookups of autonomous system numbers and of object tags (RFC 9224 section 5.3, RFC 8521). */
module ClientLookups {
  import opened Wrappers
  import opened Sequences
  import opened Text
  import opened IanaRegistry

  // ---- autonomous system numbers ----------------------------------------------------------

  /** Whether the number is in the range, or why the range cannot be read. */
  function InAsRange(range: string, autnum: nat): Result<bool, RegistryError> {
    var parts := Split(range, '-');
    match ParseU32(parts[0])
    case None => Failure(InvalidBootstrapInput)
    case Some(start) =>
      match ParseU32(Last(parts))
      case None => Failure(InvalidBootstrapService)
      case Some(end) => Success(start <= autnum <= end)
  }

  /** What the ranges of one service decide, if anything. */
  function RangesDecide(ranges: seq<string>, urls: seq<string>, autnum: nat): Option<Result<seq<string>, RegistryError>> {
    if ranges == [] then None
    else
      match InAsRange(ranges[0], autnum)
      case Failure(e) => Some(Failure(e))
      case Success(found) => if found then Some(Success(urls)) else RangesDecide(ranges[1..], urls, autnum)
  }

  function ServicesDecide(services: seq<Service>, autnum: nat): Option<Result<seq<string>, RegistryError>> {
    if services == [] then None
    else if services[0] == [] then Some(Failure(EmptyService))
    else
      match RangesDecide(services[0][0], Last(services[0]), autnum)
      case Some(r) => Some(r)
      case None => ServicesDecide(services[1..], autnum)
  }

  function TrimAs(asn: string): string {
    if asn != "" && asn[0] in "aAsS" then TrimAs(asn[1..]) else asn
  }

  function AsnUrls(services: seq<Service>, asn: string): Result<seq<string>, RegistryError> {
    match ParseU32(TrimAs(asn))
    case None => Failure(InvalidBootstrapInput)
    case Some(autnum) =>
      match ServicesDecide(services, autnum)
      case Some(r) => r
      case None => Failure(NoBootstrapUrls)
  }

  /** `get_asn_bootstrap_urls` */
  method GetAsnBootstrapUrls(services: seq<Service>, asn: string) returns (r: Result<seq<string>, RegistryError>)
    ensures r == AsnUrls(services, asn)
  {
    var autnum := ParseU32(TrimAs(asn));
    if autnum.None? {
      return Failure(InvalidBootstrapInput);
    }
    for i := 0 to |services|
      invariant ServicesDecide(services, autnum.value) == ServicesDecide(services[i..], autnum.value)
    {
      var service := services[i];
      assert services[i..][1..] == services[i + 1..];
      if service == [] {
        return Failure(EmptyService);
      }
      var decided := ScanRanges(service[0], Last(service), autnum.value);
      if decided.Some? {
        return decided.value;
      }
    }
    return Failure(NoBootstrapUrls);
  }

  method ScanRanges(ranges: seq<string>, urls: seq<string>, autnum: nat)
    returns (r: Option<Result<seq<string>, RegistryError>>)
    ensures r == RangesDecide(ranges, urls, autnum)
  {
    for j := 0 to |ranges|
      invariant RangesDecide(ranges, urls, autnum) == RangesDecide(ranges[j..], urls, autnum)
    {
      assert ranges[j..][1..] == ranges[j + 1..];
      var parts := Split(ranges[j], '-');
      var start := ParseU32(parts[0]);
      if start.None? {
        return Some(Failure(InvalidBootstrapInput));
      }
      var end := ParseU32(Last(parts));
      if end.None? {
        return Some(Failure(InvalidBootstrapService));
      }
      if start.value <= autnum && autnum <= end.value {
        return Some(Success(urls));
      }
    }
    return None;
  }

  /** The number is in one of the ranges. */
  predicate CoversNumber(ranges: seq<string>, autnum: nat) {
    exists j :: 0 <= j < |ranges| && InAsRange(ranges[j], autnum) == Success(true)
  }

  predicate ReadableRanges(ranges: seq<string>) {
    forall j :: 0 <= j < |ranges| ==> InAsRange(ranges[j], 0).Success?
  }

  lemma ReadableForAll(range: string, m: nat, n: nat)
    ensures InAsRange(range, m).Success? <==> InAsRange(range, n).Success?
  {
  }

  lemma {:induction false} RangesDecideExactly(ranges: seq<string>, urls: seq<string>, autnum: nat)
    requires ReadableRanges(ranges)
    ensures RangesDecide(ranges, urls, autnum) == if CoversNumber(ranges, autnum) then Some(Success(urls)) else None
  {
    if ranges != [] {
      ReadableForAll(ranges[0], 0, autnum);
      assert forall j :: 0 <= j < |ranges| - 1 ==> ranges[1..][j] == ranges[j + 1];
      RangesDecideExactly(ranges[1..], urls, autnum);
      if CoversNumber(ranges, autnum) && InAsRange(ranges[0], autnum) != Success(true) {
        var j :| 0 <= j < |ranges| && InAsRange(ranges[j], autnum) == Success(true);
        assert InAsRange(ranges[1..][j - 1], autnum) == Success(true);
      }
      if CoversNumber(ranges[1..], autnum) {
        var j :| 0 <= j < |ranges[1..]| && InAsRange(ranges[1..][j], autnum) == Success(true);
        assert InAsRange(ranges[j + 1], autnum) == Success(true);
      }
    }
  }

  predicate ReadableServices(services: seq<Service>) {
    forall i :: 0 <= i < |services| ==> services[i] != [] && ReadableRanges(services[i][0])
  }

  lemma NoneBefore(services: seq<Service>, autnum: nat, k: nat)
    requires ReadableServices(services) && k < |services| && !CoversNumber(services[0][0], autnum)
    requires forall i :: 0 <= i < k ==> services[1..][i] != [] && !CoversNumber(services[1..][i][0], autnum)
    ensures forall i :: 0 <= i < k + 1 ==> !CoversNumber(services[i][0], autnum)
  {
    assert forall i :: 1 <= i < k + 1 ==> services[i] == services[1..][i - 1];
  }

  lemma ServicesDecideStep(services: seq<Service>, autnum: nat)
    requires services != [] && ReadableServices(services)
    ensures ReadableServices(services[1..])
    ensures ServicesDecide(services, autnum)
         == if CoversNumber(services[0][0], autnum) then Some(Success(Last(services[0]))) else ServicesDecide(services[1..], autnum)
  {
    RangesDecideExactly(services[0][0], Last(services[0]), autnum);
  }

  /** In a registry that can be read, the first service that covers the number decides. */
  lemma {:induction false} FirstCoveringDecides(services: seq<Service>, autnum: nat) returns (k: nat)
    requires ReadableServices(services)
    ensures k <= |services|
    ensures forall i :: 0 <= i < k ==> !CoversNumber(services[i][0], autnum)
    ensures k < |services| ==> CoversNumber(services[k][0], autnum)
    ensures ServicesDecide(services, autnum) == if k < |services| then Some(Success(Last(services[k]))) else None
  {
    k := 0;
    if services != [] {
      ServicesDecideStep(services, autnum);
      if !CoversNumber(services[0][0], autnum) {
        k := FirstCoveringDecides(services[1..], autnum);
        NoneBefore(services, autnum, k);
        k := k + 1;
      }
    }
  }

  /** A range that cannot be read, or that holds the number, decides. */
  predicate Decides(range: string, autnum: nat) {
    InAsRange(range, autnum) != Success(false)
  }

  /** The first deciding range of a service gives its URLs or its own error. */
  lemma {:induction false} FirstRangeDecides(ranges: seq<string>, urls: seq<string>, autnum: nat) returns (j: nat)
    ensures j <= |ranges| && forall k :: 0 <= k < j ==> !Decides(ranges[k], autnum)
    ensures j == |ranges| ==> RangesDecide(ranges, urls, autnum) == None
    ensures j < |ranges| ==>
      && Decides(ranges[j], autnum)
      && RangesDecide(ranges, urls, autnum)
         == Some(match InAsRange(ranges[j], autnum) case Success(_) => Success(urls) case Failure(e) => Failure(e))
  {
    j := 0;
    if ranges != [] && !Decides(ranges[0], autnum) {
      j := FirstRangeDecides(ranges[1..], urls, autnum);
      assert forall k :: 1 <= k < j + 1 ==> ranges[k] == ranges[1..][k - 1];
      j := j + 1;
    }
  }

  /** A service without arrays, or with a deciding range, decides. */
  ghost predicate ServiceDecides(service: Service, autnum: nat) {
    service == [] || exists j :: 0 <= j < |service[0]| && Decides(service[0][j], autnum)
  }

  /**
   The lookup of a number, whatever the registry: the first service that has no arrays, or has a range that
   cannot be read or holds the number, gives its error or its URLs; and without one there are none.
   */
  lemma {:induction false} FirstServiceDecides(services: seq<Service>, autnum: nat) returns (i: nat, j: nat)
    ensures i <= |services| && forall k :: 0 <= k < i ==> !ServiceDecides(services[k], autnum)
    ensures i == |services| ==> ServicesDecide(services, autnum) == None
    ensures i < |services| && services[i] == [] ==> ServicesDecide(services, autnum) == Some(Failure(EmptyService))
    ensures i < |services| && services[i] != [] ==>
      && j < |services[i][0]| && Decides(services[i][0][j], autnum)
      && (forall k :: 0 <= k < j ==> !Decides(services[i][0][k], autnum))
      && ServicesDecide(services, autnum)
         == Some(match InAsRange(services[i][0][j], autnum)
                 case Success(_) => Success(Last(services[i]))
                 case Failure(e) => Failure(e))
  {
    i, j := 0, 0;
    if services != [] && services[0] != [] {
      j := FirstRangeDecides(services[0][0], Last(services[0]), autnum);
      if j == |services[0][0]| {
        i, j := FirstServiceDecides(services[1..], autnum);
        assert forall k :: 1 <= k < i + 1 ==> services[k] == services[1..][k - 1];
        i := i + 1;
      }
    }
  }

  lemma DecimalIsTrimmed(n: nat)
    ensures TrimAs(Decimal(n)) == Decimal(n)
  {
    assert IsDigit(Decimal(n)[0]);
  }

  /** Letters `A` and `S` of either case in front of a number are passed over. */
  lemma {:induction false} PrefixIsTrimmed(prefix: string, n: nat)
    requires forall i :: 0 <= i < |prefix| ==> prefix[i] == 'a' || prefix[i] == 'A' || prefix[i] == 's' || prefix[i] == 'S'
    ensures TrimAs(prefix + Decimal(n)) == Decimal(n)
  {
    if prefix == "" {
      DecimalIsTrimmed(n);
      assert prefix + Decimal(n) == Decimal(n);
    } else {
      ConsAppend(prefix, Decimal(n));
      PrefixIsTrimmed(prefix[1..], n);
    }
  }

  /** So `AS64512` is looked up like `64512`; and what is no number then is invalid. */
  lemma PrefixedNumberIsFound(services: seq<Service>, prefix: string, n: nat)
    requires n < 0x1_0000_0000
    requires forall i :: 0 <= i < |prefix| ==> prefix[i] == 'a' || prefix[i] == 'A' || prefix[i] == 's' || prefix[i] == 'S'
    ensures AsnUrls(services, prefix + Decimal(n)) == AsnUrls(services, Decimal(n))
  {
    PrefixIsTrimmed(prefix, n);
    DecimalIsTrimmed(n);
  }

  /** Any other character in front makes it invalid, but a plus sign or a digit. */
  lemma OtherPrefixIsInvalid(services: seq<Service>, c: char, rest: string)
    requires c != 'a' && c != 'A' && c != 's' && c != 'S' && c != '+' && !IsDigit(c)
    ensures AsnUrls(services, [c] + rest) == Failure(InvalidBootstrapInput)
  {
    var asn := [c] + rest;
    assert asn[0] == c && TrimAs(asn) == asn;
    OnlyDigitsParse(asn);
  }

  lemma {:induction false} OnlyDigitsParse(s: string)
    ensures ParseDigits(s).Some? ==> forall i :: 0 <= i < |s| ==> IsDigit(s[i])
  {
    if s != [] {
      OnlyDigitsParse(s[..|s| - 1]);
    }
  }

  lemma DashSplits(front: string, back: string)
    requires '-' !in front && '-' !in back
    ensures Split(front + "-" + back, '-') == [front, back]
  {
    SplitFirst(front, back, '-');
    SplitWithout(back, '-');
  }

  /** A range of two numbers covers what lies between them, and a single number covers itself. */
  lemma RangeCoversExactly(start: nat, end: nat, n: nat)
    requires start < 0x1_0000_0000 && end < 0x1_0000_0000
    ensures InAsRange(Decimal(start) + "-" + Decimal(end), n) == Success(start <= n <= end)
    ensures InAsRange(Decimal(start), n) == Success(n == start)
  {
    assert '-' !in Decimal(start) && '-' !in Decimal(end);
    DashSplits(Decimal(start), Decimal(end));
    SplitWithout(Decimal(start), '-');
    SmallDecimalRoundTrip(start);
    SmallDecimalRoundTrip(end);
  }

  /** What makes a range unreadable, and which error it gives: the start is read before the end. */
  lemma UnreadableRange(front: string, back: string, n: nat)
    requires '-' !in front && '-' !in back
    ensures ParseU32(front).None? ==> InAsRange(front + "-" + back, n) == Failure(InvalidBootstrapInput)
    ensures ParseU32(front).Some? && ParseU32(back).None? ==> InAsRange(front + "-" + back, n) == Failure(InvalidBootstrapService)
    ensures ParseU32(front).None? ==> InAsRange(front, n) == Failure(InvalidBootstrapInput)
  {
    DashSplits(front, back);
    SplitWithout(front, '-');
  }

  // ---- object tags ------------------------------------------------------------------------

  /** The client looks at the first tag of each service only. */
  function TagUrls(services: seq<Service>, tag: string): Result<seq<string>, RegistryError> {
    if services == [] then Failure(NoBootstrapUrls)
    else if |services[0]| < 2 then Failure(InvalidBootstrapService)
    else if services[0][1] == [] then Failure(EmptyService)
    else if ToAsciiUpper(services[0][1][0]) == ToAsciiUpper(tag) then Success(Last(services[0]))
    else TagUrls(services[1..], tag)
  }

  /** `get_tag_bootstrap_urls` */
  method GetTagBootstrapUrls(services: seq<Service>, tag: string) returns (r: Result<seq<string>, RegistryError>)
    ensures r == TagUrls(services, tag)
  {
    for i := 0 to |services|
      invariant TagUrls(services, tag) == TagUrls(services[i..], tag)
    {
      var service := services[i];
      assert services[i..][1..] == services[i + 1..];
      if |service| < 2 {
        return Failure(InvalidBootstrapService);
      }
      if service[1] == [] {
        return Failure(EmptyService);
      }
      if ToAsciiUpper(service[1][0]) == ToAsciiUpper(tag) {
        return Success(Last(service));
      }
    }
    return Failure(NoBootstrapUrls);
  }

  predicate HasTag(service: Service) {
    |service| >= 2 && service[1] != []
  }

  predicate FirstTagIs(service: Service, tag: string) {
    HasTag(service) && ToAsciiUpper(service[1][0]) == ToAsciiUpper(tag)
  }

  /** The first service whose first tag is the given one decides, if all services before it have a tag. */
  lemma {:induction false} FirstTaggedDecides(services: seq<Service>, tag: string) returns (k: nat)
    ensures k <= |services|
    ensures forall i :: 0 <= i < k ==> HasTag(services[i]) && !FirstTagIs(services[i], tag)
    ensures k < |services| ==> !HasTag(services[k]) || FirstTagIs(services[k], tag)
    ensures TagUrls(services, tag).Success? <==> k < |services| && FirstTagIs(services[k], tag)
    ensures k < |services| && FirstTagIs(services[k], tag) ==> services[k] != [] && TagUrls(services, tag) == Success(Last(services[k]))
    ensures TagUrls(services, tag) == Failure(NoBootstrapUrls) <==> k == |services|
  {
    k := 0;
    if services != [] && HasTag(services[0]) && !FirstTagIs(services[0], tag) {
      assert forall i :: 0 <= i < |services| - 1 ==> services[1..][i] == services[i + 1];
      k := FirstTaggedDecides(services[1..], tag);
      assert forall i :: 1 <= i < k + 1 ==> services[i] == services[1..][i - 1];
      k := k + 1;
    }
  }
}
