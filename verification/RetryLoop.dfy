/**
 Repeating a request that the server answers with 429 Too Many Requests (RFC 6585 section 4), after
 the wait it asks for with Retry-After (RFC 9110 section 10.2.3).
 */
module RetryLoop {
  import opened Wrappers
  import opened Text

  type u16 = n: int | 0 <= n < 0x1_0000
  type u32 = n: int | 0 <= n < 0x1_0000_0000
  type i64 = n: int | -0x8000_0000_0000_0000 <= n < 0x8000_0000_0000_0000

  datatype RequestOptions = RequestOptions(maxRetrySecs: u32, defRetrySecs: u32, maxRetries: u16)

  /** A Retry-After value: a date, as the whole seconds left until it, or any other text. */
  datatype RetryAfter = Date(secondsLeft: i64) | Other(text: string)

  datatype Response = Response(status: nat, retryAfter: Option<RetryAfter>)

  const TOO_MANY_REQUESTS := 429

  /** The answers to the requests in turn; none is a request that could not be sent. */
  type Server = nat -> Option<Response>

  /** A cast from a signed to an unsigned 64-bit number. */
  function AsU64(n: i64): u64 {
    if n < 0 then n + 0x1_0000_0000_0000_0000 else n
  }

  /** The wait asked for, before it is checked. */
  function Asked(options: RequestOptions, retryAfter: Option<RetryAfter>): u64 {
    match retryAfter
    case None => options.defRetrySecs
    case Some(Date(left)) => AsU64(left)
    case Some(Other(text)) =>
      match ParseU64(text)
      case Some(seconds) => seconds
      case None => options.defRetrySecs
  }

  function Wait(options: RequestOptions, retryAfter: Option<RetryAfter>): u64 {
    var asked := Asked(options, retryAfter);
    var wait := if asked == 0 then options.defRetrySecs else asked;
    if wait > options.maxRetrySecs then options.maxRetrySecs else wait
  }

  datatype Outcome = Answer(response: Response) | TransportError | CounterOverflow

  predicate Refused(answer: Option<Response>) {
    answer.Some? && answer.value.status == TOO_MANY_REQUESTS
  }

  ghost predicate AllRefused(server: Server, n: nat) {
    forall i: nat :: i < n ==> Refused(server(i))
  }

  function Sum(xs: seq<nat>): nat {
    if xs == [] then 0 else Sum(xs[..|xs| - 1]) + xs[|xs| - 1]
  }

  /** The wait before the i-th repetition, of the 429 response that is the i-th answer. */
  function Pause(options: RequestOptions, answer: Option<Response>): nat
    requires Refused(answer)
  {
    Wait(options, answer.value.retryAfter) + 1
  }

  /**
   The retry loop. It makes at most one request more than the retries allowed; it stops at the first
   answer that is not a 429, or with the last 429; it pauses once after every 429, the last included.
   The 16-bit count of tries overflows, which stops a checked build, exactly when 65535 retries are
   allowed and 65536 answers in a row are 429.
   */
  method WrappedRequest(options: RequestOptions, server: Server)
    returns (outcome: Outcome, requests: nat, pauses: seq<nat>)
    ensures 1 <= requests <= options.maxRetries + 1
    ensures AllRefused(server, requests - 1)
    ensures outcome == TransportError <==> server(requests - 1).None?
    ensures outcome.Answer? ==>
      && server(requests - 1) == Some(outcome.response)
      && (outcome.response.status == TOO_MANY_REQUESTS ==> requests == options.maxRetries + 1)
    ensures outcome == CounterOverflow <==> options.maxRetries == 0xFFFF && AllRefused(server, 0x1_0000)
    ensures |pauses| == if Refused(server(requests - 1)) then requests else requests - 1
    ensures forall i: nat :: i < |pauses| ==> Refused(server(i)) && pauses[i] == Pause(options, server(i))
  {
    requests := 1;
    pauses := [];
    var sent := server(0);
    if sent.None? {
      return TransportError, requests, pauses;
    }
    var response := sent.value;
    var tries: u16 := 0;
    while response.status == TOO_MANY_REQUESTS
      invariant requests == tries + 1
      invariant tries <= options.maxRetries
      invariant server(tries) == Some(response)
      invariant AllRefused(server, tries)
      invariant |pauses| == tries
      invariant forall i: nat :: i < |pauses| ==> Refused(server(i)) && pauses[i] == Pause(options, server(i))
      decreases 0x1_0000 - tries
    {
      var waitTimeSeconds: u64;
      if response.retryAfter.Some? && response.retryAfter.value.Date? {
        waitTimeSeconds := AsU64(response.retryAfter.value.secondsLeft);
      } else {
        var text := if response.retryAfter.Some? then response.retryAfter.value.text else Decimal(options.defRetrySecs);
        DecimalRoundTrip(options.defRetrySecs);
        var seconds := ParseU64(text);
        waitTimeSeconds := if seconds.Some? then seconds.value else options.defRetrySecs;
      }
      if waitTimeSeconds == 0 {
        waitTimeSeconds := options.defRetrySecs;
      }
      if waitTimeSeconds > options.maxRetrySecs {
        waitTimeSeconds := options.maxRetrySecs;
      }
      pauses := pauses + [waitTimeSeconds + 1];
      if tries == 0xFFFF {
        return CounterOverflow, requests, pauses;
      }
      tries := tries + 1;
      if tries > options.maxRetries {
        break;
      }
      sent := server(requests);
      requests := requests + 1;
      if sent.None? {
        return TransportError, requests, pauses;
      }
      response := sent.value;
    }
    return Answer(response), requests, pauses;
  }

  /** Every pause is at least one second and at most one second more than the configured maximum. */
  lemma PauseBounds(options: RequestOptions, answer: Option<Response>)
    requires Refused(answer)
    ensures 1 <= Pause(options, answer) <= options.maxRetrySecs + 1
  {
  }

  lemma {:induction false} SumBound(xs: seq<nat>, bound: nat)
    requires forall i :: 0 <= i < |xs| ==> xs[i] <= bound
    ensures Sum(xs) <= |xs| * bound
  {
    if xs != [] {
      SumBound(xs[..|xs| - 1], bound);
      assert |xs| * bound == (|xs| - 1) * bound + bound;
    }
  }

  lemma {:induction false} SumAtLeast(xs: seq<nat>)
    requires forall i :: 0 <= i < |xs| ==> xs[i] >= 1
    ensures |xs| <= Sum(xs)
  {
    if xs != [] {
      SumAtLeast(xs[..|xs| - 1]);
    }
  }

  lemma ProductMonotone(a: nat, b: nat, c: nat)
    requires a <= b
    ensures a * c <= b * c
  {
  }

  /** All pauses together are at least one second each, and at most the longest for every request. */
  lemma TotalPauseBound(options: RequestOptions, server: Server, pauses: seq<nat>)
    requires |pauses| <= options.maxRetries + 1
    requires forall i: nat :: i < |pauses| ==> Refused(server(i)) && pauses[i] == Pause(options, server(i))
    ensures |pauses| <= Sum(pauses) <= (options.maxRetries + 1) * (options.maxRetrySecs + 1)
  {
    var longest: nat := options.maxRetrySecs + 1;
    forall i | 0 <= i < |pauses|
      ensures 1 <= pauses[i] <= longest
    {
      PauseBounds(options, server(i));
    }
    SumAtLeast(pauses);
    SumBound(pauses, longest);
    ProductMonotone(|pauses|, options.maxRetries + 1, longest);
  }

  /** A date that has passed is cast to a huge number of seconds, so it asks for the longest wait. */
  lemma PastDateWaitsLongest(options: RequestOptions, secondsLeft: i64)
    ensures secondsLeft < 0 ==> Wait(options, Some(Date(secondsLeft))) == options.maxRetrySecs
    ensures secondsLeft == 0 ==> Wait(options, Some(Date(secondsLeft))) == Wait(options, None)
  {
  }

  function AtMost(seconds: nat, limit: nat): nat {
    if seconds <= limit then seconds else limit
  }

  /**
   The pause before a request is repeated, in seconds, one more than the wait. The wait is what the
   server asks for, as a number of seconds or as a date still to come, but at most the maximum; and the
   default, likewise limited, if the server asks for none, for zero seconds, for the present moment, or
   for something that is not a number.
   */
  lemma PauseIsWhatIsAsked(options: RequestOptions, status: Response, seconds: u64, left: i64)
    requires status.status == TOO_MANY_REQUESTS
    ensures status.retryAfter == Some(Other(Decimal(seconds))) && seconds > 0 ==>
      Pause(options, Some(status)) == AtMost(seconds, options.maxRetrySecs) + 1
    ensures status.retryAfter == Some(Date(left)) && left > 0 ==>
      Pause(options, Some(status)) == AtMost(left, options.maxRetrySecs) + 1
    ensures status.retryAfter == None || status.retryAfter == Some(Date(0)) || status.retryAfter == Some(Other("0")) ==>
      Pause(options, Some(status)) == AtMost(options.defRetrySecs, options.maxRetrySecs) + 1
    ensures status.retryAfter.Some? && status.retryAfter.value.Other? && ParseU64(status.retryAfter.value.text).None? ==>
      Pause(options, Some(status)) == AtMost(options.defRetrySecs, options.maxRetrySecs) + 1
  {
    DecimalRoundTrip(seconds);
    DecimalRoundTrip(0);
    assert Decimal(0) == "0";
  }
}
