/**
 The bootstrap passes of the server: for each registry in turn, ask whether its cache is still fresh,
 and if not fetch it and rewrite its templates. The first error ends a pass.
 */
module BootstrapPasses {
  import opened Wrappers
  import opened Sequences
  import opened IanaRegistry
  import opened HttpCache
  import opened Storage
  import opened ServerBootstrap
  import Stores = BootstrapStores
  import Text

  /** What the libraries provide: parsing of networks and dates, printing and parsing of the cache. */
  datatype Setting = Setting(parse: NetworkParser, codec: Stores.Codec, parseDate: DateParser)

  /** What one registry meets in a pass: the time, and the answer to a request, none being an error. */
  datatype Ask = Ask(now: int, response: Option<Stores.Held>)

  type Asks = RegistryType -> Ask

  // ---- asking for a registry --------------------------------------------------------------

  /** What the cache file says: none when it cannot be read, which is an error or stops the program. */
  function CacheIsFresh(content: FileContent, env: Setting, now: int): Option<bool> {
    match content
    case NotJson(text) => (
      match SplitLines(BufLines(text), env.codec.parseHttp)
      case Parsed(http, _) => Some(!IsExpired(http, SECONDS_IN_WEEK, now, env.parseDate))
      case _ => None
    )
    case _ => None
  }

  function CacheOf(env: Setting, held: Stores.Held): FileContent {
    NotJson(CacheText(env.codec.printHttp(held.http), env.codec.printRegistry(held.services)))
  }

  function Requested(env: Setting, response: Option<Stores.Held>): Fetch {
    match response
    case Some(held) => Fetched(held.services, CacheOf(env, held))
    case None => FetchFailed
  }

  /** What asking for the registry gives, in view of the cache in the directory. */
  function FetchOf(files: Directory, family: RegistryType, env: Setting, ask: Ask): Fetch {
    if CacheName(family) !in files then Requested(env, ask.response)
    else
      match CacheIsFresh(files[CacheName(family)], env, ask.now)
      case Some(true) => Fresh
      case Some(false) => Requested(env, ask.response)
      case None => FetchFailed
  }

  function FetchesOf(files: Directory, env: Setting, asks: Asks): RegistryType -> Fetch {
    (family: RegistryType) => FetchOf(files, family, env, asks(family))
  }

  // ---- one pass ---------------------------------------------------------------------------

  const FAMILIES := [Dns, Asn, Ipv4, Ipv6, ObjectTags]

  /** The directory after the first `n` registries. */
  function AfterAll(files: Directory, parse: NetworkParser, fetch: RegistryType -> Fetch, n: nat): Directory
    requires n <= |FAMILIES|
  {
    if n == 0 then files
    else AfterRefresh(AfterAll(files, parse, fetch, n - 1), FAMILIES[n - 1], parse, fetch(FAMILIES[n - 1]))
  }

  /** The first registry, from `i` on, that does not succeed. */
  function FirstFailing(parse: NetworkParser, fetch: RegistryType -> Fetch, i: nat): (n: nat)
    requires i <= |FAMILIES|
    ensures i <= n <= |FAMILIES|
    ensures n < |FAMILIES| ==> !Succeeds(FAMILIES[n], parse, fetch(FAMILIES[n]))
    ensures forall j :: i <= j < n ==> Succeeds(FAMILIES[j], parse, fetch(FAMILIES[j]))
    decreases |FAMILIES| - i
  {
    if i == |FAMILIES| || !Succeeds(FAMILIES[i], parse, fetch(FAMILIES[i])) then i else FirstFailing(parse, fetch, i + 1)
  }

  /** One of the first `n` registries was fetched. */
  predicate AnyFetched(fetch: RegistryType -> Fetch, n: nat)
    requires n <= |FAMILIES|
  {
    exists i :: 0 <= i < n && fetch(FAMILIES[i]).Fetched?
  }

  function Triggered(files: Directory, fetch: RegistryType -> Fetch, updateOnBootstrap: bool): Directory {
    if AnyFetched(fetch, |FAMILIES|) then files[(if updateOnBootstrap then UPDATE else RELOAD) := NotJson("")] else files
  }

  /**
   The directory after a pass. When all registries succeed one trigger is touched if any was fetched;
   otherwise the pass ends with the first that does not, and no trigger is touched.
   */
  function AfterPass(files: Directory, env: Setting, asks: Asks, updateOnBootstrap: bool): Directory {
    var fetch := FetchesOf(files, env, asks);
    var n := FirstFailing(env.parse, fetch, 0);
    if n == |FAMILIES| then Triggered(AfterAll(files, env.parse, fetch, n), fetch, updateOnBootstrap)
    else AfterAll(files, env.parse, fetch, n + 1)
  }

  lemma FamiliesDiffer(i: nat, j: nat)
    requires i < |FAMILIES| && j < |FAMILIES| && i != j
    ensures FAMILIES[i] != FAMILIES[j]
  {
  }

  /** The registries before a family leave its templates and its cache alone. */
  lemma {:induction false} EarlierFamiliesUntouched(
    files: Directory, parse: NetworkParser, fetch: RegistryType -> Fetch, n: nat, i: nat, name: string)
    requires n <= i < |FAMILIES| && (Owned(FAMILIES[i], name) || name == CacheName(FAMILIES[i]))
    ensures SameAt(files, AfterAll(files, parse, fetch, n), name)
  {
    if n > 0 {
      FamiliesDiffer(n - 1, i);
      EarlierFamiliesUntouched(files, parse, fetch, n - 1, i, name);
      RefreshIsLocal(AfterAll(files, parse, fetch, n - 1), FAMILIES[n - 1], parse, fetch(FAMILIES[n - 1]), FAMILIES[i], name);
    }
  }

  /** What asking for a registry gives does not depend on the registries before it. */
  lemma FetchUnmoved(start: Directory, env: Setting, asks: Asks, i: nat)
    requires i < |FAMILIES|
    ensures FetchOf(AfterAll(start, env.parse, FetchesOf(start, env, asks), i), FAMILIES[i], env, asks(FAMILIES[i]))
         == FetchesOf(start, env, asks)(FAMILIES[i])
  {
    EarlierFamiliesUntouched(start, env.parse, FetchesOf(start, env, asks), i, i, CacheName(FAMILIES[i]));
  }

  lemma AnyFetchedStep(fetch: RegistryType -> Fetch, n: nat)
    requires n < |FAMILIES|
    ensures AnyFetched(fetch, n + 1) <==> AnyFetched(fetch, n) || fetch(FAMILIES[n]).Fetched?
  {
  }

  lemma PassFails(files: Directory, env: Setting, asks: Asks, updateOnBootstrap: bool, i: nat)
    requires i < |FAMILIES| && FirstFailing(env.parse, FetchesOf(files, env, asks), 0) == i
    ensures AfterPass(files, env, asks, updateOnBootstrap) == AfterAll(files, env.parse, FetchesOf(files, env, asks), i + 1)
  {
  }

  lemma PassSucceeds(files: Directory, env: Setting, asks: Asks, updateOnBootstrap: bool)
    requires FirstFailing(env.parse, FetchesOf(files, env, asks), 0) == |FAMILIES|
    ensures var fetch := FetchesOf(files, env, asks);
      AfterPass(files, env, asks, updateOnBootstrap)
      == Triggered(AfterAll(files, env.parse, fetch, |FAMILIES|), fetch, updateOnBootstrap)
  {
  }

  /** The data directory. */
  class DataDir {
    var files: Directory

    constructor (files: Directory)
      ensures this.files == files
    {
      this.files := files;
    }

    /** `remove_previous_bootstrap`, reading the directory in the given order. */
    method RemovePrevious(family: RegistryType, order: seq<string>)
      requires IsListing(files, order)
      modifies this
      ensures files == Without(old(files), family)
    {
      for i := 0 to |order|
        invariant files == Removed(old(files), family, order[..i])
      {
        assert order[..i + 1] == order[..i] + [order[i]];
        RemovedStep(old(files), family, order[..i], order[i]);
        if Text.StartsWith(order[i], Prefix(family)) {
          files := files - {order[i]};
        }
      }
      assert order[..|order|] == order;
      RemovedAll(old(files), family, order);
    }

    /** `make_dns_bootstrap` and its siblings; a malformed service stops it. */
    method MakeTemplates(family: RegistryType, parse: NetworkParser, services: seq<Service>) returns (ok: bool)
      modifies this
      ensures ok <==> FirstMalformed(family, parse, services, 0) == |services|
      ensures files == WithTemplates(old(files), family, parse, services, FirstMalformed(family, parse, services, 0))
    {
      for num := 0 to |services|
        invariant FirstMalformed(family, parse, services, 0) == FirstMalformed(family, parse, services, num)
        invariant files == WithTemplates(old(files), family, parse, services, num)
      {
        var template := ServiceTemplate(family, parse, services[num]);
        if template.None? {
          return false;
        }
        files := files[TemplateName(family, num) := TemplateText(template.value)];
      }
      return true;
    }

    /** `fetch_iana_registry`: the cache decides whether a request is made, and is written after one. */
    method FetchIanaRegistry(family: RegistryType, env: Setting, ask: Ask) returns (fetch: Fetch)
      modifies this
      ensures fetch == FetchOf(old(files), family, env, ask)
      ensures files == if fetch.Fetched? then old(files)[CacheName(family) := fetch.cache] else old(files)
    {
      if CacheName(family) in files {
        if !files[CacheName(family)].NotJson? {
          return FetchFailed;
        }
        var bufLines := BufLines(files[CacheName(family)].text);
        var lines := [];
        for i := 0 to |bufLines|
          invariant lines == bufLines[..i]
        {
          lines := lines + [bufLines[i]];
        }
        assert lines == bufLines;
        var cacheData := SplitLines(lines, env.codec.parseHttp);
        if !cacheData.Parsed? {
          return FetchFailed;
        }
        if !IsExpired(cacheData.header, SECONDS_IN_WEEK, ask.now, env.parseDate) {
          return Fresh;
        }
      }
      if ask.response.None? {
        return FetchFailed;
      }
      var iana := ask.response.value;
      var contents := ToLines(env.codec.printHttp(iana.http), env.codec.printRegistry(iana.services));
      files := files[CacheName(family) := NotJson(contents)];
      return Fetched(iana.services, NotJson(contents));
    }

    /**
     One registry: unless its cache is still fresh it is fetched, its cache is written, its old
     templates go and its new ones come. `list` is the order in which the directory is read.
     */
    method RefreshFamily(family: RegistryType, env: Setting, ask: Ask, list: Lister)
      returns (ok: bool, newData: bool)
      requires ListsEverything(list)
      modifies this
      ensures var fetch := FetchOf(old(files), family, env, ask);
        && newData == (ok && fetch.Fetched?)
        && (ok <==> Succeeds(family, env.parse, fetch))
        && files == AfterRefresh(old(files), family, env.parse, fetch)
    {
      var fetch := FetchIanaRegistry(family, env, ask);
      if fetch.Fresh? {
        return true, false;
      }
      if fetch.FetchFailed? {
        return false, false;
      }
      RemovePrevious(family, list(files));
      ok := MakeTemplates(family, env.parse, fetch.services);
      NoneMalformed(family, env.parse, fetch.services);
      newData := ok;
    }

    /** `process_bootstrap`: the five registries in turn, then a trigger for the loader if any was new. */
    method ProcessBootstrap(env: Setting, asks: Asks, list: Lister, updateOnBootstrap: bool) returns (ok: bool)
      requires ListsEverything(list)
      modifies this
      ensures ok <==> FirstFailing(env.parse, FetchesOf(old(files), env, asks), 0) == |FAMILIES|
      ensures files == AfterPass(old(files), env, asks, updateOnBootstrap)
    {
      var newData := false;
      ghost var start := files;
      ghost var fetch := FetchesOf(start, env, asks);
      for i := 0 to |FAMILIES|
        invariant FirstFailing(env.parse, fetch, 0) == FirstFailing(env.parse, fetch, i)
        invariant newData <==> AnyFetched(fetch, i)
        invariant files == AfterAll(start, env.parse, fetch, i)
      {
        FetchUnmoved(start, env, asks, i);
        var refreshed, new_ := RefreshFamily(FAMILIES[i], env, asks(FAMILIES[i]), list);
        if !refreshed {
          PassFails(start, env, asks, updateOnBootstrap, i);
          return false;
        }
        newData := newData || new_;
        AnyFetchedStep(fetch, i);
      }
      PassSucceeds(start, env, asks, updateOnBootstrap);
      if newData {
        files := files[(if updateOnBootstrap then UPDATE else RELOAD) := NotJson("")];
      }
      return true;
    }
  }

  /** The order in which a directory is read. */
  type Lister = Directory -> seq<string>

  ghost predicate ListsEverything(list: Lister) {
    forall d :: IsListing(d, list(d))
  }

  // ---- what a pass leaves -----------------------------------------------------------------

  /**
   Whether a name of the family is as it should be after a refresh that had the outcome: it is one of
   the templates of the services before the first malformed one, or, when nothing was fetched, what
   it was before.
   */
  predicate NoResidueIn(
    files: Directory, after: Directory, family: RegistryType, parse: NetworkParser, outcome: Fetch, name: string)
  {
    if outcome.Fetched?
    then name in after <==> IsTemplate(family, FirstMalformed(family, parse, outcome.services, 0), name)
    else SameAt(files, after, name)
  }

  lemma FamilyJustRefreshed(
    files: Directory, parse: NetworkParser, fetch: RegistryType -> Fetch, i: nat, name: string)
    requires i < |FAMILIES| && Owned(FAMILIES[i], name)
    ensures NoResidueIn(files, AfterAll(files, parse, fetch, i + 1), FAMILIES[i], parse, fetch(FAMILIES[i]), name)
  {
    var before, family := AfterAll(files, parse, fetch, i), FAMILIES[i];
    EarlierFamiliesUntouched(files, parse, fetch, i, i, name);
    if fetch(family).Fetched? {
      RefreshLeavesExactly(before, family, parse, fetch(family), name);
    }
  }

  lemma LaterFamilyRefreshed(
    files: Directory, parse: NetworkParser, fetch: RegistryType -> Fetch, n: nat, i: nat, name: string)
    requires i < n - 1 && n <= |FAMILIES| && (Owned(FAMILIES[i], name) || name == CacheName(FAMILIES[i]))
    ensures SameAt(AfterAll(files, parse, fetch, n - 1), AfterAll(files, parse, fetch, n), name)
  {
    FamiliesDiffer(i, n - 1);
    RefreshIsLocal(AfterAll(files, parse, fetch, n - 1), FAMILIES[n - 1], parse, fetch(FAMILIES[n - 1]), FAMILIES[i], name);
  }

  /**
   After any number of registries of a pass, each family that was fetched holds exactly its new
   templates, as far as its services are well formed, and each that was not holds what it held.
   */
  lemma {:induction false} RegistriesLeaveNoResidue(
    files: Directory, parse: NetworkParser, fetch: RegistryType -> Fetch, n: nat, i: nat, name: string)
    requires i < n <= |FAMILIES| && Owned(FAMILIES[i], name)
    ensures NoResidueIn(files, AfterAll(files, parse, fetch, n), FAMILIES[i], parse, fetch(FAMILIES[i]), name)
  {
    if i == n - 1 {
      FamilyJustRefreshed(files, parse, fetch, i, name);
    } else {
      RegistriesLeaveNoResidue(files, parse, fetch, n - 1, i, name);
      LaterFamilyRefreshed(files, parse, fetch, n, i, name);
    }
  }

  lemma TriggerIsElsewhere(files: Directory, fetch: RegistryType -> Fetch, updateOnBootstrap: bool, family: RegistryType, name: string)
    requires Owned(family, name) || name == CacheName(family)
    ensures SameAt(files, Triggered(files, fetch, updateOnBootstrap), name)
  {
    CachesNotOwned(family, family);
    CacheNamesDiffer(family, family);
  }

  /**
   After a pass that reaches a family: its files are its new templates up to the first malformed
   service if it was fetched, and what they were if not. A pass that ends earlier leaves them alone.
   */
  lemma PassLeavesNoResidue(
    files: Directory, env: Setting, asks: Asks, updateOnBootstrap: bool, i: nat, name: string)
    requires i < |FAMILIES| && Owned(FAMILIES[i], name)
    ensures var fetch, after := FetchesOf(files, env, asks), AfterPass(files, env, asks, updateOnBootstrap);
      if i <= FirstFailing(env.parse, fetch, 0)
      then NoResidueIn(files, after, FAMILIES[i], env.parse, fetch(FAMILIES[i]), name)
      else SameAt(files, after, name)
  {
    var fetch := FetchesOf(files, env, asks);
    var n := FirstFailing(env.parse, fetch, 0);
    if n == |FAMILIES| {
      RegistriesLeaveNoResidue(files, env.parse, fetch, n, i, name);
      TriggerIsElsewhere(AfterAll(files, env.parse, fetch, n), fetch, updateOnBootstrap, FAMILIES[i], name);
    } else if i <= n {
      RegistriesLeaveNoResidue(files, env.parse, fetch, n + 1, i, name);
    } else {
      EarlierFamiliesUntouched(files, env.parse, fetch, n + 1, i, name);
    }
  }

  lemma {:induction false} RegistriesTouchNoTrigger(
    files: Directory, parse: NetworkParser, fetch: RegistryType -> Fetch, n: nat, trigger: string)
    requires n <= |FAMILIES| && (trigger == UPDATE || trigger == RELOAD)
    ensures SameAt(files, AfterAll(files, parse, fetch, n), trigger)
  {
    if n > 0 {
      RegistriesTouchNoTrigger(files, parse, fetch, n - 1, trigger);
      RefreshIsLocal(AfterAll(files, parse, fetch, n - 1), FAMILIES[n - 1], parse, fetch(FAMILIES[n - 1]), FAMILIES[n - 1], trigger);
    }
  }

  /** A pass that fails touches no trigger, so what it has already rewritten is not loaded on its account. */
  lemma FailedPassTouchesNoTrigger(
    files: Directory, env: Setting, asks: Asks, updateOnBootstrap: bool, trigger: string)
    requires FirstFailing(env.parse, FetchesOf(files, env, asks), 0) < |FAMILIES|
    requires trigger == UPDATE || trigger == RELOAD
    ensures SameAt(files, AfterPass(files, env, asks, updateOnBootstrap), trigger)
  {
    var fetch := FetchesOf(files, env, asks);
    RegistriesTouchNoTrigger(files, env.parse, fetch, FirstFailing(env.parse, fetch, 0) + 1, trigger);
  }

  // ---- caches that outlive a failure ------------------------------------------------------

  /** The directory holds a cache of the family with these HTTP data. */
  ghost predicate HoldsCache(files: Directory, family: RegistryType, env: Setting, http: HttpData) {
    && CacheName(family) in files && files[CacheName(family)].NotJson?
    && var lines := SplitLines(BufLines(files[CacheName(family)].text), env.codec.parseHttp);
      lines.Parsed? && lines.header == http
  }

  /** A cache that can be read is fresh exactly until the deadline that its HTTP data give. */
  lemma CacheIsFreshUntilDeadline(files: Directory, family: RegistryType, env: Setting, ask: Ask, http: HttpData)
    requires HoldsCache(files, family, env, http)
    ensures FetchOf(files, family, env, ask).Fresh? <==> ask.now < Deadline(http, SECONDS_IN_WEEK, env.parseDate)
  {
    ExpiryHasOneDeadline(http, SECONDS_IN_WEEK, ask.now, env.parseDate);
  }

  /** After a refresh that fetched the family, error-free or not, its cache can be read. */
  lemma FetchedCacheIsHeld(files: Directory, family: RegistryType, env: Setting, ask: Ask)
    requires Stores.Sound(env.codec) && FetchOf(files, family, env, ask).Fetched?
    ensures ask.response.Some?
    ensures HoldsCache(AfterRefresh(files, family, env.parse, FetchOf(files, family, env, ask)), family, env,
                       ask.response.value.http)
  {
    var held := ask.response.value;
    RefreshLeavesExactly(files, family, env.parse, FetchOf(files, family, env, ask), "");
    CacheFileRoundTrip(env.codec.printHttp(held.http), env.codec.printRegistry(held.services), env.codec.parseHttp, held.http);
  }

  lemma {:induction false} FreshFamilyUntouched(
    files: Directory, parse: NetworkParser, fetch: RegistryType -> Fetch, n: nat, i: nat, name: string)
    requires n <= |FAMILIES| && i < |FAMILIES| && (Owned(FAMILIES[i], name) || name == CacheName(FAMILIES[i]))
    requires fetch(FAMILIES[i]).Fresh?
    ensures SameAt(files, AfterAll(files, parse, fetch, n), name)
  {
    if n > 0 {
      FreshFamilyUntouched(files, parse, fetch, n - 1, i, name);
      if n - 1 != i {
        FamiliesDiffer(n - 1, i);
        RefreshIsLocal(AfterAll(files, parse, fetch, n - 1), FAMILIES[n - 1], parse, fetch(FAMILIES[n - 1]), FAMILIES[i], name);
      }
    }
  }

  /** The directory after any number of passes. */
  function AfterPasses(files: Directory, env: Setting, passes: seq<Asks>, updateOnBootstrap: bool): Directory {
    if passes == [] then files
    else AfterPass(AfterPasses(files, env, passes[..|passes| - 1], updateOnBootstrap), env, passes[|passes| - 1], updateOnBootstrap)
  }

  lemma PassBeforeDeadline(
    files: Directory, env: Setting, asks: Asks, updateOnBootstrap: bool, http: HttpData, i: nat, name: string)
    requires i < |FAMILIES| && (Owned(FAMILIES[i], name) || name == CacheName(FAMILIES[i]))
    requires HoldsCache(files, FAMILIES[i], env, http)
    requires asks(FAMILIES[i]).now < Deadline(http, SECONDS_IN_WEEK, env.parseDate)
    ensures SameAt(files, AfterPass(files, env, asks, updateOnBootstrap), name)
  {
    var fetch := FetchesOf(files, env, asks);
    var n := FirstFailing(env.parse, fetch, 0);
    CacheIsFreshUntilDeadline(files, FAMILIES[i], env, asks(FAMILIES[i]), http);
    FreshFamilyUntouched(files, env.parse, fetch, if n == |FAMILIES| then n else n + 1, i, name);
    TriggerIsElsewhere(AfterAll(files, env.parse, fetch, n), fetch, updateOnBootstrap, FAMILIES[i], name);
  }

  /** Passes before the deadline of a cache leave the family as it is, complete or not, however they end. */
  lemma {:induction false} PassesBeforeDeadline(
    files: Directory, env: Setting, passes: seq<Asks>, updateOnBootstrap: bool, http: HttpData, i: nat, name: string)
    requires i < |FAMILIES| && (Owned(FAMILIES[i], name) || name == CacheName(FAMILIES[i]))
    requires HoldsCache(files, FAMILIES[i], env, http)
    requires forall asks :: asks in passes ==> asks(FAMILIES[i]).now < Deadline(http, SECONDS_IN_WEEK, env.parseDate)
    ensures SameAt(files, AfterPasses(files, env, passes, updateOnBootstrap), name)
    ensures HoldsCache(AfterPasses(files, env, passes, updateOnBootstrap), FAMILIES[i], env, http)
  {
    if passes != [] {
      var front, last := passes[..|passes| - 1], passes[|passes| - 1];
      PassesBeforeDeadline(files, env, front, updateOnBootstrap, http, i, name);
      PassBeforeDeadline(AfterPasses(files, env, front, updateOnBootstrap), env, last, updateOnBootstrap, http, i, name);
      PassBeforeDeadline(AfterPasses(files, env, front, updateOnBootstrap), env, last, updateOnBootstrap, http, i,
                         CacheName(FAMILIES[i]));
    }
  }

  lemma MalformedFetchEndsPass(
    files: Directory, env: Setting, asks: Asks, updateOnBootstrap: bool, i: nat, name: string)
    requires i < |FAMILIES| && (Owned(FAMILIES[i], name) || name == CacheName(FAMILIES[i]))
    requires FirstFailing(env.parse, FetchesOf(files, env, asks), 0) == i
    ensures SameAt(AfterRefresh(files, FAMILIES[i], env.parse, FetchesOf(files, env, asks)(FAMILIES[i])),
                   AfterPass(files, env, asks, updateOnBootstrap), name)
  {
    var fetch, family := FetchesOf(files, env, asks), FAMILIES[i];
    var before := AfterAll(files, env.parse, fetch, i);
    EarlierFamiliesUntouched(files, env.parse, fetch, i, i, name);
    if fetch(family).Fetched? {
      RefreshLeavesExactly(files, family, env.parse, fetch(family), name);
      RefreshLeavesExactly(before, family, env.parse, fetch(family), name);
      if name != CacheName(family) {
        SameTemplates(files, before, family, env.parse, fetch(family), name);
      }
    }
  }

  lemma SameTemplates(
    files: Directory, before: Directory, family: RegistryType, parse: NetworkParser, fetch: Fetch, name: string)
    requires fetch.Fetched? && Owned(family, name)
    ensures SameAt(AfterRefresh(files, family, parse, fetch), AfterRefresh(before, family, parse, fetch), name)
  {
    RefreshLeavesExactly(files, family, parse, fetch, name);
    RefreshLeavesExactly(before, family, parse, fetch, name);
    var n := FirstMalformed(family, parse, fetch.services, 0);
    if IsTemplate(family, n, name) {
      var num: nat :| num < n && name == TemplateName(family, num);
      assert HoldsTemplate(AfterRefresh(files, family, parse, fetch), name, ServiceTemplate(family, parse, fetch.services[num]));
      assert HoldsTemplate(AfterRefresh(before, family, parse, fetch), name, ServiceTemplate(family, parse, fetch.services[num]));
    }
  }

  /** What a pass leaves of the family at which it ends. */
  lemma FailedTemplates(files: Directory, env: Setting, asks: Asks, updateOnBootstrap: bool, i: nat, name: string)
    requires i < |FAMILIES| && Owned(FAMILIES[i], name)
    requires FirstFailing(env.parse, FetchesOf(files, env, asks), 0) == i
    requires FetchOf(files, FAMILIES[i], env, asks(FAMILIES[i])).Fetched?
    ensures var services := asks(FAMILIES[i]).response.value.services;
      var n := FirstMalformed(FAMILIES[i], env.parse, services, 0);
      && n < |services|
      && (name in AfterPass(files, env, asks, updateOnBootstrap) <==> IsTemplate(FAMILIES[i], n, name))
  {
    NoneMalformed(FAMILIES[i], env.parse, asks(FAMILIES[i]).response.value.services);
    PassLeavesNoResidue(files, env, asks, updateOnBootstrap, i, name);
  }

  /** The cache that a failed pass has written can be read. */
  lemma FailedCache(files: Directory, env: Setting, asks: Asks, updateOnBootstrap: bool, i: nat)
    requires Stores.Sound(env.codec) && i < |FAMILIES|
    requires FirstFailing(env.parse, FetchesOf(files, env, asks), 0) == i
    requires FetchOf(files, FAMILIES[i], env, asks(FAMILIES[i])).Fetched?
    ensures HoldsCache(AfterPass(files, env, asks, updateOnBootstrap), FAMILIES[i], env, asks(FAMILIES[i]).response.value.http)
  {
    FetchedCacheIsHeld(files, FAMILIES[i], env, asks(FAMILIES[i]));
    MalformedFetchEndsPass(files, env, asks, updateOnBootstrap, i, CacheName(FAMILIES[i]));
  }

  /**
   When a pass ends at a fetched registry with a malformed service, the family is left with the
   templates before that service, and it stays so through every later pass until the deadline of the
   cache that the failed pass wrote.
   */
  lemma PartialFamilyStays(
    files: Directory, env: Setting, asks: Asks, later: seq<Asks>, updateOnBootstrap: bool, i: nat, name: string)
    requires Stores.Sound(env.codec)
    requires i < |FAMILIES| && Owned(FAMILIES[i], name)
    requires FirstFailing(env.parse, FetchesOf(files, env, asks), 0) == i
    requires FetchOf(files, FAMILIES[i], env, asks(FAMILIES[i])).Fetched?
    requires var http := asks(FAMILIES[i]).response.value.http;
      forall a :: a in later ==> a(FAMILIES[i]).now < Deadline(http, SECONDS_IN_WEEK, env.parseDate)
    ensures var services := asks(FAMILIES[i]).response.value.services;
      var n := FirstMalformed(FAMILIES[i], env.parse, services, 0);
      var final := AfterPasses(AfterPass(files, env, asks, updateOnBootstrap), env, later, updateOnBootstrap);
      n < |services| && (name in final <==> IsTemplate(FAMILIES[i], n, name))
  {
    var failed := AfterPass(files, env, asks, updateOnBootstrap);
    FailedTemplates(files, env, asks, updateOnBootstrap, i, name);
    FailedCache(files, env, asks, updateOnBootstrap, i);
    PassesBeforeDeadline(failed, env, later, updateOnBootstrap, asks(FAMILIES[i]).response.value.http, i, name);
  }
}
