/**
 When a bootstrap pass fetches a registry, and what the directory holds afterwards: that the server does
 bootstrap, from nothing and again when its caches have expired.
 */
module BootstrapOutcomes {
  import opened Wrappers
  import opened Sequences
  import opened IanaRegistry
  import opened HttpCache
  import opened Storage
  import opened ServerBootstrap
  import opened BootstrapPasses
  import Stores = BootstrapStores

  // ---- what is asked for ------------------------------------------------------------------

  /** There is no cache of the family, or there is one that has reached its deadline. */
  ghost predicate NeedsFetch(files: Directory, family: RegistryType, env: Setting, now: int) {
    || CacheName(family) !in files
    || exists http :: HoldsCache(files, family, env, http) && Deadline(http, SECONDS_IN_WEEK, env.parseDate) <= now
  }

  /** There is a cache that is good for some time yet. */
  ghost predicate HasFreshCache(files: Directory, family: RegistryType, env: Setting, now: int) {
    exists http :: HoldsCache(files, family, env, http) && now < Deadline(http, SECONDS_IN_WEEK, env.parseDate)
  }

  /** There is a cache, and it cannot be read. */
  ghost predicate HasBrokenCache(files: Directory, family: RegistryType, env: Setting) {
    CacheName(family) in files && forall http :: !HoldsCache(files, family, env, http)
  }

  lemma CacheReadsExactly(files: Directory, family: RegistryType, env: Setting, now: int)
    requires CacheName(family) in files
    ensures var fresh_ := CacheIsFresh(files[CacheName(family)], env, now);
      && (fresh_ == Some(true) <==> HasFreshCache(files, family, env, now))
      && (fresh_ == Some(false) <==> NeedsFetch(files, family, env, now))
      && (fresh_ == None <==> HasBrokenCache(files, family, env))
  {
    forall http | HoldsCache(files, family, env, http)
      ensures CacheIsFresh(files[CacheName(family)], env, now) == Some(now < Deadline(http, SECONDS_IN_WEEK, env.parseDate))
    {
      ExpiryHasOneDeadline(http, SECONDS_IN_WEEK, now, env.parseDate);
    }
    if files[CacheName(family)].NotJson? {
      var lines := SplitLines(BufLines(files[CacheName(family)].text), env.codec.parseHttp);
      if lines.Parsed? {
        assert HoldsCache(files, family, env, lines.header);
      }
    }
  }

  /**
   A registry is fetched if and only if the request is answered and there is no cache, or one that can be
   read and has expired. It is left alone exactly if its cache is good for some time yet; and asking for
   it fails exactly if the cache cannot be read, or the request is needed and not answered.
   */
  lemma FetchedExactly(files: Directory, family: RegistryType, env: Setting, ask: Ask)
    ensures var fetch := FetchOf(files, family, env, ask);
      && (fetch.Fetched? <==> NeedsFetch(files, family, env, ask.now) && ask.response.Some?)
      && (fetch.Fetched? ==> fetch.services == ask.response.value.services)
      && (fetch.Fresh? <==> HasFreshCache(files, family, env, ask.now))
      && (fetch.FetchFailed? <==>
            HasBrokenCache(files, family, env) || (NeedsFetch(files, family, env, ask.now) && ask.response.None?))
  {
    if CacheName(family) in files {
      CacheReadsExactly(files, family, env, ask.now);
    }
  }

  // ---- one pass ---------------------------------------------------------------------------

  lemma IndexOf(family: RegistryType) returns (i: nat)
    ensures i < |FAMILIES| && FAMILIES[i] == family
  {
    i := match family case Dns => 0 case Asn => 1 case Ipv4 => 2 case Ipv6 => 3 case ObjectTags => 4;
  }

  /**
   What a pass makes of a family that it reaches. If a request is needed and answered, the family holds
   exactly the templates of the answer, up to its first malformed service, and the cache is that of the
   answer. In every other case its templates are as they were, and the pass fails unless the cache is
   fresh.
   */
  lemma ReachedFamily(
    files: Directory, env: Setting, asks: Asks, updateOnBootstrap: bool, i: nat, name: string)
    requires i < |FAMILIES| && i <= FirstFailing(env.parse, FetchesOf(files, env, asks), 0) && Owned(FAMILIES[i], name)
    ensures var family, after := FAMILIES[i], AfterPass(files, env, asks, updateOnBootstrap);
      var ask := asks(family);
      if NeedsFetch(files, family, env, ask.now) && ask.response.Some?
      then name in after <==> IsTemplate(family, FirstMalformed(family, env.parse, ask.response.value.services, 0), name)
      else SameAt(files, after, name)
           && (HasFreshCache(files, family, env, ask.now) || FirstFailing(env.parse, FetchesOf(files, env, asks), 0) == i)
  {
    FetchedExactly(files, FAMILIES[i], env, asks(FAMILIES[i]));
    PassLeavesNoResidue(files, env, asks, updateOnBootstrap, i, name);
    var n := FirstFailing(env.parse, FetchesOf(files, env, asks), 0);
    assert i < n ==> Succeeds(FAMILIES[i], env.parse, FetchesOf(files, env, asks)(FAMILIES[i]));
  }

  /** Every registry needs a request, and gets an answer without malformed services. */
  ghost predicate AllAnswerWell(files: Directory, env: Setting, asks: Asks) {
    forall family: RegistryType ::
      && NeedsFetch(files, family, env, asks(family).now)
      && asks(family).response.Some?
      && WellFormedServices(family, env.parse, asks(family).response.value.services)
  }

  lemma {:induction false} AllSucceed(files: Directory, env: Setting, asks: Asks, i: nat)
    requires i <= |FAMILIES| && AllAnswerWell(files, env, asks)
    ensures FirstFailing(env.parse, FetchesOf(files, env, asks), i) == |FAMILIES|
    decreases |FAMILIES| - i
  {
    if i < |FAMILIES| {
      FetchedExactly(files, FAMILIES[i], env, asks(FAMILIES[i]));
      assert Succeeds(FAMILIES[i], env.parse, FetchesOf(files, env, asks)(FAMILIES[i]));
      AllSucceed(files, env, asks, i + 1);
    }
  }

  /** What stands under a name of the family, or of its cache, is left by the registries after it. */
  lemma {:induction false} StaysThrough(
    files: Directory, parse: NetworkParser, fetch: RegistryType -> Fetch, i: nat, n: nat, name: string)
    requires i < n <= |FAMILIES| && (Owned(FAMILIES[i], name) || name == CacheName(FAMILIES[i]))
    ensures SameAt(AfterAll(files, parse, fetch, i + 1), AfterAll(files, parse, fetch, n), name)
    decreases n
  {
    if n > i + 1 {
      StaysThrough(files, parse, fetch, i, n - 1, name);
      LaterFamilyRefreshed(files, parse, fetch, n, i, name);
    }
  }

  /** After a pass that succeeds, each name of a fetched family stands as the refresh left it. */
  lemma FamilyAfterPass(
    files: Directory, env: Setting, asks: Asks, updateOnBootstrap: bool, i: nat, name: string)
    requires i < |FAMILIES| && FirstFailing(env.parse, FetchesOf(files, env, asks), 0) == |FAMILIES|
    requires Owned(FAMILIES[i], name) || name == CacheName(FAMILIES[i])
    ensures var fetch := FetchesOf(files, env, asks);
      SameAt(AfterAll(files, env.parse, fetch, i + 1), AfterPass(files, env, asks, updateOnBootstrap), name)
  {
    var fetch := FetchesOf(files, env, asks);
    PassSucceeds(files, env, asks, updateOnBootstrap);
    StaysThrough(files, env.parse, fetch, i, |FAMILIES|, name);
    TriggerIsElsewhere(AfterAll(files, env.parse, fetch, |FAMILIES|), fetch, updateOnBootstrap, FAMILIES[i], name);
  }

  /** The directory holds this cache of the family. */
  ghost predicate HoldsText(files: Directory, family: RegistryType, content: FileContent) {
    CacheName(family) in files && files[CacheName(family)] == content
  }

  lemma CompleteStays(before: Directory, after: Directory, family: RegistryType, parse: NetworkParser, services: seq<Service>)
    requires Complete(before, family, parse, services)
    requires forall name :: Owned(family, name) ==> SameAt(before, after, name)
    ensures Complete(after, family, parse, services)
  {
    forall num: nat | num < |services|
      ensures HoldsTemplate(after, TemplateName(family, num), ServiceTemplate(family, parse, services[num]))
    {
      TemplateIsOwned(family, num);
      assert SameAt(before, after, TemplateName(family, num));
      assert HoldsTemplate(before, TemplateName(family, num), ServiceTemplate(family, parse, services[num]));
    }
  }

  lemma RefreshedFamily(files: Directory, env: Setting, asks: Asks, i: nat)
    requires i < |FAMILIES| && AllAnswerWell(files, env, asks)
    ensures var refreshed, family := AfterAll(files, env.parse, FetchesOf(files, env, asks), i + 1), FAMILIES[i];
      var held := asks(family).response.value;
      Complete(refreshed, family, env.parse, held.services) && HoldsText(refreshed, family, CacheOf(env, held))
  {
    var fetch, family := FetchesOf(files, env, asks), FAMILIES[i];
    FetchedExactly(files, family, env, asks(family));
    NoResidue(AfterAll(files, env.parse, fetch, i), family, env.parse, fetch(family), CacheName(family));
  }

  lemma FamilyKept(files: Directory, env: Setting, asks: Asks, updateOnBootstrap: bool, i: nat)
    requires i < |FAMILIES| && AllAnswerWell(files, env, asks)
    ensures forall name :: Owned(FAMILIES[i], name) || name == CacheName(FAMILIES[i]) ==>
      SameAt(AfterAll(files, env.parse, FetchesOf(files, env, asks), i + 1), AfterPass(files, env, asks, updateOnBootstrap), name)
  {
    AllSucceed(files, env, asks, 0);
    forall name | Owned(FAMILIES[i], name) || name == CacheName(FAMILIES[i])
      ensures SameAt(AfterAll(files, env.parse, FetchesOf(files, env, asks), i + 1),
                     AfterPass(files, env, asks, updateOnBootstrap), name)
    {
      FamilyAfterPass(files, env, asks, updateOnBootstrap, i, name);
    }
  }

  lemma FamilyIsComplete(files: Directory, env: Setting, asks: Asks, updateOnBootstrap: bool, i: nat)
    requires i < |FAMILIES| && AllAnswerWell(files, env, asks)
    ensures var after, family := AfterPass(files, env, asks, updateOnBootstrap), FAMILIES[i];
      Complete(after, family, env.parse, asks(family).response.value.services)
  {
    var family := FAMILIES[i];
    RefreshedFamily(files, env, asks, i);
    FamilyKept(files, env, asks, updateOnBootstrap, i);
    CompleteStays(AfterAll(files, env.parse, FetchesOf(files, env, asks), i + 1),
                  AfterPass(files, env, asks, updateOnBootstrap), family, env.parse, asks(family).response.value.services);
  }

  lemma FamilyIsCached(files: Directory, env: Setting, asks: Asks, updateOnBootstrap: bool, i: nat)
    requires i < |FAMILIES| && AllAnswerWell(files, env, asks)
    ensures var after, family := AfterPass(files, env, asks, updateOnBootstrap), FAMILIES[i];
      HoldsText(after, family, CacheOf(env, asks(family).response.value))
  {
    RefreshedFamily(files, env, asks, i);
    AllSucceed(files, env, asks, 0);
    FamilyAfterPass(files, env, asks, updateOnBootstrap, i, CacheName(FAMILIES[i]));
  }

  /**
   From a directory without caches, or with expired ones only, and with well-formed answers: the pass
   succeeds; every family is complete and its cache is that of the answer; and of the two triggers one is
   touched, the one to update if the server is to update on bootstrap, and else the one to reload.
   */
  lemma ServerBootstraps(files: Directory, env: Setting, asks: Asks, updateOnBootstrap: bool)
    requires AllAnswerWell(files, env, asks)
    ensures FirstFailing(env.parse, FetchesOf(files, env, asks), 0) == |FAMILIES|
    ensures forall family: RegistryType ::
      var after, held := AfterPass(files, env, asks, updateOnBootstrap), asks(family).response.value;
      Complete(after, family, env.parse, held.services) && HoldsText(after, family, CacheOf(env, held))
    ensures var after := AfterPass(files, env, asks, updateOnBootstrap);
      if updateOnBootstrap
      then "update" in after && after["update"] == NotJson("") && SameAt(files, after, "reload")
      else "reload" in after && after["reload"] == NotJson("") && SameAt(files, after, "update")
  {
    AllSucceed(files, env, asks, 0);
    forall family: RegistryType
      ensures var after, held := AfterPass(files, env, asks, updateOnBootstrap), asks(family).response.value;
        Complete(after, family, env.parse, held.services) && HoldsText(after, family, CacheOf(env, held))
    {
      var i := IndexOf(family);
      FamilyIsComplete(files, env, asks, updateOnBootstrap, i);
      FamilyIsCached(files, env, asks, updateOnBootstrap, i);
    }
    OneTrigger(files, env, asks, updateOnBootstrap);
  }

  lemma OneTrigger(files: Directory, env: Setting, asks: Asks, updateOnBootstrap: bool)
    requires AllAnswerWell(files, env, asks)
    ensures var after := AfterPass(files, env, asks, updateOnBootstrap);
      if updateOnBootstrap
      then "update" in after && after["update"] == NotJson("") && SameAt(files, after, "reload")
      else "reload" in after && after["reload"] == NotJson("") && SameAt(files, after, "update")
  {
    var fetch := FetchesOf(files, env, asks);
    AllSucceed(files, env, asks, 0);
    PassSucceeds(files, env, asks, updateOnBootstrap);
    FetchedExactly(files, FAMILIES[0], env, asks(FAMILIES[0]));
    assert AnyFetched(fetch, |FAMILIES|);
    RegistriesTouchNoTrigger(files, env.parse, fetch, |FAMILIES|, "update");
    RegistriesTouchNoTrigger(files, env.parse, fetch, |FAMILIES|, "reload");
  }

  /** A pass in which every cache is fresh changes nothing at all. */
  lemma {:induction false} AllFresh(files: Directory, env: Setting, asks: Asks, n: nat)
    requires n <= |FAMILIES|
    requires forall family: RegistryType :: HasFreshCache(files, family, env, asks(family).now)
    ensures AfterAll(files, env.parse, FetchesOf(files, env, asks), n) == files
    ensures FirstFailing(env.parse, FetchesOf(files, env, asks), |FAMILIES| - n) == |FAMILIES|
    ensures !AnyFetched(FetchesOf(files, env, asks), n)
  {
    if n > 0 {
      AllFresh(files, env, asks, n - 1);
      FetchedExactly(files, FAMILIES[n - 1], env, asks(FAMILIES[n - 1]));
      FetchedExactly(files, FAMILIES[|FAMILIES| - n], env, asks(FAMILIES[|FAMILIES| - n]));
      AnyFetchedStep(FetchesOf(files, env, asks), n - 1);
    }
  }

  lemma FreshPassChangesNothing(files: Directory, env: Setting, asks: Asks, updateOnBootstrap: bool)
    requires forall family: RegistryType :: HasFreshCache(files, family, env, asks(family).now)
    ensures AfterPass(files, env, asks, updateOnBootstrap) == files
  {
    AllFresh(files, env, asks, |FAMILIES|);
    PassSucceeds(files, env, asks, updateOnBootstrap);
  }
}
