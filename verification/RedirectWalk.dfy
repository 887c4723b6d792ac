/**
 Answering a domain or nameserver query. In bootstrap mode a query that finds nothing walks up the
 labels of the name until it meets a stored redirect.
 */
module RedirectWalk {
  import opened Wrappers
  import opened Text
  import opened Responses
  import opened Storage

  function Lookup(visible: Contents, key: Key): Response {
    if key in visible then visible[key] else NOT_FOUND
  }

  /** `bootstrap_redirect`, and `to_*_bootstrap` for the error responses that it is applied to. */
  function ToBootstrap(r: Response, path: string, id: string): Response {
    match r
    case ErrorResponse(e) => (
      match RedirectTarget(e)
      case Some(href) => ErrorResponse(NewRedirect(href + path + "/" + id))
      case None => r
    )
    case _ => r
  }

  /**
   A redirect is extended with the path and the id and becomes a temporary redirect; anything that does not
   lead anywhere stays as it is.
   */
  lemma BootstrapExtendsExactly(r: Response, path: string, id: string)
    ensures ToBootstrap(r, path, id)
         == if r.ErrorResponse? && RedirectTarget(r.error).Some?
            then ErrorResponse(NewRedirect(RedirectTarget(r.error).value + path + "/" + id)) else r
    ensures var e := NewRedirect(id);
      && e.errorCode == 307 && RedirectTarget(e) == Some(id)
      && e.notices.Some? && |e.notices.value| == 1 && e.notices.value[0].links.Some? && |e.notices.value[0].links.value| == 1
  {
  }

  /** Without trailing dots, without surrounding white space, and in lower case. */
  function Canonical(name: string): string {
    ToAsciiLower(Trim(TrimEndChar(name, '.')))
  }

  /**
   Upper case, white space around a name, and dots at the end of all that, do not matter: the name is
   looked up in lower case without them.
   */
  lemma CanonicalName(before: string, name: string, after: string, dots: string)
    requires AllWhitespace(before) && AllWhitespace(after) && IsTrimmed(name)
    requires name != "" ==> name[|name| - 1] != '.'
    requires forall i :: 0 <= i < |dots| ==> dots[i] == '.'
    ensures Canonical(before + name + after + dots) == ToAsciiLower(name)
  {
    var text := before + name + after;
    assert text == before + (name + after);
    if text != "" {
      assert text[|text| - 1] == if after != "" then after[|after| - 1] else if name != "" then name[|name| - 1] else before[|before| - 1];
      assert !IsWhitespace('.');
    }
    TrimEndOf(text, '.', dots);
    TrimSurrounded(before, name, after);
  }

  // ---- the walk ---------------------------------------------------------------------------

  /** The part of the name after one of its dots. */
  ghost predicate IsLabelSuffix(name: string, suffix: string) {
    exists i: nat | i < |name| :: SuffixAfterDot(name, suffix, i)
  }

  predicate SuffixAfterDot(name: string, suffix: string, i: nat) {
    i < |name| && name[i] == '.' && name[i + 1..] == suffix
  }

  predicate HoldsRedirect(visible: Contents, name: string) {
    Lookup(visible, LdhName(name)).IsRedirect()
  }

  function AfterFirstDot(s: string): (after: Option<string>)
    ensures after.Some? ==> |after.value| < |s|
  {
    SplitOnceSplits(s, '.');
    match SplitOnce(s, '.')
    case Some((_, after)) => Some(after)
    case None => None
  }

  /** The first redirect met on the way up from the name. */
  function FirstRedirect(visible: Contents, name: string): Option<string>
    decreases |name|
  {
    match AfterFirstDot(name)
    case None => None
    case Some(after) => if HoldsRedirect(visible, after) then Some(after) else FirstRedirect(visible, after)
  }

  lemma LabelSuffixIsShorter(name: string, suffix: string)
    requires IsLabelSuffix(name, suffix)
    ensures |suffix| < |name| && EndsWith(name, suffix)
  {
    var i: nat :| i < |name| && SuffixAfterDot(name, suffix, i);
    assert |name| - |suffix| == i + 1;
  }

  lemma SuffixStepDown(name: string, suffix: string, i: nat)
    requires i < |name| && SuffixAfterDot(name, suffix, i)
    ensures AfterFirstDot(name).Some?
    ensures suffix == AfterFirstDot(name).value || IsLabelSuffix(AfterFirstDot(name).value, suffix)
  {
    SplitOnceSplits(name, '.');
    var (before, after) := SplitOnce(name, '.').value;
    var n := |before|;
    assert forall j :: 0 <= j < n ==> name[j] == before[j];
    if i > n {
      assert after[i - n - 1] == name[i];
      assert SuffixAfterDot(after, suffix, i - n - 1);
    }
  }

  lemma SuffixStepUp(name: string, suffix: string, i: nat)
    requires AfterFirstDot(name).Some?
    requires i < |AfterFirstDot(name).value| && SuffixAfterDot(AfterFirstDot(name).value, suffix, i)
    ensures IsLabelSuffix(name, suffix)
  {
    SplitOnceSplits(name, '.');
    var (before, after) := SplitOnce(name, '.').value;
    assert name[|before| + 1 + i] == after[i];
    assert SuffixAfterDot(name, suffix, |before| + 1 + i);
  }

  /** A label suffix is what follows the first dot or a label suffix of that. */
  lemma LabelSuffixStep(name: string, suffix: string)
    ensures IsLabelSuffix(name, suffix)
       <==> AfterFirstDot(name).Some?
            && (suffix == AfterFirstDot(name).value || IsLabelSuffix(AfterFirstDot(name).value, suffix))
  {
    if i: nat :| i < |name| && SuffixAfterDot(name, suffix, i) {
      SuffixStepDown(name, suffix, i);
    }
    if AfterFirstDot(name).Some? {
      var after := AfterFirstDot(name).value;
      if suffix == after {
        SplitOnceSplits(name, '.');
        assert SuffixAfterDot(name, suffix, |SplitOnce(name, '.').value.0|);
      }
      if i: nat :| i < |after| && SuffixAfterDot(after, suffix, i) {
        SuffixStepUp(name, suffix, i);
      }
    }
  }

  /** The walk finds the longest proper label suffix that holds a redirect, if any does. */
  lemma {:induction false} WalkFindsLongest(visible: Contents, name: string)
    ensures FirstRedirect(visible, name).None?
       <==> forall suffix :: IsLabelSuffix(name, suffix) ==> !HoldsRedirect(visible, suffix)
    ensures FirstRedirect(visible, name).Some? ==>
      var found := FirstRedirect(visible, name).value;
      && IsLabelSuffix(name, found) && HoldsRedirect(visible, found)
      && forall suffix :: IsLabelSuffix(name, suffix) && HoldsRedirect(visible, suffix) ==> |suffix| <= |found|
    decreases |name|
  {
    forall suffix
      ensures IsLabelSuffix(name, suffix)
         <==> AfterFirstDot(name).Some?
              && (suffix == AfterFirstDot(name).value || IsLabelSuffix(AfterFirstDot(name).value, suffix))
    {
      LabelSuffixStep(name, suffix);
    }
    if AfterFirstDot(name).Some? {
      var after := AfterFirstDot(name).value;
      if HoldsRedirect(visible, after) {
        forall suffix | IsLabelSuffix(after, suffix)
          ensures |suffix| <= |after|
        {
          LabelSuffixIsShorter(after, suffix);
        }
      } else {
        WalkFindsLongest(visible, after);
      }
    }
  }

  // ---- domains ----------------------------------------------------------------------------

  predicate Answered(r: Response) {
    r.DomainResponse? || r.IsRedirect()
  }

  /** The answer of the exact lookups: by LDH name, and failing that by Unicode name. */
  function ExactDomain(visible: Contents, name: string): Response {
    var byLdh := Lookup(visible, LdhName(name));
    if Answered(byLdh) then byLdh else Lookup(visible, UnicodeName(name))
  }

  function DomainAnswer(visible: Contents, bootstrap: bool, domainName: string): Response {
    var name := Canonical(domainName);
    var exact := ExactDomain(visible, name);
    if !bootstrap || Answered(exact) then exact
    else
      match FirstRedirect(visible, name)
      case Some(suffix) => ToBootstrap(Lookup(visible, LdhName(suffix)), "domain", name)
      case None => exact
  }

  /** `domain_by_name` */
  method DomainByName(store: Store, bootstrap: bool, domainName: string) returns (r: Response)
    ensures r == DomainAnswer(store.visible, bootstrap, domainName)
    ensures HoldsDomain(store.visible, LdhName(Canonical(domainName))) ==> r == store.visible[LdhName(Canonical(domainName))]
  {
    var name := Canonical(domainName);
    var domain := Lookup(store.visible, LdhName(name));
    if !domain.DomainResponse? && !domain.IsRedirect() {
      domain := Lookup(store.visible, UnicodeName(name));
    }
    if bootstrap && !domain.DomainResponse? && !domain.IsRedirect() {
      var dnSlice := name;
      var lessSpecific := AfterFirstDot(dnSlice);
      while lessSpecific.Some?
        invariant lessSpecific == AfterFirstDot(dnSlice)
        invariant FirstRedirect(store.visible, dnSlice) == FirstRedirect(store.visible, name)
        decreases |dnSlice|
      {
        var found := Lookup(store.visible, LdhName(lessSpecific.value));
        if found.IsRedirect() {
          return ToBootstrap(found, "domain", name);
        }
        dnSlice := lessSpecific.value;
        lessSpecific := AfterFirstDot(dnSlice);
      }
    }
    return domain;
  }

  /** A record that is answered as it is: a domain, or an error with a code for redirection. */
  predicate IsDomainRecord(r: Response) {
    || r.DomainResponse?
    || (r.ErrorResponse? && 300 <= r.error.errorCode <= 399)
  }

  predicate HoldsDomain(visible: Contents, key: Key) {
    key in visible && IsDomainRecord(visible[key])
  }

  /**
   Names that are stored: the record under the LDH name is the answer, in either mode, and failing that
   the record under the Unicode name. Without bootstrap the answer is otherwise what stands under the
   Unicode name, or not-found.
   */
  lemma StoredDomainAnswers(visible: Contents, bootstrap: bool, domainName: string)
    ensures var name, answer := Canonical(domainName), DomainAnswer(visible, bootstrap, domainName);
      && (HoldsDomain(visible, LdhName(name)) ==> answer == visible[LdhName(name)])
      && (!HoldsDomain(visible, LdhName(name)) && HoldsDomain(visible, UnicodeName(name)) ==> answer == visible[UnicodeName(name)])
      && (!HoldsDomain(visible, LdhName(name)) && !HoldsDomain(visible, UnicodeName(name)) && !bootstrap ==>
            answer == if UnicodeName(name) in visible then visible[UnicodeName(name)]
                      else ErrorResponse(Error(404, None, None, None)))
  {
  }

  /**
   When the exact lookups find neither a domain nor a redirect, the answer in bootstrap mode comes
   from the longest proper label suffix that holds a redirect, its address extended with the path
   and the name; without such a suffix the answer of the exact lookups stands.
   */
  lemma DomainWalk(visible: Contents, domainName: string)
    requires !Answered(ExactDomain(visible, Canonical(domainName)))
    ensures var name, answer := Canonical(domainName), DomainAnswer(visible, true, domainName);
      (exists suffix ::
         && IsLabelSuffix(name, suffix) && HoldsRedirect(visible, suffix)
         && (forall other :: IsLabelSuffix(name, other) && HoldsRedirect(visible, other) ==> |other| <= |suffix|)
         && answer == ToBootstrap(Lookup(visible, LdhName(suffix)), "domain", name))
      || ((forall suffix :: IsLabelSuffix(name, suffix) ==> !HoldsRedirect(visible, suffix))
          && answer == ExactDomain(visible, name))
  {
    WalkFindsLongest(visible, Canonical(domainName));
  }

  // ---- nameservers ------------------------------------------------------------------------

  function NameserverAnswer(visible: Contents, bootstrap: bool, nsName: string): Response {
    if Count('.', nsName) < 2 then BAD_REQUEST
    else
      var exact := Lookup(visible, NameserverName(nsName));
      if !bootstrap || exact.NameserverResponse? || exact.IsRedirect() then exact
      else
        match FirstRedirect(visible, nsName)
        case Some(suffix) => ToBootstrap(Lookup(visible, LdhName(suffix)), "nameserver", nsName)
        case None => exact
  }

  /** `nameserver_by_name`, whose walk looks among the domains because that is where redirects are. */
  method NameserverByName(store: Store, bootstrap: bool, nsName: string) returns (r: Response)
    ensures r == NameserverAnswer(store.visible, bootstrap, nsName)
  {
    if Count('.', nsName) < 2 {
      return BAD_REQUEST;
    }
    var nameserver := Lookup(store.visible, NameserverName(nsName));
    if bootstrap && !nameserver.NameserverResponse? && !nameserver.IsRedirect() {
      var nsSlice := nsName;
      var lessSpecific := AfterFirstDot(nsSlice);
      while lessSpecific.Some?
        invariant lessSpecific == AfterFirstDot(nsSlice)
        invariant FirstRedirect(store.visible, nsSlice) == FirstRedirect(store.visible, nsName)
        decreases |nsSlice|
      {
        var found := Lookup(store.visible, LdhName(lessSpecific.value));
        if found.IsRedirect() {
          return ToBootstrap(found, "nameserver", nsName);
        }
        nsSlice := lessSpecific.value;
        lessSpecific := AfterFirstDot(nsSlice);
      }
    }
    return nameserver;
  }

  predicate HoldsNameserver(visible: Contents, key: Key) {
    && key in visible
    && (visible[key].NameserverResponse? || (visible[key].ErrorResponse? && 300 <= visible[key].error.errorCode <= 399))
  }

  /** At least two dots. */
  ghost predicate HasTwoDots(name: string) {
    exists i, j :: 0 <= i < j < |name| && name[i] == '.' && name[j] == '.'
  }

  lemma {:induction false} NoDotExactly(name: string)
    ensures Count('.', name) == 0 <==> '.' !in name
  {
    if name != "" {
      NoDotExactly(name[1..]);
      assert forall c :: c in name <==> c == name[0] || c in name[1..];
    }
  }

  lemma {:induction false} TwoDotsExactly(name: string)
    ensures Count('.', name) >= 2 <==> HasTwoDots(name)
  {
    if name != "" {
      var rest := name[1..];
      TwoDotsExactly(rest);
      NoDotExactly(rest);
      if HasTwoDots(rest) {
        var i, j :| 0 <= i < j < |rest| && rest[i] == '.' && rest[j] == '.';
        assert name[i + 1] == '.' && name[j + 1] == '.';
      }
      if name[0] == '.' && '.' in rest {
        var j :| 0 <= j < |rest| && rest[j] == '.';
        assert name[0] == '.' && name[j + 1] == '.';
      }
      if HasTwoDots(name) {
        var i, j :| 0 <= i < j < |name| && name[i] == '.' && name[j] == '.';
        assert rest[j - 1] == '.';
        assert i > 0 ==> rest[i - 1] == '.' && rest[j - 1] == '.';
      }
    }
  }

  /**
   Nameservers that are stored, by the name as it was given: the record is the answer, in either mode; and
   a name of fewer than two dots is a bad request whatever is stored.
   */
  lemma StoredNameserverAnswers(visible: Contents, bootstrap: bool, nsName: string)
    ensures var answer := NameserverAnswer(visible, bootstrap, nsName);
      && (!HasTwoDots(nsName) ==> answer == ErrorResponse(Error(400, None, None, None)))
      && (HasTwoDots(nsName) && HoldsNameserver(visible, NameserverName(nsName)) ==> answer == visible[NameserverName(nsName)])
      && (HasTwoDots(nsName) && !HoldsNameserver(visible, NameserverName(nsName)) && !bootstrap ==>
            answer == if NameserverName(nsName) in visible then visible[NameserverName(nsName)]
                      else ErrorResponse(Error(404, None, None, None)))
  {
    TwoDotsExactly(nsName);
  }

  /** The same for nameservers, with the redirects of the domains and the name as it was given. */
  lemma NameserverWalk(visible: Contents, nsName: string)
    requires Count('.', nsName) >= 2
    requires var exact := Lookup(visible, NameserverName(nsName)); !exact.NameserverResponse? && !exact.IsRedirect()
    ensures var answer := NameserverAnswer(visible, true, nsName);
      (exists suffix ::
         && IsLabelSuffix(nsName, suffix) && HoldsRedirect(visible, suffix)
         && (forall other :: IsLabelSuffix(nsName, other) && HoldsRedirect(visible, other) ==> |other| <= |suffix|)
         && answer == ToBootstrap(Lookup(visible, LdhName(suffix)), "nameserver", nsName))
      || ((forall suffix :: IsLabelSuffix(nsName, suffix) ==> !HoldsRedirect(visible, suffix))
          && answer == Lookup(visible, NameserverName(nsName)))
  {
    WalkFindsLongest(visible, nsName);
  }
}
