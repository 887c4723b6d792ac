/** Self links of objects, and their rewriting when an object is made from a template. */
module SelfLinks {
  import opened Wrappers
  import opened Sequences
  import opened Text
  import opened Responses

  type Links = Option<seq<Link>>

  predicate IsSelf(link: Link) {
    link.rel == Some("self")
  }

  function NotSelfFn(): Link -> bool {
    (link: Link) => !IsSelf(link)
  }

  function FindSelf(links: seq<Link>): Option<Link> {
    if links == [] then None else if IsSelf(links[0]) then Some(links[0]) else FindSelf(links[1..])
  }

  /** `get_self_link` */
  function GetSelfLink(links: Links): Option<Link> {
    if links.None? then None else FindSelf(links.value)
  }

  function AsSelf(link: Link): Link {
    link.(rel := Some("self"))
  }

  /** `set_self_link` */
  function SetSelfLink(links: Links, link: Link): Links {
    Some((if links.Some? then Filter(NotSelfFn(), links.value) else []) + [AsSelf(link)])
  }

  // ---- the last occurrence of a segment ---------------------------------------------------

  predicate OccursAt(s: string, segment: string, i: nat) {
    i + |segment| <= |s| && s[i..i + |segment|] == segment
  }

  predicate Occurs(s: string, segment: string) {
    exists i: nat | i <= |s| :: OccursAt(s, segment, i)
  }

  /** The greatest place up to `i` at which the segment occurs. */
  function LastFrom(s: string, segment: string, i: nat): Option<nat> {
    if OccursAt(s, segment, i) then Some(i) else if i == 0 then None else LastFrom(s, segment, i - 1)
  }

  /** `str::rsplit_once`: what stands before and after the last occurrence. */
  function RSplitOnce(s: string, segment: string): Option<(string, string)> {
    match LastFrom(s, segment, |s|)
    case None => None
    case Some(i) => if OccursAt(s, segment, i) then Some((s[..i], s[i + |segment|..])) else None
  }

  lemma {:induction false} LastFromIsLast(s: string, segment: string, i: nat)
    ensures LastFrom(s, segment, i).None? <==> forall j: nat :: j <= i ==> !OccursAt(s, segment, j)
    ensures LastFrom(s, segment, i).Some? ==>
      && LastFrom(s, segment, i).value <= i
      && OccursAt(s, segment, LastFrom(s, segment, i).value)
      && forall j: nat :: j <= i && OccursAt(s, segment, j) ==> j <= LastFrom(s, segment, i).value
  {
    if !OccursAt(s, segment, i) && i > 0 {
      LastFromIsLast(s, segment, i - 1);
    }
  }

  lemma RSplitOnceFindsLast(s: string, segment: string)
    ensures RSplitOnce(s, segment).None? <==> !Occurs(s, segment)
    ensures RSplitOnce(s, segment).Some? ==>
      var (before, after) := RSplitOnce(s, segment).value;
      && s == before + segment + after
      && OccursAt(s, segment, |before|)
      && forall i: nat :: OccursAt(s, segment, i) ==> i <= |before|
  {
    LastFromIsLast(s, segment, |s|);
    if LastFrom(s, segment, |s|).Some? {
      var i := LastFrom(s, segment, |s|).value;
      assert s == s[..i] + s[i..i + |segment|] + s[i + |segment|..];
    }
  }

  // ---- rewriting --------------------------------------------------------------------------

  function Rewritten(before: string, segment: string, id: string): string {
    before + segment + "/" + id
  }

  /** `change_self_link` on the links of an object; links it cannot use stay as they are. */
  function ChangeSelfLink(links: Links, segment: string, id: string): Links {
    match GetSelfLink(links)
    case None => links
    case Some(self) =>
      if self.href.None? then links
      else
        match RSplitOnce(self.href.value, segment)
        case None => links
        case Some(parts) => SetSelfLink(links, self.(href := Some(Rewritten(parts.0, segment, id))))
  }

  /** The common fields of an object while it is being changed. */
  class ObjectCommon {
    var links: Links

    constructor (links: Links)
      ensures this.links == links
    {
      this.links := links;
    }

    /** Removes the other self links and puts the given link last, as the self link. */
    method SetSelf(link: Link)
      modifies this
      ensures links == SetSelfLink(old(links), link)
    {
      var self := link.(rel := Some("self"));
      if links.Some? {
        var newLinks := Filter(NotSelfFn(), links.value);
        newLinks := newLinks + [self];
        links := Some(newLinks);
      } else {
        links := Some([self]);
        assert [] + [self] == [self];
      }
    }

    method ChangeSelf(segment: string, id: string)
      modifies this
      ensures links == ChangeSelfLink(old(links), segment, id)
    {
      var self := GetSelfLink(links);
      if self.Some? && self.value.href.Some? {
        var split := RSplitOnce(self.value.href.value, segment);
        if split.Some? {
          var newSelfLink := self.value;
          newSelfLink := newSelfLink.(href := Some(split.value.0 + segment + "/" + id));
          SetSelf(newSelfLink);
        }
      }
    }
  }

  // ---- setting and getting ----------------------------------------------------------------

  lemma {:induction false} FindSelfAppend(links: seq<Link>, link: Link)
    ensures FindSelf(links + [link])
         == if FindSelf(links).Some? then FindSelf(links) else if IsSelf(link) then Some(link) else None
  {
    if links == [] {
      assert [] + [link] == [link] && [link][1..] == [];
    } else {
      FindSelfAppend(links[1..], link);
      assert (links + [link])[1..] == links[1..] + [link];
    }
  }

  lemma {:induction false} FindSelfNone(links: seq<Link>)
    ensures FindSelf(links).None? <==> forall l :: l in links ==> !IsSelf(l)
    ensures FindSelf(links).Some? ==> IsSelf(FindSelf(links).value)
  {
    if links != [] {
      FindSelfNone(links[1..]);
      assert forall l :: l in links <==> l == links[0] || l in links[1..];
    }
  }

  function Others(links: Links): seq<Link> {
    if links.Some? then Filter(NotSelfFn(), links.value) else []
  }

  /**
   After setting, there is exactly one self link: it is the last link and the one that getting
   returns. The other links are those from before, in their order.
   */
  lemma SetSelfLinkLeavesOne(links: Links, link: Link)
    ensures var set_ := SetSelfLink(links, link);
      && set_ == Some(Others(links) + [AsSelf(link)])
      && (forall l :: l in Others(links) ==> !IsSelf(l))
      && GetSelfLink(set_) == Some(AsSelf(link))
      && Others(set_) == Others(links)
  {
    var before := if links.Some? then links.value else [];
    FilterKeepsOnly(NotSelfFn(), before);
    FindSelfNone(Others(links));
    FindSelfAppend(Others(links), AsSelf(link));
    FilterAppend(NotSelfFn(), Others(links), [AsSelf(link)]);
    FilterAll(NotSelfFn(), Others(links));
    FilterNone(NotSelfFn(), [AsSelf(link)]);
    assert Others(links) + [] == Others(links);
  }

  /** The last setting wins. */
  lemma SetSelfLinkOverwrites(links: Links, first: Link, second: Link)
    ensures SetSelfLink(SetSelfLink(links, first), second) == SetSelfLink(links, second)
  {
    SetSelfLinkLeavesOne(links, first);
    SetSelfLinkLeavesOne(SetSelfLink(links, first), second);
    SetSelfLinkLeavesOne(links, second);
  }

  // ---- the overwrite law of rewriting -----------------------------------------------------

  /** The self link can be rewritten: it has an address in which the segment occurs. */
  predicate Rewritable(links: Links, segment: string) {
    && GetSelfLink(links).Some?
    && GetSelfLink(links).value.href.Some?
    && Occurs(GetSelfLink(links).value.href.value, segment)
  }

  /** What stands before the last occurrence of the segment in the address of the self link. */
  function Base(links: Links, segment: string): string
    requires Rewritable(links, segment)
  {
    RSplitOnceFindsLast(GetSelfLink(links).value.href.value, segment);
    RSplitOnce(GetSelfLink(links).value.href.value, segment).value.0
  }

  /**
   Rewriting a usable self link gives it the address base + segment/id, where the base ends just
   before the last occurrence of the segment; any other links are left as they are, in order.
   */
  lemma ChangeGivesBaseAndId(links: Links, segment: string, id: string)
    ensures !Rewritable(links, segment) ==> ChangeSelfLink(links, segment, id) == links
    ensures Rewritable(links, segment) ==>
      var changed := ChangeSelfLink(links, segment, id);
      && GetSelfLink(changed)
         == Some(GetSelfLink(links).value.(href := Some(Rewritten(Base(links, segment), segment, id))))
      && Others(changed) == Others(links)
  {
    if GetSelfLink(links).Some? && GetSelfLink(links).value.href.Some? {
      var self := GetSelfLink(links).value;
      RSplitOnceFindsLast(self.href.value, segment);
      if Occurs(self.href.value, segment) {
        SetSelfLinkLeavesOne(links, self.(href := Some(Rewritten(Base(links, segment), segment, id))));
        FindSelfNone(links.value);
      }
    }
  }

  /** An occurrence after the base cannot hold the slash, so it lies in the id. */
  lemma OccurrencesInRewritten(before: string, segment: string, id: string, i: nat)
    requires segment != "" && '/' !in segment
    ensures OccursAt(Rewritten(before, segment, id), segment, |before|)
    ensures i > |before| && OccursAt(Rewritten(before, segment, id), segment, i) ==> Occurs(id, segment)
    ensures OccursAt(id, segment, i) ==> OccursAt(Rewritten(before, segment, id), segment, |before| + |segment| + 1 + i)
  {
    var s := Rewritten(before, segment, id);
    var slash := |before| + |segment|;
    assert s[|before|..slash] == segment;
    assert s[slash + 1..] == id;
    if i > slash && OccursAt(s, segment, i) {
      var j := i - slash - 1;
      assert id[j..j + |segment|] == s[i..i + |segment|];
      assert OccursAt(id, segment, j);
    } else if |before| < i <= slash {
      assert i + |segment| <= |s| ==> s[i..i + |segment|][slash - i] == '/';
      assert slash - i < |segment| ==> segment[slash - i] in segment;
    }
    if OccursAt(id, segment, i) {
      var k := slash + 1 + i;
      assert s[k..k + |segment|] == id[i..i + |segment|];
    }
  }

  /** In base + segment/id the segment last occurs right after the base unless it occurs in the id. */
  lemma SegmentLastInRewritten(before: string, segment: string, id: string)
    requires segment != "" && '/' !in segment
    ensures var split := RSplitOnce(Rewritten(before, segment, id), segment);
      && split.Some?
      && (if Occurs(id, segment) then |split.value.0| > |before| else split.value.0 == before)
  {
    var s := Rewritten(before, segment, id);
    OccurrencesInRewritten(before, segment, id, 0);
    RSplitOnceFindsLast(s, segment);
    var last := RSplitOnce(s, segment).value.0;
    if Occurs(id, segment) {
      var i: nat :| i <= |id| && OccursAt(id, segment, i);
      OccurrencesInRewritten(before, segment, id, i);
    } else {
      OccurrencesInRewritten(before, segment, id, |last|);
      assert |last| == |before|;
      assert last == s[..|last|] && before == s[..|before|];
    }
  }

  /**
   Rewriting for one id and then for another gives what rewriting for the second alone gives, if and
   only if the segment does not occur in the first id.
   */
  lemma ChangeOverwritesExactly(links: Links, segment: string, id1: string, id2: string)
    requires segment != "" && '/' !in segment && Rewritable(links, segment)
    ensures ChangeSelfLink(ChangeSelfLink(links, segment, id1), segment, id2) == ChangeSelfLink(links, segment, id2)
       <==> !Occurs(id1, segment)
  {
    var before := Base(links, segment);
    var once, twice, direct := ChangeSelfLink(links, segment, id1),
                               ChangeSelfLink(ChangeSelfLink(links, segment, id1), segment, id2),
                               ChangeSelfLink(links, segment, id2);
    ChangeGivesBaseAndId(links, segment, id1);
    ChangeGivesBaseAndId(links, segment, id2);
    SegmentLastInRewritten(before, segment, id1);
    ChangeGivesBaseAndId(once, segment, id2);
    assert Base(once, segment) == RSplitOnce(Rewritten(before, segment, id1), segment).value.0;
    var self := GetSelfLink(links).value;
    if Occurs(id1, segment) {
      assert |Rewritten(Base(once, segment), segment, id2)| > |Rewritten(before, segment, id2)|;
    } else {
      assert once == SetSelfLink(links, self.(href := Some(Rewritten(before, segment, id1))));
      SetSelfLinkOverwrites(links, self.(href := Some(Rewritten(before, segment, id1))),
                            self.(href := Some(Rewritten(before, segment, id2))));
    }
  }
}
