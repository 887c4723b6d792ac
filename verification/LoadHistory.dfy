/** What is visible after any sequence of loads, and how little the order of a directory matters. */
module LoadHistory {
  import opened Wrappers
  import opened Responses
  import opened Storage

  datatype Load = Load(dir: Option<Directory>, order: seq<string>, truncate: bool)
  {
    ghost predicate Valid() {
      dir.Some? ==> IsListing(dir.value, order)
    }

    function Writes(): Option<Written>
      requires Valid()
    {
      LoadWrites(dir, order)
    }

    /** The directory was there and every file in it could be loaded. */
    ghost predicate Commits()
      requires Valid()
    {
      Writes().Some? && Writes().value.Success?
    }
  }

  ghost predicate AllValid(loads: seq<Load>) {
    forall l :: l in loads ==> l.Valid()
  }

  /** The store after a run of loads. */
  ghost function Visible(start: Contents, loads: seq<Load>): Contents
    requires AllValid(loads)
  {
    if loads == [] then start
    else
      var last := loads[|loads| - 1];
      Loaded(Visible(start, loads[..|loads| - 1]), last.Writes(), last.truncate)
  }

  /** The snapshots that the loads committed, in order. */
  ghost function Committed(loads: seq<Load>): seq<Contents>
    requires AllValid(loads)
  {
    if loads == [] then []
    else
      var last := loads[|loads| - 1];
      Committed(loads[..|loads| - 1]) + (if last.Commits() then [last.Writes().value.value] else [])
  }

  function Override(base: Contents, snapshots: seq<Contents>): Contents {
    if snapshots == [] then base else Override(base, snapshots[..|snapshots| - 1]) + snapshots[|snapshots| - 1]
  }

  /** The load at `i` is the last that committed after truncating. */
  ghost predicate IsLastTruncation(loads: seq<Load>, i: nat)
    requires AllValid(loads)
  {
    && i < |loads|
    && loads[i].truncate && loads[i].Commits()
    && NoTruncation(loads, i + 1)
  }

  ghost predicate NoTruncation(loads: seq<Load>, from: nat)
    requires AllValid(loads)
  {
    forall j :: from <= j < |loads| ==> !(loads[j].truncate && loads[j].Commits())
  }

  /**
   When no load committed after truncating, the visible store is the start overridden by every
   committed snapshot.
   */
  lemma {:induction false} LoadsWithoutTruncation(start: Contents, loads: seq<Load>)
    requires AllValid(loads) && NoTruncation(loads, 0)
    ensures Visible(start, loads) == Override(start, Committed(loads))
  {
    if loads != [] {
      var front, last := loads[..|loads| - 1], loads[|loads| - 1];
      LoadsWithoutTruncation(start, front);
      if last.Commits() {
        assert Committed(loads)[..|Committed(front)|] == Committed(front);
      } else {
        assert Committed(loads) == Committed(front);
      }
    }
  }

  lemma {:induction false} VisibleContinues(start: Contents, first: seq<Load>, second: seq<Load>)
    requires AllValid(first) && AllValid(second) && AllValid(first + second)
    ensures Visible(start, first + second) == Visible(Visible(start, first), second)
  {
    if second == [] {
      assert first + second == first;
    } else {
      var front := second[..|second| - 1];
      assert AllValid(first + front) by {
        assert forall l :: l in first + front ==> l in first || l in second;
      }
      VisibleContinues(start, first, front);
      assert (first + second)[..|first + second| - 1] == first + front;
    }
  }

  lemma AllValidParts(loads: seq<Load>, i: nat)
    requires AllValid(loads) && i <= |loads|
    ensures AllValid(loads[..i]) && AllValid(loads[i..])
  {
  }

  /**
   The visible store is the override, in order, of the snapshots committed since the last truncating
   load, that one included. Loads that failed or found no directory leave no trace.
   */
  lemma VisibleSinceTruncation(start: Contents, loads: seq<Load>, i: nat)
    requires AllValid(loads) && IsLastTruncation(loads, i)
    ensures AllValid(loads[i + 1..])
    ensures Visible(start, loads) == Override(loads[i].Writes().value.value, Committed(loads[i + 1..]))
  {
    AllValidParts(loads, i);
    AllValidParts(loads, i + 1);
    var before, after := loads[..i + 1], loads[i + 1..];
    assert loads == before + after;
    VisibleContinues(start, before, after);
    assert before[..i] == loads[..i];
    assert map[] + loads[i].Writes().value.value == loads[i].Writes().value.value;
    LoadsWithoutTruncation(Visible(start, before), after);
  }

  /** A load that does not commit changes nothing. */
  lemma FailedLoadChangesNothing(start: Contents, loads: seq<Load>, l: Load)
    requires AllValid(loads + [l]) && !l.Commits()
    ensures AllValid(loads) && Visible(start, loads + [l]) == Visible(start, loads)
  {
    assert (loads + [l])[..|loads|] == loads;
    AllValidParts(loads + [l], |loads|);
  }

  // ---- directory order --------------------------------------------------------------------

  /** The last record of the list that defines the key, if any, decides its value. */
  ghost predicate LastDefines(list: seq<Written>, k: Key, i: nat)
    requires forall w :: w in list ==> w.Success?
  {
    && i < |list|
    && k in list[i].value
    && forall j :: i < j < |list| ==> k !in list[j].value
  }

  lemma {:induction false} SnapshotSucceeds(list: seq<Written>)
    ensures OverAll(list).Success? <==> forall w :: w in list ==> w.Success?
  {
    if list != [] {
      var front, last := list[..|list| - 1], list[|list| - 1];
      SnapshotSucceeds(front);
      assert forall w :: w in list <==> w in front || w == last;
    }
  }

  lemma {:induction false} SnapshotLookup(list: seq<Written>, k: Key) returns (i: nat)
    requires forall w :: w in list ==> w.Success?
    ensures OverAll(list).Success?
    ensures k in OverAll(list).value <==> exists w :: w in list && k in w.value
    ensures k in OverAll(list).value ==> LastDefines(list, k, i) && OverAll(list).value[k] == list[i].value[k]
  {
    SnapshotSucceeds(list);
    i := 0;
    if list != [] {
      var front, last := list[..|list| - 1], list[|list| - 1];
      i := SnapshotLookup(front, k);
      assert forall w :: w in list <==> w in front || w == last;
      if k in last.value {
        i := |front|;
      }
    }
  }

  ghost predicate Writes(dir: Directory, f: string, k: Key)
    requires f in dir
  {
    FileRecords(f, dir[f]).Success? && k in FileRecords(f, dir[f]).value
  }

  /** All files that write a key give it the same value. */
  ghost predicate WritersAgree(dir: Directory) {
    forall f, g, k ::
      (f in dir && g in dir && Writes(dir, f, k) && Writes(dir, g, k)) ==> ValueIn(dir, f, k) == ValueIn(dir, g, k)
  }

  ghost function ValueIn(dir: Directory, f: string, k: Key): Response
    requires f in dir && Writes(dir, f, k)
  {
    FileRecords(f, dir[f]).value[k]
  }

  lemma ListingWrites(dir: Directory, order: seq<string>, f: string)
    requires IsListing(dir, order) && f in dir
    ensures FileRecords(f, dir[f]) in FileWrites(dir, order)
  {
    var i :| 0 <= i < |order| && order[i] == f;
    assert FileWrites(dir, order)[i] == FileRecords(f, dir[f]);
  }

  lemma SnapshotValue(dir: Directory, order: seq<string>, k: Key) returns (f: string)
    requires IsListing(dir, order) && Snapshot(dir, order).Success?
    ensures k in Snapshot(dir, order).value ==>
      f in dir && FileRecords(f, dir[f]).Success? && k in FileRecords(f, dir[f]).value
      && Snapshot(dir, order).value[k] == FileRecords(f, dir[f]).value[k]
  {
    SnapshotSucceeds(FileWrites(dir, order));
    var i := SnapshotLookup(FileWrites(dir, order), k);
    f := if i < |order| then order[i] else "";
  }

  /** A key is in the snapshot exactly when some file writes it. */
  lemma SnapshotKeys(dir: Directory, order: seq<string>, k: Key)
    requires IsListing(dir, order) && Snapshot(dir, order).Success?
    ensures forall f :: f in dir ==> FileRecords(f, dir[f]).Success?
    ensures k in Snapshot(dir, order).value <==> exists f :: f in dir && k in FileRecords(f, dir[f]).value
  {
    SnapshotSucceeds(FileWrites(dir, order));
    forall f | f in dir
      ensures FileRecords(f, dir[f]).Success?
      ensures k in FileRecords(f, dir[f]).value ==> k in Snapshot(dir, order).value
    {
      ListingWrites(dir, order, f);
      var i := SnapshotLookup(FileWrites(dir, order), k);
    }
    var g := SnapshotValue(dir, order, k);
  }

  /** Two listings of a directory whose writers agree load the same records. */
  lemma AgreedSnapshot(dir: Directory, order1: seq<string>, order2: seq<string>)
    requires IsListing(dir, order1) && IsListing(dir, order2)
    requires WritersAgree(dir) && Snapshot(dir, order1).Success?
    ensures Snapshot(dir, order1) == Snapshot(dir, order2)
  {
    SuccessTransfers(dir, order1, order2);
    var s1, s2 := Snapshot(dir, order1).value, Snapshot(dir, order2).value;
    forall k
      ensures k in s1 <==> k in s2
      ensures k in s1 && k in s2 ==> s1[k] == s2[k]
    {
      SnapshotKeys(dir, order1, k);
      SnapshotKeys(dir, order2, k);
      var f1 := SnapshotValue(dir, order1, k);
      var f2 := SnapshotValue(dir, order2, k);
      if k in s1 && k in s2 {
        assert Writes(dir, f1, k) && Writes(dir, f2, k);
        assert ValueIn(dir, f1, k) == ValueIn(dir, f2, k);
      }
    }
    assert s1 == s2;
  }

  ghost predicate Distinct(names: seq<string>) {
    forall i, j :: 0 <= i < j < |names| ==> names[i] != names[j]
  }

  lemma {:induction false} DistinctByCount(names: seq<string>)
    ensures Distinct(names) <==> forall n :: n in names ==> multiset(names)[n] == 1
  {
    if names != [] {
      var front, last := names[..|names| - 1], names[|names| - 1];
      assert names == front + [last];
      DistinctByCount(front);
      DistinctStep(front, last);
    }
  }

  lemma DistinctStep(front: seq<string>, last: string)
    ensures Distinct(front + [last]) <==> Distinct(front) && last !in front
    ensures (forall n :: n in front + [last] ==> multiset(front + [last])[n] == 1)
       <==> (forall n :: n in front ==> multiset(front)[n] == 1) && last !in front
  {
    var names := front + [last];
    assert multiset(names) == multiset(front) + multiset{last};
    if Distinct(names) {
      assert forall i :: 0 <= i < |front| ==> names[i] == front[i];
      assert names[|front|] == last;
    }
    if forall n :: n in names ==> multiset(names)[n] == 1 {
      assert last in names && multiset(front)[last] == 0;
      forall n | n in front
        ensures multiset(front)[n] == 1
      {
        assert n in names && n in multiset(front);
      }
    }
  }

  lemma SplitAround(names: seq<string>, i: nat) returns (before: seq<string>, after: seq<string>)
    requires i < |names|
    ensures before + [names[i]] + after == names
  {
    before, after := names[..i], names[i + 1..];
  }

  lemma MovedLast(before: seq<string>, name: string, after: seq<string>)
    ensures multiset(before + after + [name]) == multiset(before + [name] + after)
  {
  }

  /** Listing a directory is a matter of which names there are, and how often. */
  lemma ReorderedListing(dir: Directory, order: seq<string>, order': seq<string>)
    requires IsListing(dir, order) && multiset(order') == multiset(order)
    ensures IsListing(dir, order')
  {
    assert forall n :: n in order' <==> n in multiset(order');
    assert forall n :: n in order <==> n in multiset(order);
    assert Distinct(order);
    DistinctByCount(order);
    DistinctByCount(order');
    assert Distinct(order');
  }

  /** The same listing with one file read last. */
  lemma ReadLast(dir: Directory, order: seq<string>, f: string) returns (order': seq<string>)
    requires IsListing(dir, order) && f in dir
    ensures IsListing(dir, order') && order' != [] && order'[|order'| - 1] == f
  {
    var i :| 0 <= i < |order| && order[i] == f;
    var before, after := SplitAround(order, i);
    order' := before + after + [f];
    MovedLast(before, f, after);
    ReorderedListing(dir, order, order');
  }

  /** The file read last decides the keys it writes. */
  lemma LastFileDecides(dir: Directory, order: seq<string>, f: string, k: Key)
    requires IsListing(dir, order) && order != [] && order[|order| - 1] == f && Writes(dir, f, k)
    requires Snapshot(dir, order).Success?
    ensures k in Snapshot(dir, order).value && Snapshot(dir, order).value[k] == ValueIn(dir, f, k)
  {
    var list := FileWrites(dir, order);
    assert list[|list| - 1] == FileRecords(f, dir[f]);
  }

  lemma SameRecordsAgree(dir: Directory, order: seq<string>, f: string, g: string, k: Key)
    requires IsListing(dir, order) && Snapshot(dir, order).Success?
    requires forall other :: IsListing(dir, other) ==> Snapshot(dir, other) == Snapshot(dir, order)
    requires f in dir && g in dir && Writes(dir, f, k) && Writes(dir, g, k)
    ensures ValueIn(dir, f, k) == ValueIn(dir, g, k)
  {
    var lastF := ReadLast(dir, order, f);
    var lastG := ReadLast(dir, order, g);
    LastFileDecides(dir, lastF, f, k);
    LastFileDecides(dir, lastG, g, k);
  }

  /**
   All listings of one directory fail together; and if they succeed, they all load the same records
   exactly if all files that write a key agree on its value.
   */
  lemma DirectoryOrderIrrelevantExactly(dir: Directory, order: seq<string>)
    requires IsListing(dir, order)
    ensures forall other :: IsListing(dir, other) ==> (Snapshot(dir, other).Success? <==> Snapshot(dir, order).Success?)
    ensures Snapshot(dir, order).Success? ==>
      ((forall other :: IsListing(dir, other) ==> Snapshot(dir, other) == Snapshot(dir, order)) <==> WritersAgree(dir))
  {
    forall other | IsListing(dir, other)
      ensures Snapshot(dir, other).Success? <==> Snapshot(dir, order).Success?
      ensures Snapshot(dir, order).Success? && WritersAgree(dir) ==> Snapshot(dir, other) == Snapshot(dir, order)
    {
      SuccessTransfers(dir, order, other);
      SuccessTransfers(dir, other, order);
      if Snapshot(dir, order).Success? && WritersAgree(dir) {
        AgreedSnapshot(dir, order, other);
      }
    }
    if Snapshot(dir, order).Success? && forall other :: IsListing(dir, other) ==> Snapshot(dir, other) == Snapshot(dir, order) {
      forall f, g, k | f in dir && g in dir && Writes(dir, f, k) && Writes(dir, g, k)
        ensures ValueIn(dir, f, k) == ValueIn(dir, g, k)
      {
        SameRecordsAgree(dir, order, f, g, k);
      }
    }
  }

  lemma SuccessTransfers(dir: Directory, order1: seq<string>, order2: seq<string>)
    requires IsListing(dir, order1) && IsListing(dir, order2)
    ensures Snapshot(dir, order1).Success? ==> Snapshot(dir, order2).Success?
  {
    SnapshotSucceeds(FileWrites(dir, order1));
    SnapshotSucceeds(FileWrites(dir, order2));
    forall w | w in FileWrites(dir, order2) && Snapshot(dir, order1).Success?
      ensures w.Success?
    {
      var i :| 0 <= i < |order2| && FileWrites(dir, order2)[i] == w;
      assert order2[i] in dir;
      ListingWrites(dir, order1, order2[i]);
    }
  }
}
