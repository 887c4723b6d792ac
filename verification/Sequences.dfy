/** The iterator adaptors the components use, on sequences. */
module Sequences {
  import opened Wrappers

  function Map<A, B>(f: A -> B, xs: seq<A>): (ys: seq<B>)
    ensures |ys| == |xs|
    ensures forall i :: 0 <= i < |xs| ==> ys[i] == f(xs[i])
  {
    seq(|xs|, i requires 0 <= i < |xs| => f(xs[i]))
  }

  function FilterMap<A, B>(f: A -> Option<B>, xs: seq<A>): seq<B> {
    if xs == [] then [] else
      var rest := FilterMap(f, xs[1..]);
      match f(xs[0])
      case Some(y) => [y] + rest
      case None => rest
  }

  function Filter<A>(p: A -> bool, xs: seq<A>): seq<A> {
    if xs == [] then []
    else if p(xs[0]) then [xs[0]] + Filter(p, xs[1..])
    else Filter(p, xs[1..])
  }

  function Sum<A>(f: A -> nat, xs: seq<A>): nat {
    if xs == [] then 0 else Sum(f, xs[..|xs| - 1]) + f(xs[|xs| - 1])
  }

  lemma {:induction false} SumAppend<A>(f: A -> nat, xs: seq<A>, ys: seq<A>)
    ensures Sum(f, xs + ys) == Sum(f, xs) + Sum(f, ys)
  {
    if ys == [] {
      assert xs + ys == xs;
    } else {
      SumAppend(f, xs, ys[..|ys| - 1]);
      assert (xs + ys)[..|xs + ys| - 1] == xs + ys[..|ys| - 1];
    }
  }

  lemma SumOne<A>(f: A -> nat, x: A)
    ensures Sum(f, [x]) == f(x)
  {
    assert [x][..0] == [];
  }

  lemma ConsAppend<T>(xs: seq<T>, ys: seq<T>)
    requires xs != []
    ensures (xs + ys)[0] == xs[0] && (xs + ys)[1..] == xs[1..] + ys
  {
  }

  lemma AppendAssociative<T>(xs: seq<T>, ys: seq<T>, zs: seq<T>)
    ensures xs + (ys + zs) == (xs + ys) + zs
  {
  }

  lemma AppendAssociative4<T>(ws: seq<T>, xs: seq<T>, ys: seq<T>, zs: seq<T>)
    ensures ws + xs + ys + zs == ws + (xs + (ys + zs))
  {
  }

  /** `(!xs.is_empty()).then_some(xs)` */
  function NonEmpty<A>(xs: seq<A>): Option<seq<A>> {
    if xs == [] then None else Some(xs)
  }

  /** Decoding a list of encodings gives the list of decoded elements when the decoder accepts each one. */
  lemma {:induction false} FilterMapOfMap<A, B, C>(decode: B -> Option<C>, encode: A -> B, norm: A -> C, xs: seq<A>)
    requires forall x :: x in xs ==> decode(encode(x)) == Some(norm(x))
    ensures FilterMap(decode, Map(encode, xs)) == Map(norm, xs)
  {
    if xs != [] {
      FilterMapOfMap(decode, encode, norm, xs[1..]);
      assert Map(encode, xs)[1..] == Map(encode, xs[1..]);
      assert Map(norm, xs) == [norm(xs[0])] + Map(norm, xs[1..]);
    }
  }

  lemma {:induction false} FilterAll<A>(p: A -> bool, xs: seq<A>)
    ensures Filter(p, xs) == xs <==> forall x :: x in xs ==> p(x)
    ensures |Filter(p, xs)| <= |xs|
    ensures |Filter(p, xs)| == |xs| ==> Filter(p, xs) == xs
  {
    if xs != [] {
      FilterAll(p, xs[1..]);
      assert forall x :: x in xs <==> x == xs[0] || x in xs[1..];
      if p(xs[0]) {
        assert Filter(p, xs)[1..] == Filter(p, xs[1..]);
      }
    }
  }

  lemma {:induction false} FilterKeepsOnly<A>(p: A -> bool, xs: seq<A>)
    ensures forall x :: x in Filter(p, xs) <==> x in xs && p(x)
  {
    if xs != [] {
      FilterKeepsOnly(p, xs[1..]);
      assert forall x :: x in xs <==> x == xs[0] || x in xs[1..];
    }
  }

  lemma FilterOne<A>(p: A -> bool, x: A)
    ensures Filter(p, [x]) == if p(x) then [x] else []
  {
    assert [x][1..] == [];
  }

  lemma {:induction false} FilterAppend<A>(p: A -> bool, xs: seq<A>, ys: seq<A>)
    ensures Filter(p, xs + ys) == Filter(p, xs) + Filter(p, ys)
  {
    if xs == [] {
      assert xs + ys == ys;
    } else {
      FilterAppend(p, xs[1..], ys);
      assert (xs + ys)[1..] == xs[1..] + ys;
    }
  }

  lemma {:induction false} FilterNone<A>(p: A -> bool, xs: seq<A>)
    requires forall x :: x in xs ==> !p(x)
    ensures Filter(p, xs) == []
  {
    if xs != [] {
      FilterNone(p, xs[1..]);
    }
  }
}
