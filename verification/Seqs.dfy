/** Sequences without repetitions, deletion with order kept, and tails. */
module Seqs {

  predicate Distinct<X(==)>(xs: seq<X>) {
    forall i, j :: 0 <= i < j < |xs| ==> xs[i] != xs[j]
  }

  /** xs with every x dropped, order kept. */
  ghost function Without<X>(xs: seq<X>, x: X): (r: seq<X>)
    ensures forall y :: y in r ==> y in xs && y != x
    ensures forall y :: y in xs && y != x ==> y in r
  {
    if |xs| == 0 then []
    else if xs[0] == x then Without(xs[1..], x)
    else [xs[0]] + Without(xs[1..], x)
  }

  ghost function IndexOf<X>(xs: seq<X>, x: X): (i: nat)
    requires x in xs
    ensures i < |xs| && xs[i] == x
  {
    var i :| 0 <= i < |xs| && xs[i] == x; i
  }

  lemma {:induction false} WithoutIs<X>(xs: seq<X>, x: X, i: nat)
    requires Distinct(xs) && i < |xs| && xs[i] == x
    ensures Without(xs, x) == xs[..i] + xs[i + 1..]
  {
    if i == 0 {
      WithoutAbsent(xs[1..], x);
    } else {
      WithoutIs(xs[1..], x, i - 1);
      assert xs[..i] + xs[i + 1..] == [xs[0]] + (xs[1..][..i - 1] + xs[1..][i..]);
    }
  }

  lemma {:induction false} WithoutAbsent<X>(xs: seq<X>, x: X)
    requires x !in xs
    ensures Without(xs, x) == xs
  {
    if |xs| > 0 {
      WithoutAbsent(xs[1..], x);
    }
  }

  lemma {:induction false} WithoutAppend<X>(xs: seq<X>, ys: seq<X>, x: X)
    ensures Without(xs + ys, x) == Without(xs, x) + Without(ys, x)
  {
    if |xs| == 0 {
      assert xs + ys == ys;
    } else {
      assert (xs + ys)[1..] == xs[1..] + ys;
      WithoutAppend(xs[1..], ys, x);
    }
  }

  /** xs is the tail end of ys. */
  ghost predicate Suffix<X>(xs: seq<X>, ys: seq<X>)
  {
    |xs| <= |ys| && ys[|ys| - |xs|..] == xs
  }

  lemma SuffixOfLonger<X>(x: X, xs: seq<X>)
    ensures Suffix(xs, xs) && Suffix(xs, [x] + xs)
  {
  }

  lemma SuffixEmpty<X>(ys: seq<X>)
    ensures Suffix([], ys)
  {
  }

  lemma SuffixWithout<X>(x: X, xs: seq<X>, ys: seq<X>)
    ensures Suffix(xs, ys) ==> Suffix(Without(xs, x), Without(ys, x))
  {
    if Suffix(xs, ys) {
      var front := ys[..|ys| - |xs|];
      assert front + xs == ys;
      WithoutAppend(front, xs, x);
    }
  }

  lemma {:induction false} WithoutDistinct<X>(xs: seq<X>, x: X)
    requires Distinct(xs)
    ensures Distinct(Without(xs, x))
  {
    if x in xs {
      WithoutIs(xs, x, IndexOf(xs, x));
    } else {
      WithoutAbsent(xs, x);
    }
  }

  lemma TailDistinct<X>(xs: seq<X>)
    requires Distinct(xs) && xs != []
    ensures Distinct(xs[1..]) && xs[0] !in xs[1..]
    ensures forall x :: x in xs ==> x == xs[0] || x in xs[1..]
  {
  }

  lemma WithoutFront<X>(xs: seq<X>, x: X)
    ensures |Without(xs, x)| <= |xs|
    ensures xs != [] && xs[0] != x ==> Without(xs, x) != [] && Without(xs, x)[0] == xs[0]
  {
  }

  lemma SuffixTrans<X>(xs: seq<X>, ys: seq<X>, zs: seq<X>)
    requires Suffix(xs, ys) && Suffix(ys, zs)
    ensures Suffix(xs, zs)
  {
    assert zs[|zs| - |xs|..] == zs[|zs| - |ys|..][|ys| - |xs|..];
  }
}
