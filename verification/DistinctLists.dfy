/** Lists without repeats. */
module DistinctLists {

  predicate NoRepeats<T(==)>(xs: seq<T>) {
    forall a, b :: 0 <= a < b < |xs| ==> xs[a] != xs[b]
  }

  lemma NoRepeatsAppend(xs: seq<nat>, ys: seq<nat>)
    requires NoRepeats(xs) && NoRepeats(ys) && forall x :: x in xs ==> x !in ys
    ensures NoRepeats(xs + ys)
  {
    forall a, b | 0 <= a < b < |xs + ys|
      ensures (xs + ys)[a] != (xs + ys)[b]
    {
      if a < |xs| <= b {
        assert xs[a] in xs && ys[b - |xs|] in ys;
      }
    }
  }

  lemma NoRepeatsCount<T>(xs: seq<T>, x: T)
    requires NoRepeats(xs)
    ensures multiset(xs)[x] <= 1
  {
    if xs != [] {
      var last := xs[|xs| - 1];
      assert xs == xs[..|xs| - 1] + [last];
      NoRepeatsCount(xs[..|xs| - 1], x);
      if x == last {
        assert x !in xs[..|xs| - 1];
      }
    }
  }

  lemma CountNoRepeats<T>(xs: seq<T>)
    requires forall x :: multiset(xs)[x] <= 1
    ensures NoRepeats(xs)
  {
    forall a, b | 0 <= a < b < |xs|
      ensures xs[a] != xs[b]
    {
      assert xs == xs[..b] + xs[b..];
      assert multiset(xs) == multiset(xs[..b]) + multiset(xs[b..]);
      assert xs[b..][0] in multiset(xs[b..]) && xs[..b][a] in multiset(xs[..b]);
      assert multiset(xs)[xs[b]] <= 1;
    }
  }

  lemma SameContentsNoRepeats<T>(xs: seq<T>, ys: seq<T>)
    requires NoRepeats(xs) && multiset(xs) == multiset(ys)
    ensures NoRepeats(ys) && forall x :: x in xs <==> x in ys
  {
    forall x
      ensures multiset(ys)[x] <= 1
      ensures x in xs <==> x in ys
    {
      NoRepeatsCount(xs, x);
      assert x in xs <==> x in multiset(xs);
      assert x in ys <==> x in multiset(ys);
    }
    CountNoRepeats(ys);
  }
}
