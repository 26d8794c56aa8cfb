/** Stable sorting by a "comes first" test, for the places where the source sorts a list. */
module Sorting {

  /** x goes in front of the first element that does not strictly come before it. */
  function Insert<T>(before: (T, T) -> bool, x: T, xs: seq<T>): (r: seq<T>)
    ensures multiset(r) == multiset([x] + xs)
    ensures |r| == |xs| + 1
  {
    if xs == [] || !before(xs[0], x) then [x] + xs
    else
      assert [x] + xs == [x] + ([xs[0]] + xs[1..]);
      [xs[0]] + Insert(before, x, xs[1..])
  }

  /** Sorted stably: built from the right, so equal elements keep their order. */
  function Sort<T>(before: (T, T) -> bool, xs: seq<T>): (r: seq<T>)
    ensures multiset(r) == multiset(xs)
    ensures |r| == |xs|
  {
    if xs == [] then []
    else
      assert xs == [xs[0]] + xs[1..];
      Insert(before, xs[0], Sort(before, xs[1..]))
  }

  /** A strict order whose "neither first" relation is also transitive. */
  ghost predicate Order<T(!new)>(before: (T, T) -> bool) {
    && (forall a, b :: before(a, b) ==> !before(b, a))
    && (forall a, b, c :: !before(b, a) && !before(c, b) ==> !before(c, a))
  }

  ghost predicate Sorted<T(!new)>(before: (T, T) -> bool, xs: seq<T>) {
    forall i, j :: 0 <= i < j < |xs| ==> !before(xs[j], xs[i])
  }

  lemma InsertSorted<T(!new)>(before: (T, T) -> bool, x: T, xs: seq<T>)
    requires Order(before) && Sorted(before, xs)
    ensures Sorted(before, Insert(before, x, xs))
  {
    var r := Insert(before, x, xs);
    if xs == [] || !before(xs[0], x) {
      forall i, j | 0 <= i < j < |r|
        ensures !before(r[j], r[i])
      {
        if i == 0 && j > 1 {
          assert !before(xs[j - 1], xs[0]);
        }
      }
    } else {
      InsertSorted(before, x, xs[1..]);
      var rest := Insert(before, x, xs[1..]);
      forall j | 0 <= j < |rest|
        ensures !before(rest[j], xs[0])
      {
        assert rest[j] in multiset(rest);
        assert rest[j] in [x] + xs[1..];
      }
    }
  }

  lemma SortSorted<T(!new)>(before: (T, T) -> bool, xs: seq<T>)
    requires Order(before)
    ensures Sorted(before, Sort(before, xs))
  {
    if xs != [] {
      SortSorted(before, xs[1..]);
      InsertSorted(before, xs[0], Sort(before, xs[1..]));
    }
  }

  /** A sequence sorted by an order that separates its elements is determined by its contents. */
  lemma SortedUnique<T(!new)>(before: (T, T) -> bool, xs: seq<T>, ys: seq<T>)
    requires Order(before) && Sorted(before, xs) && Sorted(before, ys) && multiset(xs) == multiset(ys)
    requires forall a, b :: a in xs && b in xs && !before(a, b) && !before(b, a) ==> a == b
    ensures xs == ys
  {
    SameSize(xs, ys);
    if xs != [] {
      assert xs == [xs[0]] + xs[1..] && ys == [ys[0]] + ys[1..];
      FirstAgrees(before, xs, ys);
      RestSorted(before, xs);
      RestSorted(before, ys);
      assert multiset(xs[1..]) == multiset(xs) - multiset{xs[0]};
      assert multiset(ys[1..]) == multiset(ys) - multiset{ys[0]};
      SortedUnique(before, xs[1..], ys[1..]);
    }
  }

  lemma RestSorted<T(!new)>(before: (T, T) -> bool, xs: seq<T>)
    requires Sorted(before, xs) && xs != []
    ensures Sorted(before, xs[1..]) && forall a :: a in xs[1..] ==> a in xs
  {
    forall i, j | 0 <= i < j < |xs[1..]|
      ensures !before(xs[1..][j], xs[1..][i])
    {
      assert !before(xs[j + 1], xs[i + 1]);
    }
  }

  lemma SameSize<T>(xs: seq<T>, ys: seq<T>)
    requires multiset(xs) == multiset(ys)
    ensures |xs| == |ys|
  {
    assert |multiset(xs)| == |xs| && |multiset(ys)| == |ys|;
  }

  lemma FirstAgrees<T(!new)>(before: (T, T) -> bool, xs: seq<T>, ys: seq<T>)
    requires Order(before) && Sorted(before, xs) && Sorted(before, ys) && multiset(xs) == multiset(ys)
    requires forall a, b :: a in xs && b in xs && !before(a, b) && !before(b, a) ==> a == b
    requires |xs| == |ys| > 0
    ensures xs[0] == ys[0]
  {
    assert xs[0] in multiset(ys) && ys[0] in multiset(xs);
    var i :| 0 <= i < |ys| && ys[i] == xs[0];
    var j :| 0 <= j < |xs| && xs[j] == ys[0];
    assert !before(xs[0], ys[0]) by {
      if i == 0 {
        assert !before(ys[0], ys[0]);
      } else {
        assert !before(ys[i], ys[0]);
      }
    }
    assert !before(ys[0], xs[0]) by {
      if j == 0 {
        assert !before(xs[0], xs[0]);
      } else {
        assert !before(xs[j], xs[0]);
      }
    }
  }
}
