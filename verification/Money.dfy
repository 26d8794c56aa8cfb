/** Money in whole sen, rounded as Postgres ROUND, and sums over lists. */
module Money {

  /** Half away from zero. */
  function Round(x: real): (r: int)
    ensures -0.5 <= r as real - x <= 0.5
    ensures x >= 0.0 ==> r >= 0
  {
    if x >= 0.0 then (x + 0.5).Floor else -((0.5 - x).Floor)
  }

  lemma RoundWhole(n: int)
    ensures Round(n as real) == n
  {
    assert n >= 0 ==> (n as real + 0.5).Floor == n;
    assert n < 0 ==> (0.5 - n as real).Floor == -n;
  }

  /** Half a sen between two whole ones. */
  predicate IsHalf(x: real) { x == x.Floor as real + 0.5 }

  /** Adding n carries a half from one side of zero to the other. */
  predicate Crosses(n: int, x: real) {
    IsHalf(x) && ((x < 0.0) != (n as real + x < 0.0))
  }

  /** A whole amount may be added before or after rounding, except where it carries a half across zero. */
  lemma RoundShift(n: int, x: real)
    ensures Round(n as real + x) == n + Round(x) <==> !Crosses(n, x)
  {
    FloorShift(n, x + 0.5);
    FloorShift(-n, 0.5 - x);
    assert n as real + x + 0.5 == n as real + (x + 0.5);
    assert 0.5 - (n as real + x) == (-n) as real + (0.5 - x);
    HalfOrNearest(x);
  }

  lemma FloorShift(n: int, z: real)
    ensures (n as real + z).Floor == n + z.Floor
  {
  }

  /** Rounding halves up and rounding them down differ on halves alone. */
  lemma HalfOrNearest(x: real)
    ensures (x + 0.5).Floor == -(0.5 - x).Floor <==> !IsHalf(x)
  {
    var f := x.Floor;
    assert f as real <= x < f as real + 1.0;
    if x < f as real + 0.5 {
      assert (x + 0.5).Floor == f && (0.5 - x).Floor == -f;
    } else if x == f as real + 0.5 {
      assert (x + 0.5).Floor == f + 1 && (0.5 - x).Floor == -f;
    } else {
      assert (x + 0.5).Floor == f + 1 && (0.5 - x).Floor == -f - 1;
    }
  }

  lemma RoundMonotone(x: real, y: real)
    requires x <= y
    ensures Round(x) <= Round(y)
  {
  }

  function Sum<T>(f: T -> int, xs: seq<T>): int {
    if xs == [] then 0 else Sum(f, xs[..|xs| - 1]) + f(xs[|xs| - 1])
  }

  lemma SumOne<T>(f: T -> int, xs: seq<T>, i: nat)
    requires i < |xs|
    ensures Sum(f, xs[..i + 1]) == Sum(f, xs[..i]) + f(xs[i])
  {
    assert xs[..i + 1][..i] == xs[..i];
  }

  lemma {:induction false} SumWithout<T>(f: T -> int, xs: seq<T>, i: nat)
    requires i < |xs|
    ensures Sum(f, xs) == Sum(f, xs[..i] + xs[i + 1..]) + f(xs[i])
    decreases |xs|
  {
    var k := |xs| - 1;
    if i == k {
      assert xs[..i] + xs[i + 1..] == xs[..k];
    } else {
      SumWithout(f, xs[..k], i);
      var rest := xs[..i] + xs[i + 1..];
      assert rest[..k - 1] == xs[..k][..i] + xs[..k][i + 1..];
    }
  }

  /** A sum does not depend on the order. */
  lemma {:induction false} SumPermutes<T>(f: T -> int, xs: seq<T>, ys: seq<T>)
    requires multiset(xs) == multiset(ys)
    ensures Sum(f, xs) == Sum(f, ys)
    decreases |ys|
  {
    assert |multiset(xs)| == |xs| && |multiset(ys)| == |ys|;
    if ys != [] {
      var k := |ys| - 1;
      var last := ys[k];
      assert ys == ys[..k] + [last];
      assert last in multiset(xs);
      var i :| 0 <= i < |xs| && xs[i] == last;
      assert xs == xs[..i] + [xs[i]] + xs[i + 1..];
      SumWithout(f, xs, i);
      assert multiset(xs[..i] + xs[i + 1..]) == multiset(xs) - multiset{last};
      assert multiset(ys[..k]) == multiset(ys) - multiset{last};
      SumPermutes(f, xs[..i] + xs[i + 1..], ys[..k]);
    }
  }

  lemma {:induction false} SumDifference<T>(f: T -> int, g: T -> int, h: T -> int, xs: seq<T>)
    requires forall x :: x in xs ==> f(x) == g(x) - h(x)
    ensures Sum(f, xs) == Sum(g, xs) - Sum(h, xs)
    decreases |xs|
  {
    if xs != [] {
      SumDifference(f, g, h, xs[..|xs| - 1]);
    }
  }

  lemma {:induction false} SumAtMost<T>(f: T -> int, g: T -> int, xs: seq<T>)
    requires forall x :: x in xs ==> f(x) <= g(x)
    ensures Sum(f, xs) <= Sum(g, xs)
    decreases |xs|
  {
    if xs != [] {
      SumAtMost(f, g, xs[..|xs| - 1]);
    }
  }

  lemma {:induction false} SumAppend<T>(f: T -> int, xs: seq<T>, ys: seq<T>)
    ensures Sum(f, xs + ys) == Sum(f, xs) + Sum(f, ys)
    decreases |ys|
  {
    if ys == [] {
      assert xs + ys == xs;
    } else {
      var k := |ys| - 1;
      SumAppend(f, xs, ys[..k]);
      assert (xs + ys)[..|xs + ys| - 1] == xs + ys[..k];
    }
  }

  function SumReal<T>(g: T -> real, xs: seq<T>): real {
    if xs == [] then 0.0 else SumReal(g, xs[..|xs| - 1]) + g(xs[|xs| - 1])
  }

  lemma Distribute(x: real, a: real, b: real)
    ensures x * (a + b) == x * a + x * b
  {
  }

  /** Whole values that each lie within a sen of real ones add up to within a sen each of their sum. */
  lemma {:induction false} SumNear<T>(f: T -> int, g: T -> real, xs: seq<T>)
    requires forall x :: x in xs ==> -1.0 <= f(x) as real - g(x) <= 1.0
    ensures -(|xs| as real) <= Sum(f, xs) as real - SumReal(g, xs) <= |xs| as real
    decreases |xs|
  {
    if xs != [] {
      var k := |xs| - 1;
      SumNear(f, g, xs[..k]);
      assert xs[k] in xs;
    }
  }

  /** A share that adds up, such as a pro rata part of a discounted amount. */
  ghost predicate Additive(share: int -> real) {
    share(0) == 0.0 && forall a, b :: AddsUp(share, a, b)
  }

  ghost predicate AddsUp(share: int -> real, a: int, b: int) {
    share(a + b) == share(a) + share(b)
  }

  function Id(x: int): int { x }

  function Rounded(share: int -> real, amounts: seq<int>): (r: seq<int>)
    ensures |r| == |amounts| && forall i :: 0 <= i < |r| ==> r[i] == Round(share(amounts[i]))
  {
    seq(|amounts|, i requires 0 <= i < |amounts| => Round(share(amounts[i])))
  }

  lemma {:induction false} RoundedNear(share: int -> real, amounts: seq<int>, n: nat)
    requires Additive(share) && n <= |amounts|
    ensures -0.5 * n as real <= Sum(Id, Rounded(share, amounts)[..n]) as real - share(Sum(Id,
      amounts[..n])) <= 0.5 * n as real
    decreases n
  {
    if n > 0 {
      var k := n - 1;
      RoundedNear(share, amounts, k);
      SumOne(Id, amounts, k);
      SumOne(Id, Rounded(share, amounts), k);
      assert AddsUp(share, Sum(Id, amounts[..k]), amounts[k]);
    }
  }

  /** The last part takes what the roundings leave over. */
  function Settle(parts: seq<int>, total: int): (r: seq<int>)
    requires parts != []
    ensures |r| == |parts| && Sum(Id, r) == total
    ensures forall i :: 0 <= i < |parts| - 1 ==> r[i] == parts[i]
    ensures r[|r| - 1] - parts[|r| - 1] == total - Sum(Id, parts)
  {
    var k := |parts| - 1;
    var r := parts[..k] + [parts[k] + (total - Sum(Id, parts))];
    assert r[..k] == parts[..k];
    r
  }

  lemma KeptShare(share: int -> real, amounts: seq<int>, total: int, i: nat)
    requires i < |amounts| - 1
    ensures -0.5 <= Settle(Rounded(share, amounts), total)[i] as real - share(amounts[i]) <= 0.5
  {
    assert Settle(Rounded(share, amounts), total)[i] == Rounded(share, amounts)[i] == Round(share(amounts[i]));
  }

  /** When the shares add up to the total, the last part is off by at most half a sen for each other part. */
  lemma SettledNear(share: int -> real, amounts: seq<int>, total: int)
    requires Additive(share) && amounts != [] && share(Sum(Id, amounts)) == total as real
    ensures
      var k := |amounts| - 1;
      -0.5 * k as real <= Settle(Rounded(share, amounts), total)[k] as real - share(amounts[k]) <= 0.5 * k as real
  {
    var k := |amounts| - 1;
    var parts := Rounded(share, amounts);
    RoundedNear(share, amounts, k);
    SettleLast(parts, total);
    ShareOfLast(share, amounts);
    RestNear(k, Sum(Id, parts[..k]), total, share(Sum(Id, amounts[..k])), share(amounts[k]));
  }

  lemma ShareOfLast(share: int -> real, amounts: seq<int>)
    requires Additive(share) && amounts != []
    ensures var k := |amounts| - 1;
      share(Sum(Id, amounts)) == share(Sum(Id, amounts[..k])) + share(amounts[k])
  {
    assert AddsUp(share, Sum(Id, amounts[..|amounts| - 1]), amounts[|amounts| - 1]);
  }

  lemma SettleLast(parts: seq<int>, total: int)
    requires parts != []
    ensures Settle(parts, total)[|parts| - 1] == total - Sum(Id, parts[..|parts| - 1])
  {
    SumOne(Id, parts, |parts| - 1);
    assert parts[..|parts|] == parts;
  }

  lemma RestNear(k: nat, sum: int, total: int, x: real, y: real)
    requires -0.5 * k as real <= sum as real - x <= 0.5 * k as real && x + y == total as real
    ensures -0.5 * k as real <= (total - sum) as real - y <= 0.5 * k as real
  {
  }
}
