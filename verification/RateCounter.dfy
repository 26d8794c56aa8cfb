/** The sliding-window counter: two maps that trade places, against a log of the increments. */
module RateCounter {
  import Money

  /** One increment, at a monotonic time counted from the counter's creation. */
  datatype Event = Event(at: nat, key: string, amount: int)

  // What a log says

  /** The increments of a key in one aligned window. */
  function WindowSum(log: seq<Event>, key: string, index: int, window: nat): int
    requires window > 0
    decreases |log|
  {
    if log == [] then 0
    else
      var e := log[|log| - 1];
      WindowSum(log[..|log| - 1], key, index, window) + if e.key == key && e.at / window == index then e.amount else 0
  }

  /** The share of the previous window still inside the sliding one, as a part of its count. */
  function Share(count: int, into: nat, window: nat): real
    requires into < window
  {
    count as real * ((window - into) as real / window as real)
  }

  /** The sliding estimate at a time. */
  function Estimate(log: seq<Event>, key: string, at: nat, window: nat): int
    requires window > 0
  {
    Money.Round(Share(WindowSum(log, key, at / window - 1, window), at % window, window)) +
      WindowSum(log, key, at / window, window)
  }

  /** Times never go back, and none is past the given one. */
  ghost predicate Ordered(log: seq<Event>, last: nat) {
    && (forall i, j :: 0 <= i < j < |log| ==> log[i].at <= log[j].at)
    && (forall i :: 0 <= i < |log| ==> log[i].at <= last)
  }

  lemma {:induction false} SumAfter(log: seq<Event>, e: Event, key: string, index: int, window: nat)
    requires window > 0
    ensures WindowSum(log + [e], key, index, window) ==
      WindowSum(log, key, index, window) + if e.key == key && e.at / window == index then e.amount else 0
  {
    assert (log + [e])[..|log|] == log;
  }

  /** Windows the log has not reached are empty. */
  lemma {:induction false} NothingAhead(log: seq<Event>, last: nat, key: string, index: int, window: nat)
    requires window > 0 && Ordered(log, last) && index > last / window
    ensures WindowSum(log, key, index, window) == 0
    decreases |log|
  {
    if log != [] {
      var e := log[|log| - 1];
      NothingAhead(log[..|log| - 1], last, key, index, window);
      DivMonotone(e.at, last, window);
    }
  }

  lemma AllNothingAhead(log: seq<Event>, last: nat, window: nat)
    requires window > 0 && Ordered(log, last)
    ensures forall key, index: int {:trigger WindowSum(log, key, index, window)} :: index > last / window ==>
      WindowSum(log, key, index, window) == 0
  {
    forall key, index: int | index > last / window
      ensures WindowSum(log, key, index, window) == 0
    {
      NothingAhead(log, last, key, index, window);
    }
  }

  lemma AllSumsAfter(log: seq<Event>, e: Event, window: nat)
    requires window > 0
    ensures forall k, index: int {:trigger WindowSum(log + [e], k, index, window)} ::
      WindowSum(log + [e], k, index, window) == WindowSum(log, k, index, window) + if e.key == k &&
        e.at / window == index then e.amount else 0
  {
    forall k, index: int
      ensures WindowSum(log + [e], k, index, window) == WindowSum(log, k, index, window) + if e.key == k &&
        e.at / window == index then e.amount else 0
    {
      SumAfter(log, e, k, index, window);
    }
  }

  lemma DivMonotone(a: nat, b: nat, w: nat)
    requires a <= b && w > 0
    ensures a / w <= b / w
  {
    Quotient(a, w);
    Quotient(b, w);
    Multiples(b / w + 1, a / w, w);
  }

  lemma Quotient(a: nat, w: nat)
    requires w > 0
    ensures a / w * w <= a < a / w * w + w
  {
  }

  lemma Multiples(m: int, n: int, w: nat)
    ensures m <= n ==> m * w <= n * w
  {
  }

  // The counter

  /** A Go map: missing keys read zero, and two variables may hold the same one. */
  class Counts {
    var at: map<string, int>

    constructor ()
      ensures at == map[]
    {
      at := map[];
    }

    function Of(key: string): int
      reads this
    {
      if key in at then at[key] else 0
    }
  }

  lemma ShareIs(count: int, into: nat, window: nat, weight: real)
    requires into < window && weight == (window - into) as real / window as real
    ensures Share(count, into, window) == count as real * weight
  {
  }

  class Counter {
    const window: nat
    var index: int
    var curr: Counts
    var prev: Counts
    ghost var log: seq<Event>
    ghost var last: nat

    /** The two maps are the sums of the current and the previous window, and never one map. */
    ghost predicate Valid()
      reads this, curr, prev
    {
      && window > 0
      && curr != prev
      && Ordered(log, last)
      && index == last / window
      && (forall key {:trigger curr.Of(key)} :: curr.Of(key) == WindowSum(log, key, index, window))
      && (forall key {:trigger prev.Of(key)} :: prev.Of(key) == WindowSum(log, key, index - 1, window))
    }

    constructor (window: nat)
      requires window > 0
      ensures Valid() && log == [] && last == 0 && this.window == window
      ensures fresh(curr) && fresh(prev)
    {
      this.window := window;
      index, log, last := 0, [], 0;
      curr := new Counts();
      prev := new Counts();
    }

    /** Advances to the window of `now`, and returns how far into it the clock is. */
    method Roll(now: nat) returns (into: nat)
      requires Valid() && now >= last
      modifies this, curr, prev
      ensures Valid() && last == now && log == old(log) && into == now % window && into < window
      ensures {curr, prev} == old({curr, prev})
    {
      var idx := now / window;
      DivMonotone(last, now, window);
      AllNothingAhead(log, last, window);
      if idx == index {
      } else if idx == index + 1 {
        prev, curr := curr, prev;
        curr.at := map[];
        assert idx - 1 == old(index);
      } else {
        prev.at := map[];
        curr.at := map[];
      }
      index := idx;
      last := now;
      into := now % window;
    }

    method IncrementBy(now: nat, key: string, amount: int)
      requires Valid() && now >= last
      modifies this, curr, prev
      ensures Valid() && last == now && log == old(log) + [Event(now, key, amount)]
      ensures {curr, prev} == old({curr, prev})
    {
      var into := Roll(now);
      AllSumsAfter(log, Event(now, key, amount), window);
      Add(key, amount);
      log := log + [Event(now, key, amount)];
    }

    method Add(key: string, amount: int)
      requires curr != prev
      modifies curr
      ensures forall k :: curr.Of(k) == old(curr.Of(k)) + if k == key then amount else 0
      ensures forall k :: prev.Of(k) == old(prev.Of(k))
    {
      curr.at := curr.at[key := curr.Of(key) + amount];
    }

    /** The sliding estimate; reading logs nothing. */
    method Get(now: nat, key: string) returns (estimate: int)
      requires Valid() && now >= last
      modifies this, curr, prev
      ensures Valid() && last == now && log == old(log)
      ensures estimate == Estimate(log, key, now, window)
      ensures {curr, prev} == old({curr, prev})
    {
      var into := Roll(now);
      var weight := (window - into) as real / window as real;
      var before, here := prev.Of(key), curr.Of(key);
      estimate := Money.Round(before as real * weight) + here;
      ShareIs(before, into, window, weight);
    }
  }

  // What the estimate promises

  ghost predicate NoneNegative(log: seq<Event>) {
    forall i :: 0 <= i < |log| ==> log[i].amount >= 0
  }

  lemma {:induction false} SumNotNegative(log: seq<Event>, key: string, index: int, window: nat)
    requires window > 0 && NoneNegative(log)
    ensures WindowSum(log, key, index, window) >= 0
    decreases |log|
  {
    if log != [] {
      SumNotNegative(log[..|log| - 1], key, index, window);
    }
  }

  /** A share is part of its count, and no larger later in the window. */
  lemma ShareShrinks(count: nat, into: nat, later: nat, window: nat)
    requires into <= later < window
    ensures 0.0 <= Share(count, later, window) <= Share(count, into, window) <= count as real
  {
    var w := window as real;
    Fraction((window - later) as real, (window - into) as real, w);
    Fraction((window - into) as real, w, w);
    Scale(count as real, (window - later) as real / w, (window - into) as real / w);
    Scale(count as real, (window - into) as real / w, 1.0);
  }

  lemma Fraction(x: real, y: real, w: real)
    requires 0.0 <= x <= y && w > 0.0
    ensures 0.0 <= x / w <= y / w && w / w == 1.0
  {
    var p, q := x / w, y / w;
    assert p * w == x && q * w == y;
    assert (q - p) * w >= 0.0;
  }

  lemma Scale(c: real, x: real, y: real)
    requires c >= 0.0 && 0.0 <= x <= y
    ensures 0.0 <= c * x <= c * y
  {
  }

  /** The estimate lies between the current window's count and the two windows' together. */
  lemma EstimateBetween(log: seq<Event>, key: string, at: nat, window: nat)
    requires window > 0 && NoneNegative(log)
    ensures WindowSum(log, key, at / window, window) <= Estimate(log, key, at, window)
    ensures Estimate(log, key, at, window) <= WindowSum(log, key, at / window, window) +
      WindowSum(log, key, at / window - 1, window)
  {
    var p := WindowSum(log, key, at / window - 1, window);
    SumNotNegative(log, key, at / window - 1, window);
    ShareShrinks(p, at % window, at % window, window);
    Money.RoundMonotone(Share(p, at % window, window), p as real);
    Money.RoundWhole(p);
  }

  lemma ShareTimesWindow(count: int, rest: int, w: int)
    requires w > 0
    ensures count as real * (rest as real / w as real) * w as real == (count * rest) as real
  {
    var part := rest as real / w as real;
    assert part * w as real == rest as real;
    assert count as real * part * w as real == count as real * rest as real;
  }

  lemma ScaledBound(r: real, x: real, w: real, p: real, q: real)
    requires -0.5 <= r - x <= 0.5 && w > 0.0 && p == r * w && q == x * w
    ensures -w <= 2.0 * (p - q) <= w
  {
    var d := r - x;
    assert p - q == d * w;
    assert -0.5 * w <= d * w <= 0.5 * w;
  }

  lemma ProductAsReal(r: int, w: int)
    ensures (r * w) as real == r as real * w as real
  {
  }

  lemma WithinOfReal(a: int, b: int, w: int, p: real, q: real)
    requires a as real == p && b as real == q && -(w as real) <= 2.0 * (p - q) <= w as real
    ensures 0 <= 2 * (a - b) + w <= 2 * w
  {
  }

  lemma RoundedWithin(r: int, x: real, w: int, owed: int)
    requires w > 0 && -0.5 <= r as real - x <= 0.5 && x * w as real == owed as real
    ensures 0 <= 2 * (r * w - owed) + w <= 2 * w
  {
    ProductAsReal(r, w);
    ScaledBound(r as real, x, w as real, (r * w) as real, owed as real);
    WithinOfReal(r * w, owed, w, (r * w) as real, owed as real);
  }

  lemma RoundedShare(count: int, into: nat, rest: int, window: nat)
    requires into < window && rest == window - into
    ensures 0 <= 2 * (Money.Round(Share(count, into, window)) * window - count * rest) + window <= 2 * window
  {
    ShareTimesWindow(count, rest, window);
    RoundedWithin(Money.Round(Share(count, into, window)), Share(count, into, window), window, count * rest);
  }

  /** The previous window weighs by exactly the share of it still inside the sliding one: whatever the
      amounts, the estimate is within half an increment of the current count plus that share. */
  lemma EstimateWeighs(log: seq<Event>, key: string, at: nat, window: nat)
    requires window > 0
    ensures var curr, prev := WindowSum(log, key, at / window, window), WindowSum(log, key, at / window - 1, window);
      0 <= 2 * ((Estimate(log, key, at, window) - curr) * window - prev * (window - at % window)) + window <= 2 * window
  {
    RoundedShare(WindowSum(log, key, at / window - 1, window), at % window, window - at % window, window);
  }

  /** While nothing is added the estimate never rises, across any number of windows. */
  lemma EstimateNeverRises(log: seq<Event>, key: string, at: nat, later: nat, window: nat)
    requires window > 0 && NoneNegative(log) && Ordered(log, at) && at <= later
    ensures Estimate(log, key, later, window) <= Estimate(log, key, at, window)
  {
    var i, j := at / window, later / window;
    DivMonotone(at, later, window);
    EstimateBetween(log, key, at, window);
    if i == j {
      var p := WindowSum(log, key, i - 1, window);
      SumNotNegative(log, key, i - 1, window);
      SameWindowLater(at, later, window);
      ShareShrinks(p, at % window, later % window, window);
      Money.RoundMonotone(Share(p, later % window, window), Share(p, at % window, window));
    } else {
      NothingAhead(log, at, key, j, window);
      EstimateBetween(log, key, later, window);
      if i + 1 < j {
        NothingAhead(log, at, key, j - 1, window);
        SumNotNegative(log, key, i, window);
      }
    }
  }

  lemma SameWindowLater(a: nat, b: nat, w: nat)
    requires w > 0 && a <= b && a / w == b / w
    ensures a % w <= b % w
  {
    assert a == a / w * w + a % w && b == b / w * w + b % w;
  }

  // What a limiter gets from it

  /** Every increment is of one, at a time when the estimate was still below the limit. */
  ghost predicate Limited(log: seq<Event>, limit: nat, window: nat)
    requires window > 0
  {
    forall i :: 0 <= i < |log| ==> log[i].amount == 1 && Estimate(log[..i], log[i].key, log[i].at, window) < limit
  }

  lemma LimitedPrefix(log: seq<Event>, limit: nat, window: nat)
    requires window > 0 && log != [] && Limited(log, limit, window)
    ensures Limited(log[..|log| - 1], limit, window) && NoneNegative(log[..|log| - 1])
  {
    var before := log[..|log| - 1];
    forall i | 0 <= i < |before|
      ensures before[i].amount == 1 && Estimate(before[..i], before[i].key, before[i].at, window) < limit
    {
      assert before[..i] == log[..i] && before[i] == log[i];
    }
  }

  /** No window exceeds the limit. */
  lemma {:induction false} NoWindowOverLimit(log: seq<Event>, limit: nat, window: nat, key: string, index: int)
    requires window > 0 && Limited(log, limit, window)
    ensures WindowSum(log, key, index, window) <= limit
    decreases |log|
  {
    if log != [] {
      var before, e := log[..|log| - 1], log[|log| - 1];
      LimitedPrefix(log, limit, window);
      NoWindowOverLimit(before, limit, window, key, index);
      EstimateBetween(before, e.key, e.at, window);
      assert log[..|log| - 1] == before;
    }
  }

  /** The increments of a key in [from, from + length). */
  function IntervalSum(log: seq<Event>, key: string, from: nat, length: nat): int
    decreases |log|
  {
    if log == [] then 0
    else
      var e := log[|log| - 1];
      IntervalSum(log[..|log| - 1], key, from, length) + if e.key == key &&
        from <= e.at < from + length then e.amount else 0
  }

  lemma {:induction false} IntervalWithinTwoWindows(log: seq<Event>, key: string, from: nat, window: nat)
    requires window > 0 && NoneNegative(log)
    ensures IntervalSum(log, key, from, window) <= WindowSum(log, key, from / window, window) +
      WindowSum(log, key, from / window + 1, window)
    decreases |log|
  {
    if log != [] {
      var e := log[|log| - 1];
      IntervalWithinTwoWindows(log[..|log| - 1], key, from, window);
      if from <= e.at < from + window {
        NextWindowAtMost(from, e.at, window);
      }
    }
  }

  lemma NextWindowAtMost(a: nat, b: nat, w: nat)
    requires w > 0 && a <= b < a + w
    ensures a / w <= b / w <= a / w + 1
  {
    DivMonotone(a, b, w);
    Quotient(a, w);
    Quotient(b, w);
    Multiples(a / w + 2, b / w, w);
  }

  /** No stretch of one window length, however it is aligned, holds more than twice the limit. */
  lemma NoIntervalOverTwice(log: seq<Event>, limit: nat, window: nat, key: string, from: nat)
    requires window > 0 && Limited(log, limit, window)
    ensures IntervalSum(log, key, from, window) <= 2 * limit
  {
    assert NoneNegative(log);
    IntervalWithinTwoWindows(log, key, from, window);
    NoWindowOverLimit(log, limit, window, key, from / window);
    NoWindowOverLimit(log, limit, window, key, from / window + 1);
  }
}
