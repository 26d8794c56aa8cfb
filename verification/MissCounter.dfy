/** The bounded tally of unknown-address misses: a recency list of entries, a map into it, and the
    least recently missed entry dropped when the table is full. */
module MissCounter {
  import opened DistinctLists

  /** The digest of a normalised address; digests are taken not to collide. */
  type Key = string

  // The history it must agree with

  /** The distinct addresses of a history, the most recently missed first. */
  function Recency(h: seq<Key>): (r: seq<Key>)
    decreases |h|
  {
    if h == [] then [] else [h[|h| - 1]] + Without(Recency(h[..|h| - 1]), h[|h| - 1])
  }

  function Without(xs: seq<Key>, k: Key): (r: seq<Key>)
    ensures k !in r
    ensures forall x :: x in r <==> x in xs && x != k
  {
    if xs == [] then []
    else if xs[0] == k then Without(xs[1..], k)
    else [xs[0]] + Without(xs[1..], k)
  }

  function Take(xs: seq<Key>, limit: nat): seq<Key> {
    if |xs| <= limit then xs else xs[..limit]
  }

  /** The addresses a table of this size still tracks. */
  function Tracked(h: seq<Key>, limit: nat): seq<Key> {
    Take(Recency(h), limit)
  }

  /** The misses of k since it last entered the table. */
  function Tally(h: seq<Key>, limit: nat, k: Key): nat
    decreases |h|
  {
    if h == [] then 0
    else
      var before := h[..|h| - 1];
      if h[|h| - 1] == k then Tally(before, limit, k) + 1
      else if k in Tracked(h, limit) then Tally(before, limit, k)
      else 0
  }

  lemma WithoutDistinct(xs: seq<Key>, k: Key)
    requires NoRepeats(xs)
    ensures NoRepeats(Without(xs, k))
    ensures |Without(xs, k)| == |xs| - if k in xs then 1 else 0
  {
    if xs != [] {
      WithoutDistinct(xs[1..], k);
      assert forall j :: 0 < j < |xs| ==> xs[j] == xs[1..][j - 1];
      if xs[0] == k {
        assert k !in xs[1..];
        WithoutAbsent(xs[1..], k);
      } else {
        assert k in xs <==> k in xs[1..];
        var rest := Without(xs[1..], k);
        assert xs[0] !in rest;
        forall i, j | 0 <= i < j < |rest| + 1
          ensures ([xs[0]] + rest)[i] != ([xs[0]] + rest)[j]
        {
          assert ([xs[0]] + rest)[j] == rest[j - 1] && rest[j - 1] in rest;
        }
      }
    }
  }

  lemma WithoutAbsent(xs: seq<Key>, k: Key)
    requires k !in xs
    ensures Without(xs, k) == xs
  {
    if xs != [] {
      WithoutAbsent(xs[1..], k);
    }
  }

  lemma RecencyDistinct(h: seq<Key>)
    ensures NoRepeats(Recency(h)) && forall k :: k in Recency(h) <==> k in h
    decreases |h|
  {
    if h != [] {
      var before, k := h[..|h| - 1], h[|h| - 1];
      RecencyDistinct(before);
      assert h == before + [k];
      WithoutDistinct(Recency(before), k);
      var rest := Without(Recency(before), k);
      forall i, j | 0 <= i < j < |rest| + 1
        ensures ([k] + rest)[i] != ([k] + rest)[j]
      {
        assert ([k] + rest)[j] == rest[j - 1] && rest[j - 1] in rest;
      }
    }
  }

  // What one miss does to the tracked addresses

  lemma TailDistinct(xs: seq<Key>)
    requires NoRepeats(xs) && xs != []
    ensures NoRepeats(xs[1..]) && xs[0] !in xs[1..]
  {
    assert forall j :: 0 <= j < |xs| - 1 ==> xs[1..][j] == xs[j + 1];
  }

  lemma WithoutAppend(a: seq<Key>, b: seq<Key>, k: Key)
    ensures Without(a + b, k) == Without(a, k) + Without(b, k)
  {
    if a == [] {
      assert a + b == b;
    } else {
      assert (a + b)[1..] == a[1..] + b;
      WithoutAppend(a[1..], b, k);
    }
  }

  /** Where a list of distinct keys is cut by one of them. */
  lemma CutAt(xs: seq<Key>, p: nat)
    requires NoRepeats(xs) && p < |xs|
    ensures xs == xs[..p] + ([xs[p]] + xs[p + 1..])
    ensures xs[p] !in xs[..p] && xs[p] !in xs[p + 1..]
  {
  }

  lemma TakeAppend(a: seq<Key>, b: seq<Key>, limit: nat)
    requires |a| <= limit
    ensures Take(a + b, limit) == a + Take(b, limit - |a|)
  {
  }

  lemma WithoutCut(a: seq<Key>, k: Key, b: seq<Key>)
    requires k !in a && k !in b
    ensures Without(a + ([k] + b), k) == a + b
  {
    WithoutAppend(a, [k] + b, k);
    WithoutAbsent(a, k);
    WithoutAbsent(b, k);
    assert ([k] + b)[1..] == b;
  }

  lemma WithoutAt(xs: seq<Key>, p: nat)
    requires NoRepeats(xs) && p < |xs|
    ensures Without(xs, xs[p]) == xs[..p] + xs[p + 1..]
  {
    CutAt(xs, p);
    WithoutCut(xs[..p], xs[p], xs[p + 1..]);
  }

  lemma FrontHit(a: seq<Key>, k: Key, b: seq<Key>, limit: nat)
    requires k !in a && k !in b && |a| < limit
    ensures Take([k] + Without(a + ([k] + b), k), limit) == [k] + Without(Take(a + ([k] + b), limit), k)
  {
    WithoutCut(a, k, b);
    TakeFront(a, k, b, limit);
    TakeMiddle(a, k, b, limit);
    WithoutCut(a, k, Take(b, limit - |a| - 1));
  }

  lemma TakeFront(a: seq<Key>, k: Key, b: seq<Key>, limit: nat)
    requires |a| < limit
    ensures Take([k] + (a + b), limit) == [k] + (a + Take(b, limit - |a| - 1))
  {
    TakeAppend([k], a + b, limit);
    TakeAppend(a, b, limit - 1);
  }

  lemma TakeMiddle(a: seq<Key>, k: Key, b: seq<Key>, limit: nat)
    requires |a| < limit
    ensures Take(a + ([k] + b), limit) == a + ([k] + Take(b, limit - |a| - 1))
  {
    TakeAppend(a, [k] + b, limit);
    TakeAppend([k], b, limit - |a|);
  }

  lemma FrontMiss(r: seq<Key>, limit: nat, k: Key)
    requires NoRepeats(r) && limit >= 1 && k !in Take(r, limit)
    ensures Take([k] + Without(r, k), limit) == if |r| >= limit then [k] + r[..limit - 1] else [k] + r
  {
    if k in r {
      var p :| 0 <= p < |r| && r[p] == k;
      assert forall i :: 0 <= i < |Take(r, limit)| ==> Take(r, limit)[i] == r[i];
      assert p >= limit;
      WithoutAt(r, p);
      assert ([k] + (r[..p] + r[p + 1..]))[..limit] == [k] + r[..limit - 1];
    } else {
      WithoutAbsent(r, k);
    }
  }

  /** A tracked address moves to the front; an untracked one is put there, and when the table is
      full the last one falls out. */
  lemma TrackedAfter(h: seq<Key>, limit: nat, k: Key)
    requires limit >= 1
    ensures Tracked(h + [k], limit) ==
      if k in Tracked(h, limit) then [k] + Without(Tracked(h, limit), k)
      else if |Tracked(h, limit)| >= limit then [k] + Tracked(h, limit)[..limit - 1]
      else [k] + Tracked(h, limit)
  {
    var r := Recency(h);
    RecencyDistinct(h);
    assert (h + [k])[..|h|] == h && (h + [k])[|h|] == k;
    if k in Tracked(h, limit) {
      var p :| 0 <= p < |Tracked(h, limit)| && Tracked(h, limit)[p] == k;
      assert r[p] == k;
      CutAt(r, p);
      FrontHit(r[..p], k, r[p + 1..], limit);
    } else {
      FrontMiss(r, limit, k);
      assert |r| >= limit ==> Tracked(h, limit)[..limit - 1] == r[..limit - 1];
    }
  }

  /** The tally of k grows with k's own misses, stays while k is tracked, and starts over once the
      table has forgotten it. */
  lemma TallyAfter(h: seq<Key>, limit: nat, k: Key, x: Key)
    requires limit >= 1
    ensures Tally(h + [k], limit, x) ==
      if x == k then (if k in Tracked(h, limit) then Tally(h, limit, k) else 0) + 1
      else if x in Tracked(h + [k], limit) then Tally(h, limit, x) else 0
  {
    assert (h + [k])[..|h|] == h && (h + [k])[|h|] == k;
    if h != [] && k !in Tracked(h, limit) {
      assert Tracked(h, limit)[0] == h[|h| - 1];
    }
  }

  lemma TakeDistinct(xs: seq<Key>, limit: nat)
    requires NoRepeats(xs)
    ensures NoRepeats(Take(xs, limit))
  {
  }

  // The table

  class Entry {
    const key: Key
    var misses: nat

    constructor (key: Key)
      ensures this.key == key && misses == 1
    {
      this.key := key;
      misses := 1;
    }
  }

  lemma DistinctSize(xs: seq<Key>)
    requires NoRepeats(xs)
    ensures |set k | k in xs| == |xs|
  {
    if xs != [] {
      TailDistinct(xs);
      DistinctSize(xs[1..]);
      assert (set k | k in xs) == {xs[0]} + set k | k in xs[1..];
    }
  }

  /** The list without one of its elements. */
  function Others(xs: seq<Entry>, el: Entry): seq<Entry> {
    if xs == [] then [] else if xs[0] == el then xs[1..] else [xs[0]] + Others(xs[1..], el)
  }

  lemma OthersOf(a: seq<Entry>, el: Entry, b: seq<Entry>)
    requires el !in a
    ensures Others(a + ([el] + b), el) == a + b
  {
    if a == [] {
      assert a + ([el] + b) == [el] + b;
    } else {
      assert (a + ([el] + b))[1..] == a[1..] + ([el] + b);
      OthersOf(a[1..], el, b);
    }
  }

  lemma OthersAre(keys: seq<Key>, k: Key, p: nat)
    requires NoRepeats(keys) && p < |keys| && keys[p] == k && [k] + Without(keys, k) == InFront(keys, p)
    ensures forall i :: 0 <= i < |Without(keys, k)| ==>
      Without(keys, k)[i] == InFront(keys, p)[i + 1] && Without(keys, k)[i] != k
  {
    InFrontOnce(keys, p);
    assert forall i :: 0 <= i < |Without(keys, k)| ==> Without(keys, k)[i] == ([k] + Without(keys, k))[i + 1];
  }

  /** A miss of a tracked key adds one to its tally and leaves the others. */
  lemma TalliesAfter(h: seq<Key>, limit: nat, k: Key, others: seq<Key>)
    requires limit >= 1 && k in Tracked(h, limit) && Tracked(h + [k], limit) == [k] + others
    requires forall i :: 0 <= i < |others| ==> others[i] != k
    ensures Tally(h + [k], limit, k) == Tally(h, limit, k) + 1
    ensures forall i :: 0 <= i < |others| ==> Tally(h + [k], limit, others[i]) == Tally(h, limit, others[i])
  {
    TallyAfter(h, limit, k, k);
    forall i | 0 <= i < |others|
      ensures Tally(h + [k], limit, others[i]) == Tally(h, limit, others[i])
    {
      OtherTally(h, limit, k, others[i]);
      assert ([k] + others)[i + 1] == others[i];
    }
  }

  lemma OtherTally(h: seq<Key>, limit: nat, k: Key, x: Key)
    requires limit >= 1 && x != k
    ensures x in Tracked(h + [k], limit) ==> Tally(h + [k], limit, x) == Tally(h, limit, x)
  {
    TallyAfter(h, limit, k, x);
  }

  ghost predicate Matches(recent: seq<Entry>, byKey: map<Key, Entry>, keys: seq<Key>) {
    && NoRepeats(keys)
    && |recent| == |keys|
    && (forall i {:trigger recent[i]} {:trigger keys[i]} :: 0 <= i < |recent| ==>
          recent[i].key == keys[i] && keys[i] in byKey && byKey[keys[i]] == recent[i])
    && (forall k {:trigger k in byKey} :: k in byKey ==> k in keys)
  }

  /** Position i of a list whose p-th element moved to the front was this position before. */
  function Before(p: nat, i: nat): nat {
    if i == 0 then p else if i <= p then i - 1 else i
  }

  function InFront<T>(xs: seq<T>, p: nat): (r: seq<T>)
    requires p < |xs|
    ensures |r| == |xs| && forall i :: 0 <= i < |xs| ==> r[i] == xs[Before(p, i)]
  {
    [xs[p]] + (xs[..p] + xs[p + 1..])
  }

  lemma InFrontOnce(keys: seq<Key>, p: nat)
    requires NoRepeats(keys) && p < |keys|
    ensures NoRepeats(InFront(keys, p)) && forall k :: k in keys ==> k in InFront(keys, p)
    ensures forall i :: 0 < i < |keys| ==> InFront(keys, p)[i] != keys[p]
  {
    forall k | k in keys
      ensures k in InFront(keys, p)
    {
      var j :| 0 <= j < |keys| && keys[j] == k;
      assert InFront(keys, p)[if j == p then 0 else if j < p then j + 1 else j] == k;
    }
  }

  /** Key and entry move to the front together. */
  lemma MatchesInFront(recent: seq<Entry>, byKey: map<Key, Entry>, keys: seq<Key>, p: nat)
    requires Matches(recent, byKey, keys) && p < |keys|
    ensures Matches(InFront(recent, p), byKey, InFront(keys, p))
  {
    InFrontOnce(keys, p);
  }

  /** The other entries are other objects. */
  lemma OthersDiffer(recent: seq<Entry>, byKey: map<Key, Entry>, keys: seq<Key>, p: nat)
    requires Matches(recent, byKey, keys) && p < |keys|
    ensures forall i :: 0 < i < |keys| ==> InFront(recent, p)[i] in recent && InFront(recent, p)[i] != recent[p]
  {
    forall i | 0 < i < |keys|
      ensures InFront(recent, p)[i] != recent[p]
    {
      assert keys[Before(p, i)] != keys[p];
    }
  }

  class Counter {
    const limit: nat
    var recent: seq<Entry>
    var byKey: map<Key, Entry>
    ghost var history: seq<Key>

    /** The list holds these keys in this order, and the map is the same entries by key. */
    ghost predicate Holds(keys: seq<Key>)
      reads this
    {
      Matches(recent, byKey, keys)
    }

    ghost predicate Tallied()
      reads this, recent
    {
      forall i {:trigger recent[i]} :: 0 <= i < |recent| ==> recent[i].misses == Tally(history, limit, recent[i].key)
    }

    /** The list holds the tracked addresses in recency order, with their tallies. */
    ghost predicate Valid()
      reads this, recent
    {
      limit >= 1 && Holds(Tracked(history, limit)) && Tallied()
    }

    constructor (limit: nat)
      requires limit >= 1
      ensures Valid() && history == [] && this.limit == limit
    {
      this.limit := limit;
      recent, byKey, history := [], map[], [];
    }

    /** As many keys as entries, each key at one place. */
    lemma OneEach(keys: seq<Key>)
      requires Holds(keys)
      ensures |byKey| == |recent|
      ensures forall k :: k in byKey <==> k in keys
    {
      assert byKey.Keys == set k | k in keys;
      DistinctSize(keys);
    }

    lemma At(keys: seq<Key>, k: Key) returns (p: nat)
      requires Holds(keys) && k in byKey
      ensures p < |recent| && recent[p] == byKey[k] && keys[p] == k
    {
      p :| 0 <= p < |keys| && keys[p] == k;
    }

    /** Prior misses. */
    method Count(k: Key) returns (n: nat)
      requires Valid()
      ensures n == if k in Tracked(history, limit) then Tally(history, limit, k) else 0
    {
      OneEach(Tracked(history, limit));
      if k in byKey {
        n := byKey[k].misses;
        ghost var p := At(Tracked(history, limit), k);
      } else {
        n := 0;
      }
    }

    /** Records one miss. */
    method Miss(k: Key)
      requires Valid()
      modifies this, recent
      ensures Valid() && history == old(history) + [k]
      ensures forall e :: e in recent && e !in old(recent) ==> fresh(e)
    {
      ghost var tracked := Tracked(history, limit);
      TrackedAfter(history, limit, k);
      OneEach(tracked);
      if k in byKey {
        Touch(k);
      } else if |byKey| >= limit {
        EvictOldest(tracked);
        Admit(k, tracked[..|tracked| - 1]);
      } else {
        Admit(k, tracked);
      }
    }

    /** The entry of a tracked key counts one more and moves to the front. */
    method Touch(k: Key)
      requires Valid() && k in byKey && k in Tracked(history, limit)
      requires Tracked(history + [k], limit) == [k] + Without(Tracked(history, limit), k)
      modifies this, recent
      ensures Valid() && history == old(history) + [k] && forall e :: e in recent ==> e in old(recent)
    {
      ghost var tracked := Tracked(history, limit);
      var el := byKey[k];
      ghost var p := At(tracked, k);
      CutEntries(tracked, p);
      WithoutAt(tracked, p);
      MatchesInFront(recent, byKey, tracked, p);
      OthersDiffer(recent, byKey, tracked, p);
      InFrontOnce(tracked, p);
      var rest := Others(recent, el);
      assert [el] + rest == InFront(recent, p) && [k] + Without(tracked, k) == InFront(tracked, p);
      el.misses := el.misses + 1;
      recent := [el] + rest;
      history := history + [k];
      OthersAre(tracked, k, p);
      TalliesAfter(old(history), limit, k, Without(tracked, k));
      assert Matches(recent, byKey, Tracked(history, limit));
      forall i {:trigger recent[i]} | 0 <= i < |recent|
        ensures recent[i].misses == Tally(history, limit, recent[i].key)
      {
        if i > 0 {
          assert recent[i] in old(recent) && recent[i] != el;
          assert recent[i].key == Without(tracked, k)[i - 1];
        }
      }
    }

    lemma CutEntries(keys: seq<Key>, p: nat)
      requires Holds(keys) && p < |keys|
      ensures Others(recent, recent[p]) == recent[..p] + recent[p + 1..]
    {
      assert recent[p] !in recent[..p] by {
        assert forall i :: 0 <= i < p ==> keys[i] != keys[p] && recent[i].key == keys[i];
      }
      assert recent == recent[..p] + ([recent[p]] + recent[p + 1..]);
      OthersOf(recent[..p], recent[p], recent[p + 1..]);
    }

    lemma TrackedDistinct()
      ensures NoRepeats(Tracked(history, limit))
    {
      RecencyDistinct(history);
      TakeDistinct(Recency(history), limit);
    }

    /** The least recently missed entry leaves the list and the map. */
    method EvictOldest(ghost keys: seq<Key>)
      requires Holds(keys) && Tallied() && recent != []
      modifies this
      ensures Holds(keys[..|keys| - 1]) && Tallied() && history == old(history)
      ensures recent == old(recent)[..|keys| - 1]
    {
      var oldest := recent[|recent| - 1];
      recent := recent[..|recent| - 1];
      byKey := byKey - {oldest.key};
      assert forall i :: 0 <= i < |recent| ==> keys[i] != keys[|keys| - 1];
    }

    /** A new entry with one miss goes to the front. */
    method Admit(k: Key, ghost keys: seq<Key>)
      requires limit >= 1 && Holds(keys) && Tallied() && k !in Tracked(history, limit) && k !in keys
      requires Tracked(history + [k], limit) == [k] + keys
      modifies this
      ensures Valid() && history == old(history) + [k]
      ensures forall e :: e in recent && e !in old(recent) ==> fresh(e)
    {
      var el := new Entry(k);
      recent := [el] + recent;
      byKey := byKey[k := el];
      history := history + [k];
      ghost var now := Tracked(history, limit);
      TrackedDistinct();
      forall i | 0 <= i < |recent|
        ensures recent[i].key == now[i] && now[i] in byKey && byKey[now[i]] == recent[i] &&
          recent[i].misses == Tally(history, limit, now[i])
      {
        TallyAfter(old(history), limit, k, now[i]);
        if 0 < i {
          assert recent[i] == old(recent)[i - 1] && now[i] == keys[i - 1] && keys[i - 1] in keys;
        }
      }
    }
  }

  // What the order and the tally mean

  /** The distinct addresses other than k missed since k's last miss. */
  function SinceLast(h: seq<Key>, k: Key): set<Key>
    decreases |h|
  {
    if h == [] || h[|h| - 1] == k then {} else {h[|h| - 1]} + SinceLast(h[..|h| - 1], k)
  }

  function Elements(xs: seq<Key>): (r: set<Key>) {
    set x | x in xs
  }

  /** An address stands behind exactly the addresses missed since it was. */
  lemma {:induction false} PlaceIsSinceLast(h: seq<Key>, p: nat)
    requires p < |Recency(h)|
    ensures SinceLast(h, Recency(h)[p]) == Elements(Recency(h)[..p])
    decreases |h|
  {
    var before, last := h[..|h| - 1], h[|h| - 1];
    RecencyDistinct(before);
    if p > 0 {
      var r := Recency(before);
      var rest := Without(r, last);
      var k := rest[p - 1];
      assert k in rest;
      var q :| 0 <= q < |r| && r[q] == k;
      PlaceIsSinceLast(before, q);
      AheadWithout(r, last, q, p - 1);
      ElementsAfter(last, rest, p - 1);
    }
  }

  lemma ElementsAfter(last: Key, rest: seq<Key>, p: nat)
    requires p < |rest|
    ensures Elements(([last] + rest)[..p + 1]) == {last} + Elements(rest[..p])
  {
    assert ([last] + rest)[..p + 1] == [last] + rest[..p];
  }

  /** Taking x out of a list changes who stands ahead of a member only by x. */
  lemma AheadWithout(xs: seq<Key>, x: Key, q: nat, p: nat)
    requires NoRepeats(xs) && q < |xs| && p < |Without(xs, x)| && xs[q] == Without(xs, x)[p] && xs[q] != x
    ensures Elements(Without(xs, x)[..p]) == Elements(xs[..q]) - {x}
  {
    var k, a, b := xs[q], xs[..q], xs[q + 1..];
    CutAt(xs, q);
    WithoutAppend(a, [k] + b, x);
    var wa, wb := Without(a, x), Without([k] + b, x);
    assert wb[0] == k && (wa + wb)[|wa|] == k;
    WithoutDistinct(xs, x);
    assert p == |wa|;
    assert (wa + wb)[..p] == wa;
  }

  /** An address missed before is tracked exactly while fewer than `limit` distinct others have been
      missed since: forgetting one takes at least `limit` misses on other addresses. */
  lemma TrackedWhileRecent(h: seq<Key>, limit: nat, k: Key)
    requires k in h
    ensures k in Tracked(h, limit) <==> |SinceLast(h, k)| < limit
  {
    var r := Recency(h);
    RecencyDistinct(h);
    var p :| 0 <= p < |r| && r[p] == k;
    PlaceIsSinceLast(h, p);
    DistinctSize(r[..p]);
    assert Elements(r[..p]) == set x | x in r[..p];
    PlaceInTake(r, p, limit);
  }

  lemma PlaceInTake(r: seq<Key>, p: nat, limit: nat)
    requires NoRepeats(r) && p < |r|
    ensures r[p] in Take(r, limit) <==> p < limit
  {
    assert forall i :: 0 <= i < |Take(r, limit)| ==> Take(r, limit)[i] == r[i];
    if p < limit {
      assert Take(r, limit)[p] == r[p];
    }
  }

  function Occurrences(h: seq<Key>, k: Key): nat
    decreases |h|
  {
    if h == [] then 0 else Occurrences(h[..|h| - 1], k) + if h[|h| - 1] == k then 1 else 0
  }

  /** Where k last entered the table: the miss that found it untracked. */
  ghost predicate EnteredAt(h: seq<Key>, limit: nat, k: Key, e: nat) {
    && e < |h| && h[e] == k && k !in Tracked(h[..e], limit)
    && forall i :: e < i <= |h| ==> k in Tracked(h[..i], limit)
  }

  /** The tally of a tracked address is the number of its misses since it last entered. */
  lemma {:induction false} TallyIsMissesSinceEntry(h: seq<Key>, limit: nat, k: Key) returns (e: nat)
    requires limit >= 1 && k in Tracked(h, limit)
    ensures EnteredAt(h, limit, k, e) && e <= |h| && Tally(h, limit, k) == Occurrences(h[e..], k)
    decreases |h|
  {
    var before, last := h[..|h| - 1], h[|h| - 1];
    assert h == before + [last];
    if k in Tracked(before, limit) {
      e := TallyIsMissesSinceEntry(before, limit, k);
      assert h[e..] == before[e..] + [last];
      OccurrencesStep(before[e..], last, k);
      StillEntered(h, limit, k, e);
    } else {
      EntersLast(before, limit, last, k);
      e := |h| - 1;
      assert h[e..] == [] + [last] && h[..|h|] == h;
      OccurrencesStep([], last, k);
    }
    TallyAfter(before, limit, last, k);
  }

  lemma OccurrencesStep(h: seq<Key>, last: Key, k: Key)
    ensures Occurrences(h + [last], k) == Occurrences(h, k) + if last == k then 1 else 0
  {
    assert (h + [last])[..|h|] == h;
  }

  lemma StillEntered(h: seq<Key>, limit: nat, k: Key, e: nat)
    requires h != [] && k in Tracked(h, limit) && EnteredAt(h[..|h| - 1], limit, k, e)
    ensures EnteredAt(h, limit, k, e)
  {
    var before := h[..|h| - 1];
    assert h[..e] == before[..e] && h[..|h|] == h;
    forall i | e < i <= |h|
      ensures k in Tracked(h[..i], limit)
    {
      assert i < |h| ==> h[..i] == before[..i];
    }
  }

  /** Only its own miss brings an untracked address into the table. */
  lemma EntersLast(before: seq<Key>, limit: nat, last: Key, k: Key)
    requires limit >= 1 && k !in Tracked(before, limit) && k in Tracked(before + [last], limit)
    ensures last == k
  {
    TrackedAfter(before, limit, last);
  }
}
