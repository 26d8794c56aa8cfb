/** When two quotation records are related: how many lines they share, and what they ask for. */
module SharedLines {
  import opened Wrappers
  import Requests

  /** A line's request text cut to its comparable part, the words of request and offer, and the sell price. */
  datatype Line = Line(request: string, words: set<string>, offer: set<string>, sell: Option<real>, available: bool)

  /** What deciding on a record takes: client, printed reference ("" when none can decide), vessel
      ("" when unknown), marks of the file name, and lines. */
  datatype Record = Record(client: string, ref: string, vessel: string, revised: bool, copied: bool, lines: seq<Line>)

  /** Either offer is empty, they share a word, or the prices are close. */
  predicate OffersAgree(a: Line, b: Line) {
    || a.offer == {} || b.offer == {}
    || (exists w :: w in a.offer * b.offer && |w| >= 3)
    || (a.sell.Some? && b.sell.Some? && a.sell.value > 0.0 && b.sell.value > 0.0
        && Greater(a.sell.value, b.sell.value) / Lesser(a.sell.value, b.sell.value) <= 2.0)
  }

  function Greater(x: real, y: real): real { if x < y then y else x }

  function Lesser(x: real, y: real): (z: real)
    ensures x > 0.0 && y > 0.0 ==> z > 0.0
  {
    if y < x then y else x
  }

  predicate SameLine(a: Line, b: Line, fuzzy: bool) {
    && (if fuzzy then a.words != {} && b.words != {} && 2 * |a.words * b.words| >= |a.words + b.words|
        else a.request != "" && a.request == b.request)
    && OffersAgree(a, b)
  }

  lemma SameLineSymmetric(a: Line, b: Line, fuzzy: bool)
    ensures SameLine(a, b, fuzzy) <==> SameLine(b, a, fuzzy)
  {
    assert a.words * b.words == b.words * a.words && a.words + b.words == b.words + a.words;
    assert a.offer * b.offer == b.offer * a.offer;
  }

  // Pairing lines up one to one

  type Pairs = set<(nat, nat)>

  /** Line i of the first list can still take line j of the second. */
  ghost predicate Free(la: seq<Line>, lb: seq<Line>, fuzzy: bool, pairs: Pairs, i: nat, j: nat) {
    && i < |la| && j < |lb| && SameLine(la[i], lb[j], fuzzy)
    && (forall k: nat :: k < j ==> (i, k) !in pairs)
    && (forall k: nat :: k < i ==> (k, j) !in pairs)
  }

  /** Each of the first n lines takes the first matching line that no line before it took. */
  ghost predicate Greedy(la: seq<Line>, lb: seq<Line>, fuzzy: bool, pairs: Pairs, n: nat) {
    forall i: nat, j: nat :: (i, j) in pairs <==> i < n && Free(la, lb, fuzzy, pairs, i, j)
  }

  lemma OneMore(la: seq<Line>, lb: seq<Line>, fuzzy: bool, pairs: Pairs, n: nat, l: nat)
    requires Greedy(la, lb, fuzzy, pairs, n) && n < |la| && l < |lb| && SameLine(la[n], lb[l], fuzzy)
    requires forall k: nat :: k < n ==> (k, l) !in pairs
    requires forall k: nat :: k < l ==> !Free(la, lb, fuzzy, pairs, n, k)
    ensures Greedy(la, lb, fuzzy, pairs + {(n, l)}, n + 1) && (n, l) !in pairs
  {
    var more := pairs + {(n, l)};
    forall i: nat, j: nat
      ensures (i, j) in more <==> i < n + 1 && Free(la, lb, fuzzy, more, i, j)
    {
      assert (i, j) in pairs <==> i < n && Free(la, lb, fuzzy, pairs, i, j);
      if i < n {
        assert forall k: nat :: (i, k) in more <==> (i, k) in pairs;
        assert forall k: nat :: k < i ==> ((k, j) in more <==> (k, j) in pairs);
      } else if i == n {
        assert forall k: nat :: (n, k) !in pairs;
        assert forall k: nat :: (n, k) in more <==> k == l;
        assert forall k: nat :: k < n ==> ((k, j) in more <==> (k, j) in pairs);
        if j < l {
          assert !Free(la, lb, fuzzy, pairs, n, j);
        }
      }
    }
  }

  lemma NoneMore(la: seq<Line>, lb: seq<Line>, fuzzy: bool, pairs: Pairs, n: nat)
    requires Greedy(la, lb, fuzzy, pairs, n)
    requires forall k: nat :: k < |lb| ==> !Free(la, lb, fuzzy, pairs, n, k)
    ensures Greedy(la, lb, fuzzy, pairs, n + 1)
  {
    forall i: nat, j: nat
      ensures (i, j) in pairs <==> i < n + 1 && Free(la, lb, fuzzy, pairs, i, j)
    {
      assert (i, j) in pairs <==> i < n && Free(la, lb, fuzzy, pairs, i, j);
    }
  }

  /** The scan leaves one pairing. */
  lemma {:induction false} SamePair(la: seq<Line>, lb: seq<Line>, fuzzy: bool, one: Pairs, other: Pairs, i: nat, j: nat)
    requires Greedy(la, lb, fuzzy, one, |la|) && Greedy(la, lb, fuzzy, other, |la|)
    ensures (i, j) in one <==> (i, j) in other
    decreases i + j
  {
    forall k: nat | k < j
      ensures (i, k) in one <==> (i, k) in other
    {
      SamePair(la, lb, fuzzy, one, other, i, k);
    }
    forall k: nat | k < i
      ensures (k, j) in one <==> (k, j) in other
    {
      SamePair(la, lb, fuzzy, one, other, k, j);
    }
    assert (i, j) in one <==> i < |la| && Free(la, lb, fuzzy, one, i, j);
    assert (i, j) in other <==> i < |la| && Free(la, lb, fuzzy, other, i, j);
  }

  lemma OnePairing(la: seq<Line>, lb: seq<Line>, fuzzy: bool, one: Pairs, other: Pairs)
    requires Greedy(la, lb, fuzzy, one, |la|) && Greedy(la, lb, fuzzy, other, |la|)
    ensures one == other
  {
    forall p | p in one || p in other
      ensures p in one && p in other
    {
      SamePair(la, lb, fuzzy, one, other, p.0, p.1);
    }
  }

  ghost function FirstFree(la: seq<Line>, lb: seq<Line>, fuzzy: bool, pairs: Pairs, i: nat, from: nat): (j: nat)
    requires from <= |lb| && forall k: nat :: k < from ==> !Free(la, lb, fuzzy, pairs, i, k)
    ensures j <= |lb| && forall k: nat :: k < j ==> !Free(la, lb, fuzzy, pairs, i, k)
    ensures j < |lb| ==> i < |la| && SameLine(la[i], lb[j], fuzzy) && forall k: nat :: k < i ==> (k, j) !in pairs
    decreases |lb| - from
  {
    if from == |lb| || (i < |la| && SameLine(la[i], lb[from], fuzzy) && forall k: nat :: k < i ==>
      (k, from) !in pairs) then from
    else FirstFree(la, lb, fuzzy, pairs, i, from + 1)
  }

  /** The first n lines' pairing, as a value. */
  ghost function Pairing(la: seq<Line>, lb: seq<Line>, fuzzy: bool, n: nat): (pairs: Pairs)
    requires n <= |la|
    ensures Greedy(la, lb, fuzzy, pairs, n)
    ensures |pairs| <= n
  {
    if n == 0 then {}
    else
      var pairs := Pairing(la, lb, fuzzy, n - 1);
      var j := FirstFree(la, lb, fuzzy, pairs, n - 1, 0);
      if j < |lb| then
        OneMore(la, lb, fuzzy, pairs, n - 1, j);
        pairs + {(n - 1, j)}
      else
        NoneMore(la, lb, fuzzy, pairs, n - 1);
        pairs
  }

  // Reading the other list first

  ghost function Swapped(pairs: Pairs): Pairs {
    set p | p in pairs :: (p.1, p.0)
  }

  lemma {:induction false} SwappedSize(pairs: Pairs)
    ensures |Swapped(pairs)| == |pairs|
  {
    if pairs != {} {
      var p :| p in pairs;
      SwappedSize(pairs - {p});
      assert Swapped(pairs) == Swapped(pairs - {p}) + {(p.1, p.0)};
      assert (p.1, p.0) !in Swapped(pairs - {p});
    }
  }

  /** The pairing is the same whichever list is read first, although matching is not transitive and
      the scan is greedy. */
  lemma SwappedGreedy(la: seq<Line>, lb: seq<Line>, fuzzy: bool, pairs: Pairs)
    requires Greedy(la, lb, fuzzy, pairs, |la|)
    ensures Greedy(lb, la, fuzzy, Swapped(pairs), |lb|)
  {
    var swapped := Swapped(pairs);
    forall i: nat, j: nat
      ensures (i, j) in swapped <==> (j, i) in pairs
    {
      if (j, i) in pairs {
        assert ((j, i).1, (j, i).0) in swapped;
      }
    }
    forall i: nat, j: nat
      ensures (i, j) in swapped <==> i < |lb| && Free(lb, la, fuzzy, swapped, i, j)
    {
      assert (j, i) in pairs <==> j < |la| && Free(la, lb, fuzzy, pairs, j, i);
      if i < |lb| && j < |la| {
        SameLineSymmetric(la[j], lb[i], fuzzy);
      }
    }
  }

  // Whether two records belong together

  /** The lines on offer, or all of them when none is. */
  function Offered(r: Record): seq<Line> {
    var on := OnOffer(r.lines);
    if on == [] then r.lines else on
  }

  function OnOffer(lines: seq<Line>): seq<Line> {
    if lines == [] then []
    else (if lines[0].available then [lines[0]] else []) + OnOffer(lines[1..])
  }

  /** The lines two lists share, as a number. */
  ghost function Count(la: seq<Line>, lb: seq<Line>, fuzzy: bool): nat { |Pairing(la, lb, fuzzy, |la|)| }

  /** How many lines pair up one to one. */
  method Shared(la: seq<Line>, lb: seq<Line>, fuzzy: bool) returns (n: nat)
    ensures n == Count(la, lb, fuzzy)
  {
    n := 0;
    ghost var pairs: Pairs := {};
    var used: set<nat> := {};
    for i := 0 to |la|
      invariant Greedy(la, lb, fuzzy, pairs, i) && n == |pairs|
      invariant forall j: nat :: j in used <==> exists k: nat :: (k, j) in pairs
    {
      var j: nat := 0;
      while j < |lb| && (j in used || !SameLine(la[i], lb[j], fuzzy))
        invariant j <= |lb|
        invariant forall k: nat :: k < j ==> !Free(la, lb, fuzzy, pairs, i, k)
      {
        j := j + 1;
      }
      if j < |lb| {
        OneMore(la, lb, fuzzy, pairs, i, j);
        used, n, pairs := used + {j}, n + 1, pairs + {(i, j)};
        assert (i, j) in pairs;
      } else {
        NoneMore(la, lb, fuzzy, pairs, i);
      }
    }
    OnePairing(la, lb, fuzzy, pairs, Pairing(la, lb, fuzzy, |la|));
  }

  lemma CountSymmetric(la: seq<Line>, lb: seq<Line>, fuzzy: bool)
    ensures Count(la, lb, fuzzy) == Count(lb, la, fuzzy)
  {
    var pairs := Pairing(la, lb, fuzzy, |la|);
    SwappedGreedy(la, lb, fuzzy, pairs);
    OnePairing(lb, la, fuzzy, Swapped(pairs), Pairing(lb, la, fuzzy, |lb|));
    SwappedSize(pairs);
  }

  lemma CountAtMost(la: seq<Line>, lb: seq<Line>, fuzzy: bool)
    ensures Count(la, lb, fuzzy) <= |la| && Count(la, lb, fuzzy) <= |lb|
  {
    CountSymmetric(la, lb, fuzzy);
  }

  function Jaccard(n: nat, la: nat, lb: nat): (r: real)
    requires n <= la && n <= lb && la > 0
    ensures 0.0 <= r <= 1.0
  {
    AtMostOne(n as real, (la + lb - n) as real);
    n as real / (la + lb - n) as real
  }

  lemma AtMostOne(n: real, all: real)
    requires 0.0 <= n <= all && all > 0.0
    ensures 0.0 <= n / all <= 1.0
  {
  }

  /** The lines in common out of all lines. */
  ghost function Similarity(a: Record, b: Record): (r: real)
    ensures 0.0 <= r <= 1.0
  {
    var la, lb := Offered(a), Offered(b);
    if la == [] || lb == [] then 0.0
    else
      CountAtMost(la, lb, false);
      Jaccard(Count(la, lb, false), |la|, |lb|)
  }

  ghost predicate Grown(a: Record, b: Record) {
    var n, la, lb := Count(Offered(a), Offered(b), false), |Offered(a)|, |Offered(b)|;
    n >= 2 && 4 * n >= 3 * (if lb < la then lb else la)
  }

  ghost predicate CommonLine(a: Record, b: Record) { Count(a.lines, b.lines, true) > 0 }

  predicate SameRequest(a: Record, b: Record) {
    Requests.MayBeOne(a.ref, a.vessel, b.ref, b.vessel)
  }

  /** Same client, same request or unknown, and related lines. */
  ghost predicate Related(a: Record, b: Record) {
    && a.client == b.client && SameRequest(a, b)
    && var similarity := Similarity(a, b);
       if a.revised || b.revised then similarity > 0.0 || CommonLine(a, b)
       else if similarity >= 0.2 && (a.copied || b.copied || (a.ref != "" && a.ref == b.ref)) then true
       else similarity >= 0.5 || Grown(a, b)
  }

  method AreRelated(a: Record, b: Record) returns (related: bool)
    ensures related <==> Related(a, b)
  {
    if a.client != b.client || !SameRequest(a, b) {
      return false;
    }
    var la, lb := Offered(a), Offered(b);
    var n := Shared(la, lb, false);
    CountAtMost(la, lb, false);
    var similarity := if la == [] || lb == [] then 0.0 else Jaccard(n, |la|, |lb|);
    if a.revised || b.revised {
      var common := Shared(a.lines, b.lines, true);
      return similarity > 0.0 || common > 0;
    }
    if similarity >= 0.2 && (a.copied || b.copied || (a.ref != "" && a.ref == b.ref)) {
      return true;
    }
    related := similarity >= 0.5 || (n >= 2 && 4 * n >= 3 * (if |lb| < |la| then |lb| else |la|));
  }

  /** So neither does whether two records are related. */
  lemma RelatedSymmetric(a: Record, b: Record)
    ensures Related(a, b) <==> Related(b, a)
  {
    SimilaritySymmetric(a, b);
    CountSymmetric(Offered(a), Offered(b), false);
    CountSymmetric(a.lines, b.lines, true);
    assert Grown(a, b) <==> Grown(b, a);
    assert CommonLine(a, b) <==> CommonLine(b, a);
  }

  lemma SimilaritySymmetric(a: Record, b: Record)
    ensures Similarity(a, b) == Similarity(b, a)
  {
    CountSymmetric(Offered(a), Offered(b), false);
    CountAtMost(Offered(a), Offered(b), false);
    if Offered(a) != [] && Offered(b) != [] {
      JaccardSymmetric(Count(Offered(a), Offered(b), false), |Offered(a)|, |Offered(b)|);
    }
  }

  lemma JaccardSymmetric(n: nat, la: nat, lb: nat)
    requires n <= la && n <= lb && la > 0 && lb > 0
    ensures Jaccard(n, la, lb) == Jaccard(n, lb, la)
  {
  }
}
