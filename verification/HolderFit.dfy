/** How well a group of a code's holders fits the requests written against the code: what the fit
    computes, and what it counts. */
module HolderFit {
  import opened Wrappers
  import opened Guards
  import opened DistinctLists
  import opened Items
  import opened ImpaGroups

  /** How well a group fits the requests written against its code. */
  datatype Fit = Fit(support: nat, closeness: real, lines: nat)

  predicate Passes(vs: seq<Variant>, rf: Features, group: seq<nat>)
    requires Indices(vs, group)
  {
    exists k | 0 <= k < |group| :: BlockingGuard(rf, vs[group[k]].feats).None?
  }

  function Support(vs: seq<Variant>, group: seq<nat>, requests: seq<(Features, nat)>): nat
    requires Indices(vs, group)
  {
    if requests == [] then 0
    else (if Passes(vs, requests[0].0, group) then requests[0].1 else 0) + Support(vs, group, requests[1..])
  }

  function RequestsOf(vs: seq<Variant>, idxs: seq<nat>): seq<(Features, nat)>
    requires Indices(vs, idxs)
  {
    if idxs == [] then [] else vs[idxs[0]].requests + RequestsOf(vs, idxs[1..])
  }

  function Max(a: real, b: real): real {
    if b > a then b else a
  }

  function ClosestMember(vs: seq<Variant>, score: Scorer, rf: Features, group: seq<nat>): real
    requires Indices(vs, group)
  {
    if group == [] then 0.0 else Max(score(rf.key, vs[group[0]].key), ClosestMember(vs, score, rf, group[1..]))
  }

  function Closeness(vs: seq<Variant>, score: Scorer, group: seq<nat>, requests: seq<(Features, nat)>): real
    requires Indices(vs, group)
  {
    if requests == [] then 0.0
    else Max(ClosestMember(vs, score, requests[0].0, group), Closeness(vs, score, group, requests[1..]))
  }

  function Lines(vs: seq<Variant>, group: seq<nat>): nat
    requires Indices(vs, group)
  {
    if group == [] then 0 else vs[group[0]].weight + Lines(vs, group[1..])
  }

  function ToTenths(x: real): real {
    (x * 10.0 + 0.5).Floor as real / 10.0
  }

  function FitOf(vs: seq<Variant>, score: Scorer, group: seq<nat>, idxs: seq<nat>): Fit
    requires Indices(vs, group) && Indices(vs, idxs)
  {
    var requests := RequestsOf(vs, idxs);
    Fit(Support(vs, group, requests), ToTenths(Closeness(vs, score, group, requests)), Lines(vs, group))
  }

  predicate FitsBetter(a: Fit, b: Fit) {
    a.support > b.support ||
    (a.support == b.support && (a.closeness > b.closeness || (a.closeness == b.closeness && a.lines > b.lines)))
  }

  // What the fit counts

  /** Some member of the group passes every guard with the request. */
  ghost predicate Answers(vs: seq<Variant>, group: seq<nat>, request: Features) {
    exists m :: m in group && m < |vs| && BlockingGuard(request, vs[m].feats).None?
  }

  /** The requests that the group answers: who holds them, which they are, and each of their copies. */
  ghost function Answered(vs: seq<Variant>, idxs: seq<nat>, group: seq<nat>): set<(nat, nat, nat)> {
    set i: nat, r: nat, u: nat |
      i < |vs| && i in idxs && r < |vs[i].requests| && u < vs[i].requests[r].1 &&
      Answers(vs, group, vs[i].requests[r].0) ::
      (i, r, u)
  }

  /** The lines of the group, each with its member. */
  ghost function LinesIn(vs: seq<Variant>, group: seq<nat>): set<(nat, nat)> {
    set m: nat, u: nat | m < |vs| && m in group && u < vs[m].weight :: (m, u)
  }

  ghost predicate Asked(vs: seq<Variant>, idxs: seq<nat>, request: Features) {
    exists i: nat, r: nat :: i < |vs| && i in idxs && r < |vs[i].requests| && vs[i].requests[r].0 == request
  }

  /** x is the score of the closest texts of a request and a member, or zero. */
  ghost predicate Nearest(vs: seq<Variant>, score: Scorer, idxs: seq<nat>, group: seq<nat>, x: real) {
    && x >= 0.0
    && (forall f, m: nat :: Asked(vs, idxs, f) && m < |vs| && m in group ==> score(f.key, vs[m].key) <= x)
    && (x == 0.0 ||
        exists f, m: nat :: Asked(vs, idxs, f) && m < |vs| && m in group && score(f.key, vs[m].key) == x)
  }

  /** Group g, x close, comes before group h, y close: it answers more requests; or as many, and is
      closer to the tenth; or that too is equal, and it has more lines. */
  ghost predicate RanksBefore(vs: seq<Variant>, idxs: seq<nat>, g: seq<nat>, x: real, h: seq<nat>, y: real) {
    || |Answered(vs, idxs, g)| > |Answered(vs, idxs, h)|
    || (|Answered(vs, idxs, g)| == |Answered(vs, idxs, h)| && ToTenths(x) > ToTenths(y))
    || (|Answered(vs, idxs, g)| == |Answered(vs, idxs, h)| && ToTenths(x) == ToTenths(y) &&
        |LinesIn(vs, g)| > |LinesIn(vs, h)|)
  }

  ghost predicate Outranks(vs: seq<Variant>, score: Scorer, idxs: seq<nat>, g: seq<nat>, h: seq<nat>) {
    exists x, y :: Nearest(vs, score, idxs, g, x) && Nearest(vs, score, idxs, h, y) && RanksBefore(vs, idxs, g, x, h, y)
  }

  lemma ToTenthsIsNear(x: real)
    ensures -0.05 < ToTenths(x) - x <= 0.05
    ensures (ToTenths(x) * 10.0).Floor as real == ToTenths(x) * 10.0
  {
  }

  // The fit counts that

  lemma {:induction false} SupportAppended(vs: seq<Variant>, group: seq<nat>, xs: seq<(Features, nat)>,
      ys: seq<(Features, nat)>)
    requires Indices(vs, group)
    ensures Support(vs, group, xs + ys) == Support(vs, group, xs) + Support(vs, group, ys)
  {
    if xs == [] {
      assert xs + ys == ys;
    } else {
      assert (xs + ys)[1..] == xs[1..] + ys;
      SupportAppended(vs, group, xs[1..], ys);
    }
  }

  /** The copies of one request. */
  ghost function Copies(i: nat, r: nat, n: nat): set<(nat, nat, nat)> {
    set u: nat | u < n :: (i, r, u)
  }

  lemma {:induction false} CountCopies(i: nat, r: nat, n: nat)
    ensures |Copies(i, r, n)| == n
  {
    if n == 0 {
      assert Copies(i, r, 0) == {};
    } else {
      CountCopies(i, r, n - 1);
      assert Copies(i, r, n) == Copies(i, r, n - 1) + {(i, r, n - 1)};
    }
  }

  /** Of the first k requests of holder i, those that the group answers. */
  ghost function AnsweredBy(vs: seq<Variant>, group: seq<nat>, i: nat, k: nat): set<(nat, nat, nat)>
    requires i < |vs| && k <= |vs[i].requests|
  {
    set r: nat, u: nat | r < k && u < vs[i].requests[r].1 && Answers(vs, group, vs[i].requests[r].0) :: (i, r, u)
  }

  lemma {:induction false} SupportOfHolder(vs: seq<Variant>, group: seq<nat>, i: nat, k: nat)
    requires Indices(vs, group) && i < |vs| && k <= |vs[i].requests|
    ensures |AnsweredBy(vs, group, i, k)| == Support(vs, group, vs[i].requests[..k])
  {
    if k == 0 {
      assert AnsweredBy(vs, group, i, 0) == {};
    } else {
      var last := vs[i].requests[k - 1];
      SupportOfHolder(vs, group, i, k - 1);
      assert vs[i].requests[..k] == vs[i].requests[..k - 1] + [last];
      SupportAppended(vs, group, vs[i].requests[..k - 1], [last]);
      PassesIsAnswers(vs, last.0, group);
      OneMoreAnswered(vs, group, i, k);
    }
  }

  lemma OneMoreAnswered(vs: seq<Variant>, group: seq<nat>, i: nat, k: nat)
    requires i < |vs| && 0 < k <= |vs[i].requests|
    ensures |AnsweredBy(vs, group, i, k)| == |AnsweredBy(vs, group, i, k - 1)| +
      if Answers(vs, group, vs[i].requests[k - 1].0) then vs[i].requests[k - 1].1 else 0
  {
    var n := vs[i].requests[k - 1].1;
    AnsweredStep(vs, group, i, k, n, AnsweredBy(vs, group, i, k - 1), AnsweredBy(vs, group, i, k));
    CountCopies(i, k - 1, n);
  }

  lemma AnsweredStep(vs: seq<Variant>, group: seq<nat>, i: nat, k: nat, n: nat, some: set<(nat, nat, nat)>,
      more: set<(nat, nat, nat)>)
    requires i < |vs| && 0 < k <= |vs[i].requests| && n == vs[i].requests[k - 1].1
    requires some == AnsweredBy(vs, group, i, k - 1) && more == AnsweredBy(vs, group, i, k)
    ensures more == some + if Answers(vs, group, vs[i].requests[k - 1].0) then Copies(i, k - 1, n) else {}
    ensures some !! Copies(i, k - 1, n)
  {
  }

  lemma PassesIsAnswers(vs: seq<Variant>, f: Features, group: seq<nat>)
    requires Indices(vs, group)
    ensures Passes(vs, f, group) <==> Answers(vs, group, f)
  {
    if Passes(vs, f, group) {
      var k :| 0 <= k < |group| && BlockingGuard(f, vs[group[k]].feats).None?;
      assert group[k] in group;
    }
  }

  /** Support is the number of requests that the group answers. */
  lemma {:induction false} SupportCounts(vs: seq<Variant>, idxs: seq<nat>, group: seq<nat>)
    requires Indices(vs, idxs) && Indices(vs, group) && NoRepeats(idxs)
    ensures Support(vs, group, RequestsOf(vs, idxs)) == |Answered(vs, idxs, group)|
  {
    if idxs == [] {
      assert Answered(vs, [], group) == {};
    } else {
      var i, rest := idxs[0], idxs[1..];
      var n := |vs[i].requests|;
      assert i !in rest;
      SupportCounts(vs, rest, group);
      SupportOfHolder(vs, group, i, n);
      assert vs[i].requests[..n] == vs[i].requests;
      SupportAppended(vs, group, vs[i].requests, RequestsOf(vs, rest));
      assert Answered(vs, idxs, group) == AnsweredBy(vs, group, i, n) + Answered(vs, rest, group);
      assert AnsweredBy(vs, group, i, n) !! Answered(vs, rest, group);
    }
  }

  ghost function LinesOf(m: nat, n: nat): set<(nat, nat)> {
    set u: nat | u < n :: (m, u)
  }

  lemma {:induction false} CountLines(m: nat, n: nat)
    ensures |LinesOf(m, n)| == n
  {
    if n == 0 {
      assert LinesOf(m, 0) == {};
    } else {
      CountLines(m, n - 1);
      assert LinesOf(m, n) == LinesOf(m, n - 1) + {(m, n - 1)};
    }
  }

  lemma {:induction false} LinesCount(vs: seq<Variant>, group: seq<nat>)
    requires Indices(vs, group) && NoRepeats(group)
    ensures Lines(vs, group) == |LinesIn(vs, group)|
  {
    if group == [] {
      assert LinesIn(vs, []) == {};
    } else {
      var m, rest := group[0], group[1..];
      assert m !in rest;
      LinesCount(vs, rest);
      CountLines(m, vs[m].weight);
      assert LinesIn(vs, group) == LinesOf(m, vs[m].weight) + LinesIn(vs, rest);
      assert LinesOf(m, vs[m].weight) !! LinesIn(vs, rest);
    }
  }

  lemma {:induction false} ClosestMemberIs(vs: seq<Variant>, score: Scorer, f: Features, group: seq<nat>)
    requires Indices(vs, group)
    ensures var x := ClosestMember(vs, score, f, group);
      && x >= 0.0
      && (forall m: nat :: m in group ==> score(f.key, vs[m].key) <= x)
      && (x == 0.0 || exists m: nat :: m in group && score(f.key, vs[m].key) == x)
  {
    if group != [] {
      ClosestMemberIs(vs, score, f, group[1..]);
      assert group[0] in group;
    }
  }

  lemma {:induction false} ClosenessIs(vs: seq<Variant>, score: Scorer, group: seq<nat>, requests: seq<(Features, nat)>)
    requires Indices(vs, group)
    ensures var x := Closeness(vs, score, group, requests);
      && x >= 0.0
      && (forall k, m: nat :: 0 <= k < |requests| && m in group ==> score(requests[k].0.key, vs[m].key) <= x)
      && (x == 0.0 ||
          exists k, m: nat :: 0 <= k < |requests| && m in group && score(requests[k].0.key, vs[m].key) == x)
  {
    if requests != [] {
      ClosenessIs(vs, score, group, requests[1..]);
      ClosestMemberIs(vs, score, requests[0].0, group);
    }
  }

  lemma {:induction false} RequestsAsked(vs: seq<Variant>, idxs: seq<nat>)
    requires Indices(vs, idxs)
    ensures forall k :: 0 <= k < |RequestsOf(vs, idxs)| ==> Asked(vs, idxs, RequestsOf(vs, idxs)[k].0)
    ensures forall f :: Asked(vs, idxs, f) ==>
      exists k :: 0 <= k < |RequestsOf(vs, idxs)| && RequestsOf(vs, idxs)[k].0 == f
  {
    if idxs != [] {
      var i, rest := idxs[0], idxs[1..];
      RequestsAsked(vs, rest);
      var own, all := vs[i].requests, RequestsOf(vs, idxs);
      forall k | 0 <= k < |all|
        ensures Asked(vs, idxs, all[k].0)
      {
        if k < |own| {
          assert all[k] == own[k] && i in idxs;
        } else {
          assert all[k] == RequestsOf(vs, rest)[k - |own|];
          assert Asked(vs, rest, all[k].0);
        }
      }
      forall f | Asked(vs, idxs, f)
        ensures exists k :: 0 <= k < |all| && all[k].0 == f
      {
        var j: nat, r: nat :| j < |vs| && j in idxs && r < |vs[j].requests| && vs[j].requests[r].0 == f;
        if j == i {
          assert all[r] == own[r];
        } else {
          assert Asked(vs, rest, f);
          var k :| 0 <= k < |RequestsOf(vs, rest)| && RequestsOf(vs, rest)[k].0 == f;
          assert all[|own| + k] == RequestsOf(vs, rest)[k];
        }
      }
    }
  }

  lemma ClosenessIsNearest(vs: seq<Variant>, score: Scorer, idxs: seq<nat>, group: seq<nat>)
    requires Indices(vs, idxs) && Indices(vs, group)
    ensures Nearest(vs, score, idxs, group, Closeness(vs, score, group, RequestsOf(vs, idxs)))
  {
    var requests := RequestsOf(vs, idxs);
    var x := Closeness(vs, score, group, requests);
    RequestsAsked(vs, idxs);
    ClosenessIs(vs, score, group, requests);
    forall f, m: nat | Asked(vs, idxs, f) && m < |vs| && m in group
      ensures score(f.key, vs[m].key) <= x
    {
      var k :| 0 <= k < |requests| && requests[k].0 == f;
    }
    if x != 0.0 {
      var k, m: nat :| 0 <= k < |requests| && m in group && score(requests[k].0.key, vs[m].key) == x;
      assert Asked(vs, idxs, requests[k].0);
    }
  }

  lemma NearestUnique(vs: seq<Variant>, score: Scorer, idxs: seq<nat>, group: seq<nat>, x: real, y: real)
    requires Nearest(vs, score, idxs, group, x) && Nearest(vs, score, idxs, group, y)
    ensures x == y
  {
  }

  lemma OutranksAt(vs: seq<Variant>, score: Scorer, idxs: seq<nat>, g: seq<nat>, x: real, h: seq<nat>, y: real)
    requires Nearest(vs, score, idxs, g, x) && Nearest(vs, score, idxs, h, y)
    ensures Outranks(vs, score, idxs, g, h) <==> RanksBefore(vs, idxs, g, x, h, y)
  {
    if Outranks(vs, score, idxs, g, h) {
      var u, v :| Nearest(vs, score, idxs, g, u) && Nearest(vs, score, idxs, h, v) && RanksBefore(vs, idxs, g, u, h, v);
      NearestUnique(vs, score, idxs, g, u, x);
      NearestUnique(vs, score, idxs, h, v, y);
    }
  }

  lemma OutranksOneWay(vs: seq<Variant>, score: Scorer, idxs: seq<nat>, g: seq<nat>, h: seq<nat>)
    requires Outranks(vs, score, idxs, g, h)
    ensures !Outranks(vs, score, idxs, h, g)
  {
    var x, y :| Nearest(vs, score, idxs, g, x) && Nearest(vs, score, idxs, h, y) && RanksBefore(vs, idxs, g, x, h, y);
    OutranksAt(vs, score, idxs, h, y, g, x);
  }

  lemma FitCounts(vs: seq<Variant>, score: Scorer, idxs: seq<nat>, g: seq<nat>)
    requires Indices(vs, idxs) && NoRepeats(idxs) && Indices(vs, g) && NoRepeats(g)
    ensures FitOf(vs, score, g, idxs) ==
      Fit(|Answered(vs, idxs, g)|, ToTenths(Closeness(vs, score, g, RequestsOf(vs, idxs))), |LinesIn(vs, g)|)
  {
    SupportCounts(vs, idxs, g);
    LinesCount(vs, g);
  }

  /** The order of the fits is the order of the groups. */
  lemma BetterFitOutranks(vs: seq<Variant>, score: Scorer, idxs: seq<nat>, g: seq<nat>, h: seq<nat>)
    requires Indices(vs, idxs) && NoRepeats(idxs) && Indices(vs, g) && NoRepeats(g) && Indices(vs, h) && NoRepeats(h)
    ensures FitsBetter(FitOf(vs, score, g, idxs), FitOf(vs, score, h, idxs)) <==> Outranks(vs, score, idxs, g, h)
  {
    FitCounts(vs, score, idxs, g);
    FitCounts(vs, score, idxs, h);
    ClosenessIsNearest(vs, score, idxs, g);
    ClosenessIsNearest(vs, score, idxs, h);
    OutranksAt(vs, score, idxs, g, Closeness(vs, score, g, RequestsOf(vs, idxs)), h,
      Closeness(vs, score, h, RequestsOf(vs, idxs)));
  }
}
