/** Which group of a code's holders keeps the code: the one that fits its requests best. */
module ImpaRanking {
  import opened Wrappers
  import opened Guards
  import opened DistinctLists
  import opened Items
  import opened ImpaGroups
  import opened HolderFit
  import opened Sorting

  predicate ListableGroup(vs: seq<Variant>, g: seq<nat>) {
    forall k | 0 <= k < |g| :: g[k] < |vs|
  }

  /** The better fit first. */
  function BestFirst(vs: seq<Variant>, score: Scorer, idxs: seq<nat>): (seq<nat>, seq<nat>) -> bool
    requires Indices(vs, idxs)
  {
    (g: seq<nat>, h: seq<nat>) =>
      ListableGroup(vs, g) &&
        (ListableGroup(vs, h) ==> FitsBetter(FitOf(vs, score, g, idxs), FitOf(vs, score, h, idxs)))
  }

  function RankHolders(vs: seq<Variant>, score: Scorer, groups: seq<seq<nat>>, idxs: seq<nat>): (r: seq<seq<nat>>)
    requires Indices(vs, idxs)
    ensures multiset(r) == multiset(groups)
  {
    Sort(BestFirst(vs, score, idxs), groups)
  }

  lemma RankedGrouping(vs: seq<Variant>, score: Scorer, impa: seq<Option<Code>>, xs: multiset<nat>,
      groups: seq<seq<nat>>, idxs: seq<nat>)
    requires |vs| == |impa| && Indices(vs, idxs) && Grouping(vs, impa, xs, groups)
    ensures Grouping(vs, impa, xs, RankHolders(vs, score, groups, idxs))
  {
    FlattenSorted(BestFirst(vs, score, idxs), groups);
    var r := RankHolders(vs, score, groups, idxs);
    forall g | 0 <= g < |r|
      ensures r[g] != [] && Indices(vs, r[g]) && Clique(vs, impa, r[g])
    {
      assert r[g] in multiset(r);
      assert r[g] in groups;
    }
  }

  ghost predicate AllIndices(vs: seq<Variant>, gs: seq<seq<nat>>) {
    forall g {:trigger gs[g]} :: 0 <= g < |gs| ==> Indices(vs, gs[g]) && gs[g] != []
  }

  /** Group g outranks each of the others. */
  ghost predicate StrictlyBest(vs: seq<Variant>, score: Scorer, idxs: seq<nat>, gs: seq<seq<nat>>, g: nat)
    requires Indices(vs, idxs) && AllIndices(vs, gs)
  {
    && g < |gs|
    && forall h {:trigger gs[h]} :: 0 <= h < |gs| && h != g ==> Outranks(vs, score, idxs, gs[g], gs[h])
  }

  lemma BestFirstOrders(vs: seq<Variant>, score: Scorer, idxs: seq<nat>)
    requires Indices(vs, idxs)
    ensures Order(BestFirst(vs, score, idxs))
  {
  }

  /** The first ranked group is one of those formed, and none of them fits better. */
  lemma RankedFirst(vs: seq<Variant>, score: Scorer, idxs: seq<nat>, gs: seq<seq<nat>>, k: nat) returns (w: nat)
    requires Indices(vs, idxs) && AllIndices(vs, gs) && k < |gs|
    requires NoRepeats(Flatten(gs))
    ensures |RankHolders(vs, score, gs, idxs)| == |gs|
    ensures w < |gs| && gs[w] == RankHolders(vs, score, gs, idxs)[k]
    ensures forall h {:trigger gs[h]} :: 0 <= h < |gs| && h != w ==>
      exists j :: 0 <= j < |gs| && j != k && gs[h] == RankHolders(vs, score, gs, idxs)[j]
  {
    var ranked := RankHolders(vs, score, gs, idxs);
    assert |multiset(ranked)| == |ranked| && |multiset(gs)| == |gs|;
    assert ranked[k] in multiset(gs);
    w :| w < |gs| && gs[w] == ranked[k];
    forall h {:trigger gs[h]} | 0 <= h < |gs| && h != w
      ensures exists j :: 0 <= j < |gs| && j != k && gs[h] == ranked[j]
    {
      assert gs[h] in multiset(ranked);
      var j :| 0 <= j < |ranked| && ranked[j] == gs[h];
      GroupsDiffer(gs, h, w);
    }
  }

  lemma GroupsDiffer(gs: seq<seq<nat>>, g: nat, h: nat)
    requires NoRepeats(Flatten(gs)) && g < |gs| && h < |gs| && g != h && gs[g] != []
    ensures gs[g] != gs[h]
  {
    if g < h {
      FlattenOnce(gs, g, h);
    } else {
      FlattenOnce(gs, h, g);
    }
    assert gs[g][0] in gs[g];
  }

  lemma RankedFits(vs: seq<Variant>, score: Scorer, idxs: seq<nat>, gs: seq<seq<nat>>, j: nat, k: nat)
    requires Indices(vs, idxs) && AllIndices(vs, gs) && j < k < |gs|
    ensures var ranked := RankHolders(vs, score, gs, idxs);
      |ranked| == |gs| && Indices(vs, ranked[j]) && Indices(vs, ranked[k]) &&
      !FitsBetter(FitOf(vs, score, ranked[k], idxs), FitOf(vs, score, ranked[j], idxs))
  {
    var ranked := RankHolders(vs, score, gs, idxs);
    BestFirstOrders(vs, score, idxs);
    SortSorted(BestFirst(vs, score, idxs), gs);
    RankedIndices(vs, score, idxs, gs);
    assert !BestFirst(vs, score, idxs)(ranked[k], ranked[j]);
  }

  lemma RankedIndices(vs: seq<Variant>, score: Scorer, idxs: seq<nat>, gs: seq<seq<nat>>)
    requires Indices(vs, idxs) && AllIndices(vs, gs)
    ensures |RankHolders(vs, score, gs, idxs)| == |gs| && AllIndices(vs, RankHolders(vs, score, gs, idxs))
  {
    var ranked := RankHolders(vs, score, gs, idxs);
    assert |multiset(ranked)| == |ranked| && |multiset(gs)| == |gs|;
    forall k {:trigger ranked[k]} | 0 <= k < |ranked|
      ensures Indices(vs, ranked[k]) && ranked[k] != []
    {
      assert ranked[k] in multiset(gs);
      var g :| 0 <= g < |gs| && gs[g] == ranked[k];
    }
  }

  lemma {:induction false} GroupHasNoRepeats(gs: seq<seq<nat>>, g: nat)
    requires NoRepeats(Flatten(gs)) && g < |gs|
    ensures NoRepeats(gs[g])
  {
    var rest := Flatten(gs[1..]);
    assert forall k :: 0 <= k < |gs[0]| ==> gs[0][k] == Flatten(gs)[k];
    assert forall k :: 0 <= k < |rest| ==> rest[k] == Flatten(gs)[|gs[0]| + k];
    if g > 0 {
      GroupHasNoRepeats(gs[1..], g - 1);
    }
  }

  /** The order of the fits of two groups is the order of the groups. */
  lemma FitOrder(vs: seq<Variant>, score: Scorer, idxs: seq<nat>, gs: seq<seq<nat>>, g: nat, h: nat)
    requires Indices(vs, idxs) && NoRepeats(idxs) && AllIndices(vs, gs) && NoRepeats(Flatten(gs))
    requires g < |gs| && h < |gs|
    ensures FitsBetter(FitOf(vs, score, gs[g], idxs), FitOf(vs, score, gs[h], idxs)) <==>
      Outranks(vs, score, idxs, gs[g], gs[h])
  {
    GroupHasNoRepeats(gs, g);
    GroupHasNoRepeats(gs, h);
    BetterFitOutranks(vs, score, idxs, gs[g], gs[h]);
  }

  /** With no tie at the top the first ranked group is strictly the best. */
  lemma FirstIsBest(vs: seq<Variant>, score: Scorer, idxs: seq<nat>, gs: seq<seq<nat>>) returns (w: nat)
    requires Indices(vs, idxs) && NoRepeats(idxs) && AllIndices(vs, gs) && NoRepeats(Flatten(gs)) && gs != []
    requires |gs| > 1 ==> var ranked := RankHolders(vs, score, gs, idxs);
      |ranked| == |gs| && Indices(vs, ranked[0]) && Indices(vs, ranked[1]) &&
        FitOf(vs, score, ranked[0], idxs) != FitOf(vs, score, ranked[1], idxs)
    ensures StrictlyBest(vs, score, idxs, gs, w)
    ensures |RankHolders(vs, score, gs, idxs)| == |gs| && gs[w] == RankHolders(vs, score, gs, idxs)[0]
  {
    var ranked := RankHolders(vs, score, gs, idxs);
    w := RankedFirst(vs, score, idxs, gs, 0);
    RankedIndices(vs, score, idxs, gs);
    forall h {:trigger gs[h]} | 0 <= h < |gs| && h != w
      ensures Outranks(vs, score, idxs, gs[w], gs[h])
    {
      FitOrder(vs, score, idxs, gs, w, h);
      var j :| 0 <= j < |gs| && j != 0 && gs[h] == ranked[j];
      RankedFits(vs, score, idxs, gs, 0, 1);
      if j > 1 {
        RankedFits(vs, score, idxs, gs, 1, j);
      }
    }
  }

  /** With a tie at the top no group is. */
  lemma TieHasNoBest(vs: seq<Variant>, score: Scorer, idxs: seq<nat>, gs: seq<seq<nat>>, g: nat)
    requires Indices(vs, idxs) && NoRepeats(idxs) && AllIndices(vs, gs) && NoRepeats(Flatten(gs)) && |gs| > 1
    requires var ranked := RankHolders(vs, score, gs, idxs);
      |ranked| == |gs| && Indices(vs, ranked[0]) && Indices(vs, ranked[1]) &&
        FitOf(vs, score, ranked[0], idxs) == FitOf(vs, score, ranked[1], idxs)
    ensures !StrictlyBest(vs, score, idxs, gs, g)
  {
    var ranked := RankHolders(vs, score, gs, idxs);
    var a := RankedFirst(vs, score, idxs, gs, 0);
    var b := RankedFirst(vs, score, idxs, gs, 1);
    RankedIndices(vs, score, idxs, gs);
    RankedFits(vs, score, idxs, gs, 0, 1);
    if g < |gs| && g != a {
      var j :| 0 <= j < |gs| && j != 0 && gs[g] == ranked[j];
      RankedFits(vs, score, idxs, gs, 0, j);
      FitOrder(vs, score, idxs, gs, g, a);
      assert !Outranks(vs, score, idxs, gs[g], gs[a]);
    } else if g == a {
      FlattenSorted(BestFirst(vs, score, idxs), gs);
      SameContentsNoRepeats(Flatten(gs), Flatten(ranked));
      GroupsDiffer(ranked, 0, 1);
      FitOrder(vs, score, idxs, gs, g, b);
      assert !Outranks(vs, score, idxs, gs[g], gs[b]);
    }
  }

  // The verdict on a code

  /** Exactly the holders in the best group keep the code; with no best group nobody does. */
  ghost predicate Decided(vs: seq<Variant>, score: Scorer, idxs: seq<nat>, gs: seq<seq<nat>>, after: seq<Option<Code>>)
    requires Indices(vs, idxs) && AllIndices(vs, gs) && |after| == |vs|
  {
    && (forall g {:trigger gs[g]} :: 0 <= g < |gs| && StrictlyBest(vs, score, idxs, gs, g) ==>
          forall m: nat :: m < |vs| && m in idxs ==> (after[m].Some? <==> m in gs[g]))
    && ((forall g: nat :: !StrictlyBest(vs, score, idxs, gs, g)) ==> forall m: nat :: m < |vs| && m in idxs ==>
      after[m].None?)
  }

  /** Each group with the score of its closest text. */
  ghost predicate Measured(vs: seq<Variant>, score: Scorer, idxs: seq<nat>, gs: seq<seq<nat>>, near: seq<real>) {
    |near| == |gs| && forall g {:trigger gs[g]} :: 0 <= g < |gs| ==> Nearest(vs, score, idxs, gs[g], near[g])
  }

  lemma AllMeasured(vs: seq<Variant>, score: Scorer, idxs: seq<nat>, gs: seq<seq<nat>>) returns (near: seq<real>)
    requires Indices(vs, idxs) && AllIndices(vs, gs)
    ensures Measured(vs, score, idxs, gs, near)
  {
    near := seq(|gs|, g requires 0 <= g < |gs| => Closeness(vs, score, gs[g], RequestsOf(vs, idxs)));
    forall g {:trigger gs[g]} | 0 <= g < |gs|
      ensures Nearest(vs, score, idxs, gs[g], near[g])
    {
      ClosenessIsNearest(vs, score, idxs, gs[g]);
    }
  }

  /** The group that answers more requests than each of the others keeps the code, whatever its
      volume: a substitute never wins by its lines. */
  lemma MostRequestsWin(vs: seq<Variant>, score: Scorer, idxs: seq<nat>, gs: seq<seq<nat>>,
      after: seq<Option<Code>>, g: nat)
    requires Indices(vs, idxs) && AllIndices(vs, gs) && |after| == |vs| && Decided(vs, score, idxs, gs, after)
    requires g < |gs| && forall h {:trigger gs[h]} :: 0 <= h < |gs| && h != g ==>
      |Answered(vs, idxs, gs[g])| > |Answered(vs, idxs, gs[h])|
    ensures forall m: nat :: m < |vs| && m in idxs ==> (after[m].Some? <==> m in gs[g])
  {
    var near := AllMeasured(vs, score, idxs, gs);
    forall h {:trigger gs[h]} | 0 <= h < |gs| && h != g
      ensures Outranks(vs, score, idxs, gs[g], gs[h])
    {
      assert RanksBefore(vs, idxs, gs[g], near[g], gs[h], near[h]);
    }
    assert StrictlyBest(vs, score, idxs, gs, g);
  }

  /** Among groups that answer equally many, the one with the closer text does, and only where that
      is equal too the line count decides. */
  lemma CloserTextThenLines(vs: seq<Variant>, score: Scorer, idxs: seq<nat>, gs: seq<seq<nat>>,
      after: seq<Option<Code>>, near: seq<real>, g: nat)
    requires Indices(vs, idxs) && AllIndices(vs, gs) && |after| == |vs| && Decided(vs, score, idxs, gs, after)
    requires Measured(vs, score, idxs, gs, near) && g < |gs|
    requires forall h {:trigger gs[h]} :: 0 <= h < |gs| && h != g ==>
      && |Answered(vs, idxs, gs[g])| == |Answered(vs, idxs, gs[h])|
      && (ToTenths(near[g]) > ToTenths(near[h]) ||
          (ToTenths(near[g]) == ToTenths(near[h]) && |LinesIn(vs, gs[g])| > |LinesIn(vs, gs[h])|))
    ensures forall m: nat :: m < |vs| && m in idxs ==> (after[m].Some? <==> m in gs[g])
  {
    forall h {:trigger gs[h]} | 0 <= h < |gs| && h != g
      ensures Outranks(vs, score, idxs, gs[g], gs[h])
    {
      assert RanksBefore(vs, idxs, gs[g], near[g], gs[h], near[h]);
    }
    assert StrictlyBest(vs, score, idxs, gs, g);
  }
}
