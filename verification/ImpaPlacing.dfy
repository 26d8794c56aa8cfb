/** The groups under one code as they come about: one variant after another, each to the closest group that takes it. */
module ImpaPlacing {
  import opened Wrappers
  import opened Guards
  import opened DistinctLists
  import opened Items
  import opened ImpaGroups

  /** When turn q came, the group g existed and none of its members so far kept turns[q] out. */
  ghost predicate Takes(vs: seq<Variant>, score: Scorer, turns: seq<nat>, g: seq<nat>, q: nat)
    requires Indices(vs, turns) && q < |turns|
  {
    && g != [] && g[0] in turns[..q]
    && forall k :: 0 <= k < |g| && g[k] in turns[..q] && g[k] < |vs| ==> MemberBlock(vs, score, g[k], turns[q]).None?
  }

  ghost predicate AtHead(turns: seq<nat>, g: seq<nat>, q: nat)
    requires q < |turns|
  {
    g != [] && g[0] == turns[q]
  }

  /** The variant of turn q is in group g, and that is where it belongs: it began the group because
      none of those there took it, or of those that took it this one is headed by the closest text,
      the earliest of equals. */
  ghost predicate Belongs(vs: seq<Variant>, score: Scorer, turns: seq<nat>, gs: seq<seq<nat>>, q: nat, g: nat)
    requires Indices(vs, turns) && q < |turns|
  {
    && g < |gs| && turns[q] in gs[g]
    && (AtHead(turns, gs[g], q) ==> forall h {:trigger gs[h]} :: 0 <= h < |gs| ==> !Takes(vs, score, turns, gs[h], q))
    && (!AtHead(turns, gs[g], q) ==>
          && Takes(vs, score, turns, gs[g], q)
          && forall h: nat {:trigger gs[h]} :: h < |gs| && Takes(vs, score, turns, gs[h], q) ==>
               Indices(vs, gs[h]) && Indices(vs, gs[g]) &&
               Closer(FirstScore(vs, score, gs[g], turns[q]), g, FirstScore(vs, score, gs[h], turns[q]), h))
  }

  ghost predicate Home(vs: seq<Variant>, score: Scorer, turns: seq<nat>, gs: seq<seq<nat>>, q: nat) {
    Indices(vs, turns) && q < |turns| && exists g: nat :: Belongs(vs, score, turns, gs, q, g)
  }

  /** Each of the first p turns ended where it belongs. */
  ghost predicate AllHome(vs: seq<Variant>, score: Scorer, turns: seq<nat>, gs: seq<seq<nat>>, p: nat) {
    forall q: nat {:trigger Home(vs, score, turns, gs, q)} :: q < p ==> Home(vs, score, turns, gs, q)
  }

  lemma TakesStill(vs: seq<Variant>, score: Scorer, turns: seq<nat>, g: seq<nat>, q: nat, p: nat)
    requires Indices(vs, turns) && NoRepeats(turns) && q < p < |turns| && g != []
    ensures Takes(vs, score, turns, g + [turns[p]], q) == Takes(vs, score, turns, g, q)
  {
    var h := g + [turns[p]];
    assert turns[p] !in turns[..q];
    assert h[0] == g[0];
    if Takes(vs, score, turns, h, q) {
      forall k | 0 <= k < |g| && g[k] in turns[..q] && g[k] < |vs|
        ensures MemberBlock(vs, score, g[k], turns[q]).None?
      {
        assert h[k] == g[k];
      }
    }
  }

  lemma HomeStillNew(vs: seq<Variant>, score: Scorer, turns: seq<nat>, gs: seq<seq<nat>>, q: nat, p: nat)
    requires NoRepeats(turns) && q < p < |turns| && Home(vs, score, turns, gs, q)
    ensures Home(vs, score, turns, gs + [[turns[p]]], q)
  {
    var g: nat :| Belongs(vs, score, turns, gs, q, g);
    var placed := gs + [[turns[p]]];
    assert turns[p] !in turns[..q];
    assert placed[g] == gs[g];
    assert Belongs(vs, score, turns, placed, q, g);
  }

  lemma HomeStillGrown(vs: seq<Variant>, score: Scorer, turns: seq<nat>, gs: seq<seq<nat>>, b: nat, q: nat, p: nat)
    requires NoRepeats(turns) && q < p < |turns| && Home(vs, score, turns, gs, q) && b < |gs|
    requires forall g {:trigger gs[g]} :: 0 <= g < |gs| ==> gs[g] != []
    ensures Home(vs, score, turns, gs[b := gs[b] + [turns[p]]], q)
  {
    var g: nat :| Belongs(vs, score, turns, gs, q, g);
    var placed := gs[b := gs[b] + [turns[p]]];
    forall h: nat {:trigger placed[h]} | h < |gs|
      ensures Takes(vs, score, turns, placed[h], q) == Takes(vs, score, turns, gs[h], q)
      ensures placed[h] != [] && placed[h][0] == gs[h][0]
      ensures Indices(vs, gs[h]) ==> Indices(vs, placed[h])
    {
      TakesStill(vs, score, turns, gs[b], q, p);
    }
    assert turns[q] in placed[g];
    assert AtHead(turns, placed[g], q) == AtHead(turns, gs[g], q);
    assert Belongs(vs, score, turns, placed, q, g);
  }

  /** While all the members came earlier, to take is to block nothing. */
  lemma TakesNow(vs: seq<Variant>, score: Scorer, turns: seq<nat>, g: seq<nat>, p: nat)
    requires Indices(vs, turns) && p < |turns| && g != [] && Indices(vs, g)
    requires forall k :: 0 <= k < |g| ==> g[k] in turns[..p]
    ensures Takes(vs, score, turns, g, p) <==> ImpaBlock(vs, score, g, turns[p]).None?
  {
  }

  lemma NewHome(vs: seq<Variant>, score: Scorer, turns: seq<nat>, gs: seq<seq<nat>>, p: nat)
    requires Indices(vs, turns) && NoRepeats(turns) && p < |turns|
    requires forall g {:trigger gs[g]} :: 0 <= g < |gs| ==> !Takes(vs, score, turns, gs[g], p)
    ensures Home(vs, score, turns, gs + [[turns[p]]], p)
  {
    var placed := gs + [[turns[p]]];
    assert turns[p] !in turns[..p];
    assert placed[|gs|] == [turns[p]];
    assert turns[p] in placed[|gs|];
    assert Belongs(vs, score, turns, placed, p, |gs|);
  }

  lemma GrownHome(vs: seq<Variant>, score: Scorer, turns: seq<nat>, gs: seq<seq<nat>>, b: nat, p: nat)
    requires Indices(vs, turns) && NoRepeats(turns) && p < |turns| && b < |gs|
    requires forall g {:trigger gs[g]} :: 0 <= g < |gs| ==> gs[g] != [] && Indices(vs, gs[g])
    requires Takes(vs, score, turns, gs[b], p)
    requires forall h: nat {:trigger gs[h]} :: h < |gs| && Takes(vs, score, turns, gs[h], p) ==>
      Closer(FirstScore(vs, score, gs[b], turns[p]), b, FirstScore(vs, score, gs[h], turns[p]), h)
    ensures Home(vs, score, turns, gs[b := gs[b] + [turns[p]]], p)
  {
    var grown := gs[b] + [turns[p]];
    var placed := gs[b := grown];
    assert turns[p] !in turns[..p];
    assert grown[|gs[b]|] == turns[p] && turns[p] in grown;
    assert Takes(vs, score, turns, grown, p) by {
      forall k | 0 <= k < |grown| && grown[k] in turns[..p] && grown[k] < |vs|
        ensures MemberBlock(vs, score, grown[k], turns[p]).None?
      {
        assert grown[k] == gs[b][k];
      }
    }
    assert Belongs(vs, score, turns, placed, p, b);
  }

  /** The first p variants listed are grouped. */
  ghost predicate GroupedTo(vs: seq<Variant>, score: Scorer, impa: seq<Option<Code>>, code: Code, idxs: seq<nat>,
      p: nat, gs: seq<seq<nat>>)
    requires |impa| == |vs|
  {
    && p <= |idxs| && Grouping(vs, impa, multiset(idxs[..p]), gs)
    && AllHold(impa, gs, code) && Formed(vs, score, gs) && AllHome(vs, score, idxs, gs, p)
  }

  /** Places the next variant: in the closest group that takes it, else in a group of its own. */
  method Place(vs: seq<Variant>, score: Scorer, ghost impa: seq<Option<Code>>, ghost code: Code, idxs: seq<nat>,
      p: nat, gs: seq<seq<nat>>)
    returns (placed: seq<seq<nat>>)
    requires |impa| == |vs| && Indices(vs, idxs) && NoRepeats(idxs) && p < |idxs| && impa[idxs[p]] == Some(code)
    requires GroupedTo(vs, score, impa, code, idxs, p, gs)
    ensures GroupedTo(vs, score, impa, code, idxs, p + 1, placed)
  {
    ghost var xs := multiset(idxs[..p]);
    var i := idxs[p];
    assert idxs[..p + 1] == idxs[..p] + [i];
    var best := ClosestGroup(vs, score, gs, i);
    MembersCame(vs, score, impa, idxs, p, gs);
    if best.None? {
      NewGroup(vs, impa, xs, gs, i);
      RefusedBy(vs, score, gs, i);
      FormedNew(vs, score, gs, i);
      NewAllHome(vs, score, idxs, gs, p);
      placed := gs + [[i]];
    } else {
      GrownGroup(vs, score, impa, xs, gs, best.value, i, code);
      FormedGrown(vs, score, gs, best.value, i);
      GrownAllHome(vs, score, idxs, gs, best.value, p);
      placed := gs[best.value := gs[best.value] + [i]];
    }
  }

  lemma MembersCame(vs: seq<Variant>, score: Scorer, impa: seq<Option<Code>>, idxs: seq<nat>, p: nat, gs: seq<seq<nat>>)
    requires |impa| == |vs| && Indices(vs, idxs) && p < |idxs| && Grouping(vs, impa, multiset(idxs[..p]), gs)
    ensures forall g: nat {:trigger gs[g]} | g < |gs| ::
      Indices(vs, gs[g]) && (Takes(vs, score, idxs, gs[g], p) <==> ImpaBlock(vs, score, gs[g], idxs[p]).None?)
  {
    forall g: nat {:trigger gs[g]} | g < |gs|
      ensures Takes(vs, score, idxs, gs[g], p) <==> ImpaBlock(vs, score, gs[g], idxs[p]).None?
    {
      forall k | 0 <= k < |gs[g]|
        ensures gs[g][k] in idxs[..p]
      {
        var a := Listed(gs, idxs[..p], g, k);
      }
      TakesNow(vs, score, idxs, gs[g], p);
    }
  }

  lemma NewAllHome(vs: seq<Variant>, score: Scorer, idxs: seq<nat>, gs: seq<seq<nat>>, p: nat)
    requires Indices(vs, idxs) && NoRepeats(idxs) && p < |idxs| && AllHome(vs, score, idxs, gs, p)
    requires forall g: nat {:trigger gs[g]} :: g < |gs| ==> !Takes(vs, score, idxs, gs[g], p)
    ensures AllHome(vs, score, idxs, gs + [[idxs[p]]], p + 1)
  {
    var placed := gs + [[idxs[p]]];
    forall q: nat {:trigger Home(vs, score, idxs, placed, q)} | q < p + 1
      ensures Home(vs, score, idxs, placed, q)
    {
      if q < p {
        HomeStillNew(vs, score, idxs, gs, q, p);
      } else {
        NewHome(vs, score, idxs, gs, p);
      }
    }
  }

  lemma GrownAllHome(vs: seq<Variant>, score: Scorer, idxs: seq<nat>, gs: seq<seq<nat>>, b: nat, p: nat)
    requires Indices(vs, idxs) && NoRepeats(idxs) && p < |idxs| && AllHome(vs, score, idxs, gs, p) && b < |gs|
    requires forall g {:trigger gs[g]} :: 0 <= g < |gs| ==> gs[g] != [] && Indices(vs, gs[g])
    requires Takes(vs, score, idxs, gs[b], p)
    requires forall h: nat {:trigger gs[h]} :: h < |gs| && Takes(vs, score, idxs, gs[h], p) ==>
      Closer(FirstScore(vs, score, gs[b], idxs[p]), b, FirstScore(vs, score, gs[h], idxs[p]), h)
    ensures AllHome(vs, score, idxs, gs[b := gs[b] + [idxs[p]]], p + 1)
  {
    var placed := gs[b := gs[b] + [idxs[p]]];
    forall q: nat {:trigger Home(vs, score, idxs, placed, q)} | q < p + 1
      ensures Home(vs, score, idxs, placed, q)
    {
      if q < p {
        HomeStillGrown(vs, score, idxs, gs, b, q, p);
      } else {
        GrownHome(vs, score, idxs, gs, b, p);
      }
    }
  }

  method FormGroups(vs: seq<Variant>, score: Scorer, ghost impa: seq<Option<Code>>, ghost code: Code, idxs: seq<nat>)
    returns (groups: seq<seq<nat>>)
    requires |impa| == |vs| && Indices(vs, idxs) && NoRepeats(idxs)
    requires forall k :: 0 <= k < |idxs| ==> impa[idxs[k]] == Some(code)
    ensures Grouping(vs, impa, multiset(idxs), groups) && Formed(vs, score, groups)
    ensures AllHome(vs, score, idxs, groups, |idxs|)
  {
    groups := [];
    for p := 0 to |idxs|
      invariant GroupedTo(vs, score, impa, code, idxs, p, groups)
    {
      groups := Place(vs, score, impa, code, idxs, p, groups);
    }
    assert idxs[..|idxs|] == idxs;
  }
}
