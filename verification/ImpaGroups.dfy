/** The variants under one IMPA code, grouped by complete linkage, and how well each group fits
    the requests the code was written against. */
module ImpaGroups {
  import opened Wrappers
  import opened Guards
  import opened DistinctLists
  import opened Items
  import opened Sorting

  // Groups under one code

  /** What keeps variant i away from member m of a group under one code. */
  function MemberBlock(vs: seq<Variant>, score: Scorer, m: nat, i: nat): Option<Guard>
    requires m < |vs| && i < |vs|
  {
    if (exists q | q in vs[i].quotes :: q in vs[m].quotes) && vs[m].key != vs[i].key then Some(SameQuotation)
    else if vs[m].split != vs[i].split then Some(OverrideSplit)
    else ImpaGuard(score, vs[m].feats, vs[i].feats)
  }

  ghost predicate Indices(vs: seq<Variant>, xs: seq<nat>) {
    forall k :: 0 <= k < |xs| ==> xs[k] < |vs|
  }

  /** What keeps variant i out of a group: the first member that blocks it. */
  function ImpaBlock(vs: seq<Variant>, score: Scorer, group: seq<nat>, i: nat): (g: Option<Guard>)
    requires Indices(vs, group) && i < |vs|
    ensures g.None? <==> forall k :: 0 <= k < |group| ==> MemberBlock(vs, score, group[k], i).None?
  {
    if group == [] then None
    else
      var g := MemberBlock(vs, score, group[0], i);
      if g.Some? then g else
        var rest := ImpaBlock(vs, score, group[1..], i);
        assert forall k :: 0 <= k < |group[1..]| ==> group[1..][k] == group[k + 1];
        assert forall k :: 1 <= k < |group| ==> group[k] == group[1..][k - 1];
        rest
  }

  lemma UnblockedMember(vs: seq<Variant>, score: Scorer, impa: seq<Option<Code>>, m: nat, i: nat)
    requires m < |vs| == |impa| && i < |vs| && impa[m] == impa[i]
    requires MemberBlock(vs, score, m, i).None?
    ensures !PairBlocked(vs, impa, m, i) && !PairBlocked(vs, impa, i, m)
  {
    PairBlockedSymmetric(vs, impa, m, i);
  }

  lemma NeverBlocksItself(vs: seq<Variant>, impa: seq<Option<Code>>, i: nat)
    requires i < |vs| == |impa|
    ensures !PairBlocked(vs, impa, i, i)
  {
  }

  ghost predicate Clique(vs: seq<Variant>, impa: seq<Option<Code>>, g: seq<nat>)
    requires |vs| == |impa| && Indices(vs, g)
  {
    forall a, b {:trigger g[a], g[b]} :: 0 <= a < |g| && 0 <= b < |g| ==> !PairBlocked(vs, impa, g[a], g[b])
  }

  function Flatten(gs: seq<seq<nat>>): seq<nat> {
    if gs == [] then [] else gs[0] + Flatten(gs[1..])
  }

  lemma FlattenExtended(gs: seq<seq<nat>>, b: nat, i: nat)
    requires b < |gs|
    ensures multiset(Flatten(gs[b := gs[b] + [i]])) == multiset(Flatten(gs)) + multiset{i}
  {
    if b > 0 {
      FlattenExtended(gs[1..], b - 1, i);
      assert gs[b := gs[b] + [i]][1..] == gs[1..][b - 1 := gs[b] + [i]];
    } else {
      assert gs[0 := gs[0] + [i]][1..] == gs[1..];
    }
  }

  lemma FlattenAppended(gs: seq<seq<nat>>, g: seq<nat>)
    ensures Flatten(gs + [g]) == Flatten(gs) + g
  {
    if gs != [] {
      FlattenAppended(gs[1..], g);
      assert (gs + [g])[1..] == gs[1..] + [g];
    } else {
      assert gs + [g] == [g] && Flatten([g]) == g + Flatten([]);
    }
  }

  lemma FlattenInserted(before: (seq<nat>, seq<nat>) -> bool, g: seq<nat>, gs: seq<seq<nat>>)
    ensures multiset(Flatten(Insert(before, g, gs))) == multiset(g) + multiset(Flatten(gs))
  {
    if gs == [] || !before(gs[0], g) {
      assert ([g] + gs)[1..] == gs;
    } else {
      FlattenInserted(before, g, gs[1..]);
      var r := Insert(before, g, gs[1..]);
      assert ([gs[0]] + r)[1..] == r;
    }
  }

  lemma FlattenSorted(before: (seq<nat>, seq<nat>) -> bool, gs: seq<seq<nat>>)
    ensures multiset(Flatten(Sort(before, gs))) == multiset(Flatten(gs))
  {
    if gs != [] {
      FlattenSorted(before, gs[1..]);
      FlattenInserted(before, gs[0], Sort(before, gs[1..]));
    }
  }

  lemma FlattenMember(gs: seq<seq<nat>>, g: nat, k: nat)
    requires g < |gs| && k < |gs[g]|
    ensures gs[g][k] in Flatten(gs)
  {
    if g > 0 {
      FlattenMember(gs[1..], g - 1, k);
    }
  }

  /** The groups are made of the listed variants, each variant in one group once, and no two
      members of a group block each other. */
  ghost predicate Grouping(vs: seq<Variant>, impa: seq<Option<Code>>, xs: multiset<nat>, gs: seq<seq<nat>>)
    requires |vs| == |impa|
  {
    && multiset(Flatten(gs)) == xs
    && (forall g {:trigger gs[g]} :: 0 <= g < |gs| ==> gs[g] != [] && Indices(vs, gs[g]) && Clique(vs, impa, gs[g]))
  }

  /** Every grouped variant carries the code. */
  ghost predicate AllHold(impa: seq<Option<Code>>, gs: seq<seq<nat>>, code: Code) {
    forall g, k {:trigger gs[g][k]} :: 0 <= g < |gs| && 0 <= k < |gs[g]| ==>
      gs[g][k] < |impa| && impa[gs[g][k]] == Some(code)
  }

  /** How close i is to a group: the score against its first member. */
  function FirstScore(vs: seq<Variant>, score: Scorer, g: seq<nat>, i: nat): real
    requires g != [] && Indices(vs, g) && i < |vs|
  {
    score(vs[g[0]].key, vs[i].key)
  }

  /** The higher score, and of equal ones the first or the same. */
  predicate Closer(x: real, g: nat, y: real, h: nat) {
    x > y || (x == y && g <= h)
  }

  /** The closest group that takes i, the first of equals; None when every group refuses it. */
  method ClosestGroup(vs: seq<Variant>, score: Scorer, gs: seq<seq<nat>>, i: nat) returns (best: Option<nat>)
    requires i < |vs| && forall g :: 0 <= g < |gs| ==> gs[g] != [] && Indices(vs, gs[g])
    ensures best.Some? ==> best.value < |gs| && ImpaBlock(vs, score, gs[best.value], i).None?
    ensures best.None? ==> forall g :: 0 <= g < |gs| ==> ImpaBlock(vs, score, gs[g], i).Some?
    ensures best.Some? ==> forall g :: 0 <= g < |gs| && ImpaBlock(vs, score, gs[g], i).None? ==>
      Closer(FirstScore(vs, score, gs[best.value], i), best.value, FirstScore(vs, score, gs[g], i), g)
  {
    best := None;
    var top := 0.0;
    for g := 0 to |gs|
      invariant best.Some? ==> best.value < g && ImpaBlock(vs, score, gs[best.value], i).None?
      invariant best.Some? ==> top == FirstScore(vs, score, gs[best.value], i)
      invariant best.None? ==> forall h :: 0 <= h < g ==> ImpaBlock(vs, score, gs[h], i).Some?
      invariant best.Some? ==> forall h :: 0 <= h < g && ImpaBlock(vs, score, gs[h], i).None? ==>
        Closer(top, best.value, FirstScore(vs, score, gs[h], i), h)
    {
      if ImpaBlock(vs, score, gs[g], i).None? {
        var closeness := FirstScore(vs, score, gs[g], i);
        if best.None? || closeness > top {
          best, top := Some(g), closeness;
        }
      }
    }
  }

  lemma NewGroup(vs: seq<Variant>, impa: seq<Option<Code>>, xs: multiset<nat>, gs: seq<seq<nat>>, i: nat)
    requires |impa| == |vs| && i < |vs| && Grouping(vs, impa, xs, gs)
    ensures Grouping(vs, impa, xs + multiset{i}, gs + [[i]])
    ensures forall code :: AllHold(impa, gs, code) && impa[i] == Some(code) ==> AllHold(impa, gs + [[i]], code)
  {
    FlattenAppended(gs, [i]);
    NeverBlocksItself(vs, impa, i);
    var placed := gs + [[i]];
    forall g | 0 <= g < |placed|
      ensures placed[g] != [] && Indices(vs, placed[g]) && Clique(vs, impa, placed[g])
    {
      if g < |gs| {
        assert placed[g] == gs[g];
      } else {
        assert placed[g] == [i];
      }
    }
  }

  lemma GrownGroup(vs: seq<Variant>, score: Scorer, impa: seq<Option<Code>>, xs: multiset<nat>, gs: seq<seq<nat>>,
      b: nat, i: nat, code: Code)
    requires |impa| == |vs| && i < |vs| && b < |gs| && Grouping(vs, impa, xs, gs)
    requires AllHold(impa, gs, code) && impa[i] == Some(code)
    requires Indices(vs, gs[b]) && ImpaBlock(vs, score, gs[b], i).None?
    ensures Grouping(vs, impa, xs + multiset{i}, gs[b := gs[b] + [i]])
    ensures AllHold(impa, gs[b := gs[b] + [i]], code)
  {
    FlattenExtended(gs, b, i);
    assert forall k :: 0 <= k < |gs[b]| ==> impa[gs[b][k]] == Some(code);
    CliqueGrows(vs, score, impa, gs[b], i);
    var placed := gs[b := gs[b] + [i]];
    forall g | 0 <= g < |placed|
      ensures placed[g] != [] && Indices(vs, placed[g]) && Clique(vs, impa, placed[g])
    {
      if g != b {
        assert placed[g] == gs[g];
      }
    }
    GrownAllHold(impa, gs, b, i, code);
  }

  lemma GrownAllHold(impa: seq<Option<Code>>, gs: seq<seq<nat>>, b: nat, i: nat, code: Code)
    requires b < |gs| && i < |impa| && AllHold(impa, gs, code) && impa[i] == Some(code)
    ensures AllHold(impa, gs[b := gs[b] + [i]], code)
  {
    var placed := gs[b := gs[b] + [i]];
    forall g, k | 0 <= g < |placed| && 0 <= k < |placed[g]|
      ensures placed[g][k] < |impa| && impa[placed[g][k]] == Some(code)
    {
      if g != b {
        assert placed[g][k] == gs[g][k];
      } else if k < |gs[b]| {
        assert placed[g][k] == gs[b][k];
      }
    }
  }

  lemma CliqueGrows(vs: seq<Variant>, score: Scorer, impa: seq<Option<Code>>, g: seq<nat>, i: nat)
    requires |impa| == |vs| && Indices(vs, g) && i < |vs| && Clique(vs, impa, g)
    requires ImpaBlock(vs, score, g, i).None? && forall k :: 0 <= k < |g| ==> impa[g[k]] == impa[i]
    ensures Indices(vs, g + [i]) && Clique(vs, impa, g + [i])
  {
    var h := g + [i];
    forall a, b | 0 <= a < |h| && 0 <= b < |h|
      ensures !PairBlocked(vs, impa, h[a], h[b])
    {
      NeverBlocksItself(vs, impa, i);
      if a < |g| {
        UnblockedMember(vs, score, impa, g[a], i);
      }
      if b < |g| {
        UnblockedMember(vs, score, impa, g[b], i);
      }
      if a < |g| && b < |g| {
        assert !PairBlocked(vs, impa, g[a], g[b]);
      }
    }
  }

  /** Some variant under the code is blocked by another under it. */
  ghost predicate Disputed(vs: seq<Variant>, score: Scorer, xs: seq<nat>)
    requires Indices(vs, xs)
  {
    exists a, b :: 0 <= a < |xs| && 0 <= b < |xs| && MemberBlock(vs, score, xs[a], xs[b]).Some?
  }

  /** Each member takes every one that came after it, text bar included. */
  ghost predicate HeldTogether(vs: seq<Variant>, score: Scorer, g: seq<nat>) {
    && Indices(vs, g)
    && forall a, b {:trigger MemberBlock(vs, score, g[a], g[b])} :: 0 <= a < b < |g| ==>
      MemberBlock(vs, score, g[a], g[b]).None?
  }

  /** Some member keeps i out. */
  ghost predicate Refuses(vs: seq<Variant>, score: Scorer, g: seq<nat>, i: nat) {
    Indices(vs, g) && i < |vs| && exists k :: 0 <= k < |g| && MemberBlock(vs, score, g[k], i).Some?
  }

  /** The groups as they are formed: each holds together, and was begun by a variant every group before it refused. */
  ghost predicate Formed(vs: seq<Variant>, score: Scorer, gs: seq<seq<nat>>) {
    && (forall g {:trigger gs[g]} :: 0 <= g < |gs| ==> gs[g] != [] && HeldTogether(vs, score, gs[g]))
    && (forall g, h {:trigger gs[g], gs[h]} :: 0 <= g < h < |gs| ==> gs[h] != [] && Refuses(vs, score, gs[g], gs[h][0]))
  }

  lemma FormedNew(vs: seq<Variant>, score: Scorer, gs: seq<seq<nat>>, i: nat)
    requires Formed(vs, score, gs) && i < |vs| && forall g :: 0 <= g < |gs| ==> Refuses(vs, score, gs[g], i)
    ensures Formed(vs, score, gs + [[i]])
  {
  }

  lemma FormedGrown(vs: seq<Variant>, score: Scorer, gs: seq<seq<nat>>, b: nat, i: nat)
    requires Formed(vs, score, gs) && i < |vs| && b < |gs| && Indices(vs, gs[b]) && ImpaBlock(vs, score, gs[b], i).None?
    ensures Formed(vs, score, gs[b := gs[b] + [i]])
  {
    var placed := gs[b := gs[b] + [i]];
    HeldGrows(vs, score, gs[b], i);
    forall g, h {:trigger placed[g], placed[h]} | 0 <= g < h < |placed|
      ensures placed[h] != [] && Refuses(vs, score, placed[g], placed[h][0])
    {
      assert gs[h] != [] && Refuses(vs, score, gs[g], gs[h][0]);
      assert placed[h][0] == gs[h][0];
      RefusesStill(vs, score, gs[g], i, gs[h][0]);
    }
  }

  lemma HeldGrows(vs: seq<Variant>, score: Scorer, g: seq<nat>, i: nat)
    requires HeldTogether(vs, score, g) && i < |vs| && ImpaBlock(vs, score, g, i).None?
    ensures HeldTogether(vs, score, g + [i])
  {
  }

  lemma RefusesStill(vs: seq<Variant>, score: Scorer, g: seq<nat>, i: nat, x: nat)
    requires Refuses(vs, score, g, x) && i < |vs|
    ensures Refuses(vs, score, g + [i], x)
  {
    var k :| 0 <= k < |g| && MemberBlock(vs, score, g[k], x).Some?;
    assert (g + [i])[k] == g[k];
  }

  lemma RefusedBy(vs: seq<Variant>, score: Scorer, gs: seq<seq<nat>>, i: nat)
    requires i < |vs| && (forall g :: 0 <= g < |gs| ==> gs[g] != [] && Indices(vs, gs[g]))
    requires forall g :: 0 <= g < |gs| ==> ImpaBlock(vs, score, gs[g], i).Some?
    ensures forall g :: 0 <= g < |gs| ==> Refuses(vs, score, gs[g], i)
  {
  }

  /** Several groups come of a dispute: the head of the second was refused by a member of the first. */
  lemma GroupsDisputed(vs: seq<Variant>, score: Scorer, impa: seq<Option<Code>>, idxs: seq<nat>, gs: seq<seq<nat>>)
    requires |impa| == |vs| && Indices(vs, idxs) && Grouping(vs, impa, multiset(idxs), gs) && Formed(vs, score, gs) &&
      |gs| > 1
    ensures Disputed(vs, score, idxs)
  {
    assert Refuses(vs, score, gs[0], gs[1][0]);
    var k :| 0 <= k < |gs[0]| && MemberBlock(vs, score, gs[0][k], gs[1][0]).Some?;
    var a := Listed(gs, idxs, 0, k);
    var b := Listed(gs, idxs, 1, 0);
    assert MemberBlock(vs, score, idxs[a], idxs[b]).Some?;
  }

  /** A grouped variant is one of those listed. */
  lemma Listed(gs: seq<seq<nat>>, idxs: seq<nat>, g: nat, k: nat) returns (a: nat)
    requires multiset(Flatten(gs)) == multiset(idxs) && g < |gs| && k < |gs[g]|
    ensures a < |idxs| && idxs[a] == gs[g][k]
  {
    FlattenMember(gs, g, k);
    assert gs[g][k] in multiset(Flatten(gs));
    assert gs[g][k] in idxs;
    a :| a < |idxs| && idxs[a] == gs[g][k];
  }

  /** Every listed variant is in a group. */
  lemma {:induction false} Unlisted(gs: seq<seq<nat>>, x: nat) returns (g: nat)
    requires x in Flatten(gs)
    ensures g < |gs| && x in gs[g]
  {
    if x in gs[0] {
      g := 0;
    } else {
      var h := Unlisted(gs[1..], x);
      g := h + 1;
    }
  }

  /** Groups of a list without repeats have no member in common. */
  lemma {:induction false} FlattenOnce(gs: seq<seq<nat>>, g: nat, h: nat)
    requires NoRepeats(Flatten(gs)) && g < h < |gs|
    ensures forall x :: x in gs[g] ==> x !in gs[h]
  {
    var rest := Flatten(gs[1..]);
    assert forall k :: 0 <= k < |rest| ==> rest[k] == Flatten(gs)[|gs[0]| + k];
    assert forall k :: 0 <= k < |gs[0]| ==> gs[0][k] == Flatten(gs)[k];
    if g == 0 {
      forall x | x in gs[0]
        ensures x !in gs[h]
      {
        var a :| 0 <= a < |gs[0]| && gs[0][a] == x;
        if x in gs[h] {
          var k: nat :| k < |gs[h]| && gs[h][k] == x;
          FlattenMember(gs[1..], h - 1, k);
        }
      }
    } else {
      FlattenOnce(gs[1..], g - 1, h - 1);
    }
  }
}
