/** Products from variants: the IMPA tier over every code, the identical tier, the forced merges of
    a person's overrides, and the items they leave. */
module Catalogue {
  import opened Wrappers
  import opened Guards
  import opened DistinctLists
  import opened DisjointSets
  import opened Items
  import opened ImpaGroups
  import opened ImpaRanking
  import opened ImpaTier
  import opened IdenticalTier
  import C = Clusters

  /** Each code lists exactly its holders, once each. */
  method HoldersByCode(impa: seq<Option<Code>>) returns (byCode: map<Code, seq<nat>>)
    ensures forall c :: c in byCode <==> Some(c) in impa
    ensures forall c :: c in byCode ==> Lists(impa, c, byCode[c])
  {
    byCode := map[];
    for i := 0 to |impa|
      invariant forall c :: c in byCode <==> Some(c) in impa[..i]
      invariant forall c :: c in byCode ==> Lists(impa[..i], c, byCode[c])
    {
      assert impa[..i + 1] == impa[..i] + [impa[i]];
      forall c | c in byCode && Some(c) != impa[i]
        ensures Lists(impa[..i + 1], c, byCode[c])
      {
        ListsLonger(impa[..i], impa[i], c, byCode[c]);
      }
      if impa[i].Some? {
        var code := impa[i].value;
        var listed := if code in byCode then byCode[code] else [];
        ListsOneMore(impa[..i], code, listed);
        byCode := byCode[code := listed + [i]];
      }
    }
    assert impa[..|impa|] == impa;
  }

  ghost predicate Lists(impa: seq<Option<Code>>, c: Code, idxs: seq<nat>) {
    && idxs != [] && NoRepeats(idxs)
    && forall m: nat :: m in idxs <==> m < |impa| && impa[m] == Some(c)
  }

  lemma ListsLonger(impa: seq<Option<Code>>, next: Option<Code>, c: Code, idxs: seq<nat>)
    requires Lists(impa, c, idxs) && next != Some(c)
    ensures Lists(impa + [next], c, idxs)
  {
  }

  lemma ListsOneMore(impa: seq<Option<Code>>, c: Code, idxs: seq<nat>)
    requires if Some(c) in impa then Lists(impa, c, idxs) else idxs == []
    ensures Lists(impa + [Some(c)], c, idxs + [|impa|])
  {
    assert |impa| !in idxs;
    NoRepeatsAppend(idxs, [|impa|]);
  }

  // The IMPA tier over every code

  /** Some holder of the code is blocked by another holder of it. */
  ghost predicate CodeDisputed(vs: seq<Variant>, score: Scorer, impa: seq<Option<Code>>, c: Code)
    requires |impa| == |vs|
  {
    exists a: nat, b: nat {:trigger MemberBlock(vs, score, a, b)} ::
      a < |vs| && b < |vs| && impa[a] == Some(c) && impa[b] == Some(c) && MemberBlock(vs, score, a, b).Some?
  }

  /** Where variant m stands while the codes in `todo` are still unsettled. */
  ghost predicate Stands(s: State, t: State, todo: set<Code>, m: nat)
    requires |s.root| == |t.root| == |s.impa| == |t.impa| && m < |s.root|
  {
    match s.impa[m]
    case None => t.impa[m].None? && Alone(t, m)
    case Some(c) =>
      if c in todo then t.impa[m] == Some(c) && Alone(t, m)
      else t.impa[m] == Some(c) || (t.impa[m].None? && Alone(t, m))
  }

  /** The tier part way: items hold exactly the variants that share a settled code. */
  ghost predicate Underway(vs: seq<Variant>, score: Scorer, s: State, t: State, todo: set<Code>)
    requires Shaped(vs, s) && Shaped(vs, t)
  {
    && (forall m: nat {:trigger Stands(s, t, todo, m)} :: m < |vs| ==> Stands(s, t, todo, m))
    && (forall a: nat, b: nat {:trigger Same(t, a, b)} :: a < |vs| && b < |vs| && a != b ==>
        (Same(t, a, b) <==> t.impa[a] == t.impa[b] && t.impa[a].Some? && t.impa[a].value !in todo))
    && (forall c {:trigger CodeDisputed(vs, score, s.impa, c)} :: !CodeDisputed(vs, score, s.impa, c) ==>
        forall m: nat :: m < |vs| && s.impa[m] == Some(c) ==> t.impa[m] == Some(c))
  }

  lemma OneCodeFurther(vs: seq<Variant>, score: Scorer, s: State, t: State, u: State, todo: set<Code>, c: Code,
      idxs: seq<nat>)
    requires Shaped(vs, s) && Shaped(vs, t) && Shaped(vs, u) && Underway(vs, score, s, t, todo)
    requires c in todo && Lists(s.impa, c, idxs) && Indices(vs, idxs)
    requires CodeSettled(vs, t, u, idxs, c)
    requires (exists m: nat :: m in idxs && m < |vs| && u.impa[m].None?) ==> Disputed(vs, score, idxs)
    ensures Underway(vs, score, s, u, todo - {c})
  {
    assert forall m: nat :: m < |vs| ==> Stands(s, t, todo, m);
    forall m: nat | m < |vs|
      ensures Stands(s, u, todo - {c}, m)
    {
      assert Stands(s, t, todo, m);
      if m !in idxs && Alone(t, m) {
        StaysAlone(vs, t, u, idxs, c, m);
      }
    }
    forall a: nat, b: nat | a < |vs| && b < |vs| && a != b
      ensures Same(u, a, b) <==> u.impa[a] == u.impa[b] && u.impa[a].Some? && u.impa[a].value !in todo - {c}
    {
      SameAfter(vs, t, u, idxs, c, a, b);
      SameAfter(vs, t, u, idxs, c, b, a);
      assert Same(t, a, b) == Same(t, b, a);
      assert Stands(s, t, todo, a) && Stands(s, t, todo, b);
    }
    if !CodeDisputed(vs, score, s.impa, c) {
      assert !Disputed(vs, score, idxs);
    }
    assert forall m: nat :: m < |vs| && m !in idxs ==> u.impa[m] == t.impa[m];
  }

  lemma StaysAlone(vs: seq<Variant>, t: State, u: State, idxs: seq<nat>, c: Code, m: nat)
    requires Shaped(vs, t) && Shaped(vs, u) && Indices(vs, idxs) && CodeSettled(vs, t, u, idxs, c)
    requires m < |vs| && m !in idxs && Alone(t, m)
    ensures Alone(u, m)
  {
    forall x: nat | x < |vs| && Same(u, x, m)
      ensures x == m
    {
      if x != m {
        SameAfter(vs, t, u, idxs, c, x, m);
      }
    }
  }

  /** Who shares an item with a once the code is settled. */
  lemma SameAfter(vs: seq<Variant>, t: State, u: State, idxs: seq<nat>, c: Code, a: nat, b: nat)
    requires Shaped(vs, t) && Shaped(vs, u) && Indices(vs, idxs) && CodeSettled(vs, t, u, idxs, c)
    requires a < |vs| && b < |vs| && a != b
    ensures a in idxs && u.impa[a].Some? ==> (Same(u, a, b) <==> b in idxs && u.impa[b].Some?)
    ensures a in idxs && u.impa[a].None? ==> !Same(u, a, b)
    ensures a !in idxs && b !in idxs ==> (Same(u, a, b) <==> Same(t, a, b))
  {
    if a in idxs && u.impa[a].None? {
      assert Alone(u, a);
      assert Same(u, b, a) == Same(u, a, b);
    }
  }

  lemma NothingSettled(vs: seq<Variant>, score: Scorer, s: State, todo: set<Code>)
    requires Shaped(vs, s) && forall i: nat :: i < |vs| ==> Alone(s, i)
    requires forall c :: c in todo <==> Some(c) in s.impa
    ensures Underway(vs, score, s, s, todo)
    ensures forall c :: !Lost(s.impa, s.impa, c)
  {
    forall m: nat | m < |vs|
      ensures Stands(s, s, todo, m)
    {
      assert s.impa[m] in s.impa;
    }
    forall a: nat, b: nat | a < |vs| && b < |vs| && a != b
      ensures !Same(s, a, b) && (s.impa[a].Some? ==> s.impa[a].value in todo)
    {
      assert Alone(s, b) && s.impa[a] in s.impa;
    }
  }

  /** The codes reported as conflicting are those some variant lost, and each variant has the code
      it lost among its rejected ones. */
  ghost predicate LossesTold(before: seq<Option<Code>>, after: seq<Option<Code>>, conflicting: set<Code>,
      rejected: seq<set<Code>>, told: seq<set<Code>>) {
    && |before| == |after| == |rejected| == |told|
    && (forall c {:trigger c in conflicting} :: c in conflicting <==> Lost(before, after, c))
    && (forall m {:trigger told[m]} :: 0 <= m < |before| ==> told[m] == rejected[m] + LostBy(before, after, m))
  }

  /** The holders of a code were grouped by complete linkage, and the group that fits the requests
      strictly best kept it, or nobody. */
  ghost predicate CodeDecided(vs: seq<Variant>, score: Scorer, before: seq<Option<Code>>, after: seq<Option<Code>>,
      c: Code) {
    && |before| == |after| == |vs|
    && exists idxs, gs :: DecidedBy(vs, score, before, after, c, idxs, gs)
  }

  ghost predicate DecidedBy(vs: seq<Variant>, score: Scorer, before: seq<Option<Code>>, after: seq<Option<Code>>,
      c: Code, idxs: seq<nat>, gs: seq<seq<nat>>)
    requires |before| == |after| == |vs|
  {
    && Lists(before, c, idxs) && Indices(vs, idxs)
    && GroupsOf(vs, score, before, idxs, gs) && Decided(vs, score, idxs, gs, after)
  }

  ghost predicate AllDecided(vs: seq<Variant>, score: Scorer, before: seq<Option<Code>>, after: seq<Option<Code>>,
      todo: set<Code>) {
    forall c {:trigger CodeDecided(vs, score, before, after, c)} :: Some(c) in before && c !in todo ==>
      CodeDecided(vs, score, before, after, c)
  }

  lemma DecidedAlike(vs: seq<Variant>, score: Scorer, idxs: seq<nat>, gs: seq<seq<nat>>, t: seq<Option<Code>>,
      u: seq<Option<Code>>)
    requires Indices(vs, idxs) && AllIndices(vs, gs) && |t| == |u| == |vs| && Decided(vs, score, idxs, gs, t)
    requires forall m: nat :: m < |vs| && m in idxs ==> u[m] == t[m]
    ensures Decided(vs, score, idxs, gs, u)
  {
  }

  /** Settling one code leaves the verdicts on the others. */
  lemma DecidedStill(vs: seq<Variant>, score: Scorer, before: seq<Option<Code>>, t: seq<Option<Code>>,
      u: seq<Option<Code>>, c: Code)
    requires CodeDecided(vs, score, before, t, c) && |u| == |vs|
    requires forall m :: 0 <= m < |vs| && before[m] == Some(c) ==> u[m] == t[m]
    ensures CodeDecided(vs, score, before, u, c)
  {
    var idxs, gs :| DecidedBy(vs, score, before, t, c, idxs, gs);
    forall m: nat | m < |vs| && m in idxs
      ensures u[m] == t[m]
    {
      assert before[m] == Some(c);
    }
    DecidedAlike(vs, score, idxs, gs, t, u);
    assert DecidedBy(vs, score, before, u, c, idxs, gs);
  }

  lemma DecidedNow(vs: seq<Variant>, score: Scorer, before: seq<Option<Code>>, t: seq<Option<Code>>,
      u: seq<Option<Code>>, c: Code, idxs: seq<nat>, gs: seq<seq<nat>>)
    requires |before| == |t| == |u| == |vs| && Lists(before, c, idxs) && Indices(vs, idxs)
    requires forall k :: 0 <= k < |idxs| ==> t[idxs[k]] == Some(c)
    requires GroupsOf(vs, score, t, idxs, gs) && Decided(vs, score, idxs, gs, u)
    ensures CodeDecided(vs, score, before, u, c)
  {
    var turns: seq<nat> :| GroupedInTurn(vs, score, t, idxs, gs, turns);
    forall m: nat | m < |vs| && m in idxs
      ensures before[m] == t[m]
    {
      assert before[m] == Some(c);
    }
    GroupingAlike(vs, t, before, idxs, gs);
    assert GroupedInTurn(vs, score, before, idxs, gs, turns);
    assert DecidedBy(vs, score, before, u, c, idxs, gs);
  }

  /** The groups of a code depend on the codes of its holders alone. */
  lemma GroupingAlike(vs: seq<Variant>, t: seq<Option<Code>>, u: seq<Option<Code>>, idxs: seq<nat>, gs: seq<seq<nat>>)
    requires |t| == |u| == |vs| && Indices(vs, idxs) && Grouping(vs, t, multiset(idxs), gs)
    requires forall m: nat :: m < |vs| && m in idxs ==> u[m] == t[m]
    ensures Grouping(vs, u, multiset(idxs), gs)
  {
    forall g {:trigger gs[g]} | 0 <= g < |gs|
      ensures Clique(vs, u, gs[g])
    {
      forall a, b {:trigger gs[g][a], gs[g][b]} | 0 <= a < |gs[g]| && 0 <= b < |gs[g]|
        ensures !PairBlocked(vs, u, gs[g][a], gs[g][b])
      {
        var x := Listed(gs, idxs, g, a);
        var y := Listed(gs, idxs, g, b);
        assert idxs[x] in idxs && idxs[y] in idxs;
        assert !PairBlocked(vs, t, gs[g][a], gs[g][b]);
      }
    }
  }

  /** A hard rule between two holders always costs one of them the code: no group holds both. */
  lemma HardDisputeLoses(vs: seq<Variant>, score: Scorer, before: seq<Option<Code>>, after: seq<Option<Code>>,
      c: Code, a: nat, b: nat)
    requires CodeDecided(vs, score, before, after, c) && a < |vs| && b < |vs|
    requires before[a] == Some(c) && before[b] == Some(c) && PairBlocked(vs, before, a, b)
    ensures Lost(before, after, c)
  {
    if after[a].Some? && after[b].Some? {
      KeepersUnblocked(vs, score, before, after, c, a, b);
    }
  }

  lemma KeepersUnblocked(vs: seq<Variant>, score: Scorer, before: seq<Option<Code>>, after: seq<Option<Code>>,
      c: Code, a: nat, b: nat)
    requires CodeDecided(vs, score, before, after, c) && a < |vs| && b < |vs|
    requires before[a] == Some(c) && before[b] == Some(c) && after[a].Some? && after[b].Some?
    ensures !PairBlocked(vs, before, a, b)
  {
    var idxs, gs :| DecidedBy(vs, score, before, after, c, idxs, gs);
    assert a in idxs && b in idxs;
    var g: nat :| StrictlyBest(vs, score, idxs, gs, g);
    assert a in gs[g] && b in gs[g];
    var x :| 0 <= x < |gs[g]| && gs[g][x] == a;
    var y :| 0 <= y < |gs[g]| && gs[g][y] == b;
    assert !PairBlocked(vs, before, gs[g][x], gs[g][y]);
  }

  /** The whole tier. Variants share an item exactly when they keep one code, so every code sits in
      one item or none and every item holds at most one. A code is lost only where its holders
      block each other, and the holders that fit its requests best keep it. */
  method JoinByCode(uf: C.Clusters, score: Scorer) returns (merges: nat, conflicting: set<Code>)
    requires uf.Ok() && Linked(uf.variants, uf.View())
    requires forall i: nat :: i < |uf.variants| ==> Alone(uf.View(), i)
    modifies uf, uf.sets
    ensures uf.Ok() && Linked(uf.variants, uf.View())
    ensures |Roots(uf.sets.root)| + merges == old(|Roots(uf.sets.root)|)
    ensures old(Shaped(uf.variants, uf.View())) && Underway(uf.variants, score, old(uf.View()), uf.View(), {})
    ensures LossesTold(old(uf.impa), uf.impa, conflicting, old(uf.rejected), uf.rejected)
    ensures AllDecided(uf.variants, score, old(uf.impa), uf.impa, {})
  {
    merges, conflicting := 0, {};
    var byCode := HoldersByCode(uf.impa);
    var todo := byCode.Keys;
    ghost var s, rejected := uf.View(), uf.rejected;
    NothingSettled(uf.variants, score, s, todo);
    while todo != {}
      invariant todo <= byCode.Keys
      invariant uf.Ok() && Linked(uf.variants, uf.View())
      invariant |Roots(uf.sets.root)| + merges == |Roots(s.root)|
      invariant Underway(uf.variants, score, s, uf.View(), todo)
      invariant LossesTold(s.impa, uf.impa, conflicting, rejected, uf.rejected)
      invariant AllDecided(uf.variants, score, s.impa, uf.impa, todo)
      decreases |todo|
    {
      var code :| code in todo;
      var merged;
      merged, conflicting := SettleNext(uf, score, code, byCode[code], s, todo, conflicting, rejected);
      merges := merges + merged;
      todo := todo - {code};
    }
  }

  /** One turn of the tier's loop. */
  method SettleNext(uf: C.Clusters, score: Scorer, code: Code, idxs: seq<nat>, ghost s: State, ghost todo: set<Code>,
                    conflicting: set<Code>, ghost rejected: seq<set<Code>>)
    returns (merges: nat, more: set<Code>)
    requires uf.Ok() && Linked(uf.variants, uf.View()) && Shaped(uf.variants, s)
    requires Underway(uf.variants, score, s, uf.View(), todo) && code in todo && Lists(s.impa, code, idxs)
    requires LossesTold(s.impa, uf.impa, conflicting, rejected, uf.rejected)
    requires AllDecided(uf.variants, score, s.impa, uf.impa, todo)
    modifies uf, uf.sets
    ensures uf.Ok() && Linked(uf.variants, uf.View())
    ensures |Roots(uf.sets.root)| + merges == old(|Roots(uf.sets.root)|)
    ensures Underway(uf.variants, score, s, uf.View(), todo - {code})
    ensures LossesTold(s.impa, uf.impa, more, rejected, uf.rejected)
    ensures AllDecided(uf.variants, score, s.impa, uf.impa, todo - {code})
  {
    ghost var t := uf.View();
    forall k | 0 <= k < |idxs|
      ensures idxs[k] < |uf.variants| && Alone(t, idxs[k]) && t.impa[idxs[k]] == Some(code)
    {
      assert idxs[k] in idxs;
      assert Stands(s, t, todo, idxs[k]);
    }
    ghost var was := uf.rejected;
    var conflict;
    ghost var formed;
    merges, conflict, formed := SettleCode(uf, score, code, idxs);
    more := if conflict then conflicting + {code} else conflicting;
    CodeFurther(uf.variants, score, s, t, uf.View(), todo, code, idxs, formed, conflict);
    ToldFurther(s, t, uf.View(), idxs, code, conflicting, more, rejected, was, uf.rejected, conflict);
  }

  lemma CodeFurther(vs: seq<Variant>, score: Scorer, s: State, t: State, u: State, todo: set<Code>, code: Code,
      idxs: seq<nat>, formed: seq<seq<nat>>, conflict: bool)
    requires Shaped(vs, s) && Shaped(vs, t) && Shaped(vs, u) && Underway(vs, score, s, t, todo)
    requires code in todo && Lists(s.impa, code, idxs) && Indices(vs, idxs) && CodeSettled(vs, t, u, idxs, code)
    requires conflict <==> exists m: nat :: m in idxs && m < |vs| && u.impa[m].None?
    requires conflict ==> Disputed(vs, score, idxs)
    requires forall k :: 0 <= k < |idxs| ==> t.impa[idxs[k]] == Some(code)
    requires AllDecided(vs, score, s.impa, t.impa, todo)
    requires GroupsOf(vs, score, t.impa, idxs, formed) && Decided(vs, score, idxs, formed, u.impa)
    ensures Underway(vs, score, s, u, todo - {code})
    ensures AllDecided(vs, score, s.impa, u.impa, todo - {code})
  {
    OneCodeFurther(vs, score, s, t, u, todo, code, idxs);
    DecidedOn(vs, score, s.impa, t.impa, u.impa, todo, code, idxs, formed);
  }

  lemma ToldFurther(s: State, t: State, u: State, idxs: seq<nat>, code: Code, conflicting: set<Code>, more: set<Code>,
                    rejected: seq<set<Code>>, was: seq<set<Code>>, told: seq<set<Code>>, conflict: bool)
    requires |s.root| == |t.root| == |u.root| == |s.impa| == |t.impa| == |u.impa| == |told|
    requires Lists(s.impa, code, idxs) && LossesTold(s.impa, t.impa, conflicting, rejected, was)
    requires forall k :: 0 <= k < |idxs| ==> idxs[k] < |t.impa| && t.impa[idxs[k]] == Some(code)
    requires forall m: nat :: m < |s.impa| && m !in idxs ==> u.impa[m] == t.impa[m]
    requires forall m: nat :: m < |s.impa| && m in idxs ==> u.impa[m] == Some(code) || u.impa[m].None?
    requires conflict <==> exists m: nat :: m in idxs && m < |u.impa| && u.impa[m].None?
    requires more == if conflict then conflicting + {code} else conflicting
    requires forall m :: 0 <= m < |s.impa| ==> told[m] == was[m] + if u.impa[m] != t.impa[m] then {code} else {}
    ensures LossesTold(s.impa, u.impa, more, rejected, told)
  {
    HoldersBefore(s, t, idxs, code);
    LossesAfter(s, t, u, idxs, code);
    LossesToldOn(s.impa, t.impa, u.impa, conflicting, more, rejected, was, told, code, conflict);
  }

  lemma DecidedOn(vs: seq<Variant>, score: Scorer, before: seq<Option<Code>>, t: seq<Option<Code>>,
      u: seq<Option<Code>>, todo: set<Code>, code: Code,
                  idxs: seq<nat>, gs: seq<seq<nat>>)
    requires |before| == |t| == |u| == |vs| && AllDecided(vs, score, before, t, todo)
    requires Lists(before, code, idxs) && Indices(vs, idxs) && forall k :: 0 <= k < |idxs| ==> t[idxs[k]] == Some(code)
    requires GroupsOf(vs, score, t, idxs, gs) && Decided(vs, score, idxs, gs, u)
    requires forall m: nat :: m < |vs| && m !in idxs ==> u[m] == t[m]
    ensures AllDecided(vs, score, before, u, todo - {code})
  {
    DecidedNow(vs, score, before, t, u, code, idxs, gs);
    forall c | Some(c) in before && c !in todo - {code}
      ensures CodeDecided(vs, score, before, u, c)
    {
      if c != code {
        assert CodeDecided(vs, score, before, t, c);
        DecidedStill(vs, score, before, t, u, c);
      }
    }
  }

  lemma LossesToldOn(s: seq<Option<Code>>, t: seq<Option<Code>>, u: seq<Option<Code>>, conflicting: set<Code>,
      more: set<Code>,
                     rejected: seq<set<Code>>, was: seq<set<Code>>, told: seq<set<Code>>, code: Code, conflict: bool)
    requires |s| == |u| == |told| && LossesTold(s, t, conflicting, rejected, was)
    requires more == if conflict then conflicting + {code} else conflicting
    requires forall c :: c != code ==> (Lost(s, t, c) <==> Lost(s, u, c))
    requires !Lost(s, t, code) && (Lost(s, u, code) <==> conflict)
    requires forall m: nat :: m < |s| ==> LostBy(s, u, m) == LostBy(s, t, m) + if u[m] != t[m] then {code} else {}
    requires forall m :: 0 <= m < |s| ==> told[m] == was[m] + if u[m] != t[m] then {code} else {}
    ensures LossesTold(s, u, more, rejected, told)
  {
    forall m | 0 <= m < |s|
      ensures told[m] == rejected[m] + LostBy(s, u, m)
    {
      assert was[m] == rejected[m] + LostBy(s, t, m);
    }
  }

  lemma HoldersBefore(s: State, t: State, idxs: seq<nat>, code: Code)
    requires |s.impa| == |t.impa| && Lists(s.impa, code, idxs)
    requires forall k :: 0 <= k < |idxs| ==> idxs[k] < |t.impa| && t.impa[idxs[k]] == Some(code)
    ensures forall m: nat :: m < |s.impa| && m in idxs ==> t.impa[m] == Some(code)
  {
  }

  ghost predicate Lost(before: seq<Option<Code>>, after: seq<Option<Code>>, c: Code)
    requires |before| == |after|
  {
    exists m :: 0 <= m < |before| && before[m] == Some(c) && after[m] != Some(c)
  }

  ghost function LostBy(before: seq<Option<Code>>, after: seq<Option<Code>>, m: nat): set<Code>
    requires m < |before| == |after|
  {
    if before[m].Some? && after[m] != before[m] then {before[m].value} else {}
  }

  lemma LossesAfter(s: State, t: State, u: State, idxs: seq<nat>, code: Code)
    requires |s.root| == |t.root| == |u.root| == |s.impa| == |t.impa| == |u.impa|
    requires Lists(s.impa, code, idxs)
    requires forall m: nat :: m < |s.impa| && m !in idxs ==> u.impa[m] == t.impa[m]
    requires forall m: nat :: m < |s.impa| && m in idxs ==>
      t.impa[m] == Some(code) && (u.impa[m] == Some(code) || u.impa[m].None?)
    ensures forall c :: c != code ==> (Lost(s.impa, t.impa, c) <==> Lost(s.impa, u.impa, c))
    ensures !Lost(s.impa, t.impa, code)
    ensures Lost(s.impa, u.impa, code) <==> exists m: nat :: m in idxs && m < |u.impa| && u.impa[m].None?
    ensures forall m: nat :: m < |s.impa| ==>
      LostBy(s.impa, u.impa, m) == LostBy(s.impa, t.impa, m) + if u.impa[m] != t.impa[m] then {code} else {}
  {
    forall c | c != code
      ensures Lost(s.impa, t.impa, c) <==> Lost(s.impa, u.impa, c)
    {
      assert forall m: nat :: m < |s.impa| && s.impa[m] == Some(c) ==> u.impa[m] == t.impa[m];
    }
  }

  // A person's merges

  /** A forced union skips every rule but the codes. */
  lemma ForcedUnion(vs: seq<Variant>, s: State, i: nat, j: nat)
    requires Valid(vs, s) && i < |vs| && j < |vs| && !CodesApart(s, i, j)
    ensures var t := AfterUnion(vs, s, i, j, true);
      && Coarser(s, t) && Same(t, i, j)
      && |Roots(t.root)| + (if Joinable(vs, s, i, j, true) then 1 else 0) == |Roots(s.root)|
      && forall colour: seq<int> :: Finer(s.root, colour) && colour[i] == colour[j] ==> Finer(t.root, colour)
  {
    RootListable(vs, s, i);
    RootListable(vs, s, j);
    ConflictIsCodesApart(vs, s, i, j);
    if s.root[i] != s.root[j] {
      JoinedShape(vs, s, s.root[i], s.root[j]);
      MergedRoots(s.root, s.root[i], s.root[j]);
    }
  }

  /** Whoever is joined anew is joined to m. */
  ghost predicate JoinedTo(s: State, t: State, m: nat) {
    && |s.root| == |t.root| && m < |t.root|
    && forall i: nat, j: nat {:trigger Same(t, i, j)} :: i < |t.root| && j < |t.root| && Same(t, i, j) ==>
         Same(s, i, j) || Same(t, i, m)
  }

  lemma ForcedJoinsTo(vs: seq<Variant>, s: State, i: nat, j: nat)
    requires Valid(vs, s) && i < |vs| && j < |vs|
    ensures JoinedTo(s, AfterUnion(vs, s, i, j, true), i)
  {
    RootListable(vs, s, i);
    RootListable(vs, s, j);
    if Joinable(vs, s, i, j, true) {
      MergedRoots(s.root, s.root[i], s.root[j]);
    }
  }

  lemma JoinedToStill(r: State, s: State, t: State, m: nat)
    requires JoinedTo(r, s, m) && JoinedTo(s, t, m) && Coarser(s, t)
    ensures JoinedTo(r, t, m)
  {
    forall i: nat, j: nat | i < |t.root| && j < |t.root| && Same(t, i, j)
      ensures Same(r, i, j) || Same(t, i, m)
    {
      if Same(s, i, j) && Same(s, i, m) {
        assert Same(t, i, m);
      }
    }
  }

  /** Whoever the overrides joined has a line of an override in the item. */
  ghost predicate JoinedByHand(s: State, t: State, overrides: seq<seq<nat>>) {
    && |s.root| == |t.root|
    && forall i: nat, j: nat {:trigger Same(t, i, j)} :: i < |t.root| && j < |t.root| && Same(t, i, j) ==>
         Same(s, i, j) || Handled(t, overrides, i)
  }

  ghost predicate Handled(t: State, overrides: seq<seq<nat>>, i: nat)
    requires i < |t.root|
  {
    exists o :: 0 <= o < |overrides| && overrides[o] != [] && overrides[o][0] < |t.root| && Same(t, overrides[o][0], i)
  }

  lemma JoinedByHandStill(r: State, s: State, t: State, overrides: seq<seq<nat>>, o: nat)
    requires o < |overrides| && overrides[o] != [] && overrides[o][0] < |t.root|
    requires JoinedByHand(r, s, overrides) && JoinedTo(s, t, overrides[o][0]) && Coarser(s, t)
    ensures JoinedByHand(r, t, overrides)
  {
    forall i: nat, j: nat | i < |t.root| && j < |t.root| && Same(t, i, j)
      ensures Same(r, i, j) || Handled(t, overrides, i)
    {
      if Same(s, i, j) && Handled(s, overrides, i) {
        var q :| 0 <= q < |overrides| && overrides[q] != [] && overrides[q][0] < |s.root| &&
          Same(s, overrides[q][0], i);
        assert Same(t, overrides[q][0], i);
      }
    }
  }

  /** One override: joins its lines in turn, up to the first that holds another code. */
  method ApplyMerge(uf: C.Clusters, lines: seq<nat>, ghost colour: seq<int>) returns (merges: nat, applied: bool)
    requires uf.Ok() && lines != [] && Indices(uf.variants, lines)
    requires Finer(uf.sets.root, colour) && forall k :: 0 <= k < |lines| ==> colour[lines[k]] == colour[lines[0]]
    modifies uf, uf.sets
    ensures uf.Ok() && Coarser(old(uf.View()), uf.View()) && uf.rejected == old(uf.rejected)
    ensures |Roots(uf.sets.root)| + merges == old(|Roots(uf.sets.root)|)
    ensures applied ==> forall k :: 0 <= k < |lines| ==> Same(uf.View(), lines[0], lines[k])
    ensures !applied ==> exists k :: 0 <= k < |lines| && CodesApart(uf.View(), lines[0], lines[k])
    ensures Finer(uf.sets.root, colour) && JoinedTo(old(uf.View()), uf.View(), lines[0])
  {
    merges, applied := 0, true;
    var first := lines[0];
    for p := 1 to |lines|
      invariant uf.Ok() && Coarser(old(uf.View()), uf.View()) && uf.rejected == old(uf.rejected)
      invariant |Roots(uf.sets.root)| + merges == old(|Roots(uf.sets.root)|)
      invariant forall k :: 0 <= k < p ==> Same(uf.View(), first, lines[k])
      invariant Finer(uf.sets.root, colour) && JoinedTo(old(uf.View()), uf.View(), first)
    {
      ghost var s := uf.View();
      var conflict := uf.CodesConflict(first, lines[p]);
      ConflictIsCodesApart(uf.variants, s, first, lines[p]);
      if conflict {
        applied := false;
        return;
      }
      ForcedUnion(uf.variants, s, first, lines[p]);
      ForcedJoinsTo(uf.variants, s, first, lines[p]);
      var joined := uf.Union(first, lines[p], true);
      JoinedToStill(old(uf.View()), s, uf.View(), first);
      CoarserTransitive(old(uf.View()), s, uf.View());
      merges := merges + if joined then 1 else 0;
    }
  }

  /** An override whose lines ended in one item. */
  ghost predicate Honoured(s: State, lines: seq<nat>) {
    forall k, l :: 0 <= k < |lines| && 0 <= l < |lines| ==>
      lines[k] < |s.root| && lines[l] < |s.root| && Same(s, lines[k], lines[l])
  }

  /** The other outcome: two of its lines stay in items that hold two codes. */
  ghost predicate Refused(s: State, lines: seq<nat>) {
    exists k, l :: 0 <= k < |lines| && 0 <= l < |lines| && lines[k] < |s.root| == |s.impa| && lines[l] < |s.root| &&
      CodesApart(s, lines[k], lines[l])
  }

  lemma OutcomePersists(s: State, t: State, lines: seq<nat>)
    requires |s.root| == |s.impa| && Coarser(s, t)
    ensures Honoured(s, lines) ==> Honoured(t, lines)
    ensures Refused(s, lines) ==> Refused(t, lines)
  {
    if Refused(s, lines) {
      var k, l :| 0 <= k < |lines| && 0 <= l < |lines| && lines[k] < |s.root| && lines[l] < |s.root| &&
        CodesApart(s, lines[k], lines[l]);
      CodesApartPersists(s, t, lines[k], lines[l]);
    }
  }

  /** No override is both: one item never holds two codes. */
  lemma RefusedIsNotHonoured(vs: seq<Variant>, s: State, lines: seq<nat>)
    requires Valid(vs, s) && Refused(s, lines)
    ensures !Honoured(s, lines)
  {
    var k, l :| 0 <= k < |lines| && 0 <= l < |lines| && lines[k] < |s.root| && lines[l] < |s.root| &&
      CodesApart(s, lines[k], lines[l]);
    ConflictIsCodesApart(vs, s, lines[k], lines[l]);
  }

  /** Of the first n overrides the reported ones are refused and the others honoured. */
  ghost predicate OutcomesSoFar(s: State, overrides: seq<seq<nat>>, n: nat, bad: set<nat>) {
    && n <= |overrides|
    && (forall o: nat :: o < n && o !in bad ==> Honoured(s, overrides[o]))
    && (forall o: nat :: o in bad ==> o < n && Refused(s, overrides[o]))
  }

  lemma OneMoreOutcome(s: State, t: State, overrides: seq<seq<nat>>, n: nat, bad: set<nat>, applied: bool)
    requires |s.root| == |s.impa| && Coarser(s, t) && n < |overrides| && OutcomesSoFar(s, overrides, n, bad)
    requires if applied then Honoured(t, overrides[n]) else Refused(t, overrides[n])
    ensures OutcomesSoFar(t, overrides, n + 1, if applied then bad else bad + {n})
  {
    forall o: nat | o < n
      ensures Honoured(s, overrides[o]) ==> Honoured(t, overrides[o])
      ensures Refused(s, overrides[o]) ==> Refused(t, overrides[o])
    {
      OutcomePersists(s, t, overrides[o]);
    }
  }

  lemma OutcomesKnown(vs: seq<Variant>, s: State, overrides: seq<seq<nat>>, bad: set<nat>)
    requires Valid(vs, s) && OutcomesSoFar(s, overrides, |overrides|, bad)
    ensures forall o: nat :: o < |overrides| ==> (o in bad <==> !Honoured(s, overrides[o]))
    ensures forall o: nat :: o in bad ==> o < |overrides| && Refused(s, overrides[o])
  {
    forall o: nat | o in bad
      ensures !Honoured(s, overrides[o])
    {
      RefusedIsNotHonoured(vs, s, overrides[o]);
    }
  }

  ghost predicate MergesRespected(vs: seq<Variant>, overrides: seq<seq<nat>>, colour: seq<int>) {
    && |colour| == |vs|
    && forall o, k, l {:trigger overrides[o][k], overrides[o][l]} ::
         0 <= o < |overrides| && 0 <= k < |overrides[o]| && 0 <= l < |overrides[o]| && overrides[o][k] < |vs| &&
           overrides[o][l] < |vs| ==>
           colour[overrides[o][k]] == colour[overrides[o][l]]
  }

  /** Applies every merge override. In the end the reported ones are exactly those whose lines are
      not in one item, and each of those fails over two codes. */
  method ApplyMerges(uf: C.Clusters, overrides: seq<seq<nat>>, ghost colour: seq<int>)
      returns (merges: nat, bad: set<nat>)
    requires uf.Ok() && forall o :: 0 <= o < |overrides| ==> overrides[o] != [] && Indices(uf.variants, overrides[o])
    requires Finer(uf.sets.root, colour) && MergesRespected(uf.variants, overrides, colour)
    modifies uf, uf.sets
    ensures uf.Ok() && Coarser(old(uf.View()), uf.View()) && uf.rejected == old(uf.rejected)
    ensures |Roots(uf.sets.root)| + merges == old(|Roots(uf.sets.root)|)
    ensures forall o: nat :: o < |overrides| ==> (o in bad <==> !Honoured(uf.View(), overrides[o]))
    ensures forall o: nat :: o in bad ==> o < |overrides| && Refused(uf.View(), overrides[o])
    ensures Finer(uf.sets.root, colour) && JoinedByHand(old(uf.View()), uf.View(), overrides)
  {
    merges, bad := 0, {};
    for o := 0 to |overrides|
      invariant uf.Ok() && Coarser(old(uf.View()), uf.View()) && uf.rejected == old(uf.rejected)
      invariant |Roots(uf.sets.root)| + merges == old(|Roots(uf.sets.root)|)
      invariant OutcomesSoFar(uf.View(), overrides, o, bad)
      invariant Finer(uf.sets.root, colour) && JoinedByHand(old(uf.View()), uf.View(), overrides)
    {
      ghost var s := uf.View();
      var lines := overrides[o];
      var merged, applied := ApplyMerge(uf, lines, colour);
      ghost var t := uf.View();
      OneMoreOutcome(s, t, overrides, o, bad, applied);
      JoinedByHandStill(old(uf.View()), s, t, overrides, o);
      CoarserTransitive(old(uf.View()), s, t);
      merges := merges + merged;
      if !applied {
        bad := bad + {o};
      }
    }
    OutcomesKnown(uf.variants, uf.View(), overrides, bad);
  }
}
