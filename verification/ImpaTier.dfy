/** The tier that joins the variants under one IMPA code, and takes the code from all but one of
    the products it names. */
module ImpaTier {
  import opened Wrappers
  import opened Guards
  import opened DistinctLists
  import opened DisjointSets
  import opened Items
  import opened ImpaGroups
  import opened ImpaPlacing
  import opened HolderFit
  import opened ImpaRanking
  import opened Sorting
  import opened Texts
  import opened IdenticalTier
  import C = Clusters

  /** A variant in an item of its own. */
  ghost predicate Alone(s: State, i: nat)
    requires i < |s.root|
  {
    s.root[i] == i && forall m: nat {:trigger Same(s, m, i)} :: m < |s.root| && Same(s, m, i) ==> m == i
  }

  // Taking a code away

  ghost function Stripped(s: State, i: nat, code: Code): State
    requires i < |s.impa| == |s.codes|
  {
    s.(impa := s.impa[i := None], codes := s.codes[i := s.codes[i] - {code}])
  }

  /** Discarding the code of a variant that is still alone keeps the tables exact; the root that
      loses it is the variant itself. */
  lemma StrippedValid(vs: seq<Variant>, s: State, i: nat, code: Code)
    requires Valid(vs, s) && Linked(vs, s) && i < |vs| && Alone(s, i) && s.impa[i] == Some(code)
    ensures Valid(vs, Stripped(s, i, code)) && Linked(vs, Stripped(s, i, code))
  {
    var t := Stripped(s, i, code);
    forall r | 0 <= r < |vs| && t.root[r] == r
      ensures Describes(vs, t, r)
    {
      assert Describes(vs, s, r);
      if r == i {
        StrippedDescribesOwn(vs, s, i, code);
      } else {
        StrippedDescribesOther(vs, s, i, code, r);
      }
    }
    forall a: nat, b: nat | a < |vs| && b < |vs| && Same(t, a, b)
      ensures !PairBlocked(vs, t.impa, a, b)
    {
      assert Same(s, a, b);
    }
  }

  lemma StrippedDescribesOwn(vs: seq<Variant>, s: State, i: nat, code: Code)
    requires Shaped(vs, s) && i < |vs| && Alone(s, i) && s.impa[i] == Some(code) && Describes(vs, s, i)
    ensures Shaped(vs, Stripped(s, i, code)) && Describes(vs, Stripped(s, i, code), i)
  {
    var t := Stripped(s, i, code);
    assert forall m: nat {:trigger In(t, m, i)} {:trigger In(s, m, i)} :: In(t, m, i) <==> In(s, m, i);
    forall m: nat | In(s, m, i)
      ensures m == i
    {
      assert Same(s, m, i);
    }
    assert In(s, i, i) && HasCode(s, i, code);
    assert s.codes[i] == {code};
    forall c
      ensures !HasCode(t, i, c)
    {
    }
    forall q
      ensures HasQuote(vs, s, i, q) <==> HasQuote(vs, t, i, q)
    {
    }
    assert In(t, i, i) && HasLabel(vs, t, i, t.labels[i]);
  }

  lemma StrippedDescribesOther(vs: seq<Variant>, s: State, i: nat, code: Code, r: nat)
    requires Shaped(vs, s) && i < |vs| && s.root[i] == i && r < |vs| && r != i && Describes(vs, s, r)
    ensures Shaped(vs, Stripped(s, i, code)) && Describes(vs, Stripped(s, i, code), r)
  {
    var t := Stripped(s, i, code);
    assert forall m: nat {:trigger In(s, m, r)} {:trigger In(t, m, r)} :: In(s, m, r) <==> In(t, m, r);
    forall c
      ensures HasCode(s, r, c) <==> HasCode(t, r, c)
    {
    }
    assert forall q :: HasQuote(vs, s, r, q) <==> HasQuote(vs, t, r, q);
    assert HasLabel(vs, t, r, t.labels[r]);
  }

  method Strip(uf: C.Clusters, i: nat, code: Code)
    requires uf.Ok() && Linked(uf.variants, uf.View()) && i < |uf.variants|
    requires Alone(uf.View(), i) && uf.impa[i] == Some(code)
    modifies uf
    ensures uf.Ok() && Linked(uf.variants, uf.View())
    ensures uf.View() == old(Stripped(uf.View(), i, code))
    ensures uf.rejected == old(uf.rejected[i := uf.rejected[i] + {code}])
  {
    StrippedValid(uf.variants, uf.View(), i, code);
    uf.impa := uf.impa[i := None];
    uf.rejected := uf.rejected[i := uf.rejected[i] + {code}];
    uf.codes := uf.codes[i := uf.codes[i] - {code}];
    assert uf.View() == old(Stripped(uf.View(), i, code));
  }

  /** s with the code taken from exactly the listed variants. */
  ghost predicate CodeTaken(s: State, t: State, lost: seq<nat>, code: Code) {
    && |s.impa| == |t.impa| == |s.root|
    && t.root == s.root
    && forall m :: 0 <= m < |s.impa| ==> t.impa[m] == if m in lost then None else s.impa[m]
  }

  method StripAll(uf: C.Clusters, lost: seq<nat>, code: Code)
    requires uf.Ok() && Linked(uf.variants, uf.View())
    requires NoRepeats(lost) && forall k :: 0 <= k < |lost| ==>
      lost[k] < |uf.variants| && Alone(uf.View(), lost[k]) && uf.impa[lost[k]] == Some(code)
    modifies uf
    ensures uf.Ok() && Linked(uf.variants, uf.View())
    ensures CodeTaken(old(uf.View()), uf.View(), lost, code)
    ensures forall m :: 0 <= m < |uf.variants| ==>
      uf.rejected[m] == old(uf.rejected)[m] + if m in lost then {code} else {}
  {
    for p := 0 to |lost|
      invariant uf.Ok() && Linked(uf.variants, uf.View())
      invariant CodeTaken(old(uf.View()), uf.View(), lost[..p], code)
      invariant forall m :: 0 <= m < |uf.variants| ==>
        uf.rejected[m] == old(uf.rejected)[m] + if m in lost[..p] then {code} else {}
    {
      ghost var s := uf.View();
      assert lost[p] !in lost[..p];
      assert Alone(old(uf.View()), lost[p]);
      assert forall m: nat :: m < |uf.variants| && Same(s, m, lost[p]) ==> Same(old(uf.View()), m, lost[p]);
      Strip(uf, lost[p], code);
      assert lost[..p + 1] == lost[..p] + [lost[p]];
    }
    assert lost[..|lost|] == lost;
  }

  // Joining the group that keeps the code

  /** Part way through a group: its first p members share an item that holds nothing else, and
      every other variant is where it was. */
  ghost predicate Joining(vs: seq<Variant>, before: State, s: State, main: seq<nat>, p: nat)
    requires Shaped(vs, before) && Shaped(vs, s) && Indices(vs, main)
  {
    && 1 <= p <= |main|
    && Coarser(before, s)
    && s.root[main[0]] == main[0]
    && (forall m: nat {:trigger Same(s, m, main[0])} :: m < |vs| ==> (Same(s, m, main[0]) <==> m in main[..p]))
    && (forall m: nat {:trigger s.root[m]} :: m < |vs| && m !in main[..p] ==> s.root[m] == before.root[m])
  }

  lemma CliqueUnsettled(vs: seq<Variant>, before: State, s: State, main: seq<nat>, p: nat)
    requires Shaped(vs, before) && Shaped(vs, s) && Indices(vs, main) && Clique(vs, s.impa, main) && p < |main| &&
      NoRepeats(main)
    requires Joining(vs, before, s, main, p)
    requires Alone(s, main[p])
    ensures !Settled(vs, s, main[0], main[p])
  {
    assert main[p] !in main[..p];
    forall a: nat, b: nat | a < |vs| && b < |vs| && Same(s, a, main[0]) && Same(s, b, main[p])
      ensures !PairBlocked(vs, s.impa, a, b)
    {
      var k :| 0 <= k < p && main[..p][k] == a;
      assert a == main[k] && b == main[p];
    }
  }

  lemma StillAlone(vs: seq<Variant>, before: State, s: State, main: seq<nat>, p: nat)
    requires Shaped(vs, before) && Shaped(vs, s) && Indices(vs, main) && NoRepeats(main) && p < |main|
    requires Joining(vs, before, s, main, p) && Alone(before, main[p])
    ensures Alone(s, main[p])
  {
    assert main[p] !in main[..p];
    forall m: nat | m < |vs| && Same(s, m, main[p])
      ensures m == main[p]
    {
      assert Same(s, m, main[0]) <==> m in main[..p];
      assert !Same(s, main[p], main[0]);
      assert Same(before, m, main[p]);
    }
  }

  lemma JoiningNext(vs: seq<Variant>, before: State, s: State, t: State, main: seq<nat>, p: nat)
    requires Shaped(vs, before) && Shaped(vs, s) && Shaped(vs, t) && Indices(vs, main) && NoRepeats(main) && p < |main|
    requires Joining(vs, before, s, main, p) && Alone(s, main[p]) && Coarser(s, t)
    requires t.root == Merged(s.root, main[0], main[p])
    ensures Joining(vs, before, t, main, p + 1)
  {
    CoarserTransitive(before, s, t);
    assert main[..p + 1] == main[..p] + [main[p]];
    forall m: nat | m < |vs|
      ensures Same(t, m, main[0]) <==> m in main[..p + 1]
    {
      assert Same(s, m, main[0]) <==> m in main[..p];
      assert Same(s, m, main[p]) <==> m == main[p];
    }
    forall m: nat | m < |vs| && m !in main[..p + 1]
      ensures t.root[m] == before.root[m]
    {
      assert m !in main[..p] && s.root[m] == before.root[m];
      assert !Same(s, m, main[p]);
    }
  }

  method JoinNext(uf: C.Clusters, main: seq<nat>, p: nat, ghost before: State)
    requires uf.Ok() && Linked(uf.variants, uf.View()) && Shaped(uf.variants, before)
    requires Indices(uf.variants, main) && NoRepeats(main) && Clique(uf.variants, uf.impa, main) && p < |main|
    requires Joining(uf.variants, before, uf.View(), main, p) && Alone(before, main[p])
    modifies uf, uf.sets
    ensures uf.Ok() && Linked(uf.variants, uf.View()) && uf.impa == old(uf.impa) && uf.rejected == old(uf.rejected)
    ensures Joining(uf.variants, before, uf.View(), main, p + 1)
    ensures |Roots(uf.sets.root)| + 1 == old(|Roots(uf.sets.root)|)
  {
    ghost var s := uf.View();
    StillAlone(uf.variants, before, s, main, p);
    CliqueUnsettled(uf.variants, before, s, main, p);
    UnforcedUnion(uf.variants, s, main[0], main[p]);
    var joined := uf.Union(main[0], main[p]);
    assert joined;
    JoiningNext(uf.variants, before, s, uf.View(), main, p);
  }

  /** Every union inside the group succeeds: one item holds the whole group and nothing else. */
  method JoinGroup(uf: C.Clusters, main: seq<nat>) returns (merges: nat)
    requires uf.Ok() && Linked(uf.variants, uf.View())
    requires main != [] && Indices(uf.variants, main) && NoRepeats(main) && Clique(uf.variants, uf.impa, main)
    requires forall k :: 0 <= k < |main| ==> Alone(uf.View(), main[k])
    modifies uf, uf.sets
    ensures uf.Ok() && Linked(uf.variants, uf.View())
    ensures uf.impa == old(uf.impa) && uf.rejected == old(uf.rejected)
    ensures merges == |main| - 1
    ensures |Roots(uf.sets.root)| + merges == old(|Roots(uf.sets.root)|)
    ensures old(Shaped(uf.variants, uf.View())) && Joining(uf.variants, old(uf.View()), uf.View(), main, |main|)
  {
    merges := 0;
    assert main[..1] == [main[0]];
    assert Alone(uf.View(), main[0]);
    for p := 1 to |main|
      invariant uf.Ok() && Linked(uf.variants, uf.View())
      invariant uf.impa == old(uf.impa) && uf.rejected == old(uf.rejected)
      invariant merges == p - 1 && |Roots(uf.sets.root)| + merges == old(|Roots(uf.sets.root)|)
      invariant Joining(uf.variants, old(uf.View()), uf.View(), main, p)
    {
      assert Alone(old(uf.View()), main[p]);
      JoinNext(uf, main, p, old(uf.View()));
      merges := merges + 1;
    }
  }

  // One code

  /** What settling one code does to the variants it names, and only to them: each keeps the code
      or ends alone without it, and the keepers share one item that holds nothing else. */
  ghost predicate CodeSettled(vs: seq<Variant>, s: State, t: State, idxs: seq<nat>, code: Code)
    requires Shaped(vs, s) && Shaped(vs, t) && Indices(vs, idxs)
  {
    && (forall m: nat {:trigger t.root[m]} {:trigger t.impa[m]} :: m < |vs| && m !in idxs ==>
      t.impa[m] == s.impa[m] && t.root[m] == s.root[m])
    && (forall m: nat {:trigger t.impa[m]} :: m < |vs| && m in idxs ==>
      t.impa[m] == Some(code) || (t.impa[m].None? && Alone(t, m)))
    && (forall a: nat, b: nat {:trigger Same(t, a, b)} :: a < |vs| && b < |vs| && a in idxs && t.impa[a].Some? ==>
        (Same(t, a, b) <==> b in idxs && t.impa[b].Some?))
  }

  predicate Heavier(v: Variant, w: Variant) {
    v.weight > w.weight || (v.weight == w.weight && Less(v.key, w.key))
  }

  /** Heavier variants first, then by key. */
  function HeaviestFirst(vs: seq<Variant>): (nat, nat) -> bool {
    (i: nat, j: nat) => i < |vs| && (j < |vs| ==> Heavier(vs[i], vs[j]))
  }

  /** The turns: by falling weight, and by key among equals. */
  ghost predicate InTurn(vs: seq<Variant>, turns: seq<nat>) {
    && Indices(vs, turns)
    && forall p, q :: 0 <= p < q < |turns| ==>
         vs[turns[p]].weight > vs[turns[q]].weight ||
         (vs[turns[p]].weight == vs[turns[q]].weight && !Less(vs[turns[q]].key, vs[turns[p]].key))
  }

  lemma HeaviestFirstOrders(vs: seq<Variant>)
    ensures Order(HeaviestFirst(vs))
  {
    var before := HeaviestFirst(vs);
    forall a: nat, b: nat | before(a, b)
      ensures !before(b, a)
    {
      if b < |vs| && vs[a].weight == vs[b].weight {
        LessOneWay(vs[a].key, vs[b].key);
      }
    }
    forall a: nat, b: nat, c: nat | !before(b, a) && !before(c, b)
      ensures !before(c, a)
    {
      if a < |vs| && b < |vs| && c < |vs| && vs[a].weight == vs[b].weight == vs[c].weight {
        NotLessTransitive(vs[a].key, vs[b].key, vs[c].key);
      }
    }
  }

  lemma TurnsInTurn(vs: seq<Variant>, idxs: seq<nat>)
    requires Indices(vs, idxs)
    ensures InTurn(vs, Sort(HeaviestFirst(vs), idxs))
  {
    var turns := Sort(HeaviestFirst(vs), idxs);
    forall k | 0 <= k < |turns|
      ensures turns[k] < |vs|
    {
      assert turns[k] in multiset(turns);
      assert turns[k] in idxs;
    }
    HeaviestFirstOrders(vs);
    SortSorted(HeaviestFirst(vs), idxs);
    forall p, q | 0 <= p < q < |turns|
      ensures vs[turns[p]].weight > vs[turns[q]].weight ||
        (vs[turns[p]].weight == vs[turns[q]].weight && !Less(vs[turns[q]].key, vs[turns[p]].key))
    {
      assert !HeaviestFirst(vs)(turns[q], turns[p]);
    }
  }

  /** The groups as formed: the holders taken in turn, each joined the closest group that took it,
      or began one. */
  ghost predicate GroupsOf(vs: seq<Variant>, score: Scorer, impa: seq<Option<Code>>, idxs: seq<nat>, gs: seq<seq<nat>>)
    requires |impa| == |vs|
  {
    AllIndices(vs, gs) && exists turns: seq<nat> :: GroupedInTurn(vs, score, impa, idxs, gs, turns)
  }

  ghost predicate GroupedInTurn(vs: seq<Variant>, score: Scorer, impa: seq<Option<Code>>, idxs: seq<nat>,
      gs: seq<seq<nat>>, turns: seq<nat>)
    requires |impa| == |vs|
  {
    && Grouping(vs, impa, multiset(idxs), gs) && Formed(vs, score, gs) && NoRepeats(Flatten(gs))
    && multiset(turns) == multiset(idxs) && InTurn(vs, turns) && AllHome(vs, score, turns, gs, |turns|)
  }

  /** The groups under a code: as formed, the first by fit and what the others hold, and whether the
      best two fit equally well. */
  method HolderGroups(vs: seq<Variant>, score: Scorer, ghost impa: seq<Option<Code>>, ghost code: Code, idxs: seq<nat>)
    returns (main: seq<nat>, rest: seq<nat>, conflict: bool, tie: bool, ghost formed: seq<seq<nat>>)
    requires |impa| == |vs| && idxs != [] && Indices(vs, idxs) && NoRepeats(idxs)
    requires forall k :: 0 <= k < |idxs| ==> impa[idxs[k]] == Some(code)
    ensures main != [] && Indices(vs, main) && Clique(vs, impa, main)
    ensures NoRepeats(main + rest) && forall x :: x in idxs <==> x in main + rest
    ensures conflict <==> rest != []
    ensures conflict ==> Disputed(vs, score, idxs)
    ensures tie ==> conflict
    ensures GroupsOf(vs, score, impa, idxs, formed)
    ensures if tie then forall g: nat :: !StrictlyBest(vs, score, idxs, formed, g)
            else exists w: nat :: StrictlyBest(vs, score, idxs, formed, w) && formed[w] == main
  {
    var turns := Sort(HeaviestFirst(vs), idxs);
    SameContentsNoRepeats(idxs, turns);
    SameIndices(vs, impa, code, idxs, turns);
    TurnsInTurn(vs, idxs);
    formed := [];
    var groups := FormGroups(vs, score, impa, code, turns);
    formed := groups;
    FormedGroups(vs, score, impa, idxs, formed, turns);
    conflict, tie := |groups| > 1, false;
    ghost var w;
    if conflict {
      GroupsDisputed(vs, score, impa, idxs, groups);
      RankedGrouping(vs, score, impa, multiset(idxs), groups, idxs);
      RankedIndices(vs, score, idxs, groups);
      groups := RankHolders(vs, score, groups, idxs);
      tie := FitOf(vs, score, groups[0], idxs) == FitOf(vs, score, groups[1], idxs);
      if tie {
        forall g: nat
          ensures !StrictlyBest(vs, score, idxs, formed, g)
        {
          TieHasNoBest(vs, score, idxs, formed, g);
        }
      } else {
        w := FirstIsBest(vs, score, idxs, formed);
      }
    } else {
      w := 0;
      assert StrictlyBest(vs, score, idxs, formed, 0);
    }
    main, rest := groups[0], Flatten(groups[1..]);
    MainAndRest(vs, impa, idxs, groups);
  }

  lemma SameIndices(vs: seq<Variant>, impa: seq<Option<Code>>, code: Code, idxs: seq<nat>, turns: seq<nat>)
    requires |impa| == |vs| && Indices(vs, idxs) && forall k :: 0 <= k < |idxs| ==> impa[idxs[k]] == Some(code)
    requires forall x :: x in idxs <==> x in turns
    ensures Indices(vs, turns) && forall k :: 0 <= k < |turns| ==> impa[turns[k]] == Some(code)
  {
    forall k | 0 <= k < |turns|
      ensures turns[k] < |vs| && impa[turns[k]] == Some(code)
    {
      assert turns[k] in idxs;
    }
  }

  lemma FormedGroups(vs: seq<Variant>, score: Scorer, impa: seq<Option<Code>>, idxs: seq<nat>, gs: seq<seq<nat>>,
      turns: seq<nat>)
    requires |impa| == |vs| && Grouping(vs, impa, multiset(idxs), gs) && Formed(vs, score, gs) && NoRepeats(idxs) &&
      idxs != []
    requires multiset(turns) == multiset(idxs) && InTurn(vs, turns) && AllHome(vs, score, turns, gs, |turns|)
    ensures GroupsOf(vs, score, impa, idxs, gs) && NoRepeats(Flatten(gs)) && gs != []
  {
    SameContentsNoRepeats(idxs, Flatten(gs));
    assert idxs[0] in multiset(Flatten(gs));
    assert GroupedInTurn(vs, score, impa, idxs, gs, turns);
  }

  /** The first group and the others hold the code's holders between them. */
  lemma MainAndRest(vs: seq<Variant>, impa: seq<Option<Code>>, idxs: seq<nat>, gs: seq<seq<nat>>)
    requires |impa| == |vs| && Grouping(vs, impa, multiset(idxs), gs) && NoRepeats(idxs) && gs != []
    ensures gs[0] != [] && Indices(vs, gs[0]) && Clique(vs, impa, gs[0])
    ensures NoRepeats(gs[0] + Flatten(gs[1..])) && forall x :: x in idxs <==> x in gs[0] + Flatten(gs[1..])
    ensures |gs| > 1 <==> Flatten(gs[1..]) != []
  {
    SameContentsNoRepeats(idxs, gs[0] + Flatten(gs[1..]));
    if |gs| > 1 {
      assert gs[1..][0] == gs[1];
      FlattenMember(gs[1..], 0, 0);
    }
  }

  /** Settles the variants that hold one code: the group that fits its requests strictly best keeps
      it, and with no such group nobody does. */
  method SettleCode(uf: C.Clusters, score: Scorer, code: Code, idxs: seq<nat>)
      returns (merges: nat, conflict: bool, ghost formed: seq<seq<nat>>)
    requires uf.Ok() && Linked(uf.variants, uf.View())
    requires idxs != [] && Indices(uf.variants, idxs) && NoRepeats(idxs)
    requires forall k :: 0 <= k < |idxs| ==> Alone(uf.View(), idxs[k]) && uf.impa[idxs[k]] == Some(code)
    modifies uf, uf.sets
    ensures uf.Ok() && Linked(uf.variants, uf.View())
    ensures old(Shaped(uf.variants, uf.View())) && CodeSettled(uf.variants, old(uf.View()), uf.View(), idxs, code)
    ensures |Roots(uf.sets.root)| + merges == old(|Roots(uf.sets.root)|)
    ensures conflict <==> exists m: nat :: m in idxs && m < |uf.variants| && uf.impa[m].None?
    ensures conflict ==> Disputed(uf.variants, score, idxs)
    ensures forall m :: 0 <= m < |uf.variants| ==>
      uf.rejected[m] == old(uf.rejected)[m] + if uf.impa[m] != old(uf.impa)[m] then {code} else {}
    ensures GroupsOf(uf.variants, score, old(uf.impa), idxs, formed) &&
      Decided(uf.variants, score, idxs, formed, uf.impa)
  {
    var main, rest, tie;
    main, rest, conflict, tie, formed := HolderGroups(uf.variants, score, uf.impa, code, idxs);
    ghost var before, told := uf.impa, uf.rejected;
    merges := GiveCode(uf, code, idxs, main, rest, tie);
    Verdict(uf.variants, score, code, idxs, formed, main, rest, tie, conflict, before, uf.impa, told, uf.rejected);
  }

  /** Who loses the code: everyone in a tie, otherwise the groups after the first. */
  function Losers(main: seq<nat>, rest: seq<nat>, tie: bool): seq<nat> {
    if tie then main + rest else rest
  }

  /** Takes the code from the losers and joins the others. */
  method GiveCode(uf: C.Clusters, code: Code, ghost idxs: seq<nat>, main: seq<nat>, rest: seq<nat>, tie: bool)
      returns (merges: nat)
    requires uf.Ok() && Linked(uf.variants, uf.View())
    requires Indices(uf.variants, idxs) && main != [] && Indices(uf.variants, main) &&
      Clique(uf.variants, uf.impa, main)
    requires NoRepeats(main + rest) && forall x :: x in idxs <==> x in main + rest
    requires forall k :: 0 <= k < |idxs| ==> Alone(uf.View(), idxs[k]) && uf.impa[idxs[k]] == Some(code)
    modifies uf, uf.sets
    ensures uf.Ok() && Linked(uf.variants, uf.View())
    ensures old(Shaped(uf.variants, uf.View())) && CodeSettled(uf.variants, old(uf.View()), uf.View(), idxs, code)
    ensures |Roots(uf.sets.root)| + merges == old(|Roots(uf.sets.root)|)
    ensures forall m :: 0 <= m < |uf.variants| ==> uf.impa[m] == if m in Losers(main, rest, tie) then None
      else old(uf.impa)[m]
    ensures forall m :: 0 <= m < |uf.variants| ==>
      uf.rejected[m] == old(uf.rejected)[m] + if m in Losers(main, rest, tie) then {code} else {}
  {
    HalvesApart(main, rest);
    if tie {
      TakeFromAll(uf, code, idxs, main + rest);
      merges := 0;
    } else {
      merges := KeepGroup(uf, code, idxs, main, rest);
    }
  }

  lemma Verdict(vs: seq<Variant>, score: Scorer, code: Code, idxs: seq<nat>, gs: seq<seq<nat>>, main: seq<nat>,
      rest: seq<nat>, tie: bool, conflict: bool,
                before: seq<Option<Code>>, after: seq<Option<Code>>, rejected: seq<set<Code>>, told: seq<set<Code>>)
    requires |before| == |after| == |rejected| == |told| == |vs| && Indices(vs, idxs) && AllIndices(vs, gs)
    requires NoRepeats(main + rest) && (forall x :: x in idxs <==> x in main + rest)
    requires (conflict <==> rest != []) && (tie ==> conflict)
    requires forall k :: 0 <= k < |idxs| ==> before[idxs[k]] == Some(code)
    requires if tie then forall g: nat :: !StrictlyBest(vs, score, idxs, gs, g)
             else exists w: nat :: StrictlyBest(vs, score, idxs, gs, w) && gs[w] == main
    requires forall m :: 0 <= m < |vs| ==> after[m] == if m in Losers(main, rest, tie) then None else before[m]
    requires forall m :: 0 <= m < |vs| ==> told[m] == rejected[m] + if m in Losers(main, rest, tie) then {code} else {}
    ensures conflict <==> exists m: nat :: m in idxs && m < |vs| && after[m].None?
    ensures forall m :: 0 <= m < |vs| ==> told[m] == rejected[m] + if after[m] != before[m] then {code} else {}
    ensures Decided(vs, score, idxs, gs, after)
  {
    HalvesApart(main, rest);
    forall m: nat | m < |vs| && m in idxs
      ensures before[m] == Some(code) && (after[m].None? <==> m in Losers(main, rest, tie))
    {
    }
    SomeoneLost(idxs, main, rest, after, tie, conflict);
    if !tie {
      BestKeeps(vs, score, idxs, gs, main, rest, after);
    }
  }

  /** A code is in conflict exactly when somebody lost it. */
  lemma SomeoneLost(idxs: seq<nat>, main: seq<nat>, rest: seq<nat>, after: seq<Option<Code>>, tie: bool, conflict: bool)
    requires (forall k :: 0 <= k < |idxs| ==> idxs[k] < |after|) && forall x :: x in idxs <==> x in main + rest
    requires (conflict <==> rest != []) && (tie ==> conflict)
    requires forall m: nat :: m < |after| && m in idxs ==> (after[m].None? <==> tie || m in rest)
    ensures conflict <==> exists m: nat :: m in idxs && m < |after| && after[m].None?
  {
    if conflict {
      assert rest[0] in rest && rest[0] in main + rest;
      var k :| 0 <= k < |idxs| && idxs[k] == rest[0];
    }
  }

  /** A tie takes the code from everyone. */
  method TakeFromAll(uf: C.Clusters, code: Code, ghost idxs: seq<nat>, all: seq<nat>)
    requires uf.Ok() && Linked(uf.variants, uf.View()) && Indices(uf.variants, idxs)
    requires NoRepeats(all) && forall x :: x in idxs <==> x in all
    requires forall k :: 0 <= k < |idxs| ==> Alone(uf.View(), idxs[k]) && uf.impa[idxs[k]] == Some(code)
    modifies uf
    ensures uf.Ok() && Linked(uf.variants, uf.View()) && uf.sets.root == old(uf.sets.root)
    ensures old(Shaped(uf.variants, uf.View())) && CodeSettled(uf.variants, old(uf.View()), uf.View(), idxs, code)
    ensures forall m :: 0 <= m < |uf.variants| ==> uf.impa[m] == if m in idxs then None else old(uf.impa)[m]
    ensures forall m :: 0 <= m < |uf.variants| ==> uf.rejected[m] == old(uf.rejected)[m] + if m in idxs then {code}
      else {}
  {
    ghost var s := uf.View();
    AllAlone(s, idxs, all, code);
    StripAll(uf, all, code);
    AllAloneSettled(uf.variants, s, uf.View(), idxs, all, code);
  }

  lemma NotBothBest(vs: seq<Variant>, score: Scorer, idxs: seq<nat>, gs: seq<seq<nat>>, w: nat, g: nat)
    requires Indices(vs, idxs) && AllIndices(vs, gs) && StrictlyBest(vs, score, idxs, gs, w) && g != w
    ensures !StrictlyBest(vs, score, idxs, gs, g)
  {
    if g < |gs| {
      assert Outranks(vs, score, idxs, gs[w], gs[g]);
      OutranksOneWay(vs, score, idxs, gs[w], gs[g]);
    }
  }

  lemma BestKeeps(vs: seq<Variant>, score: Scorer, idxs: seq<nat>, gs: seq<seq<nat>>, main: seq<nat>, rest: seq<nat>,
      after: seq<Option<Code>>)
    requires Indices(vs, idxs) && AllIndices(vs, gs) && |after| == |vs|
    requires exists w: nat :: StrictlyBest(vs, score, idxs, gs, w) && gs[w] == main
    requires forall x :: x in main ==> x !in rest
    requires forall x :: x in idxs <==> x in main || x in rest
    requires forall m: nat :: m < |vs| && m in idxs ==> (after[m].None? <==> m in rest)
    ensures Decided(vs, score, idxs, gs, after)
  {
    var w: nat :| StrictlyBest(vs, score, idxs, gs, w) && gs[w] == main;
    forall g: nat
      ensures StrictlyBest(vs, score, idxs, gs, g) ==> g == w
    {
      if g != w {
        NotBothBest(vs, score, idxs, gs, w, g);
      }
    }
  }

  /** Takes the code from the rest and joins the group that keeps it. */
  method KeepGroup(uf: C.Clusters, code: Code, ghost idxs: seq<nat>, main: seq<nat>, rest: seq<nat>)
      returns (merges: nat)
    requires uf.Ok() && Linked(uf.variants, uf.View())
    requires Indices(uf.variants, idxs) && main != [] && Indices(uf.variants, main) &&
      Clique(uf.variants, uf.impa, main)
    requires NoRepeats(main) && NoRepeats(rest) && forall x :: x in main ==> x !in rest
    requires forall x :: x in idxs <==> x in main || x in rest
    requires forall k :: 0 <= k < |idxs| ==> Alone(uf.View(), idxs[k]) && uf.impa[idxs[k]] == Some(code)
    modifies uf, uf.sets
    ensures uf.Ok() && Linked(uf.variants, uf.View())
    ensures old(Shaped(uf.variants, uf.View())) && CodeSettled(uf.variants, old(uf.View()), uf.View(), idxs, code)
    ensures |Roots(uf.sets.root)| + merges == old(|Roots(uf.sets.root)|)
    ensures forall m :: 0 <= m < |uf.variants| ==> uf.impa[m] == if m in rest then None else old(uf.impa)[m]
    ensures forall m :: 0 <= m < |uf.variants| ==> uf.rejected[m] == old(uf.rejected)[m] + if m in rest then {code}
      else {}
  {
    ghost var s := uf.View();
    forall k | 0 <= k < |main|
      ensures Alone(s, main[k])
    {
      assert main[k] in idxs;
    }
    forall k | 0 <= k < |rest|
      ensures rest[k] < |uf.variants| && Alone(s, rest[k]) && s.impa[rest[k]] == Some(code)
    {
      assert rest[k] in idxs;
    }
    StripAll(uf, rest, code);
    ghost var mid := uf.View();
    CliqueSurvives(uf.variants, s, mid, main, rest, code);
    merges := JoinGroup(uf, main);
    GroupSettled(uf.variants, s, mid, uf.View(), idxs, main, rest, code);
  }

  lemma AllAlone(s: State, idxs: seq<nat>, all: seq<nat>, code: Code)
    requires |s.impa| == |s.root|
    requires forall k :: 0 <= k < |idxs| ==> idxs[k] < |s.root| && Alone(s, idxs[k]) && s.impa[idxs[k]] == Some(code)
    requires forall x :: x in idxs <==> x in all
    ensures forall k :: 0 <= k < |all| ==> all[k] < |s.root| && Alone(s, all[k]) && s.impa[all[k]] == Some(code)
  {
    forall k | 0 <= k < |all|
      ensures all[k] < |s.root| && Alone(s, all[k]) && s.impa[all[k]] == Some(code)
    {
      assert all[k] in idxs;
    }
  }

  lemma HalvesApart(main: seq<nat>, rest: seq<nat>)
    requires NoRepeats(main + rest)
    ensures NoRepeats(main) && NoRepeats(rest) && forall x :: x in main ==> x !in rest
    ensures forall k :: 0 <= k < |main| ==> main[k] == (main + rest)[k]
    ensures forall k :: 0 <= k < |rest| ==> rest[k] == (main + rest)[k + |main|]
  {
    var all := main + rest;
    assert forall k :: 0 <= k < |main| ==> main[k] == all[k];
    assert forall k :: 0 <= k < |rest| ==> rest[k] == all[k + |main|];
  }

  lemma AllAloneSettled(vs: seq<Variant>, s: State, t: State, idxs: seq<nat>, lost: seq<nat>, code: Code)
    requires Shaped(vs, s) && Shaped(vs, t) && Indices(vs, idxs) && CodeTaken(s, t, lost, code)
    requires forall x :: x in idxs <==> x in lost
    requires forall k :: 0 <= k < |idxs| ==> Alone(s, idxs[k]) && s.impa[idxs[k]] == Some(code)
    ensures CodeSettled(vs, s, t, idxs, code)
  {
    forall m: nat | m < |vs| && m in idxs
      ensures Alone(t, m)
    {
      assert Alone(s, m);
      assert forall x: nat :: x < |vs| && Same(t, x, m) ==> Same(s, x, m);
    }
  }

  lemma CliqueSurvives(vs: seq<Variant>, s: State, t: State, main: seq<nat>, rest: seq<nat>, code: Code)
    requires Shaped(vs, s) && Shaped(vs, t) && Indices(vs, main) && CodeTaken(s, t, rest, code)
    requires forall x :: x in main ==> x !in rest
    requires Clique(vs, s.impa, main) && forall k :: 0 <= k < |main| ==> Alone(s, main[k])
    ensures Clique(vs, t.impa, main) && forall k :: 0 <= k < |main| ==> Alone(t, main[k])
  {
    forall k | 0 <= k < |main|
      ensures Alone(t, main[k])
    {
      assert Alone(s, main[k]);
      assert forall x: nat :: x < |vs| && Same(t, x, main[k]) ==> Same(s, x, main[k]);
    }
    forall a, b | 0 <= a < |main| && 0 <= b < |main|
      ensures !PairBlocked(vs, t.impa, main[a], main[b])
    {
      assert !PairBlocked(vs, s.impa, main[a], main[b]);
      assert t.impa[main[a]] == s.impa[main[a]] && t.impa[main[b]] == s.impa[main[b]];
    }
  }

  lemma GroupSettled(vs: seq<Variant>, s: State, mid: State, t: State, idxs: seq<nat>, main: seq<nat>, rest: seq<nat>,
      code: Code)
    requires Shaped(vs, s) && Shaped(vs, mid) && Shaped(vs, t) && Indices(vs, idxs) && Indices(vs, main) && main != []
    requires CodeTaken(s, mid, rest, code) && Joining(vs, mid, t, main, |main|)
    requires forall x :: x in idxs <==> x in main || x in rest
    requires forall x :: x in main ==> x !in rest
    requires forall k :: 0 <= k < |idxs| ==> Alone(s, idxs[k]) && s.impa[idxs[k]] == Some(code)
    ensures CodeSettled(vs, s, t, idxs, code)
  {
    assert main[..|main|] == main;
    forall m: nat | m < |vs| && m in rest
      ensures Alone(t, m)
    {
      assert m in idxs && Alone(s, m);
      assert m !in main && t.root[m] == m;
      forall x: nat | x < |vs| && Same(t, x, m)
        ensures x == m
      {
        assert Same(t, x, main[0]) <==> x in main;
        assert !Same(t, m, main[0]);
        assert Same(s, x, m);
      }
    }
    assert forall m: nat :: m < |vs| && m in idxs ==> (t.impa[m].Some? <==> m in main);
    forall a: nat, b: nat | a < |vs| && b < |vs| && a in main
      ensures Same(t, a, b) <==> b in main
    {
      assert Same(t, a, main[0]);
      assert Same(t, b, main[0]) <==> b in main;
    }
  }
}
