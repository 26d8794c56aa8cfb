/** Revision labels: every chain of two or more is numbered in order under a key of its own. */
module Revisions {
  import opened Wrappers
  import opened DisjointSets
  import opened Classes
  import opened Chains

  // All chains, in the terms of all records

  /** The entries at these positions. */
  function Picked<T>(xs: seq<T>, at: seq<nat>): (r: seq<T>)
    requires Within(at, |xs|)
    ensures |r| == |at| && forall k :: 0 <= k < |r| ==> r[k] == xs[at[k]]
  {
    seq(|at|, k requires 0 <= k < |at| => xs[at[k]])
  }

  predicate Within(xs: seq<nat>, n: nat) {
    forall k :: 0 <= k < |xs| ==> xs[k] < n
  }

  /** Two records of one number group that belong in one chain. */
  ghost predicate Chained(records: seq<Filed>, keptAs: map<nat, nat>, root: seq<nat>, i: nat, j: nat) {
    i < |root| && j < |root| && root[i] == root[j] && Join(records, keptAs, i, j)
  }

  ghost function ChainedWith(records: seq<Filed>, keptAs: map<nat, nat>, root: seq<nat>): (nat, nat) -> bool {
    (i: nat, j: nat) => Chained(records, keptAs, root, i, j)
  }

  /** A group's part of the table of chains: the roots of its own split, as records. */
  ghost predicate SplitBy(records: seq<Filed>, keptAs: map<nat, nat>, group: seq<nat>, table: seq<nat>,
      local: seq<nat>) {
    && |table| == |records| && Within(group, |records|) && |local| == |group|
    && Components(|group|, Joins(Picked(records, group), keptAs), local)
    && forall a: nat :: a < |group| ==> local[a] < |group| && table[group[a]] == group[local[a]]
  }

  ghost predicate HasSplit(records: seq<Filed>, keptAs: map<nat, nat>, group: seq<nat>, table: seq<nat>) {
    exists local: seq<nat> :: SplitBy(records, keptAs, group, table, local)
  }

  /** With every group split, the table holds the components of belonging in one chain. */
  lemma TableComponents(records: seq<Filed>, keptAs: map<nat, nat>, root: seq<nat>, groups: seq<seq<nat>>,
      table: seq<nat>)
    requires |root| == |records| == |table| && Partition(root, groups)
    requires forall g {:trigger groups[g]} :: 0 <= g < |groups| ==> HasSplit(records, keptAs, groups[g], table)
    ensures Components(|records|, ChainedWith(records, keptAs, root), table)
  {
    forall i: nat, j: nat | i < |table| && j < |table| && ChainedWith(records, keptAs, root)(i, j)
      ensures table[i] == table[j]
    {
      assert Chained(records, keptAs, root, i, j);
      ChainedTogether(records, keptAs, root, groups, table, i, j);
    }
    forall colour: seq<int> | |colour| == |records| && Respects(ChainedWith(records, keptAs, root), colour)
      ensures Finer(table, colour)
    {
      forall i, j | 0 <= i < |table| && 0 <= j < |table| && table[i] == table[j]
        ensures colour[i] == colour[j]
      {
        TogetherForced(records, keptAs, root, groups, table, colour, i, j);
      }
    }
  }

  lemma ChainedTogether(records: seq<Filed>, keptAs: map<nat, nat>, root: seq<nat>, groups: seq<seq<nat>>,
      table: seq<nat>, i: nat, j: nat)
    requires |root| == |records| == |table| && Partition(root, groups)
    requires forall g {:trigger groups[g]} :: 0 <= g < |groups| ==> HasSplit(records, keptAs, groups[g], table)
    requires Chained(records, keptAs, root, i, j)
    ensures table[i] == table[j]
  {
    assert Grouped(groups, i) && Grouped(groups, j);
    var g :| InGroup(groups, g, i);
    var h :| InGroup(groups, h, j);
    assert g == h;
    var group := groups[g];
    assert HasSplit(records, keptAs, group, table);
    var local: seq<nat> :| SplitBy(records, keptAs, group, table, local);
    var a: nat :| a < |group| && group[a] == i;
    var b: nat :| b < |group| && group[b] == j;
    assert Join(Picked(records, group), keptAs, a, b);
    assert Joins(Picked(records, group), keptAs)(a, b);
    assert local[a] == local[b];
  }

  lemma TogetherForced(records: seq<Filed>, keptAs: map<nat, nat>, root: seq<nat>, groups: seq<seq<nat>>,
      table: seq<nat>, colour: seq<int>, i: nat, j: nat)
    requires |root| == |records| == |table| == |colour| && Partition(root, groups)
    requires forall g {:trigger groups[g]} :: 0 <= g < |groups| ==> HasSplit(records, keptAs, groups[g], table)
    requires Respects(ChainedWith(records, keptAs, root), colour)
    requires i < |table| && j < |table| && table[i] == table[j]
    ensures colour[i] == colour[j]
  {
    var g, a, b, local := BothIn(records, keptAs, root, groups, table, i, j);
    var group := groups[g];
    var there := seq(|group|, k requires 0 <= k < |group| => colour[group[k]]);
    Restricted(records, keptAs, root, groups, colour, g, there);
    assert Finer(local, there);
  }

  lemma BothIn(records: seq<Filed>, keptAs: map<nat, nat>, root: seq<nat>, groups: seq<seq<nat>>, table: seq<nat>,
      i: nat, j: nat)
    returns (g: nat, a: nat, b: nat, local: seq<nat>)
    requires |root| == |records| == |table| && Partition(root, groups)
    requires forall g {:trigger groups[g]} :: 0 <= g < |groups| ==> HasSplit(records, keptAs, groups[g], table)
    requires i < |table| && j < |table| && table[i] == table[j]
    ensures g < |groups| && SplitBy(records, keptAs, groups[g], table, local)
    ensures a < |groups[g]| && b < |groups[g]| && groups[g][a] == i && groups[g][b] == j && local[a] == local[b]
  {
    assert Grouped(groups, i) && Grouped(groups, j);
    g :| InGroup(groups, g, i);
    var h: nat :| InGroup(groups, h, j);
    a, local := PlaceIn(records, keptAs, groups, table, g, i);
    var other;
    b, other := PlaceIn(records, keptAs, groups, table, h, j);
    assert InGroup(groups, g, table[i]) && InGroup(groups, h, table[j]);
    assert g == h;
    SameLocal(records, keptAs, groups[g], table, local, other, a, b);
  }

  /** A colouring that respects the chains respects them inside each group. */
  lemma Restricted(records: seq<Filed>, keptAs: map<nat, nat>, root: seq<nat>, groups: seq<seq<nat>>,
      colour: seq<int>, g: nat, there: seq<int>)
    requires |root| == |records| == |colour| && Partition(root, groups) && g < |groups| && Within(groups[g], |records|)
    requires Respects(ChainedWith(records, keptAs, root), colour)
    requires |there| == |groups[g]| && forall k :: 0 <= k < |there| ==> there[k] == colour[groups[g][k]]
    ensures Respects(Joins(Picked(records, groups[g]), keptAs), there)
  {
    var group := groups[g];
    forall x: nat, y: nat | x < |group| && y < |group| && Joins(Picked(records, group), keptAs)(x, y)
      ensures there[x] == there[y]
    {
      assert Join(Picked(records, group), keptAs, x, y);
      assert InGroup(groups, g, group[x]) && InGroup(groups, g, group[y]);
      assert Chained(records, keptAs, root, group[x], group[y]);
      assert ChainedWith(records, keptAs, root)(group[x], group[y]);
    }
  }

  lemma PlaceIn(records: seq<Filed>, keptAs: map<nat, nat>, groups: seq<seq<nat>>, table: seq<nat>, g: nat, i: nat)
      returns (a: nat, local: seq<nat>)
    requires InGroup(groups, g, i) && HasSplit(records, keptAs, groups[g], table)
    ensures SplitBy(records, keptAs, groups[g], table, local)
    ensures a < |groups[g]| && groups[g][a] == i && table[i] in groups[g]
  {
    local :| SplitBy(records, keptAs, groups[g], table, local);
    a :| a < |groups[g]| && groups[g][a] == i;
  }

  lemma SameLocal(records: seq<Filed>, keptAs: map<nat, nat>, group: seq<nat>, table: seq<nat>, local: seq<nat>,
      other: seq<nat>, a: nat, b: nat)
    requires SplitBy(records, keptAs, group, table, local) && SplitBy(records, keptAs, group, table, other)
    requires a < |group| && b < |group| && table[group[a]] == table[group[b]] && Rising(group, |records|)
    ensures local[a] == local[b]
  {
    assert group[local[a]] == group[local[b]];
  }

  /** A revision sheet stands in the chain of the record its workbook bound it to exactly when both
      are in one number group: another year, say, parts them. */
  lemma BoundSheetJoins(records: seq<Filed>, keptAs: map<nat, nat>, root: seq<nat>, table: seq<nat>, i: nat, j: nat)
    requires |root| == |records| && Components(|records|, ChainedWith(records, keptAs, root), table)
    requires i < |records| && j < |records| && Target(records[i], keptAs) == Some(records[j].id)
    ensures table[i] == table[j] <==> root[i] == root[j]
  {
    var colour: seq<int> := root;
    forall a: nat, b: nat | a < |colour| && b < |colour| && ChainedWith(records, keptAs, root)(a, b)
      ensures colour[a] == colour[b]
    {
      assert Chained(records, keptAs, root, a, b);
    }
    assert Respects(ChainedWith(records, keptAs, root), colour);
    assert Finer(table, colour);
    if root[i] == root[j] {
      assert Chained(records, keptAs, root, i, j);
      assert ChainedWith(records, keptAs, root)(i, j);
    }
  }

  // Splitting the groups one after the other

  /** The chains found in the first n groups: each in one group, with the members of one entry of the table. */
  ghost predicate Found(table: seq<nat>, groups: seq<seq<nat>>, n: nat, chains: seq<seq<nat>>, tags: seq<nat>) {
    && n <= |groups| && |tags| == |chains|
    && (forall c {:trigger chains[c]} :: 0 <= c < |chains| ==> chains[c] != [] && Rising(chains[c], |table|))
    && (forall c, i: nat {:trigger InGroup(chains, c, i)} :: InGroup(chains, c, i) ==>
      i < |table| && tags[c] < n && InGroup(groups, tags[c], i))
    && (forall c, d, i: nat, j: nat {:trigger InGroup(chains, c, i), InGroup(chains, d, j)} ::
          InGroup(chains, c, i) && InGroup(chains, d, j) ==>
            i < |table| && j < |table| && (table[i] == table[j] <==> c == d))
    && (forall g: nat, i: nat {:trigger InGroup(groups, g, i)} :: g < n && InGroup(groups, g, i) ==> Grouped(chains, i))
    && (forall c, d :: 0 <= c < d < |tags| ==> tags[c] <= tags[d])
  }

  function Place(group: seq<nat>, i: nat): (a: nat)
    requires i in group
    ensures a < |group| && group[a] == i
  {
    if group[|group| - 1] == i then |group| - 1 else Place(group[..|group| - 1], i)
  }

  /** The table with one group's roots entered. */
  ghost function Entered(table: seq<nat>, group: seq<nat>, local: seq<nat>): (r: seq<nat>)
    requires |local| == |group| && forall a :: 0 <= a < |local| ==> local[a] < |group|
    ensures |r| == |table|
    ensures forall i: nat :: i < |table| ==> r[i] == if i in group then group[local[Place(group, i)]] else table[i]
  {
    seq(|table|, i requires 0 <= i < |table| => if i in group then group[local[Place(group, i)]] else table[i])
  }

  lemma EnteredSplits(records: seq<Filed>, keptAs: map<nat, nat>, table: seq<nat>, group: seq<nat>, local: seq<nat>)
    requires |table| == |records| && Rising(group, |records|) && |local| == |group|
    requires Components(|group|, Joins(Picked(records, group), keptAs), local)
    requires forall a :: 0 <= a < |local| ==> local[a] < |group|
    ensures SplitBy(records, keptAs, group, Entered(table, group, local), local)
  {
    var next := Entered(table, group, local);
    forall a: nat | a < |group|
      ensures next[group[a]] == group[local[a]]
    {
      assert group[a] in group;
      var b := Place(group, group[a]);
      assert b == a;
    }
  }

  lemma EnteredKeeps(records: seq<Filed>, keptAs: map<nat, nat>, table: seq<nat>, group: seq<nat>, local: seq<nat>,
      earlier: seq<nat>)
    requires |local| == |group| && forall a :: 0 <= a < |local| ==> local[a] < |group|
    requires HasSplit(records, keptAs, earlier, table) && forall i :: i in earlier ==> i !in group
    ensures HasSplit(records, keptAs, earlier, Entered(table, group, local))
  {
    var was: seq<nat> :| SplitBy(records, keptAs, earlier, table, was);
    assert SplitBy(records, keptAs, earlier, Entered(table, group, local), was);
  }

  /** The chains of every number group, a group's together, with the group of each. */
  method SplitGroups(records: seq<Filed>, keptAs: map<nat, nat>, groups: seq<seq<nat>>, ghost root: seq<nat>)
    returns (chains: seq<seq<nat>>, tags: seq<nat>, ghost table: seq<nat>)
    requires DistinctIds(records) && |root| == |records| && Partition(root, groups)
    ensures |table| == |records|
    ensures forall g {:trigger groups[g]} :: 0 <= g < |groups| ==> HasSplit(records, keptAs, groups[g], table)
    ensures Found(table, groups, |groups|, chains, tags)
  {
    chains, tags, table := [], [], seq(|records|, _ => 0);
    for g := 0 to |groups|
      invariant |table| == |records|
      invariant forall h {:trigger groups[h]} :: 0 <= h < g ==> HasSplit(records, keptAs, groups[h], table)
      invariant Found(table, groups, g, chains, tags)
    {
      chains, tags, table := SplitGroup(records, keptAs, groups, root, g, chains, tags, table);
    }
  }

  method SplitGroup(records: seq<Filed>, keptAs: map<nat, nat>, groups: seq<seq<nat>>, ghost root: seq<nat>, g: nat,
      chains: seq<seq<nat>>, tags: seq<nat>, ghost table: seq<nat>)
    returns (more: seq<seq<nat>>, moreTags: seq<nat>, ghost next: seq<nat>)
    requires DistinctIds(records) && |root| == |records| == |table| && Partition(root, groups) && g < |groups|
    requires forall h {:trigger groups[h]} :: 0 <= h < g ==> HasSplit(records, keptAs, groups[h], table)
    requires Found(table, groups, g, chains, tags)
    ensures |next| == |records|
    ensures forall h {:trigger groups[h]} :: 0 <= h < g + 1 ==> HasSplit(records, keptAs, groups[h], next)
    ensures Found(next, groups, g + 1, more, moreTags)
  {
    var group := groups[g];
    var sub := Picked(records, group);
    PickedDistinct(records, group);
    var local;
    ghost var roots;
    local, roots := Split(sub, keptAs);
    PartitionWithin(roots, local);
    var mapped := seq(|local|, c requires 0 <= c < |local| => Picked(group, local[c]));
    more, moreTags := chains + mapped, tags + seq(|mapped|, _ => g);
    next := OneMoreSplit(records, keptAs, groups, root, g, chains, tags, table, local, roots, mapped);
  }

  lemma OneMoreSplit(records: seq<Filed>, keptAs: map<nat, nat>, groups: seq<seq<nat>>, root: seq<nat>, g: nat,
      chains: seq<seq<nat>>, tags: seq<nat>, table: seq<nat>,
                     local: seq<seq<nat>>, roots: seq<nat>, mapped: seq<seq<nat>>) returns (next: seq<nat>)
    requires |root| == |records| == |table| && Partition(root, groups) && g < |groups|
    requires forall h {:trigger groups[h]} :: 0 <= h < g ==> HasSplit(records, keptAs, groups[h], table)
    requires Found(table, groups, g, chains, tags)
    requires Within(groups[g], |records|)
    requires Components(|groups[g]|, Joins(Picked(records, groups[g]), keptAs), roots) && RootTable(roots) &&
      Partition(roots, local)
    requires |mapped| == |local| && forall d :: 0 <= d < |local| ==>
      Within(local[d], |groups[g]|) && mapped[d] == Picked(groups[g], local[d])
    ensures |next| == |records|
    ensures forall h {:trigger groups[h]} :: 0 <= h < g + 1 ==> HasSplit(records, keptAs, groups[h], next)
    ensures Found(next, groups, g + 1, chains + mapped, tags + seq(|mapped|, _ => g))
  {
    RootsWithin(roots);
    next := Entered(table, groups[g], roots);
    SplitsGrow(records, keptAs, groups, root, g, table, roots);
    TableStays(records, keptAs, groups, g, table);
    EnteredSplits(records, keptAs, table, groups[g], roots);
    FoundGrows(table, next, groups, root, g, chains, tags, local, roots, mapped);
  }

  lemma SplitsGrow(records: seq<Filed>, keptAs: map<nat, nat>, groups: seq<seq<nat>>, root: seq<nat>, g: nat,
      table: seq<nat>, roots: seq<nat>)
    requires |root| == |records| == |table| && Partition(root, groups) && g < |groups|
    requires forall h {:trigger groups[h]} :: 0 <= h < g ==> HasSplit(records, keptAs, groups[h], table)
    requires Within(groups[g], |records|) && |roots| == |groups[g]| && forall a :: 0 <= a < |roots| ==>
      roots[a] < |roots|
    requires Components(|groups[g]|, Joins(Picked(records, groups[g]), keptAs), roots)
    ensures forall h {:trigger groups[h]} :: 0 <= h < g + 1 ==>
      HasSplit(records, keptAs, groups[h], Entered(table, groups[g], roots))
  {
    Apart(root, groups, g);
    forall h {:trigger groups[h]} | 0 <= h < g + 1
      ensures HasSplit(records, keptAs, groups[h], Entered(table, groups[g], roots))
    {
      if h < g {
        EnteredKeeps(records, keptAs, table, groups[g], roots, groups[h]);
      } else {
        EnteredSplits(records, keptAs, table, groups[g], roots);
      }
    }
  }

  lemma PickedDistinct(records: seq<Filed>, group: seq<nat>)
    requires DistinctIds(records) && Rising(group, |records|)
    ensures DistinctIds(Picked(records, group))
  {
  }

  lemma RootsWithin(root: seq<nat>)
    requires RootTable(root)
    ensures forall a :: 0 <= a < |root| ==> root[a] < |root|
  {
    forall a | 0 <= a < |root|
      ensures root[a] < |root|
    {
      assert RootAt(root, a);
    }
  }

  lemma PartitionWithin(root: seq<nat>, groups: seq<seq<nat>>)
    requires Partition(root, groups)
    ensures forall g {:trigger groups[g]} :: 0 <= g < |groups| ==> Within(groups[g], |root|)
  {
  }

  lemma Apart(root: seq<nat>, groups: seq<seq<nat>>, g: nat)
    requires Partition(root, groups) && g < |groups|
    ensures forall h, i: nat {:trigger InGroup(groups, h, i)} :: 0 <= h < g && InGroup(groups, h, i) ==> i !in groups[g]
    ensures forall h {:trigger groups[h]} :: 0 <= h < g ==> forall i :: i in groups[h] ==> i !in groups[g]
  {
    forall h, i: nat | 0 <= h < g && InGroup(groups, h, i)
      ensures i !in groups[g]
    {
      if i in groups[g] {
        assert InGroup(groups, g, i);
      }
    }
    forall h {:trigger groups[h]} | 0 <= h < g
      ensures forall i :: i in groups[h] ==> i !in groups[g]
    {
      assert forall i :: i in groups[h] ==> InGroup(groups, h, i);
    }
  }

  /** The table keeps each split group's records in the group. */
  ghost predicate StaysIn(groups: seq<seq<nat>>, n: nat, table: seq<nat>) {
    forall h: nat, i: nat {:trigger InGroup(groups, h, i)} :: h < n && InGroup(groups, h, i) ==>
      i < |table| && table[i] in groups[h]
  }

  lemma TableStays(records: seq<Filed>, keptAs: map<nat, nat>, groups: seq<seq<nat>>, n: nat, table: seq<nat>)
    requires n <= |groups| && forall h {:trigger groups[h]} :: 0 <= h < n ==>
      HasSplit(records, keptAs, groups[h], table)
    ensures StaysIn(groups, n, table)
  {
    forall h: nat, i: nat | h < n && InGroup(groups, h, i)
      ensures i < |table| && table[i] in groups[h]
    {
      assert HasSplit(records, keptAs, groups[h], table);
      var a, local := PlaceIn(records, keptAs, groups, table, h, i);
    }
  }

  lemma RisingPicked(group: seq<nat>, chain: seq<nat>, n: nat)
    requires Rising(group, n) && Rising(chain, |group|)
    ensures Rising(Picked(group, chain), n)
  {
  }

  /** Where a record of a mapped chain comes from. */
  lemma Unmapped(group: seq<nat>, local: seq<seq<nat>>, mapped: seq<seq<nat>>, c: nat, i: nat) returns (a: nat)
    requires |mapped| == |local| && forall d :: 0 <= d < |local| ==>
      Within(local[d], |group|) && mapped[d] == Picked(group, local[d])
    requires InGroup(mapped, c, i)
    ensures a < |group| && InGroup(local, c, a) && group[a] == i
  {
    var k :| 0 <= k < |mapped[c]| && mapped[c][k] == i;
    a := local[c][k];
  }

  lemma FoundGrows(table: seq<nat>, next: seq<nat>, groups: seq<seq<nat>>, root: seq<nat>, g: nat,
      chains: seq<seq<nat>>, tags: seq<nat>,
                   local: seq<seq<nat>>, roots: seq<nat>, mapped: seq<seq<nat>>)
    requires |table| == |next| == |root| && Partition(root, groups) && g < |groups| &&
      Found(table, groups, g, chains, tags)
    requires |roots| == |groups[g]| && Partition(roots, local)
    requires |mapped| == |local| && forall d :: 0 <= d < |local| ==>
      Within(local[d], |groups[g]|) && mapped[d] == Picked(groups[g], local[d])
    requires forall i :: 0 <= i < |next| && i !in groups[g] ==> next[i] == table[i]
    requires forall a :: 0 <= a < |roots| ==>
      roots[a] < |roots| && groups[g][a] < |next| && next[groups[g][a]] == groups[g][roots[a]]
    requires StaysIn(groups, g, table)
    ensures Found(next, groups, g + 1, chains + mapped, tags + seq(|mapped|, _ => g))
  {
    var more, moreTags := chains + mapped, tags + seq(|mapped|, _ => g);
    forall c {:trigger more[c]} | 0 <= c < |more|
      ensures more[c] != [] && Rising(more[c], |next|)
    {
      if c >= |chains| {
        assert local[c - |chains|] != [];
        RisingPicked(groups[g], local[c - |chains|], |next|);
      }
    }
    forall c, i: nat {:trigger InGroup(more, c, i)} | InGroup(more, c, i)
      ensures i < |next| && moreTags[c] < g + 1 && InGroup(groups, moreTags[c], i)
    {
      if c < |chains| {
        assert InGroup(chains, c, i);
      } else {
        assert InGroup(mapped, c - |chains|, i);
        var a := Unmapped(groups[g], local, mapped, c - |chains|, i);
      }
    }
    forall c, d, i: nat, j: nat {:trigger InGroup(more, c, i), InGroup(more, d, j)} | InGroup(more, c, i) &&
      InGroup(more, d, j)
      ensures i < |next| && j < |next| && (next[i] == next[j] <==> c == d)
    {
      SameFound(table, next, groups, root, g, chains, tags, local, roots, mapped, c, d, i, j);
    }
    forall c, d | 0 <= c < d < |moreTags|
      ensures moreTags[c] <= moreTags[d]
    {
      if c < |chains| <= d {
        assert chains[c] != [] && InGroup(chains, c, chains[c][0]);
      }
    }
    forall h: nat, i: nat {:trigger InGroup(groups, h, i)} | h < g + 1 && InGroup(groups, h, i)
      ensures Grouped(more, i)
    {
      if h < g {
        assert Grouped(chains, i);
        var c :| InGroup(chains, c, i);
        assert InGroup(more, c, i);
      } else {
        var a: nat :| a < |groups[g]| && groups[g][a] == i;
        assert Grouped(local, a);
        var c :| InGroup(local, c, a);
        var k :| 0 <= k < |local[c]| && local[c][k] == a;
        assert mapped[c][k] == i;
        assert InGroup(more, |chains| + c, i);
      }
    }
  }

  lemma SameFound(table: seq<nat>, next: seq<nat>, groups: seq<seq<nat>>, root: seq<nat>, g: nat,
      chains: seq<seq<nat>>, tags: seq<nat>,
                  local: seq<seq<nat>>, roots: seq<nat>, mapped: seq<seq<nat>>, c: int, d: int, i: nat, j: nat)
    requires |table| == |next| == |root| && Partition(root, groups) && g < |groups| &&
      Found(table, groups, g, chains, tags)
    requires |roots| == |groups[g]| && Partition(roots, local)
    requires |mapped| == |local| && forall d :: 0 <= d < |local| ==>
      Within(local[d], |groups[g]|) && mapped[d] == Picked(groups[g], local[d])
    requires forall i :: 0 <= i < |next| && i !in groups[g] ==> next[i] == table[i]
    requires forall a :: 0 <= a < |roots| ==>
      roots[a] < |roots| && groups[g][a] < |next| && next[groups[g][a]] == groups[g][roots[a]]
    requires StaysIn(groups, g, table)
    requires InGroup(chains + mapped, c, i) && InGroup(chains + mapped, d, j)
    ensures i < |next| && j < |next| && (next[i] == next[j] <==> c == d)
  {
    if c < |chains| && d < |chains| {
      assert InGroup(chains, c, i) && InGroup(chains, d, j);
      OldStays(table, next, groups, root, g, chains, tags, c, i);
      OldStays(table, next, groups, root, g, chains, tags, d, j);
    } else if c < |chains| {
      OldStays(table, next, groups, root, g, chains, tags, c, i);
      var b := Unmapped(groups[g], local, mapped, d - |chains|, j);
      assert next[j] in groups[g];
    } else if d < |chains| {
      OldStays(table, next, groups, root, g, chains, tags, d, j);
      var a := Unmapped(groups[g], local, mapped, c - |chains|, i);
      assert next[i] in groups[g];
    } else {
      var a := Unmapped(groups[g], local, mapped, c - |chains|, i);
      var b := Unmapped(groups[g], local, mapped, d - |chains|, j);
      assert roots[a] == roots[b] <==> c == d;
      Injective(groups[g], |table|, roots[a], roots[b]);
    }
  }

  lemma Injective(group: seq<nat>, n: nat, a: nat, b: nat)
    requires Rising(group, n) && a < |group| && b < |group|
    ensures group[a] == group[b] <==> a == b
  {
  }

  lemma OldStays(table: seq<nat>, next: seq<nat>, groups: seq<seq<nat>>, root: seq<nat>, g: nat,
      chains: seq<seq<nat>>, tags: seq<nat>, c: int, i: nat)
    requires |table| == |next| == |root| && Partition(root, groups) && g < |groups| &&
      Found(table, groups, g, chains, tags)
    requires forall i :: 0 <= i < |next| && i !in groups[g] ==> next[i] == table[i]
    requires StaysIn(groups, g, table) && InGroup(chains, c, i)
    ensures i < |next| && next[i] == table[i] && next[i] !in groups[g]
  {
    Apart(root, groups, g);
    assert InGroup(groups, tags[c], i);
    assert InGroup(groups, tags[c], table[i]);
  }
}
