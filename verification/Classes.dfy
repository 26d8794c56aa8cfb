/** Reading the classes out of a union-find, and classes under a change of order. */
module Classes {
  import opened DisjointSets

  ghost predicate Rising(xs: seq<nat>, n: nat) {
    (forall k :: 0 <= k < |xs| ==> xs[k] < n) && (forall k, l :: 0 <= k < l < |xs| ==> xs[k] < xs[l])
  }

  /** One list of entries of one root. */
  ghost predicate ClassOf(root: seq<nat>, n: nat, group: seq<nat>, r: nat)
    requires n <= |root|
  {
    Rising(group, n) && group != [] && forall i: nat :: i in group <==> i < n && root[i] == r
  }

  /** The first n entries, listed class by class. */
  ghost predicate Listed(root: seq<nat>, n: nat, groups: seq<seq<nat>>, roots: seq<nat>) {
    && n <= |root| && |roots| == |groups|
    && (forall g :: 0 <= g < |groups| ==> ClassOf(root, n, groups[g], roots[g]))
    && (forall g, h :: 0 <= g < h < |groups| ==> roots[g] != roots[h])
    && (forall i: nat :: i < n ==> root[i] in roots)
  }

  /** The groups are the classes: each entry is in exactly one, with the entries of its root. */
  ghost predicate Partition(root: seq<nat>, groups: seq<seq<nat>>) {
    && (forall g {:trigger groups[g]} :: 0 <= g < |groups| ==> Rising(groups[g], |root|) && groups[g] != [])
    && (forall g, h, i: nat, j: nat {:trigger InGroup(groups, g, i), InGroup(groups, h, j)} ::
          InGroup(groups, g, i) && InGroup(groups, h, j) ==>
            i < |root| && j < |root| && (root[i] == root[j] <==> g == h))
    && (forall i: nat {:trigger Grouped(groups, i)} :: i < |root| ==> Grouped(groups, i))
  }

  ghost predicate Grouped(groups: seq<seq<nat>>, i: nat) {
    exists g :: InGroup(groups, g, i)
  }

  predicate InGroup(groups: seq<seq<nat>>, g: int, i: nat) {
    0 <= g < |groups| && i in groups[g]
  }

  /** The groups are the components of the relation. */
  ghost predicate ByComponents(n: nat, rel: (nat, nat) -> bool, groups: seq<seq<nat>>) {
    exists root: seq<nat> :: Components(n, rel, root) && Partition(root, groups)
  }

  /** Each entry, in order, listed under its root. */
  method Gather(sets: Sets) returns (groups: seq<seq<nat>>)
    requires sets.Valid()
    modifies sets`parent
    ensures sets.Valid() && |sets.parent| == old(|sets.parent|)
    ensures Partition(sets.root, groups)
  {
    groups := [];
    ghost var root := sets.root;
    var roots: seq<nat> := [];
    for i := 0 to |sets.parent|
      invariant sets.Valid() && |sets.parent| == old(|sets.parent|) == |root|
      invariant Listed(root, i, groups, roots)
    {
      var r := sets.Find(i);
      var g := Position(roots, r);
      if g < |roots| {
        AddToClass(root, i, groups, roots, g);
        groups := groups[g := groups[g] + [i]];
      } else {
        AddClass(root, i, groups, roots);
        groups, roots := groups + [[i]], roots + [r];
      }
    }
    ListedPartition(root, groups, roots);
  }

  function Position(xs: seq<nat>, x: nat): (k: nat)
    ensures k <= |xs| && (k < |xs| ==> xs[k] == x) && (k == |xs| ==> x !in xs)
  {
    if xs == [] then 0
    else if xs[|xs| - 1] == x then |xs| - 1
    else
      var k := Position(xs[..|xs| - 1], x);
      if k == |xs| - 1 then |xs| else k
  }

  lemma ClassGrows(root: seq<nat>, n: nat, group: seq<nat>, r: nat)
    requires n < |root| && ClassOf(root, n, group, r)
    ensures root[n] == r ==> ClassOf(root, n + 1, group + [n], r)
    ensures root[n] != r ==> ClassOf(root, n + 1, group, r)
  {
    if root[n] == r {
      forall i: nat
        ensures i in group + [n] <==> i < n + 1 && root[i] == r
      {
        assert i in group + [n] <==> i in group || i == n;
      }
    }
  }

  lemma AddToClass(root: seq<nat>, n: nat, groups: seq<seq<nat>>, roots: seq<nat>, g: nat)
    requires n < |root| && Listed(root, n, groups, roots) && g < |roots| && roots[g] == root[n]
    ensures Listed(root, n + 1, groups[g := groups[g] + [n]], roots)
  {
    var next := groups[g := groups[g] + [n]];
    forall h | 0 <= h < |next|
      ensures ClassOf(root, n + 1, next[h], roots[h])
    {
      assert ClassOf(root, n, groups[h], roots[h]);
      assert h != g ==> roots[h] != roots[g];
      ClassGrows(root, n, groups[h], roots[h]);
    }
  }

  lemma AddClass(root: seq<nat>, n: nat, groups: seq<seq<nat>>, roots: seq<nat>)
    requires n < |root| && Listed(root, n, groups, roots) && root[n] !in roots
    ensures Listed(root, n + 1, groups + [[n]], roots + [root[n]])
  {
    var next, names := groups + [[n]], roots + [root[n]];
    forall h | 0 <= h < |next|
      ensures ClassOf(root, n + 1, next[h], names[h])
    {
      if h < |groups| {
        assert ClassOf(root, n, groups[h], roots[h]);
        ClassGrows(root, n, groups[h], roots[h]);
      } else {
        assert forall i: nat :: i < n ==> root[i] in roots;
      }
    }
  }

  lemma ListedPartition(root: seq<nat>, groups: seq<seq<nat>>, roots: seq<nat>)
    requires Listed(root, |root|, groups, roots)
    ensures Partition(root, groups)
  {
    forall g | 0 <= g < |groups|
      ensures Rising(groups[g], |root|) && groups[g] != []
    {
      assert ClassOf(root, |root|, groups[g], roots[g]);
    }
    forall g, h, i: nat, j: nat | InGroup(groups, g, i) && InGroup(groups, h, j)
      ensures i < |root| && j < |root| && (root[i] == root[j] <==> g == h)
    {
      assert ClassOf(root, |root|, groups[g], roots[g]) && ClassOf(root, |root|, groups[h], roots[h]);
    }
    forall i: nat | i < |root|
      ensures Grouped(groups, i)
    {
      var g :| 0 <= g < |roots| && roots[g] == root[i];
      assert ClassOf(root, |root|, groups[g], roots[g]);
      assert InGroup(groups, g, i);
    }
  }

  // Building components edge by edge

  /** Joining two entries that every colouring of the relation joins keeps the table as fine as the relation. */
  lemma MergedFiner(root: seq<nat>, colour: seq<int>, i: nat, j: nat)
    requires RootTable(root) && Finer(root, colour) && i < |root| && j < |root| && colour[i] == colour[j]
    ensures Finer(Merged(root, root[j], root[i]), colour)
  {
    var merged := Merged(root, root[j], root[i]);
    forall a, b | 0 <= a < |root| && 0 <= b < |root| && merged[a] == merged[b]
      ensures colour[a] == colour[b]
    {
      assert RootAt(root, j) && RootAt(root, i);
    }
  }

  lemma ForestTable(parent: seq<nat>, root: seq<nat>, depth: seq<nat>)
    requires Forest(parent, root, depth)
    ensures RootTable(root)
  {
    forall i | 0 <= i < |root|
      ensures RootAt(root, i)
    {
      assert ForestAt(parent, root, depth, i);
    }
  }

  /** Nothing is joined that the relation does not force. */
  ghost predicate Forced(n: nat, rel: (nat, nat) -> bool, root: seq<nat>) {
    |root| == n && forall colour: seq<int> | |colour| == n && Respects(rel, colour) :: Finer(root, colour)
  }

  lemma ForcedMerged(n: nat, rel: (nat, nat) -> bool, root: seq<nat>, i: nat, j: nat)
    requires RootTable(root) && Forced(n, rel, root) && i < n && j < n && (rel(i, j) || rel(j, i))
    ensures Forced(n, rel, Merged(root, root[j], root[i]))
  {
    forall colour: seq<int> | |colour| == n && Respects(rel, colour)
      ensures Finer(Merged(root, root[j], root[i]), colour)
    {
      MergedFiner(root, colour, i, j);
    }
  }

  // The same entries in another order

  /** Position i of the one order is position p[i] of the other. */
  ghost predicate Reorders(p: seq<nat>, n: nat) {
    |p| == n && (forall i :: 0 <= i < n ==> p[i] < n) && (forall i, j :: 0 <= i < j < n ==> p[i] != p[j])
      && (forall k: nat :: k < n ==> k in p)
  }

  lemma ReorderedFiner(n: nat, p: seq<nat>, rel: (nat, nat) -> bool, root: seq<nat>, moved: (nat, nat) -> bool,
      other: seq<nat>, i: nat, j: nat)
    requires Reorders(p, n) && Components(n, rel, root) && Components(n, moved, other)
    requires forall a: nat, b: nat :: a < n && b < n && moved(a, b) ==> rel(p[a], p[b])
    requires i < n && j < n && other[i] == other[j]
    ensures root[p[i]] == root[p[j]]
  {
    var there := seq(n, a requires 0 <= a < n => root[p[a]]);
    forall a: nat, b: nat | a < n && b < n && moved(a, b)
      ensures there[a] == there[b]
    {
      assert rel(p[a], p[b]);
    }
    assert Respects(moved, there);
    assert Finer(other, there);
  }

  /** Components do not depend on the order the entries come in. */
  lemma ComponentsReordered(n: nat, p: seq<nat>, rel: (nat, nat) -> bool, root: seq<nat>, moved: (nat, nat) -> bool,
      other: seq<nat>, i: nat, j: nat)
    requires Reorders(p, n) && Components(n, rel, root) && Components(n, moved, other)
    requires forall a: nat, b: nat :: a < n && b < n ==> (moved(a, b) <==> rel(p[a], p[b]))
    requires i < n && j < n
    ensures other[i] == other[j] <==> root[p[i]] == root[p[j]]
  {
    if other[i] == other[j] {
      ReorderedFiner(n, p, rel, root, moved, other, i, j);
    } else if root[p[i]] == root[p[j]] {
      var back := Backwards(p, n);
      forall a: nat, b: nat | a < n && b < n && rel(a, b)
        ensures moved(back[a], back[b])
      {
        assert p[back[a]] == a && p[back[b]] == b;
      }
      ReorderedFiner(n, back, moved, other, rel, root, p[i], p[j]);
    }
  }

  /** The way back. */
  lemma Backwards(p: seq<nat>, n: nat) returns (back: seq<nat>)
    requires Reorders(p, n)
    ensures Reorders(back, n)
    ensures forall k: nat :: k < n ==> p[back[k]] == k && back[p[k]] == k
  {
    back := seq(n, k requires 0 <= k < n => Place(p, n, k));
    forall k: nat | k < n
      ensures back[p[k]] == k && k in back
    {
      assert back[p[k]] == Place(p, n, p[k]);
    }
  }

  ghost function Place(p: seq<nat>, n: nat, k: nat): (i: nat)
    requires Reorders(p, n) && k < n
    ensures i < n && p[i] == k
  {
    assert k in p;
    var i: nat :| i < |p| && p[i] == k;
    i
  }
}
