/** The union-find that the product clustering, the number groups and the revision chains all
    carry: a list of parents, read through a find that halves every path it walks. */
module DisjointSets {

  /** `root` and `depth` witness that the parents form a forest: following parents from i ends
      at root[i], because every step strictly lowers the depth. */
  ghost predicate Forest(parent: seq<nat>, root: seq<nat>, depth: seq<nat>) {
    && |root| == |parent|
    && |depth| == |parent|
    && forall i {:trigger ForestAt(parent, root, depth, i)} :: 0 <= i < |parent| ==> ForestAt(parent, root, depth, i)
  }

  ghost predicate ForestAt(parent: seq<nat>, root: seq<nat>, depth: seq<nat>, i: nat)
    requires i < |parent| == |root| == |depth|
  {
    && parent[i] < |parent|
    && root[i] < |root|
    && (parent[i] == i <==> root[i] == i)
    && root[root[i]] == root[i]
    && root[parent[i]] == root[i]
    && (parent[i] != i ==> depth[parent[i]] < depth[i])
  }

  /** A root table: each entry names its class by a member that names itself. */
  ghost predicate RootTable(root: seq<nat>) {
    forall i {:trigger RootAt(root, i)} :: 0 <= i < |root| ==> RootAt(root, i)
  }

  ghost predicate RootAt(root: seq<nat>, i: nat)
    requires i < |root|
  {
    root[i] < |root| && root[root[i]] == root[i]
  }

  /** The root table after the class of `gone` joins the class of `keep`. */
  ghost function Merged(root: seq<nat>, keep: nat, gone: nat): (merged: seq<nat>)
    ensures |merged| == |root|
  {
    seq(|root|, k requires 0 <= k < |root| => if root[k] == gone then keep else root[k])
  }

  /** The classes: one root each. */
  ghost function Roots(root: seq<nat>): set<nat> {
    set r | 0 <= r < |root| && root[r] == r
  }

  /** Joining two classes leaves exactly one class fewer. */
  lemma MergedRoots(root: seq<nat>, keep: nat, gone: nat)
    requires RootTable(root)
    requires keep in Roots(root) && gone in Roots(root) && keep != gone
    ensures RootTable(Merged(root, keep, gone))
    ensures Roots(Merged(root, keep, gone)) == Roots(root) - {gone}
    ensures |Roots(Merged(root, keep, gone))| == |Roots(root)| - 1
  {
    var merged := Merged(root, keep, gone);
    forall i | 0 <= i < |merged|
      ensures RootAt(merged, i)
    {
      assert RootAt(root, i);
    }
    assert Roots(merged) == Roots(root) - {gone} by {
      forall r | r in Roots(merged)
        ensures r in Roots(root) - {gone}
      {
        assert RootAt(root, r);
      }
    }
  }

  /** Path halving keeps the forest: the grandparent is nearer the same root. */
  lemma HalvedForest(parent: seq<nat>, root: seq<nat>, depth: seq<nat>, i: nat)
    requires Forest(parent, root, depth) && i < |parent| && parent[i] != i
    ensures parent[i] < |parent| && parent[parent[i]] < |parent|
    ensures Forest(parent[i := parent[parent[i]]], root, depth)
    ensures depth[parent[parent[i]]] < depth[i] && root[parent[parent[i]]] == root[i]
  {
    assert ForestAt(parent, root, depth, i) && ForestAt(parent, root, depth, parent[i]);
    var halved := parent[i := parent[parent[i]]];
    forall k | 0 <= k < |halved|
      ensures ForestAt(halved, root, depth, k)
    {
      assert ForestAt(parent, root, depth, k);
    }
  }

  ghost function Deepened(root: seq<nat>, depth: seq<nat>, keep: nat, gone: nat): (deeper: seq<nat>)
    requires |depth| == |root| && keep < |depth|
    ensures |deeper| == |depth|
  {
    seq(|depth|, k requires 0 <= k < |depth| =>
      if root[k] == gone && gone != keep then depth[k] + depth[keep] + 1 else depth[k])
  }

  /** Hanging one root under another keeps the forest and joins exactly those two classes. */
  lemma HungForest(parent: seq<nat>, root: seq<nat>, depth: seq<nat>, gone: nat, keep: nat)
    requires Forest(parent, root, depth) && gone < |parent| && keep < |parent|
    requires root[gone] == gone && root[keep] == keep
    ensures Forest(parent[gone := keep], Merged(root, keep, gone), Deepened(root, depth, keep, gone))
  {
    var hung, merged, deeper := parent[gone := keep], Merged(root, keep, gone), Deepened(root, depth, keep, gone);
    forall k | 0 <= k < |parent|
      ensures ForestAt(hung, merged, deeper, k)
    {
      assert ForestAt(parent, root, depth, k) && ForestAt(parent, root, depth, keep);
    }
  }

  class Sets {
    var parent: seq<nat>
    ghost var root: seq<nat>
    ghost var depth: seq<nat>

    ghost predicate Valid()
      reads this
    {
      Forest(parent, root, depth)
    }

    constructor (n: nat)
      ensures Valid()
      ensures root == seq(n, i => i)
    {
      parent := seq(n, i => i);
      root := seq(n, i => i);
      depth := seq(n, i => 0);
      new;
      assert forall i :: 0 <= i < n ==> ForestAt(parent, root, depth, i);
    }

    /** The class of x. Only parents move, and no class changes: `root` is outside the frame. */
    method Find(x: nat) returns (r: nat)
      requires Valid() && x < |parent|
      modifies `parent
      ensures Valid() && |parent| == old(|parent|)
      ensures r == root[x]
    {
      assert ForestAt(parent, root, depth, x);
      var i: nat := x;
      while parent[i] != i
        invariant Valid() && |parent| == old(|parent|)
        invariant i < |parent| && root[i] == root[x]
        decreases depth[i]
      {
        var up := parent[i];
        assert ForestAt(parent, root, depth, i) && ForestAt(parent, root, depth, up);
        HalvedForest(parent, root, depth, i);
        parent := parent[i := parent[up]];
        i := parent[i];
      }
      assert ForestAt(parent, root, depth, i);
      r := i;
    }

    /** Hangs root `gone` under root `keep`. */
    method Hang(gone: nat, keep: nat)
      requires Valid() && gone < |parent| && keep < |parent|
      requires root[gone] == gone && root[keep] == keep
      modifies this
      ensures Valid()
      ensures root == Merged(old(root), keep, gone)
    {
      HungForest(parent, root, depth, gone, keep);
      parent := parent[gone := keep];
      depth := Deepened(root, depth, keep, gone);
      root := Merged(root, keep, gone);
    }

    /** parent[find(i)] = find(j). */
    method Link(i: nat, j: nat)
      requires Valid() && i < |parent| && j < |parent|
      modifies this
      ensures Valid()
      ensures root == Merged(old(root), old(root[j]), old(root[i]))
    {
      assert ForestAt(parent, root, depth, i) && ForestAt(parent, root, depth, j);
      var keep := Find(j);
      var gone := Find(i);
      Hang(gone, keep);
    }
  }

  // Connected components

  ghost predicate Respects(rel: (nat, nat) -> bool, colour: seq<int>) {
    forall i: nat, j: nat | i < |colour| && j < |colour| && rel(i, j) :: colour[i] == colour[j]
  }

  ghost predicate Finer(root: seq<nat>, colour: seq<int>) {
    |root| == |colour| && forall i, j | 0 <= i < |root| && 0 <= j < |root| && root[i] == root[j] ::
      colour[i] == colour[j]
  }

  /** Sharing a root is the least equivalence that contains `rel`: related entries share one, and
      whatever every related pair agrees on, the whole class agrees on. */
  ghost predicate Components(n: nat, rel: (nat, nat) -> bool, root: seq<nat>) {
    && |root| == n
    && Respects(rel, root)
    && forall colour: seq<int> | |colour| == n && Respects(rel, colour) :: Finer(root, colour)
  }

  /** Steps of `rel`, taken in either direction. */
  ghost predicate Path(n: nat, rel: (nat, nat) -> bool, p: seq<nat>) {
    && |p| > 0
    && (forall k :: 0 <= k < |p| ==> p[k] < n)
    && (forall k :: 0 <= k < |p| - 1 ==> rel(p[k], p[k + 1]) || rel(p[k + 1], p[k]))
  }

  ghost predicate Connected(n: nat, rel: (nat, nat) -> bool, i: nat, j: nat) {
    exists p: seq<nat> :: Path(n, rel, p) && p[0] == i && p[|p| - 1] == j
  }

  /** A component is what a path can reach, no more and no less. */
  lemma ComponentsAreConnected(n: nat, rel: (nat, nat) -> bool, root: seq<nat>, i: nat, j: nat)
    requires Components(n, rel, root) && i < n && j < n
    ensures root[i] == root[j] <==> Connected(n, rel, i, j)
  {
    if Connected(n, rel, i, j) {
      var p: seq<nat> :| Path(n, rel, p) && p[0] == i && p[|p| - 1] == j;
      PathKeepsRoot(n, rel, root, p);
    }
    if root[i] == root[j] {
      var colour := seq(n, k => if k >= 0 && Connected(n, rel, i, k) then 1 else 0);
      forall a: nat, b: nat | a < n && b < n && rel(a, b)
        ensures colour[a] == colour[b]
      {
        if Connected(n, rel, i, a) {
          ConnectedStep(n, rel, i, a, b);
        }
        if Connected(n, rel, i, b) {
          ConnectedStep(n, rel, i, b, a);
        }
      }
      assert Respects(rel, colour);
      assert Finer(root, colour);
      assert Path(n, rel, [i]) && [i][0] == i;
      assert Connected(n, rel, i, i);
      assert colour[j] == colour[i] == 1;
    }
  }

  lemma PathKeepsRoot(n: nat, rel: (nat, nat) -> bool, root: seq<nat>, p: seq<nat>)
    requires Components(n, rel, root) && Path(n, rel, p)
    ensures root[p[0]] == root[p[|p| - 1]]
  {
    if |p| > 1 {
      var init := p[..|p| - 1];
      assert forall k :: 0 <= k < |init| ==> init[k] == p[k];
      PathKeepsRoot(n, rel, root, init);
      assert rel(p[|p| - 2], p[|p| - 2 + 1]) || rel(p[|p| - 2 + 1], p[|p| - 2]);
    }
  }

  lemma ConnectedStep(n: nat, rel: (nat, nat) -> bool, i: nat, a: nat, b: nat)
    requires a < n && b < n && (rel(a, b) || rel(b, a))
    requires Connected(n, rel, i, a)
    ensures Connected(n, rel, i, b)
  {
    var p: seq<nat> :| Path(n, rel, p) && p[0] == i && p[|p| - 1] == a;
    var q := p + [b];
    assert Path(n, rel, q) && q[0] == i && q[|q| - 1] == b;
  }
}
