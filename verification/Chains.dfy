/** Number groups and revision chains: records sharing a number, split into what answers one request. */
module Chains {
  import opened Wrappers
  import opened DisjointSets
  import opened Classes
  import Lines = SharedLines

  /** A filed record: its id, year, the digits of its own and its file's number, whether the file
      name tells of another quotation, and the record a sheet was bound to. Date, time saved and
      path stand as numbers in their order, a missing date last. */
  datatype Filed = Filed(
    id: nat, year: Option<int>, number: Option<string>, fileNumber: Option<string>, foreignName: bool,
    boundTo: Option<nat>, content: Lines.Record,
    date: nat, marked: bool, printOnly: bool, saved: nat, path: nat)

  datatype Key = Key(year: Option<int>, digits: string)

  /** The numbers a record counts under. */
  function Keys(r: Filed): seq<Key> {
    (if r.number.Some? then [Key(r.year, r.number.value)] else [])
    + (if !r.foreignName && r.fileNumber.Some? then [Key(r.year, r.fileNumber.value)] else [])
  }

  // Number groups

  ghost predicate ShareKey(records: seq<Filed>, i: nat, j: nat) {
    i < |records| && j < |records| && exists key :: key in Keys(records[i]) && key in Keys(records[j])
  }

  ghost function SharesKey(records: seq<Filed>): (nat, nat) -> bool {
    (i: nat, j: nat) => ShareKey(records, i, j)
  }

  /** Every key seen belongs to a record that has it, and every record looked at shares a root with
      the owners of its keys. */
  ghost predicate Owned(records: seq<Filed>, root: seq<nat>, owner: map<Key, nat>, n: nat) {
    && |root| == |records|
    && (forall key :: key in owner ==> owner[key] < |records| && key in Keys(records[owner[key]]))
    && (forall i: nat, key {:trigger key in Keys(records[i])} :: i < n && i < |records| && key in Keys(records[i]) ==>
      key in owner && root[i] == root[owner[key]])
  }

  ghost predicate OwnedBy(root: seq<nat>, owner: map<Key, nat>, i: nat, keys: seq<Key>) {
    i < |root| && forall key :: key in keys ==> key in owner && owner[key] < |root| && root[i] == root[owner[key]]
  }

  /** One number of one record: joined to the first record that had it, or remembered. */
  method File(records: seq<Filed>, sets: Sets, owner: map<Key, nat>, i: nat, key: Key, ghost keys: seq<Key>)
      returns (next: map<Key, nat>)
    requires i < |records| && key in Keys(records[i]) && sets.Valid() && |sets.root| == |records|
    requires Forced(|records|, SharesKey(records), sets.root)
    requires Owned(records, sets.root, owner, i) && OwnedBy(sets.root, owner, i, keys)
    modifies sets
    ensures sets.Valid() && |sets.root| == |records|
    ensures Forced(|records|, SharesKey(records), sets.root)
    ensures Owned(records, sets.root, next, i) && OwnedBy(sets.root, next, i, keys + [key])
  {
    next := owner;
    if key in owner {
      ForestTable(sets.parent, sets.root, sets.depth);
      assert ShareKey(records, i, owner[key]);
      ForcedMerged(|records|, SharesKey(records), sets.root, i, owner[key]);
      OwnedMerged(records, sets.root, owner, i, i, owner[key], keys);
      sets.Link(i, owner[key]);
    } else {
      next := owner[key := i];
    }
  }

  method FileAll(records: seq<Filed>, sets: Sets, owner: map<Key, nat>, i: nat) returns (next: map<Key, nat>)
    requires i < |records| && sets.Valid() && |sets.root| == |records|
    requires Forced(|records|, SharesKey(records), sets.root) && Owned(records, sets.root, owner, i)
    modifies sets
    ensures sets.Valid() && |sets.root| == |records|
    ensures Forced(|records|, SharesKey(records), sets.root) && Owned(records, sets.root, next, i + 1)
  {
    next := owner;
    var keys := Keys(records[i]);
    for k := 0 to |keys|
      invariant sets.Valid() && |sets.root| == |records|
      invariant Forced(|records|, SharesKey(records), sets.root)
      invariant Owned(records, sets.root, next, i) && OwnedBy(sets.root, next, i, keys[..k])
    {
      next := File(records, sets, next, i, keys[k], keys[..k]);
      assert keys[..k + 1] == keys[..k] + [keys[k]];
    }
    assert keys[..|keys|] == keys;
  }

  method NumberGroups(records: seq<Filed>) returns (groups: seq<seq<nat>>, ghost root: seq<nat>)
    ensures Components(|records|, SharesKey(records), root) && Partition(root, groups)
    ensures ByComponents(|records|, SharesKey(records), groups)
  {
    var sets := new Sets(|records|);
    var owner: map<Key, nat> := map[];
    ForcedAtFirst(|records|, SharesKey(records), sets.root);
    for i := 0 to |records|
      invariant sets.Valid() && |sets.root| == |records|
      invariant Forced(|records|, SharesKey(records), sets.root)
      invariant Owned(records, sets.root, owner, i)
    {
      owner := FileAll(records, sets, owner, i);
    }
    OwnedComponents(records, sets.root, owner);
    root := sets.root;
    groups := Gather(sets);
  }

  lemma ForcedAtFirst(n: nat, rel: (nat, nat) -> bool, root: seq<nat>)
    requires root == seq(n, i => i)
    ensures Forced(n, rel, root)
  {
  }

  lemma OwnedMerged(records: seq<Filed>, root: seq<nat>, owner: map<Key, nat>, n: nat, i: nat, j: nat, keys: seq<Key>)
    requires Owned(records, root, owner, n) && OwnedBy(root, owner, n, keys) && i < |records| && j < |records|
    ensures Owned(records, Merged(root, root[j], root[i]), owner, n) &&
      OwnedBy(Merged(root, root[j], root[i]), owner, n, keys)
  {
  }

  lemma OwnedComponents(records: seq<Filed>, root: seq<nat>, owner: map<Key, nat>)
    requires Owned(records, root, owner, |records|) && Forced(|records|, SharesKey(records), root)
    ensures Components(|records|, SharesKey(records), root)
  {
    forall i: nat, j: nat | i < |root| && j < |root| && SharesKey(records)(i, j)
      ensures root[i] == root[j]
    {
      assert ShareKey(records, i, j);
      var key :| key in Keys(records[i]) && key in Keys(records[j]);
    }
  }

  /** The groups do not depend on the order of the records. */
  lemma NumberGroupsReordered(records: seq<Filed>, root: seq<nat>, p: seq<nat>, other: seq<Filed>,
      otherRoot: seq<nat>, i: nat, j: nat)
    requires Reorders(p, |records|) && |other| == |records| && forall k :: 0 <= k < |records| ==>
      other[k] == records[p[k]]
    requires Components(|records|, SharesKey(records), root) && Components(|other|, SharesKey(other), otherRoot)
    requires i < |records| && j < |records|
    ensures otherRoot[i] == otherRoot[j] <==> root[p[i]] == root[p[j]]
  {
    forall a: nat, b: nat | a < |records| && b < |records|
      ensures SharesKey(other)(a, b) <==> SharesKey(records)(p[a], p[b])
    {
      assert ShareKey(other, a, b) <==> ShareKey(records, p[a], p[b]);
    }
    ComponentsReordered(|records|, p, SharesKey(records), root, SharesKey(other), otherRoot, i, j);
  }

  // Chains inside a group

  /** The record a revision sheet was bound to, or the copy that was kept of it. */
  function Target(r: Filed, keptAs: map<nat, nat>): Option<nat> {
    if r.boundTo.Some? && r.boundTo.value in keptAs then Some(keptAs[r.boundTo.value]) else r.boundTo
  }

  ghost predicate Join(group: seq<Filed>, keptAs: map<nat, nat>, i: nat, j: nat) {
    && i < |group| && j < |group|
    && (Lines.Related(group[i].content, group[j].content) || Target(group[i], keptAs) == Some(group[j].id))
  }

  ghost function Joins(group: seq<Filed>, keptAs: map<nat, nat>): (nat, nat) -> bool {
    (i: nat, j: nat) => Join(group, keptAs, i, j)
  }

  ghost predicate DistinctIds(group: seq<Filed>) {
    forall i, j :: 0 <= i < j < |group| ==> group[i].id != group[j].id
  }

  method IndexById(group: seq<Filed>) returns (index: map<nat, nat>)
    requires DistinctIds(group)
    ensures forall id :: id in index ==> index[id] < |group| && group[index[id]].id == id
    ensures forall i: nat :: i < |group| ==> group[i].id in index && index[group[i].id] == i
  {
    index := map[];
    for i := 0 to |group|
      invariant forall id :: id in index ==> index[id] < i && group[index[id]].id == id
      invariant forall j: nat :: j < i ==> group[j].id in index && index[group[j].id] == j
    {
      index := index[group[i].id := i];
    }
  }

  /** The pairs looked at so far: all among the first n records, and record n with the first m. */
  predicate Seen(n: nat, m: nat, i: nat, j: nat) {
    j < i < n || (i == n && j < m && j < n)
  }

  /** Related pairs looked at, and bound records up to the bound one, share a root. */
  ghost predicate Settled(group: seq<Filed>, keptAs: map<nat, nat>, root: seq<nat>, n: nat, m: nat, bound: nat) {
    && |root| == |group|
    && (forall i: nat, j: nat {:trigger Seen(n, m, i, j)} ::
      i < |group| && Seen(n, m, i, j) && Lines.Related(group[i].content, group[j].content) ==> root[i] == root[j])
    && (forall i: nat, j: nat {:trigger root[i], root[j]} ::
      i < bound && i < |group| && j < |group| && Target(group[i], keptAs) == Some(group[j].id) ==> root[i] == root[j])
  }

  lemma SettledMerged(group: seq<Filed>, keptAs: map<nat, nat>, root: seq<nat>, n: nat, m: nat, bound: nat, i: nat,
      j: nat)
    requires Settled(group, keptAs, root, n, m, bound) && i < |group| && j < |group| && n <= |group|
    ensures Settled(group, keptAs, Merged(root, root[j], root[i]), n, m, bound)
  {
  }

  /** Split a number group into chains. */
  method Split(group: seq<Filed>, keptAs: map<nat, nat>) returns (chains: seq<seq<nat>>, ghost root: seq<nat>)
    requires DistinctIds(group)
    ensures Components(|group|, Joins(group, keptAs), root) && RootTable(root) && Partition(root, chains)
    ensures ByComponents(|group|, Joins(group, keptAs), chains)
  {
    var index := IndexById(group);
    var sets := new Sets(|group|);
    ForcedAtFirst(|group|, Joins(group, keptAs), sets.root);
    for i := 0 to |group|
      invariant sets.Valid() && |sets.root| == |group|
      invariant Forced(|group|, Joins(group, keptAs), sets.root)
      invariant Settled(group, keptAs, sets.root, i, 0, i)
    {
      Bind(group, keptAs, index, sets, i);
      for j := 0 to i
        invariant sets.Valid() && |sets.root| == |group|
        invariant Forced(|group|, Joins(group, keptAs), sets.root)
        invariant Settled(group, keptAs, sets.root, i, j, i + 1)
      {
        Compare(group, keptAs, sets, i, j);
      }
      SettledNext(group, keptAs, sets.root, i);
    }
    SettledComponents(group, keptAs, sets.root);
    ForestTable(sets.parent, sets.root, sets.depth);
    root := sets.root;
    chains := Gather(sets);
  }

  method Bind(group: seq<Filed>, keptAs: map<nat, nat>, index: map<nat, nat>, sets: Sets, i: nat)
    requires DistinctIds(group) && i < |group| && sets.Valid() && |sets.root| == |group|
    requires forall id :: id in index ==> index[id] < |group| && group[index[id]].id == id
    requires forall k: nat :: k < |group| ==> group[k].id in index && index[group[k].id] == k
    requires Forced(|group|, Joins(group, keptAs), sets.root) && Settled(group, keptAs, sets.root, i, 0, i)
    modifies sets
    ensures sets.Valid() && |sets.root| == |group|
    ensures Forced(|group|, Joins(group, keptAs), sets.root) && Settled(group, keptAs, sets.root, i, 0, i + 1)
  {
    var bound := Target(group[i], keptAs);
    if bound.Some? && bound.value in index {
      var j := index[bound.value];
      ForestTable(sets.parent, sets.root, sets.depth);
      assert Join(group, keptAs, i, j);
      ForcedMerged(|group|, Joins(group, keptAs), sets.root, i, j);
      SettledMerged(group, keptAs, sets.root, i, 0, i, i, j);
      BoundSettles(group, keptAs, sets.root, i, j);
      sets.Link(i, j);
    } else {
      NothingBound(group, keptAs, index, sets.root, i);
    }
  }

  lemma BoundSettles(group: seq<Filed>, keptAs: map<nat, nat>, root: seq<nat>, i: nat, j: nat)
    requires DistinctIds(group) && Settled(group, keptAs, root, i, 0, i) && i < |group| && j < |group|
    requires Target(group[i], keptAs) == Some(group[j].id)
    ensures Settled(group, keptAs, Merged(root, root[j], root[i]), i, 0, i + 1)
  {
    SettledMerged(group, keptAs, root, i, 0, i, i, j);
  }

  lemma NothingBound(group: seq<Filed>, keptAs: map<nat, nat>, index: map<nat, nat>, root: seq<nat>, i: nat)
    requires Settled(group, keptAs, root, i, 0, i) && i < |group|
    requires forall k: nat :: k < |group| ==> group[k].id in index
    requires Target(group[i], keptAs).None? || Target(group[i], keptAs).value !in index
    ensures Settled(group, keptAs, root, i, 0, i + 1)
  {
  }

  method Compare(group: seq<Filed>, keptAs: map<nat, nat>, sets: Sets, i: nat, j: nat)
    requires j < i < |group| && sets.Valid() && |sets.root| == |group|
    requires Forced(|group|, Joins(group, keptAs), sets.root) && Settled(group, keptAs, sets.root, i, j, i + 1)
    modifies sets
    ensures sets.Valid() && |sets.root| == |group|
    ensures Forced(|group|, Joins(group, keptAs), sets.root) && Settled(group, keptAs, sets.root, i, j + 1, i + 1)
  {
    var a := sets.Find(i);
    var b := sets.Find(j);
    ForestTable(sets.parent, sets.root, sets.depth);
    var related := Lines.AreRelated(group[i].content, group[j].content);
    if a != b && related {
      assert Join(group, keptAs, i, j);
      ForcedMerged(|group|, Joins(group, keptAs), sets.root, i, j);
      SettledMerged(group, keptAs, sets.root, i, j, i + 1, i, j);
      PairSettles(group, keptAs, Merged(sets.root, sets.root[j], sets.root[i]), i, j);
      sets.Link(i, j);
    } else {
      PairSettles(group, keptAs, sets.root, i, j);
    }
  }

  lemma PairSettles(group: seq<Filed>, keptAs: map<nat, nat>, root: seq<nat>, i: nat, j: nat)
    requires j < i < |group| && Settled(group, keptAs, root, i, j, i + 1)
    requires Lines.Related(group[i].content, group[j].content) ==> root[i] == root[j]
    ensures Settled(group, keptAs, root, i, j + 1, i + 1)
  {
    forall a: nat, b: nat | a < |group| && Seen(i, j + 1, a, b) && Lines.Related(group[a].content, group[b].content)
      ensures root[a] == root[b]
    {
      assert Seen(i, j, a, b) || (a == i && b == j);
    }
  }

  lemma SettledNext(group: seq<Filed>, keptAs: map<nat, nat>, root: seq<nat>, n: nat)
    requires n < |group| && Settled(group, keptAs, root, n, n, n + 1)
    ensures Settled(group, keptAs, root, n + 1, 0, n + 1)
  {
    forall a: nat, b: nat | a < |group| && Seen(n + 1, 0, a, b) && Lines.Related(group[a].content, group[b].content)
      ensures root[a] == root[b]
    {
      assert Seen(n, n, a, b);
    }
  }

  lemma SettledComponents(group: seq<Filed>, keptAs: map<nat, nat>, root: seq<nat>)
    requires Settled(group, keptAs, root, |group|, 0, |group|) && Forced(|group|, Joins(group, keptAs), root)
    ensures Components(|group|, Joins(group, keptAs), root)
  {
    forall i: nat, j: nat | i < |root| && j < |root| && Joins(group, keptAs)(i, j)
      ensures root[i] == root[j]
    {
      assert Join(group, keptAs, i, j);
      if Lines.Related(group[i].content, group[j].content) {
        Lines.RelatedSymmetric(group[i].content, group[j].content);
        assert i != j ==> Seen(|group|, 0, i, j) || Seen(|group|, 0, j, i);
      }
    }
  }

  /** The chains of a group do not depend on the order of its records. */
  lemma ChainsReordered(group: seq<Filed>, keptAs: map<nat, nat>, root: seq<nat>, p: seq<nat>, other: seq<Filed>,
      otherRoot: seq<nat>, i: nat, j: nat)
    requires Reorders(p, |group|) && |other| == |group| && forall k :: 0 <= k < |group| ==> other[k] == group[p[k]]
    requires Components(|group|, Joins(group, keptAs), root) && Components(|other|, Joins(other, keptAs), otherRoot)
    requires i < |group| && j < |group|
    ensures otherRoot[i] == otherRoot[j] <==> root[p[i]] == root[p[j]]
  {
    forall a: nat, b: nat | a < |group| && b < |group|
      ensures Joins(other, keptAs)(a, b) <==> Joins(group, keptAs)(p[a], p[b])
    {
      assert Join(other, keptAs, a, b) <==> Join(group, keptAs, p[a], p[b]);
    }
    ComponentsReordered(|group|, p, Joins(group, keptAs), root, Joins(other, keptAs), otherRoot, i, j);
  }
}
