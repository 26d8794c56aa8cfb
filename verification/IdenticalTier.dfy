/** The tier that merges variants with one comparison key, and why stopping early loses nothing. */
module IdenticalTier {
  import opened Wrappers
  import opened Guards
  import opened DisjointSets
  import opened Items
  import C = Clusters

  /** Settled: one item, or a rule between their two items. */
  ghost predicate Settled(vs: seq<Variant>, s: State, i: nat, j: nat)
    requires Shaped(vs, s) && i < |vs| && j < |vs|
  {
    Same(s, i, j) || Separated(vs, s, i, j)
  }

  ghost predicate AllSettled(vs: seq<Variant>, s: State, xs: seq<nat>)
    requires Shaped(vs, s) && forall k :: 0 <= k < |xs| ==> xs[k] < |vs|
  {
    forall a, b {:trigger xs[a], xs[b]} :: 0 <= a < b < |xs| ==> Settled(vs, s, xs[b], xs[a])
  }

  /** The items of i and j carry different IMPA codes. */
  ghost predicate CodesApart(s: State, i: nat, j: nat)
    requires |s.root| == |s.impa| && i < |s.root| && j < |s.root|
  {
    exists a: nat, b: nat {:trigger Same(s, a, i), Same(s, b, j)} ::
      a < |s.root| && b < |s.root| && Same(s, a, i) && Same(s, b, j) &&
      s.impa[a].Some? && s.impa[b].Some? && s.impa[a] != s.impa[b]
  }

  lemma ConflictIsCodesApart(vs: seq<Variant>, s: State, i: nat, j: nat)
    requires Valid(vs, s) && i < |vs| && j < |vs|
    ensures s.root[i] < |vs| && s.root[j] < |vs|
    ensures CodeConflict(s, i, j) <==> CodesApart(s, i, j)
  {
    RootListable(vs, s, i);
    RootListable(vs, s, j);
    if CodeConflict(s, i, j) {
      var c, d := CodesDiffer(s, s.root[i], s.root[j]);
      var a := CodeHolder(vs, s, s.root[i], c);
      var b := CodeHolder(vs, s, s.root[j], d);
      assert Same(s, a, i) && Same(s, b, j);
    }
    if CodesApart(s, i, j) {
      var a: nat, b: nat :| a < |s.root| && b < |s.root| && Same(s, a, i) && Same(s, b, j) &&
        s.impa[a].Some? && s.impa[b].Some? && s.impa[a] != s.impa[b];
      CodeOfClass(vs, s, a);
      CodeOfClass(vs, s, b);
    }
  }

  lemma CodesApartPersists(s: State, t: State, i: nat, j: nat)
    requires |s.root| == |s.impa| && Coarser(s, t) && i < |s.root| && j < |s.root|
    requires CodesApart(s, i, j)
    ensures CodesApart(t, i, j)
  {
    var a: nat, b: nat :| a < |s.root| && b < |s.root| && Same(s, a, i) && Same(s, b, j) &&
      s.impa[a].Some? && s.impa[b].Some? && s.impa[a] != s.impa[b];
    assert Same(t, a, i) && Same(t, b, j);
  }

  lemma SettledPersists(vs: seq<Variant>, s: State, t: State, i: nat, j: nat)
    requires Shaped(vs, s) && Shaped(vs, t) && Coarser(s, t) && i < |vs| && j < |vs|
    requires Settled(vs, s, i, j)
    ensures Settled(vs, t, i, j)
  {
    if Separated(vs, s, i, j) {
      SeparationPersists(vs, s, t, i, j);
    } else {
      assert Same(s, i, j);
    }
  }

  /** i, now in j's item, is settled against whatever j is settled against. */
  lemma SettledThrough(vs: seq<Variant>, s: State, i: nat, j: nat, k: nat)
    requires Shaped(vs, s) && i < |vs| && j < |vs| && k < |vs|
    requires Same(s, i, j) && (Settled(vs, s, j, k) || Settled(vs, s, k, j))
    ensures Settled(vs, s, i, k)
  {
    if Separated(vs, s, k, j) {
      SeparatedSymmetric(vs, s, k, j);
    }
    if Separated(vs, s, j, k) {
      var a: nat, b: nat :| a < |vs| && b < |vs| && Same(s, a, j) && Same(s, b, k) && PairBlocked(vs, s.impa, a, b);
      assert Same(s, a, i);
    }
  }

  /** An unforced union: what it joins, what it keeps, and when it refuses. */
  lemma UnforcedUnion(vs: seq<Variant>, s: State, i: nat, j: nat)
    requires Valid(vs, s) && Linked(vs, s) && i < |vs| && j < |vs|
    ensures var t := AfterUnion(vs, s, i, j, false);
      && Linked(vs, t) && Coarser(s, t) && Settled(vs, t, i, j)
      && (Joinable(vs, s, i, j, false) ==> Same(t, i, j) && |Roots(t.root)| == |Roots(s.root)| - 1)
      && (Joinable(vs, s, i, j, false) <==> !Settled(vs, s, i, j))
      && forall colour: seq<int> :: Finer(s.root, colour) && colour[i] == colour[j] ==> Finer(t.root, colour)
  {
    RootListable(vs, s, i);
    RootListable(vs, s, j);
    GuardIsCompleteLinkage(vs, s, i, j);
    if Joinable(vs, s, i, j, false) {
      var ri, rj := s.root[i], s.root[j];
      NotSeparatedAtRoots(vs, s, i, j);
      JoinedShape(vs, s, ri, rj);
      JoinedLinked(vs, s, ri, rj);
      MergedRoots(s.root, ri, rj);
      ConflictIsCodesApart(vs, s, i, j);
    } else if s.root[i] != s.root[j] && CodeConflict(s, i, j) {
      assert ItemGuard(vs, s, i, j).Some?;
    }
  }

  lemma NotSeparatedAtRoots(vs: seq<Variant>, s: State, i: nat, j: nat)
    requires Shaped(vs, s) && i < |vs| && j < |vs| && !Separated(vs, s, i, j)
    ensures s.root[i] < |vs| && s.root[j] < |vs| && !Separated(vs, s, s.root[i], s.root[j])
  {
    assert RootAt(s.root, i) && RootAt(s.root, j);
    if Separated(vs, s, s.root[i], s.root[j]) {
      var a: nat, b: nat :| a < |vs| && b < |vs| && Same(s, a, s.root[i]) && Same(s, b, s.root[j]) &&
        PairBlocked(vs, s.impa, a, b);
      assert Same(s, a, i) && Same(s, b, j);
    }
  }

  /** Joins i to the first earlier variant every guard allows. The colour is any grouping that
      keeps today's items and the earlier variants together: items never grow beyond it. */
  method JoinEarlier(uf: C.Clusters, i: nat, earlier: seq<nat>, ghost colour: seq<int>)
      returns (merges: nat, rows: seq<(nat, nat)>)
    requires uf.Ok() && Linked(uf.variants, uf.View())
    requires i < |uf.variants| && forall k :: 0 <= k < |earlier| ==> earlier[k] < |uf.variants|
    requires AllSettled(uf.variants, uf.View(), earlier)
    requires Finer(uf.sets.root, colour) && forall k :: 0 <= k < |earlier| ==> colour[earlier[k]] == colour[i]
    modifies uf, uf.sets
    ensures uf.Ok() && Linked(uf.variants, uf.View())
    ensures Coarser(old(uf.View()), uf.View()) && uf.rejected == old(uf.rejected)
    ensures |Roots(uf.sets.root)| + merges == old(|Roots(uf.sets.root)|)
    ensures forall k :: 0 <= k < |earlier| ==> Settled(uf.variants, uf.View(), i, earlier[k])
    ensures Finer(uf.sets.root, colour)
    ensures forall row :: row in rows ==> row.0 < |uf.variants| && row.1 == i && CodesApart(uf.View(), row.0, i)
  {
    ghost var s := uf.View();
    rows := [];
    merges := 0;
    for p := 0 to |earlier|
      invariant uf.Ok() && uf.View() == s && uf.rejected == old(uf.rejected)
      invariant forall k :: 0 <= k < p ==> Settled(uf.variants, s, i, earlier[k])
      invariant forall row :: row in rows ==> row.0 < |uf.variants| && row.1 == i && CodesApart(s, row.0, i)
    {
      var j := earlier[p];
      var ri := uf.Find(i);
      var rj := uf.Find(j);
      if ri == rj {
        SettledLikeEarlier(uf.variants, s, i, earlier, p);
        return;
      }
      if BlockingGuard(uf.variants[j].feats, uf.variants[i].feats).Some? {
        BlockingGuardSymmetric(uf.variants[i].feats, uf.variants[j].feats, None, None);
        assert Same(s, i, i) && Same(s, j, j) && PairBlocked(uf.variants, s.impa, i, j);
        continue;
      }
      var conflict := uf.CodesConflict(j, i);
      if conflict {
        rows := rows + [(j, i)];
        ConflictIsCodesApart(uf.variants, s, j, i);
        ApartSettles(uf.variants, s, j, i);
        continue;
      }
      UnforcedUnion(uf.variants, s, j, i);
      var joined := uf.Union(j, i);
      if joined {
        ghost var t := uf.View();
        assert t == AfterUnion(uf.variants, s, j, i, false);
        EarlierStaySettled(uf.variants, s, t, earlier);
        forall row | row in rows
          ensures CodesApart(t, row.0, i)
        {
          CodesApartPersists(s, t, row.0, i);
        }
        assert Same(t, i, j);
        SettledLikeEarlier(uf.variants, t, i, earlier, p);
        merges := 1;
        return;
      }
      if Separated(uf.variants, s, j, i) {
        SeparatedSymmetric(uf.variants, s, j, i);
      }
    }
  }

  lemma ApartSettles(vs: seq<Variant>, s: State, j: nat, i: nat)
    requires Shaped(vs, s) && i < |vs| && j < |vs| && CodesApart(s, j, i)
    ensures Settled(vs, s, i, j)
  {
    var a: nat, b: nat :| a < |s.root| && b < |s.root| && Same(s, a, j) && Same(s, b, i) &&
      s.impa[a].Some? && s.impa[b].Some? && s.impa[a] != s.impa[b];
    assert PairBlocked(vs, s.impa, b, a);
    assert Separated(vs, s, i, j);
  }

  lemma SettledLikeEarlier(vs: seq<Variant>, s: State, i: nat, earlier: seq<nat>, p: nat)
    requires Shaped(vs, s) && i < |vs| && p < |earlier|
    requires forall k :: 0 <= k < |earlier| ==> earlier[k] < |vs|
    requires AllSettled(vs, s, earlier) && Same(s, i, earlier[p])
    ensures forall k :: 0 <= k < |earlier| ==> Settled(vs, s, i, earlier[k])
  {
    forall k | 0 <= k < |earlier|
      ensures Settled(vs, s, i, earlier[k])
    {
      if k < p {
        assert Settled(vs, s, earlier[p], earlier[k]);
      } else if p < k {
        assert Settled(vs, s, earlier[k], earlier[p]);
      }
      if k != p {
        SettledThrough(vs, s, i, earlier[p], earlier[k]);
      }
    }
  }

  lemma EarlierStaySettled(vs: seq<Variant>, s: State, t: State, earlier: seq<nat>)
    requires Shaped(vs, s) && Shaped(vs, t) && Coarser(s, t)
    requires forall k :: 0 <= k < |earlier| ==> earlier[k] < |vs|
    requires AllSettled(vs, s, earlier)
    ensures AllSettled(vs, t, earlier)
  {
    forall a, b | 0 <= a < b < |earlier|
      ensures Settled(vs, t, earlier[b], earlier[a])
    {
      SettledPersists(vs, s, t, earlier[b], earlier[a]);
    }
  }

  // Buckets of equal keys

  datatype Attribute = Key | SortedKey

  function Bucket(v: Variant, attr: Attribute): string {
    match attr
    case Key => v.feats.key
    case SortedKey => v.feats.sortedKey
  }

  ghost predicate Alike(vs: seq<Variant>, attr: Attribute, i: nat, j: nat) {
    i < |vs| && j < |vs| && Bucket(vs[i], attr) == Bucket(vs[j], attr)
  }

  /** The first n variants, each in the bucket of its value and nowhere else, in order. */
  ghost predicate Bucketed(vs: seq<Variant>, attr: Attribute, n: nat, buckets: map<string, seq<nat>>) {
    && n <= |vs|
    && (forall i {:trigger vs[i]} :: 0 <= i < n ==> Bucket(vs[i], attr) in buckets && i in buckets[Bucket(vs[i], attr)])
    && (forall k {:trigger buckets[k]} :: k in buckets ==> OfValue(vs, attr, n, k, buckets[k]))
  }

  ghost predicate OfValue(vs: seq<Variant>, attr: Attribute, n: nat, key: string, xs: seq<nat>) {
    && (forall p :: 0 <= p < |xs| ==> xs[p] < n <= |vs| && Bucket(vs[xs[p]], attr) == key)
    && (forall p, q :: 0 <= p < q < |xs| ==> xs[p] < xs[q])
  }

  method Buckets(vs: seq<Variant>, attr: Attribute) returns (buckets: map<string, seq<nat>>)
    ensures Bucketed(vs, attr, |vs|, buckets)
  {
    buckets := map[];
    for i := 0 to |vs|
      invariant Bucketed(vs, attr, i, buckets)
    {
      var key := Bucket(vs[i], attr);
      var bucket := if key in buckets then buckets[key] else [];
      OneMoreBucketed(vs, attr, i, buckets, bucket);
      buckets := buckets[key := bucket + [i]];
    }
  }

  lemma OneMoreBucketed(vs: seq<Variant>, attr: Attribute, i: nat, buckets: map<string, seq<nat>>, bucket: seq<nat>)
    requires i < |vs| && Bucketed(vs, attr, i, buckets)
    requires var key := Bucket(vs[i], attr); bucket == if key in buckets then buckets[key] else []
    ensures Bucketed(vs, attr, i + 1, buckets[Bucket(vs[i], attr) := bucket + [i]])
  {
    var key := Bucket(vs[i], attr);
    var more := buckets[key := bucket + [i]];
    forall j {:trigger vs[j]} | 0 <= j < i + 1
      ensures Bucket(vs[j], attr) in more && j in more[Bucket(vs[j], attr)]
    {
      if j == i {
        assert i == (bucket + [i])[|bucket|];
      } else {
        assert j in buckets[Bucket(vs[j], attr)];
      }
    }
    forall k {:trigger more[k]} | k in more
      ensures OfValue(vs, attr, i + 1, k, more[k])
    {
      assert k in buckets ==> OfValue(vs, attr, i, k, buckets[k]);
    }
  }

  method MergeBucket(uf: C.Clusters, idxs: seq<nat>, ghost colour: seq<int>)
      returns (merges: nat, rows: seq<(nat, nat)>)
    requires uf.Ok() && Linked(uf.variants, uf.View())
    requires forall k :: 0 <= k < |idxs| ==> idxs[k] < |uf.variants|
    requires Finer(uf.sets.root, colour)
    requires forall k, l :: 0 <= k < |idxs| && 0 <= l < |idxs| ==> colour[idxs[k]] == colour[idxs[l]]
    modifies uf, uf.sets
    ensures uf.Ok() && Linked(uf.variants, uf.View())
    ensures Coarser(old(uf.View()), uf.View()) && uf.rejected == old(uf.rejected)
    ensures |Roots(uf.sets.root)| + merges == old(|Roots(uf.sets.root)|)
    ensures AllSettled(uf.variants, uf.View(), idxs)
    ensures Finer(uf.sets.root, colour)
    ensures RowsApart(uf.variants, uf.View(), rows)
  {
    merges := 0;
    rows := [];
    for pos := 0 to |idxs|
      invariant uf.Ok() && Linked(uf.variants, uf.View())
      invariant Coarser(old(uf.View()), uf.View()) && uf.rejected == old(uf.rejected)
      invariant |Roots(uf.sets.root)| + merges == old(|Roots(uf.sets.root)|)
      invariant AllSettled(uf.variants, uf.View(), idxs[..pos])
      invariant Finer(uf.sets.root, colour)
      invariant RowsApart(uf.variants, uf.View(), rows)
    {
      ghost var s := uf.View();
      var merged, more := JoinEarlier(uf, idxs[pos], idxs[..pos], colour);
      ghost var t := uf.View();
      EarlierStaySettled(uf.variants, s, t, idxs[..pos]);
      RowsStayApart(uf.variants, s, t, rows);
      CoarserTransitive(old(uf.View()), s, t);
      OneMoreSettled(uf.variants, t, idxs, pos);
      merges := merges + merged;
      rows := rows + more;
    }
    assert idxs[..|idxs|] == idxs;
  }

  ghost predicate RowsApart(vs: seq<Variant>, s: State, rows: seq<(nat, nat)>)
    requires Shaped(vs, s)
  {
    forall row :: row in rows ==> row.0 < |vs| && row.1 < |vs| && CodesApart(s, row.0, row.1)
  }

  lemma RowsStayApart(vs: seq<Variant>, s: State, t: State, rows: seq<(nat, nat)>)
    requires Shaped(vs, s) && Shaped(vs, t) && Coarser(s, t) && RowsApart(vs, s, rows)
    ensures RowsApart(vs, t, rows)
  {
    forall row | row in rows
      ensures CodesApart(t, row.0, row.1)
    {
      CodesApartPersists(s, t, row.0, row.1);
    }
  }

  lemma CoarserTransitive(r: State, s: State, t: State)
    requires Coarser(r, s) && Coarser(s, t)
    ensures Coarser(r, t)
  {
    forall i: nat, j: nat | i < |r.root| && j < |r.root| && Same(r, i, j)
      ensures Same(t, i, j)
    {
      assert Same(s, i, j);
    }
  }

  lemma OneMoreSettled(vs: seq<Variant>, s: State, idxs: seq<nat>, pos: nat)
    requires Shaped(vs, s) && pos < |idxs| && forall k :: 0 <= k < |idxs| ==> idxs[k] < |vs|
    requires AllSettled(vs, s, idxs[..pos])
    requires forall k :: 0 <= k < pos ==> Settled(vs, s, idxs[pos], idxs[..pos][k])
    ensures AllSettled(vs, s, idxs[..pos + 1])
  {
    var upTo := idxs[..pos + 1];
    forall a, b | 0 <= a < b < |upTo|
      ensures Settled(vs, s, upTo[b], upTo[a])
    {
      if b < pos {
        assert Settled(vs, s, idxs[..pos][b], idxs[..pos][a]);
      } else {
        assert Settled(vs, s, idxs[pos], idxs[..pos][a]);
      }
    }
  }

  ghost predicate AlikeSettled(vs: seq<Variant>, s: State, attr: Attribute)
    requires Shaped(vs, s)
  {
    forall i: nat, j: nat {:trigger Alike(vs, attr, i, j)} :: Alike(vs, attr, i, j) ==> Settled(vs, s, i, j)
  }

  ghost predicate Respected(vs: seq<Variant>, attr: Attribute, colour: seq<int>) {
    |colour| == |vs| && forall i: nat, j: nat {:trigger Alike(vs, attr, i, j)} :: Alike(vs, attr, i, j) ==>
      colour[i] == colour[j]
  }

  method MergeAlike(uf: C.Clusters, attr: Attribute, ghost colour: seq<int>)
      returns (merges: nat, rows: seq<(nat, nat)>)
    requires uf.Ok() && Linked(uf.variants, uf.View())
    requires Finer(uf.sets.root, colour) && Respected(uf.variants, attr, colour)
    modifies uf, uf.sets
    ensures uf.Ok() && Linked(uf.variants, uf.View())
    ensures Coarser(old(uf.View()), uf.View()) && uf.rejected == old(uf.rejected)
    ensures |Roots(uf.sets.root)| + merges == old(|Roots(uf.sets.root)|)
    ensures AlikeSettled(uf.variants, uf.View(), attr)
    ensures Finer(uf.sets.root, colour)
    ensures RowsApart(uf.variants, uf.View(), rows)
  {
    merges := 0;
    rows := [];
    var buckets := Buckets(uf.variants, attr);
    var todo := buckets.Keys;
    while todo != {}
      invariant todo <= buckets.Keys
      invariant uf.Ok() && Linked(uf.variants, uf.View())
      invariant Coarser(old(uf.View()), uf.View()) && uf.rejected == old(uf.rejected)
      invariant |Roots(uf.sets.root)| + merges == old(|Roots(uf.sets.root)|)
      invariant forall k :: k in buckets && k !in todo ==> AllSettled(uf.variants, uf.View(), buckets[k])
      invariant Finer(uf.sets.root, colour)
      invariant RowsApart(uf.variants, uf.View(), rows)
      decreases |todo|
    {
      var key :| key in todo;
      ghost var s := uf.View();
      assert OfValue(uf.variants, attr, |uf.variants|, key, buckets[key]);
      forall k, l | 0 <= k < |buckets[key]| && 0 <= l < |buckets[key]|
        ensures colour[buckets[key][k]] == colour[buckets[key][l]]
      {
        assert Alike(uf.variants, attr, buckets[key][k], buckets[key][l]);
      }
      var merged, more := MergeBucket(uf, buckets[key], colour);
      ghost var t := uf.View();
      forall k | k in buckets && k !in todo
        ensures AllSettled(uf.variants, t, buckets[k])
      {
        EarlierStaySettled(uf.variants, s, t, buckets[k]);
      }
      RowsStayApart(uf.variants, s, t, rows);
      CoarserTransitive(old(uf.View()), s, t);
      todo := todo - {key};
      merges := merges + merged;
      rows := rows + more;
    }
    ghost var s := uf.View();
    forall i: nat, j: nat | Alike(uf.variants, attr, i, j)
      ensures Settled(uf.variants, s, i, j)
    {
      assert i in buckets[Bucket(uf.variants[i], attr)] && j in buckets[Bucket(uf.variants[j], attr)];
      assert OfValue(uf.variants, attr, |uf.variants|, Bucket(uf.variants[i], attr),
        buckets[Bucket(uf.variants[i], attr)]);
      BucketMatesSettled(uf.variants, s, buckets[Bucket(uf.variants[i], attr)], i, j);
    }
  }

  lemma BucketMatesSettled(vs: seq<Variant>, s: State, idxs: seq<nat>, i: nat, j: nat)
    requires Shaped(vs, s) && forall k :: 0 <= k < |idxs| ==> idxs[k] < |vs|
    requires AllSettled(vs, s, idxs) && i in idxs && j in idxs
    ensures i < |vs| && j < |vs| && Settled(vs, s, i, j)
  {
    var a :| 0 <= a < |idxs| && idxs[a] == i;
    var b :| 0 <= b < |idxs| && idxs[b] == j;
    if a < b {
      assert Settled(vs, s, idxs[b], idxs[a]);
      if Separated(vs, s, j, i) {
        SeparatedSymmetric(vs, s, j, i);
      }
    } else if b < a {
      assert Settled(vs, s, idxs[a], idxs[b]);
    }
  }

  /** Merges identical keys when every guard passes. Although each variant stops at the first
      item that takes it, any two with one key or one sorted key end in one item or with a rule
      between their items. Items grow only along such pairs: never beyond a grouping (colour)
      that keeps them together. Each merge removes one item, and every pair reported for review
      still holds two codes. */
  method Merge(uf: C.Clusters, ghost colour: seq<int>) returns (merges: nat, rows: seq<(nat, nat)>)
    requires uf.Ok() && Linked(uf.variants, uf.View())
    requires Finer(uf.sets.root, colour)
    requires Respected(uf.variants, Key, colour) && Respected(uf.variants, SortedKey, colour)
    modifies uf, uf.sets
    ensures uf.Ok() && Linked(uf.variants, uf.View())
    ensures Coarser(old(uf.View()), uf.View()) && uf.rejected == old(uf.rejected)
    ensures |Roots(uf.sets.root)| + merges == old(|Roots(uf.sets.root)|)
    ensures forall i: nat, j: nat ::
      Alike(uf.variants, Key, i, j) || Alike(uf.variants, SortedKey, i, j) ==>
        Same(uf.View(), i, j) || ItemGuard(uf.variants, uf.View(), i, j).Some?
    ensures Finer(uf.sets.root, colour)
    ensures RowsApart(uf.variants, uf.View(), rows)
  {
    merges, rows := MergeAlike(uf, Key, colour);
    ghost var s := uf.View();
    var merged, more := MergeAlike(uf, SortedKey, colour);
    ghost var t := uf.View();
    RowsStayApart(uf.variants, s, t, rows);
    CoarserTransitive(old(uf.View()), s, t);
    merges := merges + merged;
    rows := rows + more;
    forall i: nat, j: nat | Alike(uf.variants, Key, i, j) || Alike(uf.variants, SortedKey, i, j)
      ensures Same(t, i, j) || ItemGuard(uf.variants, t, i, j).Some?
    {
      if Alike(uf.variants, Key, i, j) {
        SettledPersists(uf.variants, s, t, i, j);
      }
      GuardIsCompleteLinkage(uf.variants, t, i, j);
    }
  }
}
