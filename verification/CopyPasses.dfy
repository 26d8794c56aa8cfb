/** The three passes over the records, merging copies into the record that stays. */
module CopyPasses {
  import opened Wrappers
  import opened Copies
  import opened CopyTrace
  import opened Inheritance
  import Sorting

  /** The records in the three passes: as they came, their contents, and what was dropped. */
  class Resolver {
    ghost const origin: seq<Record>
    var store: seq<Record>
    var dropped: seq<Drop>

    constructor (records: seq<Record>)
      ensures origin == store == records && dropped == [] && Inherited(origin, store, dropped)
    {
      origin, store, dropped := records, records, [];
      new;
      NothingInherited(records);
    }

    method FitsIn(r: nat, cluster: seq<nat>) returns (fits: bool)
      requires r < |store| && AllBelow(cluster, |store|)
      ensures fits <==> Fits(store, r, cluster)
    {
      for k := 0 to |cluster|
        invariant forall l :: 0 <= l < k ==> SameRequest(store[r], store[cluster[l]])
      {
        if !SameRequest(store[r], store[cluster[k]]) {
          return false;
        }
      }
      fits := true;
    }

    method FindCluster(r: nat, clusters: seq<seq<nat>>) returns (c: nat)
      requires r < |store| && forall d :: 0 <= d < |clusters| ==> AllBelow(clusters[d], |store|)
      ensures c <= |clusters| && (c < |clusters| ==> Fits(store, r, clusters[c]))
      ensures forall d :: 0 <= d < c ==> !Fits(store, r, clusters[d])
    {
      c := 0;
      while c < |clusters|
        invariant c <= |clusters|
        invariant forall d :: 0 <= d < c ==> !Fits(store, r, clusters[d])
      {
        var fits := FitsIn(r, clusters[c]);
        if fits {
          return;
        }
        c := c + 1;
      }
    }

    /** Each record of a group, by rank, joins the first cluster all of whose members may answer its request. */
    method FormClusters(group: seq<nat>) returns (clusters: seq<seq<nat>>)
      requires AllBelow(group, |store|)
      ensures Clustered(store, group, clusters)
    {
      var sorted := Sorting.Sort(ByRank(store), group);
      SortedByRank(store, group);
      clusters := [];
      for i := 0 to |sorted|
        invariant Forming(store, sorted, i, clusters)
      {
        FormingBelow(store, sorted, i, clusters);
        var c := FindCluster(sorted[i], clusters);
        FormingNext(store, sorted, i, clusters, c);
        if c < |clusters| {
          clusters := clusters[c := clusters[c] + [sorted[i]]];
        } else {
          clusters := clusters + [[sorted[i]]];
        }
      }
      FormingDone(store, group, sorted, clusters);
    }

    /** Merges one record into another. */
    method Merge(keep: nat, drop: nat, reason: Reason)
      requires keep < |store| && drop < |store| && Inherited(origin, store, dropped)
      modifies this
      ensures store == old(store)[keep := Absorb(old(store)[keep], old(store)[drop])]
      ensures dropped == old(dropped) + [Drop(drop, Some(keep), reason)] && Inherited(origin, store, dropped)
    {
      MergeInherits(origin, store, dropped, keep, drop, reason);
      store := store[keep := Absorb(store[keep], store[drop])];
      dropped := dropped + [Drop(drop, Some(keep), reason)];
    }

    /** The records of one content together, in the order of their first. */
    method GroupByContent(records: seq<nat>) returns (groups: seq<seq<nat>>)
      requires AllBelow(records, |store|)
      ensures ContentGroups(store, records, groups)
    {
      groups := [];
      for i := 0 to |records|
        invariant ContentGroups(store, records[..i], groups)
      {
        var r := records[i];
        assert records[..i + 1] == records[..i] + [r];
        var g := FindGroup(records[..i], r, groups);
        if g < |groups| {
          GroupMore(store, records[..i], groups, g, r);
          groups := groups[g := groups[g] + [r]];
        } else {
          GroupNew(store, records[..i], groups, r);
          groups := groups + [[r]];
        }
      }
      assert records[..|records|] == records;
    }

    method FindGroup(ghost given: seq<nat>, r: nat, groups: seq<seq<nat>>) returns (g: nat)
      requires r < |store| && ContentGroups(store, given, groups)
      ensures g <= |groups|
      ensures g < |groups| ==>
        groups[g] != [] && AllBelow(groups[g], |store|) && SameContent(store[groups[g][0]], store[r])
      ensures g == |groups| ==> forall h :: 0 <= h < |groups| ==> OtherContent(store, groups[h], [r])
    {
      g := 0;
      while g < |groups|
        invariant g <= |groups|
        invariant forall h :: 0 <= h < g ==> OtherContent(store, groups[h], [r])
      {
        assert groups[g] != [];
        if SameContent(store[groups[g][0]], store[r]) {
          return;
        }
        g := g + 1;
      }
    }

    /** The first of a cluster stays, the others are merged into it. */
    method MergeCluster(cluster: seq<nat>, ghost before: seq<Record>, ghost given: seq<nat>, ghost kept: seq<nat>,
        ghost drops: seq<Drop>)
      requires Passed(before, store, given, kept, drops) && Once(given + cluster)
      requires cluster != [] && AllBelow(cluster, |store|) && Inherited(origin, store, dropped)
      modifies this
      ensures Passed(before, store, given + cluster, kept + [cluster[0]], drops + ClusterDrops(cluster))
      ensures dropped == old(dropped) + ClusterDrops(cluster) && Inherited(origin, store, dropped)
    {
      var head := cluster[0];
      var all := ClusterDrops(cluster);
      MergeStart(before, store, given, kept, drops, cluster);
      assert old(dropped) + all[..0] == old(dropped);
      for k := 1 to |cluster|
        invariant Passed(before, store, given + cluster[..k], kept + [head], drops + all[..k - 1])
        invariant dropped == old(dropped) + all[..k - 1] && Inherited(origin, store, dropped)
      {
        MergeStep(before, store, given, kept, drops, cluster, k);
        Merge(head, cluster[k], IdenticalCopy);
        OneMore(old(dropped), all, k - 1);
      }
      assert cluster[..|cluster|] == cluster && all[..|cluster| - 1] == all;
    }

    method MergeClusters(clusters: seq<seq<nat>>, ghost before: seq<Record>, ghost given: seq<nat>,
        ghost kept: seq<nat>, ghost drops: seq<Drop>)
      requires Passed(before, store, given, kept, drops) && Once(given + Flat(clusters))
      requires NoneEmpty(clusters) && forall c :: 0 <= c < |clusters| ==> AllBelow(clusters[c], |store|)
      requires Inherited(origin, store, dropped)
      modifies this
      ensures Passed(before, store, given + Flat(clusters), kept + Heads(clusters), drops + AllDrops(clusters))
      ensures dropped == old(dropped) + AllDrops(clusters) && Inherited(origin, store, dropped)
    {
      Sizes(before, store, given, kept, drops);
      NoClusters(given, kept, drops, old(dropped), clusters);
      for c := 0 to |clusters|
        invariant |store| == |before|
        invariant Passed(before, store, given + Flat(clusters[..c]), kept + Heads(clusters[..c]),
          drops + AllDrops(clusters[..c]))
        invariant dropped == old(dropped) + AllDrops(clusters[..c]) && Inherited(origin, store, dropped)
      {
        OncePrefix(given, clusters, c);
        MergeCluster(clusters[c], before, given + Flat(clusters[..c]), kept + Heads(clusters[..c]),
          drops + AllDrops(clusters[..c]));
        OneMoreCluster(given, kept, drops, old(dropped), clusters, c);
        Sizes(before, store, given + Flat(clusters[..c + 1]), kept + Heads(clusters[..c + 1]),
          drops + AllDrops(clusters[..c + 1]));
      }
      assert clusters[..|clusters|] == clusters;
    }

    /** One record for each cluster of copies: same content, requests that may be one. */
    method DropIdentical(records: seq<nat>) returns (kept: seq<nat>, ghost clusters: seq<seq<nat>>)
      requires AllBelow(records, |store|) && Once(records) && Inherited(origin, store, dropped)
      modifies this
      ensures Inherited(origin, store, dropped)
      ensures AllClusters(old(store), records, clusters) && NoneEmpty(clusters)
      ensures kept == Heads(clusters) && dropped == old(dropped) + AllDrops(clusters)
      ensures Passed(old(store), store, records, kept, AllDrops(clusters))
    {
      ghost var before := store;
      var groups := GroupByContent(records);
      kept, clusters := [], [];
      NothingYet(store);
      for g := 0 to |groups|
        invariant NoneEmpty(clusters) && kept == Heads(clusters) && dropped == old(dropped) + AllDrops(clusters)
        invariant SoFar(before, store, groups, g, clusters) && Inherited(origin, store, dropped)
      {
        ghost var given, drops := Flat(groups[..g]), AllDrops(clusters);
        GroupReady(before, store, records, groups, g, clusters);
        var formed := FormClusters(groups[g]);
        FormedReady(before, store, given, groups[g], formed);
        MergeClusters(formed, before, given, kept, drops);
        GroupDone(before, store, records, groups, g, clusters, formed);
        DropsSoFar(old(dropped), clusters, formed);
        kept := kept + Heads(formed);
        clusters := clusters + formed;
      }
      AllDone(before, store, records, groups, clusters);
    }

    /** Leaves out revision sheets that only repeat another client's quotation. */
    method DropStale(records: seq<nat>) returns (kept: seq<nat>, ghost drops: seq<Drop>)
      requires AllBelow(records, |store|) && Once(records) && Inherited(origin, store, dropped)
      modifies this`dropped
      ensures Inherited(origin, store, dropped)
      ensures Passed(store, store, records, kept, drops) && dropped == old(dropped) + drops
      ensures OnlyStale(store, records, drops) && NoneStale(store, records, kept)
    {
      kept, drops := [], [];
      NothingYet(store);
      for i := 0 to |records|
        invariant StaleSoFar(store, records, i, kept, drops) && dropped == old(dropped) + drops
        invariant Inherited(origin, store, dropped)
      {
        var stale := IsStale(records, records[i]);
        StaleNext(store, records, i, kept, drops, stale);
        if stale {
          LeavingOutInherits(origin, store, dropped, Drop(records[i], None, StaleSheet));
          dropped := dropped + [Drop(records[i], None, StaleSheet)];
          drops := drops + [Drop(records[i], None, StaleSheet)];
        } else {
          kept := kept + [records[i]];
        }
      }
      assert records[..|records|] == records;
    }

    method IsStale(records: seq<nat>, r: nat) returns (stale: bool)
      requires AllBelow(records, |store|) && r < |store|
      ensures stale <==> Stale(store, records, r)
    {
      if !store[r].sheet {
        return false;
      }
      for k := 0 to |records|
        invariant forall l :: 0 <= l < k ==> !Repeats(store, records[l], r)
      {
        if Repeats(store, records[k], r) {
          return true;
        }
      }
      stale := false;
    }

    /** Merges print exports into the first record, by rank, that they print. */
    method DropPrintExports(records: seq<nat>) returns (kept: seq<nat>, ghost drops: seq<Drop>)
      requires AllBelow(records, |store|) && Once(records) && Inherited(origin, store, dropped)
      modifies this
      ensures Inherited(origin, store, dropped)
      ensures Passed(old(store), store, records, kept, drops) && dropped == old(dropped) + drops
      ensures AllPrints(old(store), drops) && NoCopyOfPrint(old(store), kept)
      ensures InRank(old(store), kept) && FirstPrints(old(store), kept, drops)
    {
      ghost var before := store;
      var sorted := Sorting.Sort(ByRank(store), records);
      SortedOnce(store, records);
      kept, drops := TakePrints(sorted);
      SortedInRank(before, kept);
      SamePass(before, store, sorted, records, kept, drops);
    }

    method TakePrints(sorted: seq<nat>) returns (kept: seq<nat>, ghost drops: seq<Drop>)
      requires AllBelow(sorted, |store|) && Once(sorted) && Sorting.Sorted(ByRank(store), sorted)
      requires Inherited(origin, store, dropped)
      modifies this
      ensures Inherited(origin, store, dropped)
      ensures Passed(old(store), store, sorted, kept, drops) && dropped == old(dropped) + drops
      ensures AllPrints(old(store), drops) && NoCopyOfPrint(old(store), kept)
      ensures Sorting.Sorted(ByRank(old(store)), kept) && FirstPrints(old(store), kept, drops)
    {
      ghost var before, was := store, dropped;
      kept, drops := [], [];
      NothingYet(store);
      for i := 0 to |sorted|
        invariant Passed(before, store, sorted[..i], kept, drops) && dropped == was + drops
        invariant AllPrints(before, drops) && NoCopyOfPrint(before, kept)
        invariant InRankSoFar(before, sorted, i, kept) && FirstPrints(before, kept, drops)
        invariant Inherited(origin, store, dropped)
      {
        kept, drops := TakePrint(sorted, i, before, kept, drops, was);
      }
      assert sorted[..|sorted|] == sorted;
    }

    /** One record's turn: merged into the first kept one it prints, if it is an export, or kept. */
    method TakePrint(sorted: seq<nat>, i: nat, ghost before: seq<Record>, kept: seq<nat>, ghost drops: seq<Drop>,
        ghost was: seq<Drop>)
      returns (more: seq<nat>, ghost moreDrops: seq<Drop>)
      requires i < |sorted| && Once(sorted) && AllBelow(sorted, |before|) && dropped == was + drops
      requires Sorting.Sorted(ByRank(before), sorted)
      requires Passed(before, store, sorted[..i], kept, drops) && AllPrints(before, drops) &&
        NoCopyOfPrint(before, kept)
      requires InRankSoFar(before, sorted, i, kept) && FirstPrints(before, kept, drops)
      requires Inherited(origin, store, dropped)
      modifies this
      ensures Inherited(origin, store, dropped)
      ensures Passed(before, store, sorted[..i + 1], more, moreDrops) && NoCopyOfPrint(before, more)
      ensures AllPrints(before, moreDrops) && dropped == was + moreDrops
      ensures InRankSoFar(before, sorted, i + 1, more) && FirstPrints(before, more, moreDrops)
    {
      var r := sorted[i];
      FreshAt(sorted, i);
      KeptBelow(before, store, sorted[..i], kept, drops);
      PrintsAsBefore(before, store, sorted[..i], kept, drops, r);
      var k := FindPrint(kept, r);
      if store[r].kind == PrintOnly && k < |kept| {
        DroppedInto(before, store, sorted[..i], kept, drops, kept[k], r, PrintExport);
        Merge(kept[k], r, PrintExport);
        more, moreDrops := kept, drops + [Drop(r, Some(kept[k]), PrintExport)];
        FirstPrintsMore(before, kept, drops, k, r, PrintExport);
        Regroup(was, drops, [Drop(r, Some(kept[k]), PrintExport)]);
      } else {
        Kept(before, store, sorted[..i], kept, drops, r);
        more, moreDrops := kept + [r], drops;
        NoPrintBefore(before, sorted, i, kept);
        FirstPrintsStay(before, kept, drops, r);
      }
    }

    method FindPrint(kept: seq<nat>, r: nat) returns (k: nat)
      requires AllBelow(kept, |store|) && r < |store|
      ensures k <= |kept| && (k < |kept| ==> SamePrint(store[kept[k]], store[r]))
      ensures forall l :: 0 <= l < k ==> !SamePrint(store[kept[l]], store[r])
    {
      k := 0;
      while k < |kept| && !SamePrint(store[kept[k]], store[r])
        invariant k <= |kept|
        invariant forall l :: 0 <= l < k ==> !SamePrint(store[kept[l]], store[r])
      {
        k := k + 1;
      }
    }

    /** The three passes, one after the other. Each record that stays has the first vessel and the
        first reference of those merged into it. */
    method ResolveCopies(records: seq<nat>) returns (kept: seq<nat>, ghost work: Work)
      requires AllBelow(records, |store|) && Once(records) && dropped == [] && store == origin
      modifies this
      ensures Inherited(old(store), store, dropped)
      ensures Traced(old(store), store, records, kept, dropped)
      ensures Resolved(old(store), store, records, kept, dropped, work)
    {
      ghost var before := store;
      NothingInherited(store);
      var current, some;
      ghost var stale, clusters, prints;
      current, stale := DropStale(records);
      StillOnce(before, before, records, current, stale);
      some, clusters := DropIdentical(current);
      ghost var middle := store;
      StillOnce(before, middle, current, some, AllDrops(clusters));
      kept, prints := DropPrintExports(some);
      PassesTraced(before, middle, store, records, current, some, kept, stale, clusters, prints);
      assert [] + stale == stale;
      Regroup(stale, AllDrops(clusters), prints);
      PrintsUnmoved(before, middle, current, some, AllDrops(clusters), kept, prints);
      work := Work(current, clusters, middle, prints, stale);
    }
  }

  /** What the passes worked on: the records past the first, the clusters of the second and the
      contents it left, and the drops of the last and the first. */
  datatype Work = Work(current: seq<nat>, clusters: seq<seq<nat>>, merged: seq<Record>, prints: seq<Drop>,
    stale: seq<Drop>)

  /** Exactly the stale sheets go first; then one record of each cluster of copies stays; then each
      export goes into the first kept record, by rank, that it prints, and one that is kept prints no
      other kept record. */
  ghost predicate Resolved(before: seq<Record>, after: seq<Record>, records: seq<nat>, kept: seq<nat>,
      dropped: seq<Drop>, w: Work) {
    && NoneEmpty(w.clusters) && dropped == w.stale + (AllDrops(w.clusters) + w.prints)
    && multiset(records) == multiset(w.current) + multiset(Ids(w.stale))
    && OnlyStale(before, records, w.stale) && NoneStale(before, records, w.current)
    && AllClusters(before, w.current, w.clusters)
    && Inherited(before, w.merged, w.stale + AllDrops(w.clusters)) && InRank(w.merged, kept)
    && multiset(Heads(w.clusters)) == multiset(kept) + multiset(Ids(w.prints))
    && AllPrints(before, w.prints) && NoCopyOfPrint(before, kept) && FirstPrints(before, kept, w.prints)
  }

  /** What prints what is the same before and after the copies are merged. */
  lemma PrintsUnmoved(before: seq<Record>, middle: seq<Record>, given: seq<nat>, some: seq<nat>, drops: seq<Drop>,
      kept: seq<nat>, prints: seq<Drop>)
    requires Passed(before, middle, given, some, drops)
    requires AllPrints(middle, prints) && NoCopyOfPrint(middle, kept) && FirstPrints(middle, kept, prints)
    ensures AllPrints(before, prints) && NoCopyOfPrint(before, kept) && FirstPrints(before, kept, prints)
  {
    forall d | 0 <= d < |prints|
      ensures FirstPrint(before, kept, prints[d])
    {
      FirstPrintUnmoved(before, middle, given, some, drops, kept, prints[d]);
    }
    forall k | 0 <= k < |prints|
      ensures PrintDrop(before, prints[k])
    {
      var d := prints[k];
      assert PrintDrop(middle, d);
      SameFixedPrint(middle[d.kept.value], before[d.kept.value], middle[d.id], before[d.id]);
      KindKept(before, middle, given, some, drops, d.id);
    }
    forall i, j | 0 <= i < |kept| && 0 <= j < |kept| && i != j && kept[i] < |before| && kept[j] < |before| &&
      before[kept[j]].kind == PrintOnly
      ensures !SamePrint(before[kept[i]], before[kept[j]])
    {
      SameFixedPrint(middle[kept[i]], before[kept[i]], middle[kept[j]], before[kept[j]]);
      KindKept(before, middle, given, some, drops, kept[j]);
    }
  }

  lemma FirstPrintUnmoved(before: seq<Record>, middle: seq<Record>, given: seq<nat>, some: seq<nat>, drops: seq<Drop>,
      kept: seq<nat>, d: Drop)
    requires Passed(before, middle, given, some, drops) && FirstPrint(middle, kept, d)
    ensures FirstPrint(before, kept, d)
  {
    var k :| 0 <= k < |kept| && d.kept == Some(kept[k]) && NoneBefore(middle, kept, k, d.id);
    forall l | 0 <= l < k && kept[l] < |before|
      ensures !SamePrint(before[kept[l]], before[d.id])
    {
      SameFixedPrint(middle[kept[l]], before[kept[l]], middle[d.id], before[d.id]);
    }
    assert NoneBefore(before, kept, k, d.id);
  }

  lemma SortedOnce(store: seq<Record>, records: seq<nat>)
    requires AllBelow(records, |store|) && Once(records)
    ensures var sorted := Sorting.Sort(ByRank(store), records);
      AllBelow(sorted, |store|) && Once(sorted) && Sorting.Sorted(ByRank(store), sorted)
  {
    SortedByRank(store, records);
    var sorted := Sorting.Sort(ByRank(store), records);
    SameMembers(records, sorted, |store|);
    OnceLess(sorted, records);
  }

  lemma StillOnce(before: seq<Record>, after: seq<Record>, given: seq<nat>, kept: seq<nat>, drops: seq<Drop>)
    requires Passed(before, after, given, kept, drops) && Once(given)
    ensures Once(kept) && AllBelow(kept, |after|) && |after| == |before|
  {
    DropsOnce(before, after, given, kept, drops);
    forall k | 0 <= k < |kept|
      ensures kept[k] < |after|
    {
      assert kept[k] in kept;
    }
  }

  lemma PassesTraced(before: seq<Record>, middle: seq<Record>, after: seq<Record>, all: seq<nat>, given: seq<nat>,
      some: seq<nat>, kept: seq<nat>,
                     stale: seq<Drop>, clusters: seq<seq<nat>>, prints: seq<Drop>)
    requires Passed(before, before, all, given, stale) && OnlyStale(before, all, stale) && Once(given)
    requires NoneEmpty(clusters) && AllClusters(before, given, clusters) &&
      Passed(before, middle, given, some, AllDrops(clusters))
    requires Passed(middle, after, some, kept, prints) && AllPrints(middle, prints)
    ensures Traced(before, after, all, kept, stale + (AllDrops(clusters) + prints))
  {
    forall i: nat, m: nat {:trigger DropsInto(AllDrops(clusters), i, m)} | DropsInto(AllDrops(clusters), i, m)
      ensures i < |before| && m < |before| && (before[i].kind == DataEntry ==> before[m].kind == DataEntry)
    {
      ClustersIntoDataEntry(before, clusters, i, m);
    }
    forall k | 0 <= k < |prints|
      ensures prints[k].kept.Some? && prints[k].id < |before| && before[prints[k].id].kind == PrintOnly
    {
      assert PrintDrop(middle, prints[k]);
      KindKept(before, middle, given, some, AllDrops(clusters), prints[k].id);
    }
    TwoTraced(before, middle, after, given, some, kept, AllDrops(clusters), prints);
    TracedAfterStale(before, after, all, given, kept, stale, AllDrops(clusters) + prints);
  }

  lemma KindKept(before: seq<Record>, after: seq<Record>, given: seq<nat>, kept: seq<nat>, drops: seq<Drop>, i: nat)
    requires Passed(before, after, given, kept, drops) && i < |after|
    ensures i < |before| && after[i].kind == before[i].kind
  {
    SameFixedPrint(after[i], before[i], after[i], before[i]);
  }

  lemma PrintsAsBefore(before: seq<Record>, after: seq<Record>, given: seq<nat>, kept: seq<nat>, drops: seq<Drop>,
      r: nat)
    requires Passed(before, after, given, kept, drops) && r < |after| && AllBelow(kept, |after|)
    ensures |before| == |after| && after[r].kind == before[r].kind
    ensures forall k :: 0 <= k < |kept| ==> SamePrint(after[kept[k]], after[r]) == SamePrint(before[kept[k]], before[r])
  {
    forall k | 0 <= k < |kept|
      ensures SamePrint(after[kept[k]], after[r]) == SamePrint(before[kept[k]], before[r])
    {
      SameFixedPrint(after[kept[k]], before[kept[k]], after[r], before[r]);
    }
    KindKept(before, after, given, kept, drops, r);
  }

  lemma KeptBelow(before: seq<Record>, after: seq<Record>, given: seq<nat>, kept: seq<nat>, drops: seq<Drop>)
    requires Passed(before, after, given, kept, drops)
    ensures AllBelow(kept, |after|) && |before| == |after| && forall k :: 0 <= k < |kept| ==> kept[k] in kept
  {
    GivenParts(before, after, given, kept, drops);
    forall k | 0 <= k < |kept|
      ensures kept[k] < |after|
    {
      assert kept[k] in kept;
    }
  }

  lemma FreshAt(xs: seq<nat>, i: nat)
    requires Once(xs) && i < |xs|
    ensures xs[i] !in xs[..i] && xs[..i + 1] == xs[..i] + [xs[i]]
  {
    assert xs == xs[..i] + xs[i..] && xs[i..][0] == xs[i];
    OnceParts(xs[..i], xs[i..]);
  }

  /** The first records looked through for stale sheets. */
  ghost predicate StaleSoFar(store: seq<Record>, records: seq<nat>, i: nat, kept: seq<nat>, drops: seq<Drop>) {
    && i <= |records| && Passed(store, store, records[..i], kept, drops)
    && OnlyStale(store, records, drops) && NoneStale(store, records, kept)
  }

  lemma StaleNext(store: seq<Record>, records: seq<nat>, i: nat, kept: seq<nat>, drops: seq<Drop>, stale: bool)
    requires AllBelow(records, |store|) && Once(records) && i < |records|
    requires StaleSoFar(store, records, i, kept, drops) && (stale <==> Stale(store, records, records[i]))
    ensures if stale then StaleSoFar(store, records, i + 1, kept, drops + [Drop(records[i], None, StaleSheet)])
      else StaleSoFar(store, records, i + 1, kept + [records[i]], drops)
  {
    FreshAt(records, i);
    if stale {
      DroppedStale(store, store, records[..i], kept, drops, records[i]);
    } else {
      Kept(store, store, records[..i], kept, drops, records[i]);
    }
  }

  /** The records kept so far stand in rank order, each at or before its place in the sorted list. */
  ghost predicate InRankSoFar(store: seq<Record>, sorted: seq<nat>, i: nat, kept: seq<nat>) {
    && i <= |sorted| && Sorting.Sorted(ByRank(store), kept)
    && forall k :: 0 <= k < |kept| ==> kept[k] in sorted[..i]
  }

  /** A record that is no export, or prints no kept record, may be kept: before an export stand data
      entries and exports, behind it exports alone. */
  lemma NoPrintBefore(store: seq<Record>, sorted: seq<nat>, i: nat, kept: seq<nat>)
    requires i < |sorted| && AllBelow(sorted, |store|) && Sorting.Sorted(ByRank(store), sorted)
    requires InRankSoFar(store, sorted, i, kept) && NoCopyOfPrint(store, kept) && AllBelow(kept, |store|)
    requires store[sorted[i]].kind == PrintOnly ==> forall k :: 0 <= k < |kept| ==>
      !SamePrint(store[kept[k]], store[sorted[i]])
    ensures NoCopyOfPrint(store, kept + [sorted[i]]) && InRankSoFar(store, sorted, i + 1, kept + [sorted[i]])
  {
    var r := sorted[i];
    var more := kept + [r];
    assert sorted[..i + 1] == sorted[..i] + [r];
    forall k | 0 <= k < |kept|
      ensures !ByRank(store)(r, kept[k])
    {
      var j :| 0 <= j < i && sorted[j] == kept[k];
    }
    forall a, b | 0 <= a < |more| && 0 <= b < |more| && a != b && store[more[b]].kind == PrintOnly
      ensures !SamePrint(store[more[a]], store[more[b]])
    {
      if a == |kept| {
        assert !ByRank(store)(r, kept[b]);
        SamePrintSymmetric(store[r], store[kept[b]]);
      }
    }
  }

  /** The groups done so far. */
  ghost predicate SoFar(before: seq<Record>, after: seq<Record>, groups: seq<seq<nat>>, g: nat,
      clusters: seq<seq<nat>>) {
    && g <= |groups| && NoneEmpty(clusters)
    && AllClusters(before, Flat(groups[..g]), clusters)
    && Passed(before, after, Flat(groups[..g]), Heads(clusters), AllDrops(clusters))
  }

  lemma GroupReady(before: seq<Record>, after: seq<Record>, records: seq<nat>, groups: seq<seq<nat>>, g: nat,
      clusters: seq<seq<nat>>)
    requires SoFar(before, after, groups, g, clusters) && g < |groups| && ContentGroups(before, records, groups) &&
      Once(records)
    ensures |after| == |before| && AllBelow(groups[g], |before|) && Once(Flat(groups[..g]) + groups[g])
    ensures forall i :: i in groups[g] ==> i < |after| && after[i] == before[i]
    ensures Passed(before, after, Flat(groups[..g]), Heads(clusters), AllDrops(clusters))
  {
    OnceGroups(records, groups, g);
    assert groups[g] != [];
    Untouched(before, after, Flat(groups[..g]), Heads(clusters), AllDrops(clusters), groups[g]);
  }

  lemma GroupDone(before: seq<Record>, after: seq<Record>, records: seq<nat>, groups: seq<seq<nat>>, g: nat,
      clusters: seq<seq<nat>>, formed: seq<seq<nat>>)
    requires g < |groups| && ContentGroups(before, records, groups) && NoneEmpty(clusters) && NoneEmpty(formed)
    requires AllClusters(before, Flat(groups[..g]), clusters) && Clustered(before, groups[g], formed)
    requires Passed(before, after, Flat(groups[..g]) + Flat(formed), Heads(clusters) + Heads(formed),
      AllDrops(clusters) + AllDrops(formed))
    ensures SoFar(before, after, groups, g + 1, clusters + formed)
  {
    MoreClusters(before, records, groups, g, clusters, formed);
    DropsAppend(clusters, formed);
    HeadsAppend(clusters, formed);
    GroupMembers(groups, g, formed);
    SamePass(before, after, Flat(groups[..g]) + Flat(formed), Flat(groups[..g + 1]), Heads(clusters + formed),
      AllDrops(clusters + formed));
  }

  lemma GroupMembers(groups: seq<seq<nat>>, g: nat, formed: seq<seq<nat>>)
    requires g < |groups| && multiset(groups[g]) == multiset(Flat(formed))
    ensures multiset(Flat(groups[..g]) + Flat(formed)) == multiset(Flat(groups[..g + 1]))
  {
    assert groups[..g + 1][..g] == groups[..g];
  }

  lemma DropsSoFar(was: seq<Drop>, clusters: seq<seq<nat>>, formed: seq<seq<nat>>)
    requires NoneEmpty(clusters) && NoneEmpty(formed)
    ensures NoneEmpty(clusters + formed) && Heads(clusters + formed) == Heads(clusters) + Heads(formed)
    ensures (was + AllDrops(clusters)) + AllDrops(formed) == was + AllDrops(clusters + formed)
  {
    DropsAppend(clusters, formed);
    HeadsAppend(clusters, formed);
    Regroup(was, AllDrops(clusters), AllDrops(formed));
  }

  lemma AllDone(before: seq<Record>, after: seq<Record>, records: seq<nat>, groups: seq<seq<nat>>,
      clusters: seq<seq<nat>>)
    requires SoFar(before, after, groups, |groups|, clusters) && multiset(records) == multiset(Flat(groups))
    ensures AllClusters(before, records, clusters) &&
      Passed(before, after, records, Heads(clusters), AllDrops(clusters))
  {
    assert groups[..|groups|] == groups;
    SamePass(before, after, Flat(groups), records, Heads(clusters), AllDrops(clusters));
  }

  lemma MergeStart(before: seq<Record>, after: seq<Record>, given: seq<nat>, kept: seq<nat>, drops: seq<Drop>,
      cluster: seq<nat>)
    requires Passed(before, after, given, kept, drops) && Once(given + cluster) && cluster != [] &&
      cluster[0] < |before|
    ensures Passed(before, after, given + cluster[..1], kept + [cluster[0]], drops + ClusterDrops(cluster)[..0])
  {
    OnceNext(given, cluster, 0);
    assert given + cluster[..0] == given && given + cluster[..1] == given + [cluster[0]];
    assert drops + ClusterDrops(cluster)[..0] == drops;
    Kept(before, after, given, kept, drops, cluster[0]);
  }

  lemma MergeStep(before: seq<Record>, after: seq<Record>, given: seq<nat>, kept: seq<nat>, drops: seq<Drop>,
      cluster: seq<nat>, k: nat)
    requires 0 < k < |cluster| && Once(given + cluster) && cluster[0] < |after| && cluster[k] < |after|
    requires Passed(before, after, given + cluster[..k], kept + [cluster[0]], drops + ClusterDrops(cluster)[..k - 1])
    ensures Passed(before, after[cluster[0] := Absorb(after[cluster[0]], after[cluster[k]])],
      given + cluster[..k + 1], kept + [cluster[0]], drops + ClusterDrops(cluster)[..k])
  {
    OnceNext(given, cluster, k);
    DroppedInto(before, after, given + cluster[..k], kept + [cluster[0]], drops + ClusterDrops(cluster)[..k - 1],
      cluster[0], cluster[k], IdenticalCopy);
    OneMore(given, cluster, k);
    OneMore(drops, ClusterDrops(cluster), k - 1);
  }

  lemma OneMore<T>(before: seq<T>, xs: seq<T>, k: nat)
    requires k < |xs|
    ensures before + xs[..k] + [xs[k]] == before + xs[..k + 1]
  {
  }

  lemma Sizes(before: seq<Record>, after: seq<Record>, given: seq<nat>, kept: seq<nat>, drops: seq<Drop>)
    requires Passed(before, after, given, kept, drops)
    ensures |after| == |before|
  {
  }

  lemma NoClusters(given: seq<nat>, kept: seq<nat>, drops: seq<Drop>, was: seq<Drop>, clusters: seq<seq<nat>>)
    requires NoneEmpty(clusters)
    ensures given + Flat(clusters[..0]) == given && kept + Heads(clusters[..0]) == kept
    ensures drops + AllDrops(clusters[..0]) == drops && was + AllDrops(clusters[..0]) == was
  {
  }

  lemma OneMoreCluster(given: seq<nat>, kept: seq<nat>, drops: seq<Drop>, was: seq<Drop>, clusters: seq<seq<nat>>,
      c: nat)
    requires NoneEmpty(clusters) && c < |clusters|
    ensures given + Flat(clusters[..c]) + clusters[c] == given + Flat(clusters[..c + 1])
    ensures kept + Heads(clusters[..c]) + [clusters[c][0]] == kept + Heads(clusters[..c + 1])
    ensures drops + AllDrops(clusters[..c]) + ClusterDrops(clusters[c]) == drops + AllDrops(clusters[..c + 1])
    ensures was + AllDrops(clusters[..c]) + ClusterDrops(clusters[c]) == was + AllDrops(clusters[..c + 1])
  {
    assert clusters[..c + 1][..c] == clusters[..c];
    assert AllDrops(clusters[..c + 1]) == AllDrops(clusters[..c]) + ClusterDrops(clusters[c]);
  }

  lemma OncePrefix(given: seq<nat>, clusters: seq<seq<nat>>, c: nat)
    requires Once(given + Flat(clusters)) && c < |clusters|
    ensures Once(given + Flat(clusters[..c]) + clusters[c])
  {
    assert clusters[..c + 1][..c] == clusters[..c];
    FlatSplit(clusters, c + 1);
    OnceLess(given + Flat(clusters[..c]) + clusters[c], given + Flat(clusters));
  }

  lemma OnceLess(xs: seq<nat>, ys: seq<nat>)
    requires multiset(xs) <= multiset(ys) && Once(ys)
    ensures Once(xs)
  {
    forall x
      ensures multiset(xs)[x] <= 1
    {
      assert multiset(xs)[x] <= multiset(ys)[x];
    }
  }

  lemma OnceGroups(records: seq<nat>, groups: seq<seq<nat>>, g: nat)
    requires multiset(records) == multiset(Flat(groups)) && Once(records) && g < |groups|
    ensures Once(Flat(groups[..g]) + groups[g])
  {
    assert groups[..g + 1][..g] == groups[..g];
    FlatSplit(groups, g + 1);
    OnceLess(Flat(groups[..g]) + groups[g], records);
  }

  /** Records not yet given are as they were. */
  lemma Untouched(before: seq<Record>, after: seq<Record>, given: seq<nat>, kept: seq<nat>, drops: seq<Drop>,
      group: seq<nat>)
    requires Passed(before, after, given, kept, drops) && Once(given + group) && AllBelow(group, |before|)
    ensures forall i :: i in group ==> i < |after| && after[i] == before[i]
  {
    OnceParts(given, group);
    GivenParts(before, after, given, kept, drops);
  }

  lemma FormedReady(before: seq<Record>, after: seq<Record>, given: seq<nat>, group: seq<nat>, clusters: seq<seq<nat>>)
    requires Clustered(after, group, clusters) && Once(given + group) && |before| == |after|
    requires forall i :: i in group ==> i < |after| && after[i] == before[i]
    ensures Clustered(before, group, clusters) && NoneEmpty(clusters) && Once(given + Flat(clusters))
    ensures forall c :: 0 <= c < |clusters| ==> AllBelow(clusters[c], |after|)
  {
    ClusteredSame(after, before, group, clusters);
    WholeBelow(after, clusters);
    forall c {:trigger clusters[c]} | 0 <= c < |clusters|
      ensures clusters[c] != []
    {
      assert Whole(after, clusters[c]);
    }
    OnceLess(given + Flat(clusters), given + group);
  }

  lemma SamePass(before: seq<Record>, after: seq<Record>, given: seq<nat>, other: seq<nat>, kept: seq<nat>,
      drops: seq<Drop>)
    requires Passed(before, after, given, kept, drops) && multiset(given) == multiset(other)
    ensures Passed(before, after, other, kept, drops)
  {
    forall i | 0 <= i < |other|
      ensures other[i] < |before|
    {
      assert other[i] in multiset(given);
      assert other[i] in given;
    }
  }
}
