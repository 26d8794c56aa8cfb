/** Dropping copies: stale sheets, identical records and print exports, each kept as one record with all its files. */
module Copies {
  import opened Wrappers
  import Requests
  import Sorting

  datatype Kind = DataEntry | PrintOnly

  datatype Vessel = Vessel(name: string, printed: bool)

  /** A record as the three passes see it. `lines` and `terms` stand for its lines' content and its
      date and discount, `rank` for the marks and path that order records of equal evidence, and
      `ref` for the printed reference if it can decide; `barred` marks a record none can decide for. */
  datatype Record = Record(
    kind: Kind, sheet: bool, client: string, terms: string, lines: string, digits: Option<string>, date: Option<string>,
    grand: Option<real>, boundTo: Option<nat>, costs: bool, rank: nat,
    ref: string, barred: bool, vessel: Option<Vessel>, files: seq<string>)

  datatype Reason = StaleSheet | IdenticalCopy | PrintExport

  datatype Drop = Drop(id: nat, kept: Option<nat>, reason: Reason)

  // The tests

  function SheetVessel(r: Record): string {
    if r.vessel.Some? && r.vessel.value.printed then r.vessel.value.name else ""
  }

  predicate SameRequest(a: Record, b: Record) {
    Requests.MayBeOne(a.ref, SheetVessel(a), b.ref, SheetVessel(b))
  }

  predicate SameContent(a: Record, b: Record) {
    a.client == b.client && a.terms == b.terms && a.lines == b.lines
  }

  /** Same printed number, date and grand total, to one rupiah. */
  predicate SamePrint(a: Record, b: Record) {
    && a.digits == b.digits && a.date == b.date
    && a.grand.Some? && b.grand.Some? && -1.0 <= a.grand.value - b.grand.value <= 1.0
  }

  /** How much a record proves on its own. */
  function Evidence(r: Record): nat {
    (if r.ref != "" then 1 else 0) + (if r.vessel.Some? && r.vessel.value.printed then 1 else 0)
    + (if r.costs then 1 else 0) + (if r.grand.Some? then 1 else 0)
  }

  /** Data entry first, then by evidence, then by marks and path. */
  predicate Outranks(a: Record, b: Record) {
    if (a.kind == DataEntry) != (b.kind == DataEntry) then a.kind == DataEntry
    else if Evidence(a) != Evidence(b) then Evidence(a) > Evidence(b)
    else a.rank < b.rank
  }

  // What the order means

  /** What a record can prove on its own. */
  datatype Proof = PrintedReference | KnownVessel | SomeCost | GrandTotal

  ghost function Proofs(r: Record): set<Proof> {
    (if r.ref != "" then {PrintedReference} else {})
    + (if r.vessel.Some? && r.vessel.value.printed then {KnownVessel} else {})
    + (if r.costs then {SomeCost} else {}) + (if r.grand.Some? then {GrandTotal} else {})
  }

  /** No export stands before data entry; of one kind the one with more proofs is first, and of equal
      ones the one marked less. */
  ghost predicate Precedes(a: Record, b: Record) {
    && (b.kind == DataEntry ==> a.kind == DataEntry)
    && (a.kind == b.kind ==>
          && |Proofs(a)| >= |Proofs(b)|
          && (|Proofs(a)| == |Proofs(b)| ==> a.rank <= b.rank))
  }

  lemma EvidenceCounts(r: Record)
    ensures Evidence(r) == |Proofs(r)|
  {
  }

  lemma RankPrecedes(a: Record, b: Record)
    ensures !Outranks(b, a) ==> Precedes(a, b)
  {
    EvidenceCounts(a);
    EvidenceCounts(b);
  }

  ghost predicate InRank(store: seq<Record>, xs: seq<nat>) {
    forall i, j :: 0 <= i < j < |xs| && xs[i] < |store| && xs[j] < |store| ==> Precedes(store[xs[i]], store[xs[j]])
  }

  lemma SortedInRank(store: seq<Record>, xs: seq<nat>)
    requires Sorting.Sorted(ByRank(store), xs)
    ensures InRank(store, xs)
  {
    forall i, j | 0 <= i < j < |xs| && xs[i] < |store| && xs[j] < |store|
      ensures Precedes(store[xs[i]], store[xs[j]])
    {
      assert !ByRank(store)(xs[j], xs[i]);
      RankPrecedes(store[xs[i]], store[xs[j]]);
    }
  }

  function ByRank(store: seq<Record>): (nat, nat) -> bool {
    (i: nat, j: nat) => i < |store| && (j < |store| ==> Outranks(store[i], store[j]))
  }

  // Merging one record into another

  function WithFiles(files: seq<string>, more: seq<string>): (r: seq<string>)
    decreases |more|
    ensures forall f :: f in r <==> f in files || f in more
  {
    if more == [] then files
    else
      var path := more[0];
      var next := if path in files then files else files + [path];
      WithFiles(next, more[1..])
  }

  /** The survivor takes the files, and the vessel and reference it lacks. */
  function Absorb(keep: Record, drop: Record): (r: Record)
    ensures forall f :: f in r.files <==> f in keep.files || f in drop.files
    ensures SameFixed(r, keep)
  {
    keep.(
      files := WithFiles(keep.files, drop.files),
      vessel := if keep.vessel.None? then drop.vessel else keep.vessel,
      ref := if keep.ref == "" && !keep.barred then drop.ref else keep.ref)
  }

  /** What merging never changes. */
  predicate SameFixed(a: Record, b: Record) {
    a.(files := b.files, vessel := b.vessel, ref := b.ref) == b
  }

  // What a pass does to the records it is given

  function Ids(drops: seq<Drop>): (r: seq<nat>)
    ensures |r| == |drops| && forall k :: 0 <= k < |r| ==> r[k] == drops[k].id
  {
    seq(|drops|, k requires 0 <= k < |drops| => drops[k].id)
  }

  predicate DropsInto(drops: seq<Drop>, i: nat, s: nat) {
    exists k :: 0 <= k < |drops| && drops[k].id == i && drops[k].kept == Some(s)
  }

  /** Of the records given, each is kept or dropped once; a kept one has its files and those of the
      records dropped into it. */
  ghost predicate Passed(before: seq<Record>, after: seq<Record>, given: seq<nat>, kept: seq<nat>, drops: seq<Drop>) {
    && |before| == |after|
    && multiset(given) == multiset(kept) + multiset(Ids(drops))
    && (forall i :: 0 <= i < |given| ==> given[i] < |before|)
    && (forall i :: 0 <= i < |before| ==> SameFixed(after[i], before[i]))
    && (forall i: nat :: i < |before| && i !in kept ==> after[i] == before[i])
    && (forall k :: 0 <= k < |drops| && drops[k].kept.Some? ==> drops[k].kept.value in kept)
    && (forall s: nat {:trigger HasFiles(before, after[s], drops, s)} :: s in kept && s < |after| ==>
      HasFiles(before, after[s], drops, s))
  }

  ghost predicate HasFiles(before: seq<Record>, r: Record, drops: seq<Drop>, s: nat)
    requires s < |before|
  {
    forall f :: f in r.files <==>
      f in before[s].files || exists i: nat :: i < |before| && DropsInto(drops, i, s) && f in before[i].files
  }

  lemma NothingYet(store: seq<Record>)
    ensures Passed(store, store, [], [], [])
  {
  }

  lemma GivenParts(before: seq<Record>, after: seq<Record>, given: seq<nat>, kept: seq<nat>, drops: seq<Drop>)
    requires Passed(before, after, given, kept, drops)
    ensures forall i :: i in given <==> i in kept || i in Ids(drops)
    ensures forall i :: i in kept ==> i < |before|
  {
    forall i
      ensures i in given <==> i in kept || i in Ids(drops)
    {
      assert i in given <==> i in multiset(given);
      assert i in kept <==> i in multiset(kept);
      assert i in Ids(drops) <==> i in multiset(Ids(drops));
    }
  }

  lemma Kept(before: seq<Record>, after: seq<Record>, given: seq<nat>, kept: seq<nat>, drops: seq<Drop>, r: nat)
    requires Passed(before, after, given, kept, drops) && r < |before| && r !in given
    ensures Passed(before, after, given + [r], kept + [r], drops)
  {
    GivenParts(before, after, given, kept, drops);
    forall i: nat
      ensures !DropsInto(drops, i, r)
    {
    }
    assert HasFiles(before, after[r], drops, r);
    assert multiset(given + [r]) == multiset(kept + [r]) + multiset(Ids(drops));
  }

  lemma DroppedInto(before: seq<Record>, after: seq<Record>, given: seq<nat>, kept: seq<nat>, drops: seq<Drop>,
      s: nat, r: nat, reason: Reason)
    requires Passed(before, after, given, kept, drops) && r < |before| && r !in given && s in kept && s < |before|
    ensures Passed(before, after[s := Absorb(after[s], after[r])], given + [r], kept,
      drops + [Drop(r, Some(s), reason)])
  {
    GivenParts(before, after, given, kept, drops);
    var next, more := after[s := Absorb(after[s], after[r])], drops + [Drop(r, Some(s), reason)];
    assert Ids(more) == Ids(drops) + [r];
    forall t: nat {:trigger next[t]} | t in kept && t < |next|
      ensures HasFiles(before, next[t], more, t)
    {
      assert HasFiles(before, after[t], drops, t);
      MoreFiles(before, after[t], drops, r, s, reason, t);
    }
  }

  lemma MoreFiles(before: seq<Record>, was: Record, drops: seq<Drop>, r: nat, s: nat, reason: Reason, t: nat)
    requires r < |before| && t < |before| && HasFiles(before, was, drops, t)
    ensures t != s ==> HasFiles(before, was, drops + [Drop(r, Some(s), reason)], t)
    ensures t == s ==> HasFiles(before, Absorb(was, before[r]), drops + [Drop(r, Some(s), reason)], t)
  {
    var more := drops + [Drop(r, Some(s), reason)];
    forall i: nat
      ensures DropsInto(more, i, t) <==> DropsInto(drops, i, t) || (i == r && t == s)
    {
      if i == r && t == s {
        assert more[|drops|].id == i;
      }
      if DropsInto(drops, i, t) {
        var k :| 0 <= k < |drops| && drops[k].id == i && drops[k].kept == Some(t);
        assert more[k] == drops[k];
      }
    }
  }

  lemma DroppedStale(before: seq<Record>, after: seq<Record>, given: seq<nat>, kept: seq<nat>, drops: seq<Drop>, r: nat)
    requires Passed(before, after, given, kept, drops) && r < |before| && r !in given
    ensures Passed(before, after, given + [r], kept, drops + [Drop(r, None, StaleSheet)])
  {
    GivenParts(before, after, given, kept, drops);
    var more := drops + [Drop(r, None, StaleSheet)];
    assert Ids(more) == Ids(drops) + [r];
    forall t: nat {:trigger after[t]} | t in kept && t < |after|
      ensures HasFiles(before, after[t], more, t)
    {
      forall i: nat
        ensures DropsInto(more, i, t) <==> DropsInto(drops, i, t)
      {
        if DropsInto(drops, i, t) {
          var k :| 0 <= k < |drops| && drops[k].id == i && drops[k].kept == Some(t);
          assert more[k] == drops[k];
        }
      }
      assert HasFiles(before, after[t], drops, t);
    }
  }

  // Clusters of identical records

  function Flat(xss: seq<seq<nat>>): seq<nat> {
    if xss == [] then [] else Flat(xss[..|xss| - 1]) + xss[|xss| - 1]
  }

  ghost predicate Fits(store: seq<Record>, r: nat, cluster: seq<nat>)
    requires r < |store|
  {
    forall k :: 0 <= k < |cluster| && cluster[k] < |store| ==> SameRequest(store[r], store[cluster[k]])
  }

  /** Every two answer one request, and the first precedes each. */
  ghost predicate Whole(store: seq<Record>, cluster: seq<nat>) {
    && cluster != [] && (forall k :: 0 <= k < |cluster| ==> cluster[k] < |store|)
    && (forall k, l :: 0 <= k < l < |cluster| ==> SameRequest(store[cluster[l]], store[cluster[k]]))
    && (forall k :: 0 <= k < |cluster| ==> Precedes(store[cluster[0]], store[cluster[k]]))
  }

  /** The clusters of a group: no later one could have started in an earlier one. */
  ghost predicate Clustered(store: seq<Record>, group: seq<nat>, clusters: seq<seq<nat>>) {
    && multiset(group) == multiset(Flat(clusters))
    && (forall c {:trigger clusters[c]} :: 0 <= c < |clusters| ==> Whole(store, clusters[c]))
    && (forall c, d {:trigger Barred(store, clusters[c], clusters[d])} :: 0 <= c < d < |clusters| ==>
      Barred(store, clusters[c], clusters[d]))
  }

  /** The head of the later cluster does not fit the earlier one. */
  ghost predicate Barred(store: seq<Record>, earlier: seq<nat>, later: seq<nat>) {
    later != [] && later[0] < |store| && !Fits(store, later[0], earlier)
  }

  lemma FlatMore(clusters: seq<seq<nat>>, c: nat, r: nat)
    requires c < |clusters|
    ensures multiset(Flat(clusters[c := clusters[c] + [r]])) == multiset(Flat(clusters)) + multiset{r}
    decreases |clusters|
  {
    var next := clusters[c := clusters[c] + [r]];
    var k := |clusters| - 1;
    if c == k {
      assert next[..k] == clusters[..k];
    } else {
      FlatMore(clusters[..k], c, r);
      assert next[..k] == clusters[..k][c := clusters[..k][c] + [r]];
    }
  }

  lemma FlatNew(clusters: seq<seq<nat>>, cluster: seq<nat>)
    ensures Flat(clusters + [cluster]) == Flat(clusters) + cluster
  {
    assert (clusters + [cluster])[..|clusters|] == clusters;
  }

  /** Each cluster's head is among the records looked at. */
  ghost predicate HeadsIn(clusters: seq<seq<nat>>, done: seq<nat>) {
    forall c {:trigger clusters[c]} :: 0 <= c < |clusters| ==> clusters[c] != [] && clusters[c][0] in done
  }

  lemma JoinCluster(store: seq<Record>, done: seq<nat>, clusters: seq<seq<nat>>, c: nat, r: nat)
    requires Clustered(store, done, clusters) && c < |clusters| && r < |store| && Fits(store, r, clusters[c])
    requires clusters[c] != [] && clusters[c][0] < |store| && Precedes(store[clusters[c][0]], store[r])
    ensures Clustered(store, done + [r], clusters[c := clusters[c] + [r]])
  {
    var next := clusters[c := clusters[c] + [r]];
    FlatMore(clusters, c, r);
    AllWhole(store, done, clusters, c, r);
    forall a, b {:trigger Barred(store, next[a], next[b])} | 0 <= a < b < |next|
      ensures Barred(store, next[a], next[b])
    {
      BarredJoined(store, done, clusters, c, r, a, b);
    }
  }

  lemma AllWhole(store: seq<Record>, done: seq<nat>, clusters: seq<seq<nat>>, c: nat, r: nat)
    requires Clustered(store, done, clusters) && c < |clusters| && r < |store| && Fits(store, r, clusters[c])
    requires clusters[c] != [] && clusters[c][0] < |store| && Precedes(store[clusters[c][0]], store[r])
    ensures var next := clusters[c := clusters[c] + [r]];
      forall d {:trigger next[d]} :: 0 <= d < |next| ==> Whole(store, next[d])
  {
    assert Whole(store, clusters[c]);
    WholeMore(store, clusters[c], r);
  }

  lemma BarredJoined(store: seq<Record>, done: seq<nat>, clusters: seq<seq<nat>>, c: nat, r: nat, a: nat, b: nat)
    requires Clustered(store, done, clusters) && c < |clusters| && a < b < |clusters|
    ensures Barred(store, clusters[c := clusters[c] + [r]][a], clusters[c := clusters[c] + [r]][b])
  {
    assert Barred(store, clusters[a], clusters[b]);
    BarredMore(store, clusters[a], clusters[b], r);
  }

  lemma WholeMore(store: seq<Record>, cluster: seq<nat>, r: nat)
    requires Whole(store, cluster) && r < |store| && Fits(store, r, cluster) && Precedes(store[cluster[0]], store[r])
    ensures Whole(store, cluster + [r])
  {
  }

  lemma BarredMore(store: seq<Record>, earlier: seq<nat>, later: seq<nat>, r: nat)
    requires Barred(store, earlier, later)
    ensures Barred(store, earlier + [r], later) && Barred(store, earlier, later + [r])
  {
    var k :| 0 <= k < |earlier| && earlier[k] < |store| && !SameRequest(store[later[0]], store[earlier[k]]);
    assert (earlier + [r])[k] == earlier[k];
  }

  lemma StartCluster(store: seq<Record>, done: seq<nat>, clusters: seq<seq<nat>>, r: nat)
    requires Clustered(store, done, clusters) && r < |store|
    requires forall c :: 0 <= c < |clusters| ==> !Fits(store, r, clusters[c])
    ensures Clustered(store, done + [r], clusters + [[r]])
  {
    FlatNew(clusters, [r]);
  }

  lemma WholeBelow(store: seq<Record>, clusters: seq<seq<nat>>)
    requires forall c {:trigger clusters[c]} :: 0 <= c < |clusters| ==> Whole(store, clusters[c])
    ensures forall c :: 0 <= c < |clusters| ==> AllBelow(clusters[c], |store|)
  {
  }

  lemma RankIsOrder(store: seq<Record>)
    ensures Sorting.Order(ByRank(store))
  {
  }

  predicate AllBelow(xs: seq<nat>, n: nat) {
    forall k :: 0 <= k < |xs| ==> xs[k] < n
  }

  lemma SameMembers(xs: seq<nat>, ys: seq<nat>, n: nat)
    requires multiset(xs) == multiset(ys)
    ensures AllBelow(xs, n) ==> AllBelow(ys, n)
    ensures forall x :: x in xs <==> x in ys
  {
    assert forall x :: x in xs <==> x in multiset(xs);
    assert forall x :: x in ys <==> x in multiset(ys);
    if AllBelow(xs, n) {
      forall k | 0 <= k < |ys|
        ensures ys[k] < n
      {
        assert ys[k] in xs;
      }
    }
  }

  ghost predicate Forming(store: seq<Record>, sorted: seq<nat>, i: nat, clusters: seq<seq<nat>>) {
    i <= |sorted| && Clustered(store, sorted[..i], clusters) && HeadsIn(clusters, sorted[..i])
  }

  lemma SortedByRank(store: seq<Record>, group: seq<nat>)
    requires AllBelow(group, |store|)
    ensures var sorted := Sorting.Sort(ByRank(store), group);
      AllBelow(sorted, |store|) && Sorting.Sorted(ByRank(store), sorted)
  {
    RankIsOrder(store);
    Sorting.SortSorted(ByRank(store), group);
    SameMembers(group, Sorting.Sort(ByRank(store), group), |store|);
  }

  lemma FormingBelow(store: seq<Record>, sorted: seq<nat>, i: nat, clusters: seq<seq<nat>>)
    requires Forming(store, sorted, i, clusters)
    ensures forall c :: 0 <= c < |clusters| ==> AllBelow(clusters[c], |store|)
  {
    WholeBelow(store, clusters);
  }

  lemma FormingNext(store: seq<Record>, sorted: seq<nat>, i: nat, clusters: seq<seq<nat>>, c: nat)
    requires Forming(store, sorted, i, clusters) && i < |sorted| && AllBelow(sorted, |store|) &&
      Sorting.Sorted(ByRank(store), sorted)
    requires c <= |clusters| && (c < |clusters| ==> Fits(store, sorted[i], clusters[c]))
    requires forall d :: 0 <= d < c ==> !Fits(store, sorted[i], clusters[d])
    ensures Forming(store, sorted, i + 1, if c < |clusters| then clusters[c := clusters[c] + [sorted[i]]]
      else clusters + [[sorted[i]]])
  {
    assert sorted[..i + 1] == sorted[..i] + [sorted[i]];
    if c < |clusters| {
      HeadFirst(store, sorted, i, clusters, c);
      JoinCluster(store, sorted[..i], clusters, c, sorted[i]);
      HeadsJoined(clusters, sorted[..i], c, sorted[i]);
    } else {
      StartCluster(store, sorted[..i], clusters, sorted[i]);
    }
  }

  lemma HeadsJoined(clusters: seq<seq<nat>>, done: seq<nat>, c: nat, r: nat)
    requires HeadsIn(clusters, done) && c < |clusters|
    ensures HeadsIn(clusters[c := clusters[c] + [r]], done + [r])
  {
  }

  lemma FormingDone(store: seq<Record>, group: seq<nat>, sorted: seq<nat>, clusters: seq<seq<nat>>)
    requires multiset(group) == multiset(sorted) && Forming(store, sorted, |sorted|, clusters)
    ensures Clustered(store, group, clusters)
  {
    assert sorted[..|sorted|] == sorted;
  }

  lemma HeadFirst(store: seq<Record>, sorted: seq<nat>, i: nat, clusters: seq<seq<nat>>, c: nat)
    requires i < |sorted| && AllBelow(sorted, |store|) && Sorting.Sorted(ByRank(store), sorted)
    requires HeadsIn(clusters, sorted[..i]) && c < |clusters|
    ensures clusters[c] != [] && clusters[c][0] < |store| && Precedes(store[clusters[c][0]], store[sorted[i]])
  {
    var head := clusters[c][0];
    var j :| 0 <= j < i && sorted[j] == head;
    assert !ByRank(store)(sorted[i], sorted[j]);
    RankPrecedes(store[head], store[sorted[i]]);
  }

  // Merging clusters

  function ClusterDrops(cluster: seq<nat>): (r: seq<Drop>)
    requires cluster != []
    ensures |r| == |cluster| - 1
    ensures forall k :: 0 <= k < |r| ==> r[k] == Drop(cluster[k + 1], Some(cluster[0]), IdenticalCopy)
  {
    seq(|cluster| - 1, k requires 0 <= k < |cluster| - 1 => Drop(cluster[k + 1], Some(cluster[0]), IdenticalCopy))
  }

  ghost predicate NoneEmpty(clusters: seq<seq<nat>>) {
    forall c {:trigger clusters[c]} :: 0 <= c < |clusters| ==> clusters[c] != []
  }

  function Heads(clusters: seq<seq<nat>>): (r: seq<nat>)
    requires NoneEmpty(clusters)
    ensures |r| == |clusters| && forall c :: 0 <= c < |r| ==> r[c] == clusters[c][0]
  {
    seq(|clusters|, c requires 0 <= c < |clusters| => clusters[c][0])
  }

  function AllDrops(clusters: seq<seq<nat>>): seq<Drop>
    requires NoneEmpty(clusters)
  {
    if clusters == [] then []
    else AllDrops(clusters[..|clusters| - 1]) + ClusterDrops(clusters[|clusters| - 1])
  }

  ghost predicate Once(xs: seq<nat>) {
    forall x :: multiset(xs)[x] <= 1
  }

  lemma OnceParts(xs: seq<nat>, ys: seq<nat>)
    requires Once(xs + ys)
    ensures Once(xs) && Once(ys) && forall x :: x in ys ==> x !in xs
  {
    assert multiset(xs + ys) == multiset(xs) + multiset(ys);
    forall x
      ensures multiset(xs)[x] + multiset(ys)[x] <= 1
    {
      assert multiset(xs + ys)[x] == multiset(xs)[x] + multiset(ys)[x];
    }
    forall x | x in ys
      ensures x !in xs
    {
      assert x in multiset(ys);
      assert multiset(xs)[x] == 0;
    }
  }

  lemma OnceNext(xs: seq<nat>, ys: seq<nat>, k: nat)
    requires Once(xs + ys) && k < |ys|
    ensures ys[k] !in xs + ys[..k]
  {
    assert xs + ys == (xs + ys[..k]) + ys[k..];
    OnceParts(xs + ys[..k], ys[k..]);
    assert ys[k..][0] == ys[k];
  }

  lemma {:induction false} FlatSplit(clusters: seq<seq<nat>>, c: nat)
    requires c <= |clusters|
    ensures multiset(Flat(clusters[..c])) <= multiset(Flat(clusters))
    decreases |clusters| - c
  {
    if c < |clusters| {
      FlatSplit(clusters, c + 1);
      assert clusters[..c + 1][..c] == clusters[..c];
      assert multiset(Flat(clusters[..c + 1])) == multiset(Flat(clusters[..c])) + multiset(clusters[c]);
    } else {
      assert clusters[..c] == clusters;
    }
  }

  /** The clusters made of the records given, all groups together. */
  ghost predicate AllClusters(store: seq<Record>, given: seq<nat>, clusters: seq<seq<nat>>) {
    && multiset(given) == multiset(Flat(clusters))
    && (forall c {:trigger clusters[c]} :: 0 <= c < |clusters| ==>
      Whole(store, clusters[c]) && OneContent(store, clusters[c]))
    && (forall c, d {:trigger Parted(store, clusters[c], clusters[d])} :: 0 <= c < d < |clusters| ==>
      Parted(store, clusters[c], clusters[d]))
  }

  ghost predicate OneContent(store: seq<Record>, cluster: seq<nat>) {
    forall k, l :: 0 <= k < |cluster| && 0 <= l < |cluster| && cluster[k] < |store| && cluster[l] < |store| ==>
      SameContent(store[cluster[k]], store[cluster[l]])
  }

  /** Other content, or the later one's head could not join the earlier. */
  ghost predicate Parted(store: seq<Record>, earlier: seq<nat>, later: seq<nat>) {
    || Barred(store, earlier, later)
    || (earlier != [] && later != [] && earlier[0] < |store| && later[0] < |store| &&
      !SameContent(store[earlier[0]], store[later[0]]))
  }

  // Groups of one content

  ghost predicate ContentGroups(store: seq<Record>, given: seq<nat>, groups: seq<seq<nat>>) {
    && multiset(given) == multiset(Flat(groups))
    && (forall g {:trigger groups[g]} :: 0 <= g < |groups| ==>
      groups[g] != [] && AllBelow(groups[g], |store|) && OneContent(store, groups[g]))
    && (forall g, h {:trigger OtherContent(store, groups[g], groups[h])} :: 0 <= g < h < |groups| ==>
      OtherContent(store, groups[g], groups[h]))
  }

  ghost predicate OtherContent(store: seq<Record>, one: seq<nat>, other: seq<nat>) {
    one != [] && other != [] && one[0] < |store| && other[0] < |store| && !SameContent(store[one[0]], store[other[0]])
  }

  lemma GroupMore(store: seq<Record>, given: seq<nat>, groups: seq<seq<nat>>, g: nat, r: nat)
    requires ContentGroups(store, given, groups) && r < |store| && g < |groups|
    requires AllBelow(groups[g], |store|) && groups[g] != [] && SameContent(store[groups[g][0]], store[r])
    ensures ContentGroups(store, given + [r], groups[g := groups[g] + [r]])
  {
    var next := groups[g := groups[g] + [r]];
    FlatMore(groups, g, r);
    ContentMore(store, groups[g], r);
    forall a, b {:trigger OtherContent(store, next[a], next[b])} | 0 <= a < b < |next|
      ensures OtherContent(store, next[a], next[b])
    {
      assert OtherContent(store, groups[a], groups[b]);
    }
  }

  lemma ContentMore(store: seq<Record>, group: seq<nat>, r: nat)
    requires OneContent(store, group) && AllBelow(group, |store|) && group != [] && r < |store| &&
      SameContent(store[group[0]], store[r])
    ensures OneContent(store, group + [r])
  {
  }

  lemma GroupNew(store: seq<Record>, given: seq<nat>, groups: seq<seq<nat>>, r: nat)
    requires ContentGroups(store, given, groups) && r < |store|
    requires forall g :: 0 <= g < |groups| ==> OtherContent(store, groups[g], [r])
    ensures ContentGroups(store, given + [r], groups + [[r]])
  {
    FlatNew(groups, [r]);
    var next := groups + [[r]];
    forall a, b {:trigger OtherContent(store, next[a], next[b])} | 0 <= a < b < |next|
      ensures OtherContent(store, next[a], next[b])
    {
      if b < |groups| {
        assert OtherContent(store, groups[a], groups[b]);
      }
    }
  }

  // From the clusters of one group to those of all

  lemma ClusteredSame(store: seq<Record>, before: seq<Record>, group: seq<nat>, clusters: seq<seq<nat>>)
    requires Clustered(store, group, clusters) && |before| == |store|
    requires forall i :: i in group ==> i < |store| && store[i] == before[i]
    ensures Clustered(before, group, clusters)
  {
    forall c {:trigger clusters[c]} | 0 <= c < |clusters|
      ensures Whole(before, clusters[c]) && forall i :: i in clusters[c] ==> i in group
    {
      assert Whole(store, clusters[c]);
      InFlat(group, clusters, c);
    }
    forall c, d {:trigger Barred(before, clusters[c], clusters[d])} | 0 <= c < d < |clusters|
      ensures Barred(before, clusters[c], clusters[d])
    {
      assert Barred(store, clusters[c], clusters[d]);
      InFlat(group, clusters, c);
      InFlat(group, clusters, d);
      assert clusters[d][0] in clusters[d];
      var k :| 0 <= k < |clusters[c]| && clusters[c][k] < |store| &&
        !SameRequest(store[clusters[d][0]], store[clusters[c][k]]);
      assert clusters[c][k] in clusters[c];
    }
  }

  lemma {:induction false} FlatHolds(clusters: seq<seq<nat>>, c: nat, i: nat)
    requires c < |clusters| && i in clusters[c]
    ensures i in Flat(clusters)
    decreases |clusters|
  {
    var k := |clusters| - 1;
    if c < k {
      FlatHolds(clusters[..k], c, i);
    }
  }

  lemma InFlat(group: seq<nat>, clusters: seq<seq<nat>>, c: nat)
    requires multiset(group) == multiset(Flat(clusters)) && c < |clusters|
    ensures forall i :: i in clusters[c] ==> i in group
  {
    forall i | i in clusters[c]
      ensures i in group
    {
      FlatHolds(clusters, c, i);
      assert i in multiset(Flat(clusters));
      assert i in multiset(group);
    }
  }

  /** A record of a flattened list lies in one of its parts. */
  lemma {:induction false} FromFlat(groups: seq<seq<nat>>, i: nat) returns (g: nat)
    requires i in Flat(groups)
    ensures g < |groups| && i in groups[g]
    decreases |groups|
  {
    var k := |groups| - 1;
    if i in groups[k] {
      g := k;
    } else {
      g := FromFlat(groups[..k], i);
    }
  }

  lemma FlatAppend(xss: seq<seq<nat>>, yss: seq<seq<nat>>)
    ensures Flat(xss + yss) == Flat(xss) + Flat(yss)
  {
    assert xss + yss[..0] == xss;
    for k := 0 to |yss|
      invariant Flat(xss + yss[..k]) == Flat(xss) + Flat(yss[..k])
    {
      FlatNext(xss, yss, k);
    }
    assert yss[..|yss|] == yss;
  }

  lemma FlatNext(xss: seq<seq<nat>>, yss: seq<seq<nat>>, k: nat)
    requires k < |yss| && Flat(xss + yss[..k]) == Flat(xss) + Flat(yss[..k])
    ensures Flat(xss + yss[..k + 1]) == Flat(xss) + Flat(yss[..k + 1])
  {
    FlatNew(xss + yss[..k], yss[k]);
    FlatNew(yss[..k], yss[k]);
    NextPart(xss, yss, k);
    assert (Flat(xss) + Flat(yss[..k])) + yss[k] == Flat(xss) + (Flat(yss[..k]) + yss[k]);
  }

  lemma Regroup(xs: seq<Drop>, ys: seq<Drop>, zs: seq<Drop>)
    ensures (xs + ys) + zs == xs + (ys + zs)
  {
  }

  lemma AllDropsLast(xss: seq<seq<nat>>, xs: seq<nat>)
    requires NoneEmpty(xss) && xs != []
    ensures NoneEmpty(xss + [xs]) && AllDrops(xss + [xs]) == AllDrops(xss) + ClusterDrops(xs)
  {
    assert (xss + [xs])[..|xss|] == xss;
  }

  lemma {:induction false} DropsAppend(xss: seq<seq<nat>>, yss: seq<seq<nat>>)
    requires NoneEmpty(xss) && NoneEmpty(yss)
    ensures NoneEmpty(xss + yss) && AllDrops(xss + yss) == AllDrops(xss) + AllDrops(yss)
    decreases |yss|
  {
    if yss == [] {
      assert xss + yss == xss;
      assert AllDrops(yss) == [];
    } else {
      var init, last := yss[..|yss| - 1], yss[|yss| - 1];
      DropsAppend(xss, init);
      assert yss == init + [last];
      DropsNext(xss, init, last);
    }
  }

  lemma HeadsAppend(xss: seq<seq<nat>>, yss: seq<seq<nat>>)
    requires NoneEmpty(xss) && NoneEmpty(yss)
    ensures NoneEmpty(xss + yss) && Heads(xss + yss) == Heads(xss) + Heads(yss)
  {
  }

  lemma DropsNext(xss: seq<seq<nat>>, yss: seq<seq<nat>>, last: seq<nat>)
    requires NoneEmpty(xss) && NoneEmpty(yss) && NoneEmpty(xss + yss) && last != []
    requires AllDrops(xss + yss) == AllDrops(xss) + AllDrops(yss)
    ensures NoneEmpty(xss + (yss + [last])) && NoneEmpty(yss + [last])
    ensures AllDrops(xss + (yss + [last])) == AllDrops(xss) + AllDrops(yss + [last])
  {
    assert xss + (yss + [last]) == (xss + yss) + [last];
    AllDropsLast(xss + yss, last);
    AllDropsLast(yss, last);
    Regroup(AllDrops(xss), AllDrops(yss), ClusterDrops(last));
  }

  lemma NextPart(xss: seq<seq<nat>>, yss: seq<seq<nat>>, k: nat)
    requires k < |yss|
    ensures xss + yss[..k] + [yss[k]] == xss + yss[..k + 1] && yss[..k] + [yss[k]] == yss[..k + 1]
  {
  }

  /** One more group's clusters. */
  lemma MoreClusters(before: seq<Record>, given: seq<nat>, groups: seq<seq<nat>>, g: nat, all: seq<seq<nat>>,
      clusters: seq<seq<nat>>)
    requires ContentGroups(before, given, groups) && g < |groups|
    requires AllClusters(before, Flat(groups[..g]), all) && Clustered(before, groups[g], clusters)
    ensures AllClusters(before, Flat(groups[..g + 1]), all + clusters)
  {
    FlatGroups(given, groups, g, all, clusters);
    var next := all + clusters;
    forall c {:trigger next[c]} | 0 <= c < |next|
      ensures Whole(before, next[c]) && OneContent(before, next[c])
    {
      WholeNext(before, given, groups, g, all, clusters, c);
    }
    var parted := (x: seq<nat>, y: seq<nat>) => Parted(before, x, y);
    AllPartedNext(before, given, groups, g, all, clusters, parted);
    assert forall c, d :: 0 <= c < d < |next| ==> parted(next[c], next[d]);
  }

  lemma WholeNext(before: seq<Record>, given: seq<nat>, groups: seq<seq<nat>>, g: nat, all: seq<seq<nat>>,
      clusters: seq<seq<nat>>, c: nat)
    requires ContentGroups(before, given, groups) && g < |groups|
    requires AllClusters(before, Flat(groups[..g]), all) && Clustered(before, groups[g], clusters)
    requires c < |all| + |clusters|
    ensures Whole(before, (all + clusters)[c]) && OneContent(before, (all + clusters)[c])
  {
    if c < |all| {
      assert (all + clusters)[c] == all[c];
    } else {
      assert Whole(before, clusters[c - |all|]);
      InFlat(groups[g], clusters, c - |all|);
      assert OneContent(before, groups[g]);
      PartContent(before, groups[g], clusters[c - |all|]);
    }
  }

  lemma FlatGroups(given: seq<nat>, groups: seq<seq<nat>>, g: nat, all: seq<seq<nat>>, clusters: seq<seq<nat>>)
    requires g < |groups| && multiset(Flat(groups[..g])) == multiset(Flat(all)) &&
      multiset(groups[g]) == multiset(Flat(clusters))
    ensures multiset(Flat(groups[..g + 1])) == multiset(Flat(all + clusters))
  {
    assert groups[..g + 1][..g] == groups[..g];
    FlatAppend(all, clusters);
  }

  /** What holds within two lists and across holds within the two put together. */
  lemma PairsJoined(xs: seq<seq<nat>>, ys: seq<seq<nat>>, holds: (seq<nat>, seq<nat>) -> bool)
    requires forall c, d :: 0 <= c < d < |xs| ==> holds(xs[c], xs[d])
    requires forall c, d :: 0 <= c < d < |ys| ==> holds(ys[c], ys[d])
    requires forall c, d :: 0 <= c < |xs| && 0 <= d < |ys| ==> holds(xs[c], ys[d])
    ensures forall c, d :: 0 <= c < d < |xs + ys| ==> holds((xs + ys)[c], (xs + ys)[d])
  {
  }

  lemma AllPartedNext(before: seq<Record>, given: seq<nat>, groups: seq<seq<nat>>, g: nat, all: seq<seq<nat>>,
      clusters: seq<seq<nat>>, parted: (seq<nat>, seq<nat>) -> bool)
    requires ContentGroups(before, given, groups) && g < |groups|
    requires AllClusters(before, Flat(groups[..g]), all) && Clustered(before, groups[g], clusters)
    requires forall x, y :: parted(x, y) <==> Parted(before, x, y)
    ensures forall c, d :: 0 <= c < d < |all + clusters| ==> parted((all + clusters)[c], (all + clusters)[d])
  {
    forall c, d | 0 <= c < d < |all|
      ensures parted(all[c], all[d])
    {
      PartedAt(before, Flat(groups[..g]), all, c, d);
    }
    forall c, d | 0 <= c < d < |clusters|
      ensures parted(clusters[c], clusters[d])
    {
      BarredAt(before, groups[g], clusters, c, d);
    }
    forall c, d | 0 <= c < |all| && 0 <= d < |clusters|
      ensures parted(all[c], clusters[d])
    {
      PartedGroups(before, given, groups, g, all, clusters, c, d);
    }
    PairsJoined(all, clusters, parted);
  }

  lemma PartedAt(store: seq<Record>, given: seq<nat>, clusters: seq<seq<nat>>, c: nat, d: nat)
    requires AllClusters(store, given, clusters) && c < d < |clusters|
    ensures Parted(store, clusters[c], clusters[d])
  {
  }

  lemma BarredAt(store: seq<Record>, group: seq<nat>, clusters: seq<seq<nat>>, c: nat, d: nat)
    requires Clustered(store, group, clusters) && c < d < |clusters|
    ensures Parted(store, clusters[c], clusters[d])
  {
    assert Barred(store, clusters[c], clusters[d]);
  }

  lemma PartContent(store: seq<Record>, group: seq<nat>, part: seq<nat>)
    requires OneContent(store, group) && forall i :: i in part ==> i in group
    ensures OneContent(store, part)
  {
    forall k, l | 0 <= k < |part| && 0 <= l < |part| && part[k] < |store| && part[l] < |store|
      ensures SameContent(store[part[k]], store[part[l]])
    {
      assert part[k] in group && part[l] in group;
    }
  }

  lemma PartedGroups(before: seq<Record>, given: seq<nat>, groups: seq<seq<nat>>, g: nat, all: seq<seq<nat>>,
      clusters: seq<seq<nat>>, c: nat, d: nat)
    requires ContentGroups(before, given, groups) && g < |groups|
    requires AllClusters(before, Flat(groups[..g]), all) && Clustered(before, groups[g], clusters)
    requires c < |all| && d < |clusters|
    ensures Parted(before, all[c], clusters[d])
  {
    assert Whole(before, all[c]) && Whole(before, clusters[d]);
    var i, j := all[c][0], clusters[d][0];
    InFlat(Flat(groups[..g]), all, c);
    InFlat(groups[g], clusters, d);
    assert i in all[c] && j in clusters[d];
    var h := FromFlat(groups[..g], i);
    assert OtherContent(before, groups[h], groups[g]);
    assert OneContent(before, groups[h]) && OneContent(before, groups[g]);
    HeadContent(before, groups[h], i);
    HeadContent(before, groups[g], j);
  }

  lemma HeadContent(store: seq<Record>, group: seq<nat>, i: nat)
    requires OneContent(store, group) && AllBelow(group, |store|) && i in group
    ensures SameContent(store[group[0]], store[i]) && SameContent(store[i], store[group[0]])
  {
  }

  // Stale sheets and print exports

  /** A revision sheet with the lines of another client's record, which is no sheet. */
  ghost predicate Stale(store: seq<Record>, given: seq<nat>, r: nat) {
    r < |store| && store[r].sheet && exists k :: 0 <= k < |given| && Repeats(store, given[k], r)
  }

  predicate Repeats(store: seq<Record>, o: nat, r: nat) {
    o < |store| && r < |store| && !store[o].sheet && store[o].lines == store[r].lines &&
      store[o].client != store[r].client
  }

  /** A kept export prints the same as no other kept record. */
  ghost predicate NoCopyOfPrint(store: seq<Record>, kept: seq<nat>) {
    forall i, j |
      0 <= i < |kept| && 0 <= j < |kept| && i != j && kept[i] < |store| && kept[j] < |store| &&
        store[kept[j]].kind == PrintOnly ::
      !SamePrint(store[kept[i]], store[kept[j]])
  }

  /** Each export dropped went into the first kept record that it prints. */
  ghost predicate FirstPrints(store: seq<Record>, kept: seq<nat>, drops: seq<Drop>) {
    forall d :: 0 <= d < |drops| ==> FirstPrint(store, kept, drops[d])
  }

  ghost predicate FirstPrint(store: seq<Record>, kept: seq<nat>, d: Drop) {
    d.id < |store| && exists k :: 0 <= k < |kept| && d.kept == Some(kept[k]) && NoneBefore(store, kept, k, d.id)
  }

  ghost predicate NoneBefore(store: seq<Record>, kept: seq<nat>, k: int, r: nat)
    requires r < |store| && k <= |kept|
  {
    forall l :: 0 <= l < k && kept[l] < |store| ==> !SamePrint(store[kept[l]], store[r])
  }

  lemma FirstPrintsStay(store: seq<Record>, kept: seq<nat>, drops: seq<Drop>, r: nat)
    requires FirstPrints(store, kept, drops)
    ensures FirstPrints(store, kept + [r], drops)
  {
    forall d | 0 <= d < |drops|
      ensures FirstPrint(store, kept + [r], drops[d])
    {
      assert FirstPrint(store, kept, drops[d]);
      var k :| 0 <= k < |kept| && drops[d].kept == Some(kept[k]) && NoneBefore(store, kept, k, drops[d].id);
      assert (kept + [r])[k] == kept[k] && NoneBefore(store, kept + [r], k, drops[d].id);
    }
  }

  lemma FirstPrintsMore(store: seq<Record>, kept: seq<nat>, drops: seq<Drop>, k: nat, r: nat, reason: Reason)
    requires FirstPrints(store, kept, drops) && k < |kept| && r < |store| && NoneBefore(store, kept, k, r)
    ensures FirstPrints(store, kept, drops + [Drop(r, Some(kept[k]), reason)])
  {
  }

  lemma SamePrintSymmetric(a: Record, b: Record)
    ensures SamePrint(a, b) == SamePrint(b, a)
  {
  }

  ghost predicate PrintDrop(store: seq<Record>, d: Drop) {
    && d.kept.Some? && d.id < |store| && d.kept.value < |store| && d.reason == PrintExport
    && store[d.id].kind == PrintOnly && SamePrint(store[d.kept.value], store[d.id])
  }

  ghost predicate AllPrints(store: seq<Record>, drops: seq<Drop>) {
    forall k :: 0 <= k < |drops| ==> PrintDrop(store, drops[k])
  }

  ghost predicate OnlyStale(store: seq<Record>, given: seq<nat>, drops: seq<Drop>) {
    forall k :: 0 <= k < |drops| ==> drops[k].kept.None? && Stale(store, given, drops[k].id)
  }

  ghost predicate NoneStale(store: seq<Record>, given: seq<nat>, kept: seq<nat>) {
    forall r :: r in kept ==> !Stale(store, given, r)
  }

  lemma SameFixedPrint(a: Record, b: Record, c: Record, d: Record)
    requires SameFixed(a, b) && SameFixed(c, d)
    ensures SamePrint(a, c) == SamePrint(b, d) && a.kind == b.kind
  {
    assert a.(files := b.files, vessel := b.vessel, ref := b.ref).digits == a.digits;
    assert c.(files := d.files, vessel := d.vessel, ref := d.ref).digits == c.digits;
  }

  /** Identical copies follow the rank, so data entry goes into data entry. */
  lemma {:induction false} ClustersIntoDataEntry(store: seq<Record>, clusters: seq<seq<nat>>, i: nat, m: nat)
    requires NoneEmpty(clusters) && forall c {:trigger clusters[c]} :: 0 <= c < |clusters| ==> Whole(store, clusters[c])
    requires DropsInto(AllDrops(clusters), i, m)
    ensures i < |store| && m < |store| && (store[i].kind == DataEntry ==> store[m].kind == DataEntry)
    decreases |clusters|
  {
    var k := |clusters| - 1;
    var all := AllDrops(clusters);
    var x :| 0 <= x < |all| && all[x].id == i && all[x].kept == Some(m);
    var rest := AllDrops(clusters[..k]);
    if x < |rest| {
      assert rest[x] == all[x];
      ClustersIntoDataEntry(store, clusters[..k], i, m);
    } else {
      assert all[x] == ClusterDrops(clusters[k])[x - |rest|];
      HeadIsDataEntry(store, clusters[k], x - |rest| + 1);
    }
  }

  lemma HeadIsDataEntry(store: seq<Record>, cluster: seq<nat>, k: nat)
    requires Whole(store, cluster) && k < |cluster|
    ensures cluster[k] < |store| && cluster[0] < |store|
    ensures store[cluster[k]].kind == DataEntry ==> store[cluster[0]].kind == DataEntry
  {
    assert Precedes(store[cluster[0]], store[cluster[k]]);
  }
}
