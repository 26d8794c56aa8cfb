/** Revision labels: every chain of two or more is numbered in order, under a key no other chain has. */
module Labels {
  import opened Wrappers
  import opened DistinctLists
  import opened DisjointSets
  import opened Classes
  import opened Chains
  import opened Revisions
  import Sorting

  /** What a key is made of, before its count: the base record's year, digits and client. */
  datatype Stem = Stem(year: Option<int>, digits: Option<string>, client: string)

  datatype RevisionKey = RevisionKey(stem: Stem, n: nat)

  datatype Revision = Revision(key: RevisionKey, index: nat, count: nat, base: nat)

  function StemOf(r: Filed): Stem {
    Stem(r.year, if r.number.Some? then r.number else r.fileNumber, r.content.client)
  }

  /** Chain order: by date, unmarked first, workbooks before exports, then by time saved and path. */
  predicate ComesBefore(a: Filed, b: Filed) {
    if a.date != b.date then a.date < b.date
    else if a.marked != b.marked then b.marked
    else if a.printOnly != b.printOnly then b.printOnly
    else if a.saved != b.saved then a.saved < b.saved
    else a.path < b.path
  }

  function InOrder(records: seq<Filed>): (nat, nat) -> bool {
    (i: nat, j: nat) => i < |records| && (j < |records| ==> ComesBefore(records[i], records[j]))
  }

  /** The labels: each record in a chain of two or more carries its chain's key, its place in chain
      order, the size and the first of the chain. */
  ghost predicate Numbered(records: seq<Filed>, table: seq<nat>, revision: map<nat, Revision>) {
    && |table| == |records|
    && (forall i :: i in revision ==> i < |records|)
    && (forall i: nat :: i < |records| ==> (i in revision <==> HasMate(table, i)))
    && (forall i, j {:trigger revision[i], revision[j]} :: i in revision && j in revision ==>
      TellsChains(records, table, revision, i, j))
    && (forall i :: i in revision ==> Placed(records, table, revision, i))
    && (forall i :: i in revision ==> CountedUp(revision, revision[i].key))
  }

  ghost predicate HasMate(table: seq<nat>, i: nat) {
    exists j: nat :: Mates(table, i, j)
  }

  /** One key to a chain, and in it places in chain order and one base. */
  ghost predicate TellsChains(records: seq<Filed>, table: seq<nat>, revision: map<nat, Revision>, i: nat, j: nat)
    requires i in revision && j in revision
  {
    && i < |table| == |records| && j < |table|
    && (revision[i].key == revision[j].key <==> table[i] == table[j])
    && (Mates(table, i, j) ==>
          && revision[i].index != revision[j].index && revision[i].base == revision[j].base
          && TellsOrder(records[i], records[j], revision[i].index, revision[j].index))
  }

  /** What puts one revision before another: an earlier date; on one date, being unmarked; then being
      a workbook; then an earlier time saved; and last the path. */
  predicate TellsOrder(a: Filed, b: Filed, index: nat, other: nat) {
    && (a.date < b.date ==> index < other)
    && (a.date == b.date && !a.marked && b.marked ==> index < other)
    && (a.date == b.date && a.marked == b.marked && !a.printOnly && b.printOnly ==> index < other)
    && (a.date == b.date && a.marked == b.marked && a.printOnly == b.printOnly && a.saved < b.saved ==> index < other)
    && (a.date == b.date && a.marked == b.marked && a.printOnly == b.printOnly && a.saved == b.saved ==>
          a.path < b.path ==> index < other)
  }

  ghost predicate Placed(records: seq<Filed>, table: seq<nat>, revision: map<nat, Revision>, i: nat)
    requires i in revision
  {
    && i < |table| == |records| && revision[i].index < revision[i].count == |Class(table, i)|
    && revision[i].base in revision && revision[i].base < |table| && table[revision[i].base] == table[i]
    && revision[revision[i].base].index == 0
    && revision[i].key.stem == StemOf(records[revision[i].base])
  }

  /** The chains of one stem are counted from one. */
  ghost predicate CountedUp(revision: map<nat, Revision>, key: RevisionKey) {
    key.n == 1 || (key.n > 1 && exists j :: j in revision && revision[j].key == RevisionKey(key.stem, key.n - 1))
  }

  ghost predicate Mates(table: seq<nat>, i: nat, j: nat) {
    i < |table| && j < |table| && i != j && table[i] == table[j]
  }

  ghost function Class(table: seq<nat>, i: nat): set<nat>
    requires i < |table|
  {
    set j: nat | j < |table| && table[j] == table[i]
  }

  // Keys of different groups differ

  lemma KeylessAlone(records: seq<Filed>, root: seq<nat>, i: nat, j: nat)
    requires Components(|records|, SharesKey(records), root) && i < |records| && j < |records| && i != j
    requires Keys(records[i]) == []
    ensures root[i] != root[j]
  {
    var colour := seq(|records|, k => if k == i then 1 else 0);
    forall a: nat, b: nat | a < |colour| && b < |colour| && SharesKey(records)(a, b)
      ensures colour[a] == colour[b]
    {
      assert ShareKey(records, a, b);
    }
    assert Respects(SharesKey(records), colour);
    assert Finer(root, colour);
  }

  lemma StemIsKey(r: Filed)
    requires Keys(r) != []
    ensures StemOf(r).digits.Some? && Key(StemOf(r).year, StemOf(r).digits.value) in Keys(r)
  {
    if r.number.Some? {
      assert Keys(r)[0] == Key(r.year, r.number.value);
    } else {
      assert Keys(r)[0] == Key(r.year, r.fileNumber.value);
    }
  }

  /** Two records with company in their groups and one stem are of one group. */
  lemma SameStemSameGroup(records: seq<Filed>, root: seq<nat>, i: nat, j: nat, a: nat, b: nat)
    requires Components(|records|, SharesKey(records), root) && i < |records| && j < |records| && a < |records| &&
      b < |records|
    requires a != i && root[a] == root[i] && b != j && root[b] == root[j]
    requires StemOf(records[i]) == StemOf(records[j])
    ensures root[i] == root[j]
  {
    if Keys(records[i]) == [] {
      KeylessAlone(records, root, i, a);
    }
    if Keys(records[j]) == [] {
      KeylessAlone(records, root, j, b);
    }
    StemIsKey(records[i]);
    StemIsKey(records[j]);
    assert ShareKey(records, i, j);
    assert SharesKey(records)(i, j);
  }

  // Writing the labels

  /** One labelled chain, and which of the chains it was. */
  datatype Entry = Entry(chain: seq<nat>, key: RevisionKey, from: nat)

  ghost predicate EntryOf(records: seq<Filed>, chains: seq<seq<nat>>, e: Entry) {
    && e.from < |chains| && multiset(e.chain) == multiset(chains[e.from]) && |e.chain| >= 2
    && Within(e.chain, |records|) && NoRepeats(e.chain)
    && Sorting.Sorted(InOrder(records), e.chain)
    && e.key.stem == StemOf(records[e.chain[0]])
  }

  predicate Wears(revision: map<nat, Revision>, e: Entry, k: nat) {
    k < |e.chain| && e.chain[k] in revision && revision[e.chain[k]] == Revision(e.key, k, |e.chain|, e.chain[0])
  }

  /** The labels are those of the entries, and nobody else has one. */
  ghost predicate Labelled(entries: seq<Entry>, revision: map<nat, Revision>) {
    && (forall c, k: nat {:trigger Wears(revision, entries[c], k)} :: 0 <= c < |entries| && k < |entries[c].chain| ==>
      Wears(revision, entries[c], k))
    && (forall i :: i in revision ==> exists c :: 0 <= c < |entries| && i in entries[c].chain)
  }

  /** The entries are the chains of two or more among the first m, in order, and their keys differ. */
  ghost predicate Written(records: seq<Filed>, chains: seq<seq<nat>>, m: nat, entries: seq<Entry>) {
    && m <= |chains|
    && (forall c {:trigger entries[c]} :: 0 <= c < |entries| ==>
      EntryOf(records, chains, entries[c]) && entries[c].from < m)
    && (forall c, d :: 0 <= c < d < |entries| ==> entries[c].from < entries[d].from && entries[c].key != entries[d].key)
    && (forall x: nat {:trigger chains[x]} :: x < m && |chains[x]| >= 2 ==>
      exists c :: 0 <= c < |entries| && entries[c].from == x)
  }

  /** The counts so far cover every key of a group. */
  ghost predicate Counted(entries: seq<Entry>, tags: seq<nat>, tag: nat, per: map<Stem, nat>) {
    forall c {:trigger entries[c]} :: 0 <= c < |entries| && entries[c].from < |tags| && tags[entries[c].from] == tag ==>
      entries[c].key.stem in per && entries[c].key.n <= per[entries[c].key.stem]
  }

  /** Each key counts on from one before it. */
  ghost predicate Consecutive(entries: seq<Entry>) {
    forall c {:trigger entries[c]} :: 0 <= c < |entries| ==> CountsOn(entries, entries[c].key)
  }

  ghost predicate CountsOn(entries: seq<Entry>, key: RevisionKey) {
    key.n == 1 || (key.n > 1 && Used(entries, RevisionKey(key.stem, key.n - 1)))
  }

  ghost predicate Used(entries: seq<Entry>, key: RevisionKey) {
    exists d :: 0 <= d < |entries| && entries[d].key == key
  }

  /** Each count so far is that of a key in use. */
  ghost predicate Reached(entries: seq<Entry>, per: map<Stem, nat>) {
    forall stem :: stem in per ==> per[stem] >= 1 && Used(entries, RevisionKey(stem, per[stem]))
  }

  lemma CountsOnMore(entries: seq<Entry>, per: map<Stem, nat>, e: Entry)
    requires Consecutive(entries) && Reached(entries, per)
    requires e.key.n == (if e.key.stem in per then per[e.key.stem] else 0) + 1
    ensures Consecutive(entries + [e]) && Reached(entries + [e], per[e.key.stem := e.key.n])
  {
    var more := entries + [e];
    assert more[|entries|] == e;
    forall key | Used(entries, key)
      ensures Used(more, key)
    {
      var d :| 0 <= d < |entries| && entries[d].key == key;
      assert more[d] == entries[d];
    }
  }

  method LabelChain(revision: map<nat, Revision>, e: Entry) returns (next: map<nat, Revision>)
    requires NoRepeats(e.chain) && e.chain != []
    ensures forall k: nat :: k < |e.chain| ==> Wears(next, e, k)
    ensures forall i :: i in next <==> i in revision || i in e.chain
    ensures forall i :: i in revision && i !in e.chain ==> next[i] == revision[i]
  {
    next := revision;
    for k := 0 to |e.chain|
      invariant forall l: nat :: l < k ==> Wears(next, e, l)
      invariant forall i :: i in next <==> i in revision || i in e.chain[..k]
      invariant forall i :: i in revision && i !in e.chain[..k] ==> next[i] == revision[i]
    {
      ghost var was := next;
      next := next[e.chain[k] := Revision(e.key, k, |e.chain|, e.chain[0])];
      forall l: nat | l < k + 1
        ensures Wears(next, e, l)
      {
        if l < k {
          assert Wears(was, e, l) && e.chain[l] != e.chain[k];
        }
      }
      assert e.chain[..k + 1] == e.chain[..k] + [e.chain[k]];
    }
    assert e.chain[..|e.chain|] == e.chain;
  }

  lemma LabelledMore(records: seq<Filed>, chains: seq<seq<nat>>, m: nat, entries: seq<Entry>, revision: map<nat,
      Revision>, e: Entry, next: map<nat, Revision>)
    requires Labelled(entries, revision)
    requires forall c :: 0 <= c < |entries| ==> forall i :: i in entries[c].chain ==> i !in e.chain
    requires forall k: nat :: k < |e.chain| ==> Wears(next, e, k)
    requires forall i :: i in next <==> i in revision || i in e.chain
    requires forall i :: i in revision && i !in e.chain ==> next[i] == revision[i]
    ensures Labelled(entries + [e], next)
  {
    var more := entries + [e];
    forall c, k: nat | 0 <= c < |more| && k < |more[c].chain|
      ensures Wears(next, more[c], k)
    {
      if c < |entries| {
        assert Wears(revision, entries[c], k);
        assert entries[c].chain[k] in entries[c].chain;
      }
    }
    forall i | i in next
      ensures exists c :: 0 <= c < |more| && i in more[c].chain
    {
      if i in e.chain {
        assert more[|entries|] == e;
      } else {
        var c :| 0 <= c < |entries| && i in entries[c].chain;
        assert more[c] == entries[c];
      }
    }
  }

  /** Members of an entry's chain are members of the chain it was made from. */
  lemma EntryMembers(records: seq<Filed>, chains: seq<seq<nat>>, e: Entry, i: nat)
    requires EntryOf(records, chains, e)
    ensures i in e.chain <==> InGroup(chains, e.from, i)
    ensures |e.chain| == |chains[e.from]|
  {
    assert i in e.chain <==> i in multiset(e.chain);
    assert |multiset(e.chain)| == |e.chain| && |multiset(chains[e.from])| == |chains[e.from]|;
    assert i in chains[e.from] <==> i in multiset(chains[e.from]);
  }

  lemma EntriesApart(records: seq<Filed>, table: seq<nat>, groups: seq<seq<nat>>, chains: seq<seq<nat>>,
      tags: seq<nat>, m: nat, entries: seq<Entry>, e: Entry)
    requires Found(table, groups, |groups|, chains, tags) && Written(records, chains, m, entries) &&
      EntryOf(records, chains, e) && e.from >= m
    ensures forall c :: 0 <= c < |entries| ==> forall i :: i in entries[c].chain ==> i !in e.chain
  {
    forall c, i | 0 <= c < |entries| && i in entries[c].chain
      ensures i !in e.chain
    {
      EntryMembers(records, chains, entries[c], i);
      EntryMembers(records, chains, e, i);
    }
  }

  /** The chain as it is labelled. */
  function Ordered(records: seq<Filed>, chain: seq<nat>): seq<nat> {
    Sorting.Sort(InOrder(records), chain)
  }

  lemma OrderedEntry(records: seq<Filed>, chains: seq<seq<nat>>, m: nat, n: nat)
    requires m < |chains| && |chains[m]| >= 2 && Rising(chains[m], |records|)
    ensures var chain := Ordered(records, chains[m]);
      |chain| >= 2 && chain[0] < |records| &&
        EntryOf(records, chains, Entry(chain, RevisionKey(StemOf(records[chain[0]]), n), m))
  {
    var chain := Ordered(records, chains[m]);
    OrderIsOrder(records);
    Sorting.SortSorted(InOrder(records), chains[m]);
    forall k | 0 <= k < |chain|
      ensures chain[k] < |records|
    {
      assert chain[k] in multiset(chain);
      assert chain[k] in chains[m];
    }
    SameContentsNoRepeats(chains[m], chain);
  }

  lemma OrderIsOrder(records: seq<Filed>)
    ensures Sorting.Order(InOrder(records))
  {
  }

  /** The base of a labelled chain and its company, in their number group. */
  lemma BaseInGroup(records: seq<Filed>, root: seq<nat>, groups: seq<seq<nat>>, table: seq<nat>,
      chains: seq<seq<nat>>, tags: seq<nat>, e: Entry)
    requires |root| == |table| == |records| && Partition(root, groups) && Found(table, groups, |groups|, chains, tags)
    requires EntryOf(records, chains, e)
    ensures InGroup(groups, tags[e.from], e.chain[0]) && e.chain[0] < |root|
    ensures e.chain[1] < |root| && e.chain[1] != e.chain[0] && root[e.chain[1]] == root[e.chain[0]]
  {
    EntryMembers(records, chains, e, e.chain[0]);
    EntryMembers(records, chains, e, e.chain[1]);
    assert InGroup(groups, tags[e.from], e.chain[0]) && InGroup(groups, tags[e.from], e.chain[1]);
  }

  /** A key one above the count of its stem is new. */
  lemma NewKey(records: seq<Filed>, root: seq<nat>, groups: seq<seq<nat>>, table: seq<nat>, chains: seq<seq<nat>>,
      tags: seq<nat>, m: nat, entries: seq<Entry>, per: map<Stem, nat>, e: Entry)
    requires |root| == |table| == |records| && Partition(root, groups) && Found(table, groups, |groups|, chains, tags)
    requires Components(|records|, SharesKey(records), root)
    requires Written(records, chains, m, entries) && EntryOf(records, chains, e) &&
      Counted(entries, tags, tags[e.from], per)
    requires e.key.stem in per ==> e.key.n > per[e.key.stem]
    ensures forall c :: 0 <= c < |entries| ==> entries[c].key != e.key
  {
    forall c | 0 <= c < |entries|
      ensures entries[c].key != e.key
    {
      var d := entries[c];
      assert EntryOf(records, chains, d);
      if d.key.stem == e.key.stem {
        BaseInGroup(records, root, groups, table, chains, tags, d);
        BaseInGroup(records, root, groups, table, chains, tags, e);
        SameStemSameGroup(records, root, d.chain[0], e.chain[0], d.chain[1], e.chain[1]);
        assert tags[d.from] == tags[e.from];
      }
    }
  }

  lemma WrittenMore(records: seq<Filed>, chains: seq<seq<nat>>, m: nat, entries: seq<Entry>, e: Entry)
    requires m < |chains| && Written(records, chains, m, entries) && EntryOf(records, chains, e) && e.from == m
    requires forall c :: 0 <= c < |entries| ==> entries[c].key != e.key
    ensures Written(records, chains, m + 1, entries + [e])
  {
    var more := entries + [e];
    forall x: nat {:trigger chains[x]} | x < m + 1 && |chains[x]| >= 2
      ensures exists c :: 0 <= c < |more| && more[c].from == x
    {
      if x < m {
        var c :| 0 <= c < |entries| && entries[c].from == x;
        assert more[c] == entries[c];
      } else {
        assert more[|entries|] == e;
      }
    }
    forall c, d | 0 <= c < d < |more|
      ensures more[c].from < more[d].from && more[c].key != more[d].key
    {
      assert more[c] == entries[c];
      assert d < |entries| ==> more[d] == entries[d];
    }
  }

  /** The counts with which the next chain is met: those kept, or none in a new group. */
  lemma CountedNext(records: seq<Filed>, groups: seq<seq<nat>>, table: seq<nat>, chains: seq<seq<nat>>,
      tags: seq<nat>, m: nat, entries: seq<Entry>, per: map<Stem, nat>)
    requires Found(table, groups, |groups|, chains, tags) && m < |chains| && Written(records, chains, m, entries)
    requires m > 0 ==> Counted(entries, tags, tags[m - 1], per)
    ensures Counted(entries, tags, tags[m], if m == 0 || tags[m] != tags[m - 1] then map[] else per)
  {
    if m == 0 || tags[m] != tags[m - 1] {
      forall c {:trigger entries[c]} | 0 <= c < |entries|
        ensures tags[entries[c].from] != tags[m]
      {
        assert entries[c].from < m;
        assert m == 0 || tags[m - 1] < tags[m];
        assert entries[c].from < m - 1 ==> tags[entries[c].from] <= tags[m - 1];
      }
    }
  }

  lemma CountedMore(entries: seq<Entry>, tags: seq<nat>, tag: nat, per: map<Stem, nat>, e: Entry)
    requires Counted(entries, tags, tag, per)
    requires e.key.stem in per ==> e.key.n > per[e.key.stem]
    ensures Counted(entries + [e], tags, tag, per[e.key.stem := e.key.n])
  {
    var more := entries + [e];
    forall c {:trigger more[c]} | 0 <= c < |more| && more[c].from < |tags| && tags[more[c].from] == tag
      ensures more[c].key.stem in per[e.key.stem := e.key.n] &&
        more[c].key.n <= per[e.key.stem := e.key.n][more[c].key.stem]
    {
      if c < |entries| {
        assert more[c] == entries[c];
      }
    }
  }

  /** Numbers every chain of two or more, group by group. */
  method LabelChains(records: seq<Filed>, chains: seq<seq<nat>>, tags: seq<nat>, ghost root: seq<nat>,
      ghost groups: seq<seq<nat>>, ghost table: seq<nat>)
    returns (revision: map<nat, Revision>, ghost entries: seq<Entry>)
    requires |root| == |table| == |records| && Partition(root, groups) && Found(table, groups, |groups|, chains, tags)
    requires Components(|records|, SharesKey(records), root)
    ensures Written(records, chains, |chains|, entries) && Labelled(entries, revision) && Consecutive(entries)
  {
    revision, entries := map[], [];
    var per: map<Stem, nat> := map[];
    for m := 0 to |chains|
      invariant Written(records, chains, m, entries) && Labelled(entries, revision)
      invariant m > 0 ==> Counted(entries, tags, tags[m - 1], per)
      invariant Consecutive(entries) && Reached(entries, per)
    {
      CountedNext(records, groups, table, chains, tags, m, entries, per);
      if m == 0 || tags[m] != tags[m - 1] {
        per := map[];
      }
      var chain := Ordered(records, chains[m]);
      assert |chain| == |chains[m]|;
      if |chain| >= 2 {
        revision, per, entries := LabelNext(records, chains, tags, root, groups, table, m, chain, revision, per,
          entries);
      }
    }
  }

  method LabelNext(records: seq<Filed>, chains: seq<seq<nat>>, tags: seq<nat>, ghost root: seq<nat>,
      ghost groups: seq<seq<nat>>, ghost table: seq<nat>,
                   m: nat, chain: seq<nat>, revision: map<nat, Revision>, per: map<Stem, nat>,
                     ghost entries: seq<Entry>)
    returns (next: map<nat, Revision>, count: map<Stem, nat>, ghost more: seq<Entry>)
    requires |root| == |table| == |records| && Partition(root, groups) && Found(table, groups, |groups|, chains, tags)
    requires Components(|records|, SharesKey(records), root)
    requires m < |chains| && chain == Ordered(records, chains[m]) && |chain| >= 2 && |chains[m]| >= 2
    requires Written(records, chains, m, entries) && Labelled(entries, revision) && Counted(entries, tags, tags[m], per)
    requires Consecutive(entries) && Reached(entries, per)
    ensures Written(records, chains, m + 1, more) && Labelled(more, next) && Counted(more, tags, tags[m], count)
    ensures Consecutive(more) && Reached(more, count)
  {
    assert Rising(chains[m], |table|);
    OrderedEntry(records, chains, m, 0);
    var stem := StemOf(records[chain[0]]);
    var n := (if stem in per then per[stem] else 0) + 1;
    var e := Entry(chain, RevisionKey(stem, n), m);
    OrderedEntry(records, chains, m, n);
    NewKey(records, root, groups, table, chains, tags, m, entries, per, e);
    WrittenMore(records, chains, m, entries, e);
    CountedMore(entries, tags, tags[m], per, e);
    CountsOnMore(entries, per, e);
    EntriesApart(records, table, groups, chains, tags, m, entries, e);
    count := per[stem := n];
    next := LabelChain(revision, e);
    LabelledMore(records, chains, m, entries, revision, e, next);
    more := entries + [e];
  }

  // What the labels say

  /** Where a record wears its label. */
  lemma EntryAt(entries: seq<Entry>, revision: map<nat, Revision>, i: nat) returns (c: nat, k: nat)
    requires Labelled(entries, revision) && i in revision
    ensures c < |entries| && k < |entries[c].chain| && entries[c].chain[k] == i
    ensures revision[i] == Revision(entries[c].key, k, |entries[c].chain|, entries[c].chain[0])
  {
    c :| c < |entries| && i in entries[c].chain;
    k :| k < |entries[c].chain| && entries[c].chain[k] == i;
    assert Wears(revision, entries[c], k);
  }

  /** A labelled chain is a whole class of the table. */
  lemma ChainIsClass(records: seq<Filed>, root: seq<nat>, groups: seq<seq<nat>>, table: seq<nat>,
      chains: seq<seq<nat>>, tags: seq<nat>, e: Entry, i: nat)
    requires |root| == |table| == |records| && Partition(root, groups) && Found(table, groups, |groups|, chains, tags)
    requires EntryOf(records, chains, e) && i in e.chain
    ensures i < |table| && forall j: nat :: j in e.chain <==> j in Class(table, i)
    ensures |Class(table, i)| == |e.chain|
  {
    EntryMembers(records, chains, e, i);
    forall j: nat
      ensures j in e.chain <==> j in Class(table, i)
    {
      EntryMembers(records, chains, e, j);
      if j in Class(table, i) {
        var d := ChainOf(root, groups, table, chains, tags, j);
      }
    }
    SizeOf(e.chain);
    assert Class(table, i) == Elements(e.chain);
  }

  /** Every record lies in a chain. */
  lemma ChainOf(root: seq<nat>, groups: seq<seq<nat>>, table: seq<nat>, chains: seq<seq<nat>>, tags: seq<nat>, i: nat)
      returns (c: nat)
    requires |root| == |table| && Partition(root, groups) && Found(table, groups, |groups|, chains, tags) && i < |table|
    ensures InGroup(chains, c, i)
  {
    assert Grouped(groups, i);
    var g: nat :| InGroup(groups, g, i);
    assert Grouped(chains, i);
    c :| InGroup(chains, c, i);
  }

  ghost function Elements(xs: seq<nat>): set<nat> {
    set x | x in xs
  }

  lemma {:induction false} SizeOf(xs: seq<nat>)
    requires NoRepeats(xs)
    ensures |Elements(xs)| == |xs|
  {
    if xs == [] {
      assert Elements(xs) == {};
    } else {
      var k := |xs| - 1;
      SizeOf(xs[..k]);
      assert xs == xs[..k] + [xs[k]];
      assert Elements(xs) == Elements(xs[..k]) + {xs[k]};
      assert xs[k] !in Elements(xs[..k]);
    }
  }

  lemma LabelledHasMate(records: seq<Filed>, root: seq<nat>, groups: seq<seq<nat>>, table: seq<nat>,
      chains: seq<seq<nat>>, tags: seq<nat>, entries: seq<Entry>, revision: map<nat, Revision>, i: nat)
    requires |root| == |table| == |records| && Partition(root, groups) && Found(table, groups, |groups|, chains, tags)
    requires Written(records, chains, |chains|, entries) && Labelled(entries, revision) && i in revision
    ensures HasMate(table, i)
  {
    var c, k := EntryAt(entries, revision, i);
    var e := entries[c];
    assert EntryOf(records, chains, e);
    ChainIsClass(records, root, groups, table, chains, tags, e, i);
    var j := e.chain[if k == 0 then 1 else 0];
    assert j in e.chain && Mates(table, i, j);
  }

  lemma MateIsLabelled(records: seq<Filed>, root: seq<nat>, groups: seq<seq<nat>>, table: seq<nat>,
      chains: seq<seq<nat>>, tags: seq<nat>, entries: seq<Entry>, revision: map<nat, Revision>, i: nat)
    requires |root| == |table| == |records| && Partition(root, groups) && Found(table, groups, |groups|, chains, tags)
    requires Written(records, chains, |chains|, entries) && Labelled(entries, revision) && HasMate(table, i)
    ensures i in revision
  {
    var j: nat :| Mates(table, i, j);
    var x := ChainWithBoth(root, groups, table, chains, tags, i, j);
    var c :| 0 <= c < |entries| && entries[c].from == x;
    assert EntryOf(records, chains, entries[c]);
    EntryMembers(records, chains, entries[c], i);
    var k: nat :| k < |entries[c].chain| && entries[c].chain[k] == i;
    assert Wears(revision, entries[c], k);
  }

  lemma ChainWithBoth(root: seq<nat>, groups: seq<seq<nat>>, table: seq<nat>, chains: seq<seq<nat>>, tags: seq<nat>,
      i: nat, j: nat) returns (x: nat)
    requires |root| == |table| && Partition(root, groups) && Found(table, groups, |groups|, chains, tags) &&
      Mates(table, i, j)
    ensures InGroup(chains, x, i) && |chains[x]| >= 2
  {
    x := ChainOf(root, groups, table, chains, tags, i);
    var y := ChainOf(root, groups, table, chains, tags, j);
    assert x == y;
  }

  lemma LabelledAreMates(records: seq<Filed>, root: seq<nat>, groups: seq<seq<nat>>, table: seq<nat>,
      chains: seq<seq<nat>>, tags: seq<nat>, entries: seq<Entry>, revision: map<nat, Revision>, i: nat)
    requires |root| == |table| == |records| && Partition(root, groups) && Found(table, groups, |groups|, chains, tags)
    requires Written(records, chains, |chains|, entries) && Labelled(entries, revision)
    ensures i in revision <==> HasMate(table, i)
  {
    if i in revision {
      LabelledHasMate(records, root, groups, table, chains, tags, entries, revision, i);
    }
    if HasMate(table, i) {
      MateIsLabelled(records, root, groups, table, chains, tags, entries, revision, i);
    }
  }

  lemma PlacesTellOrder(records: seq<Filed>, chain: seq<nat>, k: nat, l: nat)
    requires Sorting.Sorted(InOrder(records), chain) && Within(chain, |records|) && k < |chain| && l < |chain| && k != l
    ensures TellsOrder(records[chain[k]], records[chain[l]], k, l)
  {
    if l < k {
      assert !InOrder(records)(chain[k], chain[l]);
    }
  }

  lemma KeysTellChains(records: seq<Filed>, root: seq<nat>, groups: seq<seq<nat>>, table: seq<nat>,
      chains: seq<seq<nat>>, tags: seq<nat>, entries: seq<Entry>, revision: map<nat, Revision>, i: nat, j: nat)
    requires |root| == |table| == |records| && Partition(root, groups) && Found(table, groups, |groups|, chains, tags)
    requires Written(records, chains, |chains|, entries) && Labelled(entries, revision) && i in revision &&
      j in revision
    ensures TellsChains(records, table, revision, i, j)
  {
    var c, k := EntryAt(entries, revision, i);
    var d, l := EntryAt(entries, revision, j);
    assert EntryOf(records, chains, entries[c]) && EntryOf(records, chains, entries[d]);
    ChainIsClass(records, root, groups, table, chains, tags, entries[c], i);
    ChainIsClass(records, root, groups, table, chains, tags, entries[d], j);
    EntryMembers(records, chains, entries[c], i);
    EntryMembers(records, chains, entries[d], j);
    assert table[i] == table[j] <==> entries[c].from == entries[d].from;
    assert entries[c].from == entries[d].from <==> c == d;
    if Mates(table, i, j) {
      assert c == d;
      PlacesTellOrder(records, entries[c].chain, k, l);
    }
  }

  lemma LabelInChain(records: seq<Filed>, root: seq<nat>, groups: seq<seq<nat>>, table: seq<nat>,
      chains: seq<seq<nat>>, tags: seq<nat>, entries: seq<Entry>, revision: map<nat, Revision>, i: nat)
    requires |root| == |table| == |records| && Partition(root, groups) && Found(table, groups, |groups|, chains, tags)
    requires Written(records, chains, |chains|, entries) && Labelled(entries, revision) && i in revision
    ensures Placed(records, table, revision, i)
  {
    var c, k := EntryAt(entries, revision, i);
    assert EntryOf(records, chains, entries[c]);
    ChainIsClass(records, root, groups, table, chains, tags, entries[c], i);
    assert Wears(revision, entries[c], 0);
    assert entries[c].chain[0] in entries[c].chain;
  }

  /** The keys worn count up because those of the entries do. */
  lemma KeysCountUp(records: seq<Filed>, chains: seq<seq<nat>>, entries: seq<Entry>, revision: map<nat, Revision>,
      i: nat)
    requires Written(records, chains, |chains|, entries) && Labelled(entries, revision) && Consecutive(entries)
    requires i in revision
    ensures CountedUp(revision, revision[i].key)
  {
    var c, k := EntryAt(entries, revision, i);
    var key := entries[c].key;
    assert CountsOn(entries, key);
    if key.n > 1 {
      var d :| 0 <= d < |entries| && entries[d].key == RevisionKey(key.stem, key.n - 1);
      assert EntryOf(records, chains, entries[d]);
      assert Wears(revision, entries[d], 0);
    }
  }

  lemma AllNumbered(records: seq<Filed>, root: seq<nat>, groups: seq<seq<nat>>, table: seq<nat>,
      chains: seq<seq<nat>>, tags: seq<nat>, entries: seq<Entry>, revision: map<nat, Revision>)
    requires |root| == |table| == |records| && Partition(root, groups) && Found(table, groups, |groups|, chains, tags)
    requires Written(records, chains, |chains|, entries) && Labelled(entries, revision) && Consecutive(entries)
    ensures Numbered(records, table, revision)
  {
    forall i | i in revision
      ensures CountedUp(revision, revision[i].key)
    {
      KeysCountUp(records, chains, entries, revision, i);
    }
    forall i | i in revision
      ensures i < |records| && Placed(records, table, revision, i)
    {
      LabelInChain(records, root, groups, table, chains, tags, entries, revision, i);
    }
    forall i: nat | i < |records|
      ensures i in revision <==> HasMate(table, i)
    {
      LabelledAreMates(records, root, groups, table, chains, tags, entries, revision, i);
    }
    forall i, j {:trigger revision[i], revision[j]} | i in revision && j in revision
      ensures TellsChains(records, table, revision, i, j)
    {
      KeysTellChains(records, root, groups, table, chains, tags, entries, revision, i, j);
    }
  }

  /** The base is of the chain's earliest date, and unmarked if any record of that date is. */
  lemma BaseIsEarliest(records: seq<Filed>, table: seq<nat>, revision: map<nat, Revision>, i: nat, j: nat)
    requires Numbered(records, table, revision) && i in revision && Mates(table, i, j)
    ensures revision[i].base < |records| && j < |records|
    ensures var base := records[revision[i].base];
      base.date <= records[j].date && (base.date == records[j].date && base.marked ==> records[j].marked)
  {
    var base := revision[i].base;
    assert HasMate(table, j) by {
      assert Mates(table, j, i);
    }
    assert Placed(records, table, revision, i);
    if j != base {
      assert Mates(table, j, base);
      assert TellsChains(records, table, revision, j, base);
    }
  }

  /** The labels number the chains, which are the components of belonging together inside the
      groups, which are the components of sharing a number. */
  ghost predicate Revised(records: seq<Filed>, keptAs: map<nat, nat>, revision: map<nat, Revision>) {
    exists root: seq<nat>, table: seq<nat> ::
      && Components(|records|, SharesKey(records), root)
      && Components(|records|, ChainedWith(records, keptAs, root), table)
      && Numbered(records, table, revision)
  }

  /** Groups the records by number, splits each group into chains, and numbers the chains. */
  method LinkRevisions(records: seq<Filed>, keptAs: map<nat, nat>) returns (revision: map<nat, Revision>)
    requires DistinctIds(records)
    ensures Revised(records, keptAs, revision)
  {
    var groups, chains, tags;
    ghost var root, table, entries;
    groups, root := NumberGroups(records);
    chains, tags, table := SplitGroups(records, keptAs, groups, root);
    TableComponents(records, keptAs, root, groups, table);
    revision, entries := LabelChains(records, chains, tags, root, groups, table);
    AllNumbered(records, root, groups, table, chains, tags, entries, revision);
  }
}
