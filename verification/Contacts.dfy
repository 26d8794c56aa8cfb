/** One contact per person within a client: merging contacts by links to the fuller name. */
module Contacts {
  import opened Wrappers
  import opened DistinctLists
  import opened Texts
  import Sorting

  /** A contact: its client, its name in words without honorifics, when it was first seen, and its
      address and phone votes. */
  datatype Contact = Contact(client: string, key: string, words: seq<string>, first: int, emails: multiset<string>,
    phones: multiset<string>)

  function WordSet(c: Contact): set<string> { set w | w in c.words }

  /** More words first, then by key. */
  predicate Earlier(a: Contact, b: Contact) {
    |a.words| > |b.words| || (|a.words| == |b.words| && Less(a.key, b.key))
  }

  // Whom a contact may be merged into

  /** They share an address, or one's words all sit in the other's. */
  predicate SamePerson(c: Contact, o: Contact) {
    c.emails * o.emails != multiset{} || WordSet(c) < WordSet(o)
  }

  predicate InRange(xs: seq<nat>, n: nat) {
    forall k :: 0 <= k < |xs| ==> xs[k] < n
  }

  /** The members of the group still standing that may be the same person. */
  function Fuller(contacts: seq<Contact>, into: map<nat, nat>, group: seq<nat>, c: nat): (r: seq<nat>)
    requires c < |contacts| && InRange(group, |contacts|)
    ensures InRange(r, |contacts|)
  {
    if group == [] then []
    else
      var o := group[0];
      var rest := Fuller(contacts, into, group[1..], c);
      if o != c && o !in into && SamePerson(contacts[c], contacts[o]) then [o] + rest else rest
  }

  lemma {:induction false} FullerAre(contacts: seq<Contact>, into: map<nat, nat>, group: seq<nat>, c: nat)
    requires c < |contacts| && InRange(group, |contacts|)
    ensures forall o: nat :: o in Fuller(contacts, into, group, c) <==>
      o in group && o != c && o !in into && SamePerson(contacts[c], contacts[o])
  {
    if group != [] {
      FullerAre(contacts, into, group[1..], c);
    }
  }

  /** The contacts of the group that may be the same person and still stand, as a set. */
  ghost function Candidates(s: Links, group: seq<nat>, c: nat): set<nat>
    requires c < |s.contacts|
  {
    set o: nat | o in group && o < |s.contacts| && o != c && o !in s.into && SamePerson(s.contacts[c], s.contacts[o])
  }

  lemma {:induction false} FullerOnce(contacts: seq<Contact>, into: map<nat, nat>, group: seq<nat>, c: nat)
    requires c < |contacts| && InRange(group, |contacts|) && NoRepeats(group)
    ensures NoRepeats(Fuller(contacts, into, group, c))
  {
    if group != [] {
      FullerOnce(contacts, into, group[1..], c);
      FullerAre(contacts, into, group[1..], c);
      var rest := Fuller(contacts, into, group[1..], c);
      assert forall k :: 0 <= k < |rest| ==> rest[k] in rest && rest[k] in group[1..];
    }
  }

  lemma {:induction false} CountEqual(xs: seq<nat>, o: nat)
    requires forall k :: 0 <= k < |xs| ==> xs[k] == o
    ensures multiset(xs)[o] == |xs|
  {
    if xs != [] {
      CountEqual(xs[1..], o);
      assert xs == [o] + xs[1..];
    }
  }

  /** A contact is merged in its turn exactly when one standing contact alone may be the same person
      and that one's name has no fewer words; otherwise nothing changes. */
  lemma SoleCandidateMerged(s: Links, group: seq<nat>, c: nat, o: nat)
    requires c < |s.contacts| && InRange(group, |s.contacts|) && NoRepeats(group) && c !in s.into
    requires o < |s.contacts|
    ensures var t := Turn(s, group, c);
      && (Candidates(s, group, c) == {o} && |s.contacts[o].words| >= |WordSet(s.contacts[c])| <==>
            c in t.into && t.into[c] == o)
      && (c !in t.into ==> t == s)
      && (forall i :: i != c ==> (i in t.into <==> i in s.into) && (i in t.into ==> t.into[i] == s.into[i]))
  {
    var fuller := Fuller(s.contacts, s.into, group, c);
    FullerAre(s.contacts, s.into, group, c);
    FullerOnce(s.contacts, s.into, group, c);
    if |fuller| == 1 {
      assert fuller[0] in fuller;
      assert forall x :: x in fuller ==> x == fuller[0];
      assert Candidates(s, group, c) == {fuller[0]};
    }
    if Candidates(s, group, c) == {o} {
      assert o in fuller;
      forall k | 0 <= k < |fuller|
        ensures fuller[k] == o
      {
        assert fuller[k] in fuller && fuller[k] in Candidates(s, group, c);
      }
      CountEqual(fuller, o);
      NoRepeatsCount(fuller, o);
    }
  }

  predicate Merges(contacts: seq<Contact>, fuller: seq<nat>, c: nat)
    requires c < |contacts| && InRange(fuller, |contacts|)
  {
    |fuller| == 1 && |contacts[fuller[0]].words| >= |WordSet(contacts[c])|
  }

  /** The contact that stays takes over the other's date and votes. */
  function TakeOver(keep: Contact, c: Contact): Contact {
    keep.(first := if c.first < keep.first then c.first else keep.first, emails := keep.emails + c.emails,
      phones := keep.phones + c.phones)
  }

  /** The contacts and the links between them. */
  datatype Links = Links(contacts: seq<Contact>, into: map<nat, nat>)

  /** One contact's turn: merged when exactly one standing contact may be the same person and is no shorter. */
  function Turn(s: Links, group: seq<nat>, c: nat): (r: Links)
    requires c < |s.contacts| && InRange(group, |s.contacts|)
    ensures |r.contacts| == |s.contacts|
  {
    var fuller := Fuller(s.contacts, s.into, group, c);
    if Merges(s.contacts, fuller, c) then
      var keep := fuller[0];
      Links(s.contacts[keep := TakeOver(s.contacts[keep], s.contacts[c])], s.into[c := keep])
    else s
  }

  /** The first k turns of a client's contacts. */
  function AfterTurns(s: Links, turns: seq<nat>, k: nat): (r: Links)
    requires k <= |turns| && InRange(turns, |s.contacts|)
    ensures |r.contacts| == |s.contacts|
  {
    if k == 0 then s else Turn(AfterTurns(s, turns, k - 1), turns, turns[k - 1])
  }

  function AfterGroup(s: Links, client: string): (r: Links)
    ensures |r.contacts| == |s.contacts|
  {
    var turns := Turns(s.contacts, client);
    AfterTurns(s, turns, |turns|)
  }

  /** Step after step over the first k names. */
  function Stepped(step: (Links, string) -> Links, s: Links, names: seq<string>, k: nat): Links
    requires k <= |names|
  {
    if k == 0 then s else step(Stepped(step, s, names, k - 1), names[k - 1])
  }

  /** The turns of the first k clients. */
  function AfterClients(was: seq<Contact>, clients: seq<string>, k: nat): Links
    requires k <= |clients|
  {
    Stepped(AfterGroup, Links(was, map[]), clients, k)
  }

  function AfterAll(was: seq<Contact>): Links {
    AfterClients(was, Clients(was), |Clients(was)|)
  }

  // What the links amount to

  /** The votes of all contacts whose root is r. */
  function Pooled(votes: Contact -> multiset<string>, was: seq<Contact>, roots: seq<nat>, r: nat): multiset<string>
    requires |was| == |roots|
  {
    if was == [] then multiset{}
    else
      var k := |was| - 1;
      Pooled(votes, was[..k], roots[..k], r) + if roots[k] == r then votes(was[k]) else multiset{}
  }

  function Total(votes: Contact -> multiset<string>, was: seq<Contact>): multiset<string> {
    if was == [] then multiset{} else Total(votes, was[..|was| - 1]) + votes(was[|was| - 1])
  }

  function Emails(): Contact -> multiset<string> { (c: Contact) => c.emails }

  function Phones(): Contact -> multiset<string> { (c: Contact) => c.phones }

  predicate LinkedCloser(into: map<nat, nat>, roots: seq<nat>, depth: seq<nat>, i: nat)
    requires |depth| == |roots| && i in into
  {
    i < |roots| && into[i] < |roots| && roots[i] == roots[into[i]] && depth[into[i]] < depth[i]
  }

  /** The links form a forest: each contact has a root, which is not linked, and a link keeps the
      root and comes closer to it. */
  ghost predicate Forest(into: map<nat, nat>, roots: seq<nat>, depth: seq<nat>) {
    && |depth| == |roots|
    && (forall i: nat :: i < |roots| ==> roots[i] < |roots| && roots[i] !in into)
    && (forall i: nat :: i < |roots| && i !in into ==> roots[i] == i)
    && (forall i :: i in into ==> LinkedCloser(into, roots, depth, i))
  }

  /** Nobody's client, key or words change. */
  ghost predicate SameNames(was: seq<Contact>, now: seq<Contact>) {
    |was| == |now| && forall i :: 0 <= i < |was| ==>
      now[i].client == was[i].client && now[i].key == was[i].key && now[i].words == was[i].words
  }

  ghost predicate SameClients(was: seq<Contact>, roots: seq<nat>) {
    |was| == |roots| && forall i :: 0 <= i < |roots| ==> roots[i] < |was| && was[roots[i]].client == was[i].client
  }

  /** Each survivor holds the votes of the contacts merged into it, its own among them, and the
      earliest of their dates. */
  ghost predicate Gathered(was: seq<Contact>, now: seq<Contact>, into: map<nat, nat>, roots: seq<nat>) {
    && |was| == |now| == |roots|
    && forall r: nat {:trigger Holds(was, now[r], roots, r)} :: r < |was| && r !in into ==> Holds(was, now[r], roots, r)
  }

  ghost predicate Holds(was: seq<Contact>, now: Contact, roots: seq<nat>, r: nat)
    requires |was| == |roots|
  {
    && now.emails == Pooled(Emails(), was, roots, r)
    && now.phones == Pooled(Phones(), was, roots, r)
    && (forall i :: 0 <= i < |was| && roots[i] == r ==> now.first <= was[i].first)
    && (exists i :: 0 <= i < |was| && roots[i] == r && now.first == was[i].first)
  }

  ghost predicate Merged(was: seq<Contact>, now: seq<Contact>, into: map<nat, nat>, roots: seq<nat>, depth: seq<nat>) {
    && |was| == |now| == |roots|
    && Forest(into, roots, depth)
    && SameNames(was, now)
    && SameClients(was, roots)
    && Gathered(was, now, into, roots)
    && FullerStays(was, into)
  }

  /** Who is merged goes into a contact whose name has no fewer words. */
  ghost predicate FullerStays(was: seq<Contact>, into: map<nat, nat>) {
    forall i :: i in into ==> i < |was| && into[i] < |was| && |was[into[i]].words| >= |WordSet(was[i])|
  }

  // Linking one root to another

  function Moved(roots: seq<nat>, c: nat, keep: nat): (r: seq<nat>)
    ensures |r| == |roots| && forall i :: 0 <= i < |r| ==> r[i] == if roots[i] == c then keep else roots[i]
  {
    seq(|roots|, i requires 0 <= i < |roots| => if roots[i] == c then keep else roots[i])
  }

  lemma ForestLinked(into: map<nat, nat>, roots: seq<nat>, depth: seq<nat>, c: nat, keep: nat)
      returns (deeper: seq<nat>)
    requires Forest(into, roots, depth) && c < |roots| && keep < |roots| && c != keep && c !in into && keep !in into
    ensures Forest(into[c := keep], Moved(roots, c, keep), deeper)
  {
    deeper := seq(|roots|, i requires 0 <= i < |roots| => if roots[i] == c then depth[i] + depth[keep] + 1
      else depth[i]);
  }

  lemma {:induction false} PooledMoved(votes: Contact -> multiset<string>, was: seq<Contact>, roots: seq<nat>, c: nat,
      keep: nat, r: nat)
    requires |was| == |roots| && c != keep && r != c
    ensures Pooled(votes, was, Moved(roots, c, keep), r) == Pooled(votes, was, roots, r) +
      if r == keep then Pooled(votes, was, roots, c) else multiset{}
    decreases |was|
  {
    if was != [] {
      var k := |was| - 1;
      PooledMoved(votes, was[..k], roots[..k], c, keep, r);
      assert Moved(roots, c, keep)[..k] == Moved(roots[..k], c, keep);
    }
  }

  lemma HoldsKeep(was: seq<Contact>, keepNow: Contact, cNow: Contact, roots: seq<nat>, c: nat, keep: nat)
    requires |was| == |roots| && c != keep && Holds(was, keepNow, roots, keep) && Holds(was, cNow, roots, c)
    ensures Holds(was, TakeOver(keepNow, cNow), Moved(roots, c, keep), keep)
  {
    var moved := Moved(roots, c, keep);
    PooledMoved(Emails(), was, roots, c, keep, keep);
    PooledMoved(Phones(), was, roots, c, keep, keep);
    var i :| 0 <= i < |was| && roots[i] == keep && keepNow.first == was[i].first;
    var j :| 0 <= j < |was| && roots[j] == c && cNow.first == was[j].first;
    assert moved[i] == keep && moved[j] == keep;
  }

  lemma HoldsOther(was: seq<Contact>, now: Contact, roots: seq<nat>, c: nat, keep: nat, r: nat)
    requires |was| == |roots| && c != keep && r != c && r != keep && Holds(was, now, roots, r)
    ensures Holds(was, now, Moved(roots, c, keep), r)
  {
    var moved := Moved(roots, c, keep);
    PooledMoved(Emails(), was, roots, c, keep, r);
    PooledMoved(Phones(), was, roots, c, keep, r);
    var i :| 0 <= i < |was| && roots[i] == r && now.first == was[i].first;
    assert moved[i] == r;
  }

  lemma GatheredLinked(was: seq<Contact>, now: seq<Contact>, into: map<nat, nat>, roots: seq<nat>, c: nat, keep: nat)
    requires Gathered(was, now, into, roots) && c < |was| && keep < |was| && c != keep && c !in into && keep !in into
    ensures Gathered(was, now[keep := TakeOver(now[keep], now[c])], into[c := keep], Moved(roots, c, keep))
  {
    var after := now[keep := TakeOver(now[keep], now[c])];
    forall r: nat | r < |was| && r !in into[c := keep]
      ensures Holds(was, after[r], Moved(roots, c, keep), r)
    {
      if r == keep {
        HoldsKeep(was, now[keep], now[c], roots, c, keep);
      } else {
        HoldsOther(was, now[r], roots, c, keep, r);
      }
    }
  }

  lemma MergedLinked(was: seq<Contact>, now: seq<Contact>, into: map<nat, nat>, roots: seq<nat>, depth: seq<nat>,
      c: nat, keep: nat) returns (deeper: seq<nat>)
    requires Merged(was, now, into, roots, depth) && c < |was| && keep < |was| && c != keep && c !in into &&
      keep !in into
    requires was[c].client == was[keep].client && |was[keep].words| >= |WordSet(was[c])|
    ensures Merged(was, now[keep := TakeOver(now[keep], now[c])], into[c := keep], Moved(roots, c, keep), deeper)
  {
    deeper := ForestLinked(into, roots, depth, c, keep);
    GatheredLinked(was, now, into, roots, c, keep);
    SameLinked(was, now, roots, c, keep);
  }

  lemma SameLinked(was: seq<Contact>, now: seq<Contact>, roots: seq<nat>, c: nat, keep: nat)
    requires SameNames(was, now) && SameClients(was, roots) && c < |was| && keep < |was| &&
      was[c].client == was[keep].client
    ensures SameNames(was, now[keep := TakeOver(now[keep], now[c])]) && SameClients(was, Moved(roots, c, keep))
  {
  }

  function Indices(n: nat): (r: seq<nat>)
    ensures |r| == n && forall i :: 0 <= i < n ==> r[i] == i
  {
    seq(n, i requires 0 <= i < n => i)
  }

  lemma {:induction false} PooledAlone(votes: Contact -> multiset<string>, was: seq<Contact>, n: nat, r: nat)
    requires n <= |was|
    ensures Pooled(votes, was[..n], Indices(n), r) == if r < n then votes(was[r]) else multiset{}
    decreases n
  {
    if n > 0 {
      PooledAlone(votes, was, n - 1, r);
      assert was[..n][..n - 1] == was[..n - 1] && Indices(n)[..n - 1] == Indices(n - 1);
    }
  }

  lemma MergedAtFirst(was: seq<Contact>) returns (roots: seq<nat>, depth: seq<nat>)
    ensures Merged(was, was, map[], roots, depth)
  {
    roots, depth := Indices(|was|), seq(|was|, _ => 0);
    forall r: nat | r < |was|
      ensures Holds(was, was[r], Indices(|was|), r)
    {
      PooledAlone(Emails(), was, |was|, r);
      PooledAlone(Phones(), was, |was|, r);
      assert was[..|was|] == was;
      assert Indices(|was|)[r] == r;
    }
  }

  // The groups

  /** The clients, in the order of their first contacts. */
  function Clients(contacts: seq<Contact>): seq<string> {
    if contacts == [] then []
    else
      var k := |contacts| - 1;
      var names := Clients(contacts[..k]);
      if contacts[k].client in names then names else names + [contacts[k].client]
  }

  lemma {:induction false} ClientsOnce(contacts: seq<Contact>)
    ensures NoRepeats(Clients(contacts))
    ensures forall name :: name in Clients(contacts) <==> exists i :: 0 <= i < |contacts| && contacts[i].client == name
  {
    if contacts != [] {
      var k := |contacts| - 1;
      ClientsOnce(contacts[..k]);
      var names := Clients(contacts);
      assert contacts[k].client in names;
      forall name | name in names
        ensures exists i :: 0 <= i < |contacts| && contacts[i].client == name
      {
        if name in Clients(contacts[..k]) {
          var i :| 0 <= i < k && contacts[..k][i].client == name;
          assert contacts[i].client == name;
        }
      }
      forall i | 0 <= i < |contacts|
        ensures contacts[i].client in names
      {
        if i < k {
          assert contacts[..k][i].client in Clients(contacts[..k]);
        }
      }
    }
  }

  function GroupOf(contacts: seq<Contact>, client: string, n: nat): (r: seq<nat>)
    requires n <= |contacts|
    ensures forall i: nat :: i in r <==> i < n && contacts[i].client == client
    ensures InRange(r, n) && forall i, j :: 0 <= i < j < |r| ==> r[i] < r[j]
  {
    if n == 0 then []
    else
      var rest := GroupOf(contacts, client, n - 1);
      if contacts[n - 1].client == client then rest + [n - 1] else rest
  }

  function FullestFirst(contacts: seq<Contact>): (nat, nat) -> bool {
    (a: nat, b: nat) => a < |contacts| && (b < |contacts| ==> Earlier(contacts[a], contacts[b]))
  }

  lemma FullestFirstOrders(contacts: seq<Contact>)
    ensures Sorting.Order(FullestFirst(contacts))
  {
    var before := FullestFirst(contacts);
    forall a: nat, b: nat | before(a, b)
      ensures !before(b, a)
    {
      if b < |contacts| && |contacts[a].words| == |contacts[b].words| {
        LessOneWay(contacts[a].key, contacts[b].key);
      }
    }
    forall a: nat, b: nat, c: nat | !before(b, a) && !before(c, b)
      ensures !before(c, a)
    {
      if a < |contacts| && b < |contacts| && c < |contacts| &&
          |contacts[a].words| == |contacts[b].words| == |contacts[c].words| {
        NotLessTransitive(contacts[a].key, contacts[b].key, contacts[c].key);
      }
    }
  }

  /** Longer names have their turn first, and of equally long ones the earlier key. */
  lemma TurnsByName(contacts: seq<Contact>, client: string, i: nat, j: nat)
    requires i < j < |Turns(contacts, client)|
    ensures var a, b := contacts[Turns(contacts, client)[i]], contacts[Turns(contacts, client)[j]];
      |a.words| > |b.words| || (|a.words| == |b.words| && !Less(b.key, a.key))
  {
    var turns := Turns(contacts, client);
    FullestFirstOrders(contacts);
    Sorting.SortSorted(FullestFirst(contacts), GroupOf(contacts, client, |contacts|));
    assert !FullestFirst(contacts)(turns[j], turns[i]);
  }

  /** A client's contacts, in the order their turns come. */
  function Turns(contacts: seq<Contact>, client: string): (r: seq<nat>)
    ensures InRange(r, |contacts|)
  {
    var group := GroupOf(contacts, client, |contacts|);
    var turns := Sorting.Sort(FullestFirst(contacts), group);
    SameMembers(group, turns);
    turns
  }

  lemma SameMembers(xs: seq<nat>, ys: seq<nat>)
    requires multiset(xs) == multiset(ys)
    ensures forall i :: i in ys <==> i in xs
    ensures forall n: nat :: InRange(xs, n) ==> InRange(ys, n)
  {
    assert forall i: nat :: i in xs <==> i in multiset(xs);
    assert forall i: nat :: i in ys <==> i in multiset(ys);
    forall n: nat | InRange(xs, n)
      ensures InRange(ys, n)
    {
      forall k | 0 <= k < |ys|
        ensures ys[k] < n
      {
        assert ys[k] in xs;
      }
    }
  }

  lemma TurnsOnce(contacts: seq<Contact>, client: string)
    ensures NoRepeats(Turns(contacts, client))
    ensures forall i: nat :: i in Turns(contacts, client) <==> i < |contacts| && contacts[i].client == client
  {
    var group, turns := GroupOf(contacts, client, |contacts|), Turns(contacts, client);
    SameContentsNoRepeats(group, turns);
    SameMembers(group, turns);
  }

  lemma TurnMerged(was: seq<Contact>, s: Links, roots: seq<nat>, depth: seq<nat>, group: seq<nat>, c: nat)
      returns (moved: seq<nat>, deeper: seq<nat>)
    requires Merged(was, s.contacts, s.into, roots, depth) && c < |was| && c !in s.into
    requires InRange(group, |was|) && forall o :: o in group ==> s.contacts[o].client == s.contacts[c].client
    ensures var t := Turn(s, group, c);
      Merged(was, t.contacts, t.into, moved, deeper) && forall i :: i in t.into ==> i in s.into || i == c
  {
    var fuller := Fuller(s.contacts, s.into, group, c);
    FullerAre(s.contacts, s.into, group, c);
    moved, deeper := roots, depth;
    if Merges(s.contacts, fuller, c) {
      var keep := fuller[0];
      assert keep in fuller;
      SameClient(was, s.contacts, c, keep);
      deeper := MergedLinked(was, s.contacts, s.into, roots, depth, c, keep);
      moved := Moved(roots, c, keep);
    }
  }

  lemma SameClient(was: seq<Contact>, now: seq<Contact>, c: nat, keep: nat)
    requires SameNames(was, now) && c < |was| && keep < |was| && now[c].client == now[keep].client
    ensures was[c].client == was[keep].client
    ensures was[keep].words == now[keep].words && WordSet(was[c]) == WordSet(now[c])
  {
  }

  /** The links behind the state form a forest over the contacts it started from, and only these contacts are linked. */
  ghost predicate Sound(was: seq<Contact>, s: Links, linked: set<nat>) {
    exists roots: seq<nat>, depth: seq<nat> :: Merged(was, s.contacts, s.into, roots, depth) && s.into.Keys <= linked
  }

  ghost function FirstOf<T(!new)>(xs: seq<T>, k: nat): (r: set<T>)
    requires k <= |xs|
    ensures forall x :: x in r <==> exists i :: 0 <= i < k && xs[i] == x
  {
    set i | 0 <= i < k :: xs[i]
  }

  ghost function OfClients(was: seq<Contact>, clients: set<string>): set<nat> {
    set i: nat | i < |was| && was[i].client in clients
  }

  lemma NextTurn(was: seq<Contact>, t: Links, linked: set<nat>, client: string, turns: seq<nat>, k: nat)
    requires k < |turns| && Sound(was, t, linked + FirstOf(turns, k)) && NoRepeats(turns) && InRange(turns, |was|) &&
      |t.contacts| == |was|
    requires forall i: nat :: i in turns <==> i < |was| && was[i].client == client
    requires forall i :: i in linked ==> i < |was| && was[i].client != client
    ensures Sound(was, Turn(t, turns, turns[k]), linked + FirstOf(turns, k + 1))
  {
    var roots: seq<nat>, depth: seq<nat> :| Merged(was, t.contacts, t.into, roots, depth) &&
      t.into.Keys <= linked + FirstOf(turns, k);
    assert turns[k] in turns && turns[k] !in FirstOf(turns, k);
    SameTurn(was, t.contacts, turns, turns[k], client);
    var moved, deeper := TurnMerged(was, t, roots, depth, turns, turns[k]);
    var u := Turn(t, turns, turns[k]);
    assert u.into.Keys <= linked + FirstOf(turns, k + 1);
  }

  lemma SameTurn(was: seq<Contact>, now: seq<Contact>, turns: seq<nat>, c: nat, client: string)
    requires SameNames(was, now) && InRange(turns, |was|) && c in turns
    requires forall i: nat :: i in turns <==> i < |was| && was[i].client == client
    ensures forall o :: o in turns ==> now[o].client == now[c].client
  {
  }

  lemma TurnsOfClient(was: seq<Contact>, s: Links, linked: set<nat>, client: string)
    requires Sound(was, s, linked)
    ensures |s.contacts| == |was| && NoRepeats(Turns(s.contacts, client))
    ensures forall i: nat :: i in Turns(s.contacts, client) <==> i < |was| && was[i].client == client
  {
    var roots: seq<nat>, depth: seq<nat> :| Merged(was, s.contacts, s.into, roots, depth);
    TurnsOnce(s.contacts, client);
  }

  /** What holds at first and over each turn holds after them all. */
  lemma {:induction false} AfterEachTurn(s: Links, turns: seq<nat>, k: nat, holds: (Links, nat) -> bool)
    requires k <= |turns| && InRange(turns, |s.contacts|) && holds(s, 0)
    requires forall t: Links, l: nat :: l < |turns| && |t.contacts| == |s.contacts| && holds(t, l) ==>
      holds(Turn(t, turns, turns[l]), l + 1)
    ensures holds(AfterTurns(s, turns, k), k)
    decreases k
  {
    if k > 0 {
      AfterEachTurn(s, turns, k - 1, holds);
      assert holds(Turn(AfterTurns(s, turns, k - 1), turns, turns[k - 1]), k - 1 + 1);
    }
  }

  lemma TurnsMerged(was: seq<Contact>, s: Links, linked: set<nat>, client: string, turns: seq<nat>)
    requires Sound(was, s, linked) && |s.contacts| == |was|
    requires InRange(turns, |was|) && NoRepeats(turns)
    requires forall i: nat :: i in turns <==> i < |was| && was[i].client == client
    requires forall i :: i in linked ==> i < |was| && was[i].client != client
    ensures Sound(was, AfterTurns(s, turns, |turns|), linked + FirstOf(turns, |turns|))
  {
    var holds := (t: Links, k: nat) => k <= |turns| && Sound(was, t, linked + FirstOf(turns, k));
    assert linked + FirstOf(turns, 0) == linked;
    forall t: Links, l: nat | l < |turns| && |t.contacts| == |s.contacts| && holds(t, l)
      ensures holds(Turn(t, turns, turns[l]), l + 1)
    {
      NextTurn(was, t, linked, client, turns, l);
    }
    AfterEachTurn(s, turns, |turns|, holds);
    assert holds(AfterTurns(s, turns, |turns|), |turns|);
  }

  lemma GroupMerged(was: seq<Contact>, s: Links, clients: seq<string>, k: nat)
    requires k < |clients| && NoRepeats(clients) && Sound(was, s, OfClients(was, FirstOf(clients, k)))
    ensures Sound(was, AfterGroup(s, clients[k]), OfClients(was, FirstOf(clients, k + 1)))
  {
    var linked := OfClients(was, FirstOf(clients, k));
    var turns := Turns(s.contacts, clients[k]);
    TurnsOfClient(was, s, linked, clients[k]);
    TurnsMerged(was, s, linked, clients[k], turns);
    forall i | i in FirstOf(turns, |turns|)
      ensures i in turns
    {
    }
    assert clients[k] in FirstOf(clients, k + 1);
    assert linked + FirstOf(turns, |turns|) <= OfClients(was, FirstOf(clients, k + 1));
  }

  /** What holds at first and over each step holds after them all. */
  lemma {:induction false} AfterEachStep(step: (Links, string) -> Links, s: Links, names: seq<string>, k: nat,
      holds: (Links, nat) -> bool)
    requires k <= |names| && holds(s, 0)
    requires forall t: Links, l: nat :: l < |names| && holds(t, l) ==> holds(step(t, names[l]), l + 1)
    ensures holds(Stepped(step, s, names, k), k)
    decreases k
  {
    if k > 0 {
      AfterEachStep(step, s, names, k - 1, holds);
      assert holds(step(Stepped(step, s, names, k - 1), names[k - 1]), k - 1 + 1);
    }
  }

  ghost function SoundUpTo(was: seq<Contact>, clients: seq<string>): (Links, nat) -> bool {
    (s: Links, k: nat) => k <= |clients| && Sound(was, s, OfClients(was, FirstOf(clients, k)))
  }

  lemma ClientsMerged(was: seq<Contact>, clients: seq<string>)
    requires NoRepeats(clients)
    ensures SoundUpTo(was, clients)(AfterClients(was, clients, |clients|), |clients|)
  {
    var holds := SoundUpTo(was, clients);
    SoundAtFirst(was, OfClients(was, FirstOf(clients, 0)));
    forall s: Links, l: nat | l < |clients| && holds(s, l)
      ensures holds(AfterGroup(s, clients[l]), l + 1)
    {
      GroupMerged(was, s, clients, l);
    }
    AfterEachStep(AfterGroup, Links(was, map[]), clients, |clients|, holds);
  }

  lemma SoundAtFirst(was: seq<Contact>, linked: set<nat>)
    ensures Sound(was, Links(was, map[]), linked)
  {
    var roots, depth := MergedAtFirst(was);
  }

  lemma AllMerged(was: seq<Contact>) returns (roots: seq<nat>, depth: seq<nat>)
    ensures Merged(was, AfterAll(was).contacts, AfterAll(was).into, roots, depth)
  {
    ClientsOnce(was);
    ClientsMerged(was, Clients(was));
    roots, depth :| Merged(was, AfterAll(was).contacts, AfterAll(was).into, roots, depth);
  }

  /** The part of the seed builder that keeps the contacts. Contacts are named by the order they were made in. */
  class Builder {
    var contacts: seq<Contact>
    var listed: seq<nat>
    var quoted: seq<Option<nat>>

    constructor (contacts: seq<Contact>, quoted: seq<Option<nat>>)
      ensures this.contacts == contacts && this.quoted == quoted && listed == Indices(|contacts|)
    {
      this.contacts, this.quoted, listed := contacts, quoted, Indices(|contacts|);
    }

    /** One contact's turn. */
    method MergeOne(c: nat, group: seq<nat>, into: map<nat, nat>) returns (next: map<nat, nat>)
      requires c < |contacts| && InRange(group, |contacts|)
      modifies this`contacts
      ensures Links(contacts, next) == Turn(Links(old(contacts), into), group, c)
    {
      next := into;
      var fuller := Fuller(contacts, into, group, c);
      if Merges(contacts, fuller, c) {
        var keep := fuller[0];
        next := into[c := keep];
        contacts := contacts[keep := TakeOver(contacts[keep], contacts[c])];
      }
    }

    method MergeGroup(client: string, into: map<nat, nat>) returns (next: map<nat, nat>)
      modifies this`contacts
      ensures Links(contacts, next) == AfterGroup(Links(old(contacts), into), client)
    {
      var turns := Turns(contacts, client);
      next := into;
      for k := 0 to |turns|
        invariant Links(contacts, next) == AfterTurns(Links(old(contacts), into), turns, k)
      {
        next := MergeOne(turns[k], turns, next);
      }
    }

    method MergeGroups() returns (into: map<nat, nat>)
      modifies this`contacts
      ensures Links(contacts, into) == AfterAll(old(contacts))
    {
      var clients := Clients(contacts);
      into := map[];
      for k := 0 to |clients|
        invariant Links(contacts, into) == AfterClients(old(contacts), clients, k)
      {
        into := MergeGroup(clients[k], into);
      }
    }

    /** One contact per person within a client; every quotation then names a contact that stayed. */
    method MergeContacts() returns (into: map<nat, nat>, ghost roots: seq<nat>, ghost depth: seq<nat>)
      requires listed == Indices(|contacts|)
      requires forall i :: 0 <= i < |quoted| && quoted[i].Some? ==> quoted[i].value < |contacts|
      modifies this
      ensures Links(contacts, into) == AfterAll(old(contacts))
      ensures Merged(old(contacts), contacts, into, roots, depth)
      ensures listed == Standing(into, |contacts|)
      ensures Redirected(old(quoted), quoted, roots, |quoted|)
    {
      into := MergeGroups();
      roots, depth := AllMerged(old(contacts));
      Settle(into, roots, depth);
    }

    /** Merged contacts leave the list, and quotations follow the links, if there are any. */
    method Settle(into: map<nat, nat>, ghost roots: seq<nat>, ghost depth: seq<nat>)
      requires Forest(into, roots, depth) && listed == Indices(|contacts|)
      requires forall i :: 0 <= i < |quoted| && quoted[i].Some? ==> quoted[i].value < |roots|
      modifies this`listed, this`quoted
      ensures listed == Standing(into, |contacts|)
      ensures Redirected(old(quoted), quoted, roots, |quoted|)
    {
      if into == map[] {
        NobodyLeaves(|contacts|);
        NobodyMoves(quoted, roots, depth);
        return;
      }
      listed := Standing(into, |contacts|);
      Redirect(into, roots, depth);
    }

    /** Each quotation's contact is followed to the one that stays. */
    method Redirect(into: map<nat, nat>, ghost roots: seq<nat>, ghost depth: seq<nat>)
      requires Forest(into, roots, depth)
      requires forall i :: 0 <= i < |quoted| && quoted[i].Some? ==> quoted[i].value < |roots|
      modifies this`quoted
      ensures Redirected(old(quoted), quoted, roots, |quoted|)
    {
      ghost var was := quoted;
      for q := 0 to |quoted|
        invariant Redirected(was, quoted, roots, q)
      {
        while quoted[q].Some? && quoted[q].value in into
          invariant |quoted| == |was| && Redirected(was, quoted[q := was[q]], roots, q)
          invariant quoted[q].Some? <==> was[q].Some?
          invariant quoted[q].Some? ==> quoted[q].value < |roots| && roots[quoted[q].value] == roots[was[q].value]
          decreases if quoted[q].Some? then depth[quoted[q].value] else 0
        {
          quoted := quoted[q := Some(into[quoted[q].value])];
        }
      }
    }
  }

  /** The first n quotations name the root of the contact they named before; the others still name theirs. */
  ghost predicate Redirected(was: seq<Option<nat>>, now: seq<Option<nat>>, roots: seq<nat>, n: nat) {
    && |now| == |was|
    && (forall i :: 0 <= i < |was| && was[i].Some? ==> was[i].value < |roots|)
    && (forall i :: 0 <= i < n && i < |was| ==> now[i] == if was[i].Some? then Some(roots[was[i].value]) else None)
    && (forall i :: n <= i < |was| ==> now[i] == was[i])
  }

  lemma NobodyMoves(quoted: seq<Option<nat>>, roots: seq<nat>, depth: seq<nat>)
    requires Forest(map[], roots, depth)
    requires forall i :: 0 <= i < |quoted| && quoted[i].Some? ==> quoted[i].value < |roots|
    ensures Redirected(quoted, quoted, roots, |quoted|)
  {
  }

  function Standing(into: map<nat, nat>, n: nat): (r: seq<nat>)
    ensures forall i: nat :: i in r <==> i < n && i !in into
    ensures InRange(r, n) && forall i, j :: 0 <= i < j < |r| ==> r[i] < r[j]
  {
    if n == 0 then []
    else if n - 1 in into then Standing(into, n - 1)
    else Standing(into, n - 1) + [n - 1]
  }

  lemma {:induction false} AllStand(into: map<nat, nat>, n: nat)
    requires forall i :: 0 <= i < n ==> i !in into
    ensures Standing(into, n) == Indices(n)
  {
    if n > 0 {
      AllStand(into, n - 1);
      assert Indices(n) == Indices(n - 1) + [n - 1];
    }
  }

  lemma NobodyLeaves(n: nat)
    ensures Standing(map[], n) == Indices(n)
  {
    AllStand(map[], n);
  }

  /** A quotation that named a contact names one that stayed, of the same client. */
  lemma QuotationsNameStanding(was: seq<Contact>, now: seq<Contact>, into: map<nat, nat>, roots: seq<nat>,
      depth: seq<nat>, before: seq<Option<nat>>, after: seq<Option<nat>>, q: nat)
    requires Merged(was, now, into, roots, depth) && Redirected(before, after, roots, |after|)
    requires q < |after| && before[q].Some?
    ensures after[q].Some? && after[q].value in Standing(into, |now|) && after[q].value < |now|
    ensures now[after[q].value].client == was[before[q].value].client
  {
  }

  // Votes are conserved

  /** The votes held by the contacts that stay, in all. */
  function Held(votes: Contact -> multiset<string>, now: seq<Contact>, into: map<nat, nat>): multiset<string> {
    if now == [] then multiset{}
    else
      var k := |now| - 1;
      Held(votes, now[..k], into) + if k in into then multiset{} else votes(now[k])
  }

  /** The pools of the standing roots below n. */
  function Pools(votes: Contact -> multiset<string>, was: seq<Contact>, roots: seq<nat>, into: map<nat, nat>,
      n: nat): multiset<string>
    requires |was| == |roots|
  {
    if n == 0 then multiset{}
    else Pools(votes, was, roots, into, n - 1) + if n - 1 in into then multiset{} else Pooled(votes, was, roots, n - 1)
  }

  lemma {:induction false} PoolsLast(votes: Contact -> multiset<string>, was: seq<Contact>, roots: seq<nat>,
      into: map<nat, nat>, n: nat)
    requires |was| == |roots| && was != []
    ensures var k := |was| - 1;
      Pools(votes, was, roots, into, n) == Pools(votes, was[..k], roots[..k], into, n) + if roots[k] < n &&
        roots[k] !in into then votes(was[k]) else multiset{}
  {
    if n > 0 {
      PoolsLast(votes, was, roots, into, n - 1);
      PooledLast(votes, was, roots, n - 1);
    }
  }

  lemma PooledLast(votes: Contact -> multiset<string>, was: seq<Contact>, roots: seq<nat>, r: nat)
    requires |was| == |roots| && was != []
    ensures var k := |was| - 1;
      Pooled(votes, was, roots, r) == Pooled(votes, was[..k], roots[..k], r) + if roots[k] == r then votes(was[k])
        else multiset{}
  {
  }

  lemma {:induction false} PoolsAreAll(votes: Contact -> multiset<string>, was: seq<Contact>, roots: seq<nat>,
      into: map<nat, nat>, n: nat)
    requires |was| == |roots| && forall i :: 0 <= i < |roots| ==> roots[i] < n && roots[i] !in into
    ensures Pools(votes, was, roots, into, n) == Total(votes, was)
    decreases |was|
  {
    if was == [] {
      NoPools(votes, into, n);
    } else {
      var k := |was| - 1;
      PoolsLast(votes, was, roots, into, n);
      PoolsAreAll(votes, was[..k], roots[..k], into, n);
    }
  }

  lemma {:induction false} NoPools(votes: Contact -> multiset<string>, into: map<nat, nat>, n: nat)
    ensures Pools(votes, [], [], into, n) == multiset{}
  {
    if n > 0 {
      NoPools(votes, into, n - 1);
    }
  }

  lemma {:induction false} HeldIsPools(votes: Contact -> multiset<string>, was: seq<Contact>, now: seq<Contact>,
      roots: seq<nat>, into: map<nat, nat>, n: nat)
    requires n <= |was| == |now| == |roots|
    requires forall r: nat :: r < |was| && r !in into ==> votes(now[r]) == Pooled(votes, was, roots, r)
    ensures Held(votes, now[..n], into) == Pools(votes, was, roots, into, n)
    decreases n
  {
    if n > 0 {
      HeldIsPools(votes, was, now, roots, into, n - 1);
      assert now[..n][..n - 1] == now[..n - 1];
    }
  }

  /** The address and phone votes over the contacts that stay are those over all contacts. */
  lemma VotesConserved(was: seq<Contact>, now: seq<Contact>, into: map<nat, nat>, roots: seq<nat>, depth: seq<nat>)
    requires Merged(was, now, into, roots, depth)
    ensures Held(Emails(), now, into) == Total(Emails(), was)
    ensures Held(Phones(), now, into) == Total(Phones(), was)
  {
    assert now[..|now|] == now;
    forall r: nat | r < |was| && r !in into
      ensures Emails()(now[r]) == Pooled(Emails(), was, roots, r) && Phones()(now[r]) == Pooled(Phones(), was, roots, r)
    {
      assert Holds(was, now[r], roots, r);
    }
    HeldIsPools(Emails(), was, now, roots, into, |now|);
    HeldIsPools(Phones(), was, now, roots, into, |now|);
    PoolsAreAll(Emails(), was, roots, into, |now|);
    PoolsAreAll(Phones(), was, roots, into, |now|);
  }
}
