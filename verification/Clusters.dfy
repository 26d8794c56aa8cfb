/** The union-find of product variants with the item rules built in, updated in place. */
module Clusters {
  import opened Wrappers
  import opened Guards
  import DisjointSets
  import opened Items

  class Clusters {
    const variants: seq<Variant>
    const sets: DisjointSets.Sets
    var impa: seq<Option<Code>>
    var rejected: seq<set<Code>>
    var codes: seq<set<Code>>
    var members: seq<seq<nat>>
    var keys: seq<map<string, string>>
    var labels: seq<Option<int>>

    /** What the tables say, as a value. */
    ghost function View(): State
      reads this, sets
    {
      State(impa, sets.root, codes, members, keys, labels)
    }

    ghost predicate Ok()
      reads this, sets
    {
      && sets.Valid()
      && Valid(variants, View())
      && |rejected| == |variants|
    }

    constructor (vs: seq<Variant>, given: seq<Option<Code>>)
      requires |given| == |vs|
      ensures Ok() && fresh(sets)
      ensures variants == vs && View() == Initial(vs, given)
      ensures Linked(vs, View())
      ensures rejected == seq(|vs|, i => {})
    {
      variants := vs;
      sets := new DisjointSets.Sets(|vs|);
      impa := given;
      rejected := seq(|vs|, i => {});
      codes := seq(|vs|, i requires 0 <= i < |vs| => if given[i].Some? then {given[i].value} else {});
      members := seq(|vs|, i => [i]);
      keys := seq(|vs|, i requires 0 <= i < |vs| => map q | q in vs[i].quotes :: vs[i].key);
      labels := seq(|vs|, i requires 0 <= i < |vs| => vs[i].split);
      new;
      InitialValid(vs, given);
      assert View() == Initial(vs, given);
    }

    method Find(i: nat) returns (r: nat)
      requires Ok() && i < |variants|
      modifies sets`parent
      ensures Ok() && r < |variants| && r == sets.root[i] && sets.root[r] == r
    {
      r := sets.Find(i);
      RootListable(variants, View(), i);
    }

    method CodesConflict(i: nat, j: nat) returns (conflict: bool)
      requires Ok() && i < |variants| && j < |variants|
      modifies sets`parent
      ensures Ok() && sets.root[i] < |codes| && sets.root[j] < |codes|
      ensures conflict == CodeConflict(View(), i, j)
    {
      var ri := Find(i);
      var rj := Find(j);
      var ci, cj := codes[ri], codes[rj];
      conflict := ci != {} && cj != {} && ci != cj;
    }

    method SameQuotationConflict(i: nat, j: nat) returns (clash: bool)
      requires Ok() && i < |variants| && j < |variants|
      modifies sets`parent
      ensures Ok() && sets.root[i] < |keys| && sets.root[j] < |keys|
      ensures clash == SameQuotationLines(View(), i, j)
    {
      var ri := Find(i);
      var rj := Find(j);
      var ki, kj := keys[ri], keys[rj];
      var small, big := ki, kj;
      if |kj| < |ki| {
        small, big := kj, ki;
      }
      clash := exists q | q in small :: q in big && big[q] != small[q];
    }

    /** The first rule that keeps i's item and j's item apart. */
    method GuardOf(i: nat, j: nat) returns (g: Option<Guard>)
      requires Ok() && i < |variants| && j < |variants|
      modifies sets`parent
      ensures Ok() && g == ItemGuard(variants, View(), i, j)
    {
      var conflict := CodesConflict(i, j);
      if conflict {
        return Some(Impa);
      }
      var clash := SameQuotationConflict(i, j);
      if clash {
        return Some(SameQuotation);
      }
      var ri := Find(i);
      var rj := Find(j);
      if labels[ri] != labels[rj] {
        return Some(OverrideSplit);
      }
      RootListable(variants, View(), i);
      RootListable(variants, View(), j);
      g := FirstBlock(members[ri], members[rj]);
    }

    method FirstBlock(left: seq<nat>, right: seq<nat>) returns (g: Option<Guard>)
      requires forall k :: 0 <= k < |left| ==> left[k] < |variants|
      requires forall k :: 0 <= k < |right| ==> right[k] < |variants|
      ensures g == GuardBetween(variants, left, right)
    {
      for a := 0 to |left|
        invariant GuardBetween(variants, left, right) == GuardBetween(variants, left[a..], right)
      {
        for b := 0 to |right|
          invariant GuardAgainst(variants, left[a], right) == GuardAgainst(variants, left[a], right[b..])
        {
          g := BlockingGuard(variants[left[a]].feats, variants[right[b]].feats);
          assert right[b..][1..] == right[b + 1..];
          if g.Some? {
            return;
          }
        }
        assert left[a..][1..] == left[a + 1..];
      }
      g := None;
    }

    /** Joins j's item to i's, unless they are one item, hold two codes or, without force, any
        rule keeps them apart. */
    method Union(i: nat, j: nat, force: bool := false) returns (joined: bool)
      requires Ok() && i < |variants| && j < |variants|
      modifies this, sets
      ensures Ok() && impa == old(impa) && rejected == old(rejected)
      ensures joined == old(Joinable(variants, View(), i, j, force))
      ensures View() == old(AfterUnion(variants, View(), i, j, force))
    {
      RulesAtRoots(variants, View(), i, j);
      var ri := Find(i);
      var rj := Find(j);
      if ri == rj {
        return false;
      }
      var conflict := CodesConflict(ri, rj);
      if conflict {
        return false;
      }
      if !force {
        var g := GuardOf(ri, rj);
        if g.Some? {
          return false;
        }
      }
      Absorb(ri, rj);
      joined := true;
    }

    /** Root rj's class and tables move to root ri. */
    method Absorb(ri: nat, rj: nat)
      requires Ok() && ri < |variants| && rj < |variants|
      requires sets.root[ri] == ri && sets.root[rj] == rj && ri != rj && !CodeConflict(View(), ri, rj)
      modifies this, sets
      ensures Ok() && impa == old(impa) && rejected == old(rejected)
      ensures old(Shaped(variants, View()))
      ensures View() == old(Joined(View(), ri, rj))
    {
      JoinedValid(variants, View(), ri, rj);
      sets.Hang(rj, ri);
      codes := codes[ri := codes[ri] + codes[rj]];
      members := members[ri := members[ri] + members[rj]];
      keys := keys[ri := keys[ri] + keys[rj]];
      if labels[ri].None? {
        labels := labels[ri := labels[rj]];
      }
      assert View() == old(Joined(View(), ri, rj));
    }
  }
}
