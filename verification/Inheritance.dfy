/** Where the vessel and the reference of a record come from after other records were merged into it. */
module Inheritance {
  import opened Wrappers
  import opened Copies

  /** Everything that was merged into record s, itself first: who is merged into it brings along
      whatever was merged into him before. A record in `shut` takes nothing. */
  ghost function Family(shut: set<nat>, drops: seq<Drop>, s: nat): seq<nat> {
    if drops == [] || s in shut then [s]
    else
      var earlier, last := drops[..|drops| - 1], drops[|drops| - 1];
      if last.kept == Some(s) then Family(shut, earlier, s) + Family(shut, earlier, last.id)
      else Family(shut, earlier, s)
  }

  /** v is the first vessel in the family, None if nobody has one. */
  ghost predicate FirstVessel(before: seq<Record>, family: seq<nat>, v: Option<Vessel>) {
    if v.None? then forall k :: 0 <= k < |family| ==> NoVessel(before, family[k])
    else exists k ::
      && 0 <= k < |family| && family[k] < |before| && before[family[k]].vessel == v
      && forall l :: 0 <= l < k ==> NoVessel(before, family[l])
  }

  ghost predicate NoVessel(before: seq<Record>, i: nat) {
    i < |before| && before[i].vessel.None?
  }

  /** ref is the first reference in the family, empty if nobody has one. */
  ghost predicate FirstRef(before: seq<Record>, family: seq<nat>, ref: string) {
    if ref == "" then forall k :: 0 <= k < |family| ==> NoRef(before, family[k])
    else exists k ::
      && 0 <= k < |family| && family[k] < |before| && before[family[k]].ref == ref
      && forall l :: 0 <= l < k ==> NoRef(before, family[l])
  }

  ghost predicate NoRef(before: seq<Record>, i: nat) {
    i < |before| && before[i].ref == ""
  }

  /** The records for which no reference can decide. */
  ghost function AllBarred(before: seq<Record>): set<nat> {
    set i: nat | i < |before| && before[i].barred
  }

  /** The files go on from those there were: none that is added was listed before it. */
  ghost predicate GoesOn(files: seq<string>, more: seq<string>) {
    files <= more && forall k, l :: |files| <= k < |more| && 0 <= l < k ==> more[l] != more[k]
  }

  lemma {:induction false} FilesGoOn(files: seq<string>, more: seq<string>)
    ensures GoesOn(files, WithFiles(files, more))
    decreases |more|
  {
    if more != [] {
      FilesGoOn(if more[0] in files then files else files + [more[0]], more[1..]);
    }
  }

  lemma GoOnTogether(a: seq<string>, b: seq<string>, c: seq<string>)
    requires GoesOn(a, b) && GoesOn(b, c)
    ensures GoesOn(a, c)
  {
  }

  /** The record has the first vessel of its family, and the first reference of those that may pass
      one on; its own files come first, each other one once. */
  ghost predicate Inherits(before: seq<Record>, r: Record, drops: seq<Drop>, s: nat) {
    && s < |before| && SameFixed(r, before[s]) && GoesOn(before[s].files, r.files)
    && FirstVessel(before, Family({}, drops, s), r.vessel)
    && FirstRef(before, Family(AllBarred(before), drops, s), r.ref)
  }

  ghost predicate Inherited(before: seq<Record>, store: seq<Record>, drops: seq<Drop>) {
    && |store| == |before|
    && forall s: nat {:trigger Inherits(before, store[s], drops, s)} :: s < |store| ==>
         Inherits(before, store[s], drops, s)
  }

  lemma NothingInherited(store: seq<Record>)
    ensures Inherited(store, store, [])
  {
    forall s: nat | s < |store|
      ensures Inherits(store, store[s], [], s)
    {
      OwnAlone(store, s);
    }
  }

  lemma OwnAlone(store: seq<Record>, s: nat)
    requires s < |store|
    ensures FirstVessel(store, [s], store[s].vessel) && FirstRef(store, [s], store[s].ref)
  {
    assert store[s].vessel.Some? ==> [s][0] < |store| && store[[s][0]].vessel == store[s].vessel;
    assert store[s].ref != "" ==> [s][0] < |store| && store[[s][0]].ref == store[s].ref;
  }

  lemma VesselJoined(before: seq<Record>, xs: seq<nat>, v: Option<Vessel>, ys: seq<nat>, w: Option<Vessel>)
    requires FirstVessel(before, xs, v) && FirstVessel(before, ys, w)
    ensures FirstVessel(before, xs + ys, if v.None? then w else v)
  {
    var all := xs + ys;
    if v.Some? {
      var k :| 0 <= k < |xs| && xs[k] < |before| && before[xs[k]].vessel == v &&
        forall l :: 0 <= l < k ==> NoVessel(before, xs[l]);
      assert all[k] == xs[k];
    } else if w.Some? {
      var k :| 0 <= k < |ys| && ys[k] < |before| && before[ys[k]].vessel == w &&
        forall l :: 0 <= l < k ==> NoVessel(before, ys[l]);
      assert all[|xs| + k] == ys[k];
    }
  }

  lemma RefJoined(before: seq<Record>, xs: seq<nat>, v: string, ys: seq<nat>, w: string)
    requires FirstRef(before, xs, v) && FirstRef(before, ys, w)
    ensures FirstRef(before, xs + ys, if v == "" then w else v)
  {
    var all := xs + ys;
    if v != "" {
      var k :| 0 <= k < |xs| && xs[k] < |before| && before[xs[k]].ref == v &&
        forall l :: 0 <= l < k ==> NoRef(before, xs[l]);
      assert all[k] == xs[k];
    } else if w != "" {
      var k :| 0 <= k < |ys| && ys[k] < |before| && before[ys[k]].ref == w &&
        forall l :: 0 <= l < k ==> NoRef(before, ys[l]);
      assert all[|xs| + k] == ys[k];
    }
  }

  lemma FamilyNext(shut: set<nat>, drops: seq<Drop>, d: Drop, s: nat)
    ensures Family(shut, drops + [d], s) ==
      if d.kept == Some(s) && s !in shut then Family(shut, drops, s) + Family(shut, drops, d.id)
      else Family(shut, drops, s)
  {
    assert (drops + [d])[..|drops|] == drops;
  }

  lemma MergeInherits(before: seq<Record>, store: seq<Record>, drops: seq<Drop>, keep: nat, drop: nat, reason: Reason)
    requires Inherited(before, store, drops) && keep < |store| && drop < |store|
    ensures Inherited(before, store[keep := Absorb(store[keep], store[drop])],
      drops + [Drop(drop, Some(keep), reason)])
  {
    var d := Drop(drop, Some(keep), reason);
    var next := store[keep := Absorb(store[keep], store[drop])];
    forall s: nat | s < |next|
      ensures Inherits(before, next[s], drops + [d], s)
    {
      assert Inherits(before, store[s], drops, s);
      FamilyNext({}, drops, d, s);
      FamilyNext(AllBarred(before), drops, d, s);
      if s == keep {
        assert Inherits(before, store[drop], drops, drop);
        HeirAfter(before, store[keep], store[drop], drops, keep, drop);
      }
    }
  }

  lemma HeirAfter(before: seq<Record>, keep: Record, drop: Record, drops: seq<Drop>, k: nat, d: nat)
    requires Inherits(before, keep, drops, k) && Inherits(before, drop, drops, d)
    ensures FirstVessel(before, Family({}, drops, k) + Family({}, drops, d), Absorb(keep, drop).vessel)
    ensures var shut := AllBarred(before);
      FirstRef(before, if k in shut then Family(shut, drops, k) else Family(shut, drops, k) + Family(shut, drops, d),
        Absorb(keep, drop).ref)
    ensures GoesOn(before[k].files, Absorb(keep, drop).files)
  {
    FilesGoOn(keep.files, drop.files);
    GoOnTogether(before[k].files, keep.files, Absorb(keep, drop).files);
    var shut := AllBarred(before);
    VesselJoined(before, Family({}, drops, k), keep.vessel, Family({}, drops, d), drop.vessel);
    RefJoined(before, Family(shut, drops, k), keep.ref, Family(shut, drops, d), drop.ref);
  }

  lemma LeavingOutInherits(before: seq<Record>, store: seq<Record>, drops: seq<Drop>, d: Drop)
    requires Inherited(before, store, drops) && d.kept.None?
    ensures Inherited(before, store, drops + [d])
  {
    forall s: nat | s < |store|
      ensures Inherits(before, store[s], drops + [d], s)
    {
      assert Inherits(before, store[s], drops, s);
      FamilyNext({}, drops, d, s);
      FamilyNext(AllBarred(before), drops, d, s);
    }
  }

  lemma {:induction false} OwnFirst(shut: set<nat>, drops: seq<Drop>, s: nat)
    ensures Family(shut, drops, s) != [] && Family(shut, drops, s)[0] == s
    ensures s in shut ==> Family(shut, drops, s) == [s]
    decreases |drops|
  {
    if drops != [] && s !in shut {
      OwnFirst(shut, drops[..|drops| - 1], s);
    }
  }

  /** What a record had it keeps; a barred one takes no reference. */
  lemma OwnStays(before: seq<Record>, r: Record, drops: seq<Drop>, s: nat)
    requires Inherits(before, r, drops, s)
    ensures before[s].vessel.Some? ==> r.vessel == before[s].vessel
    ensures before[s].ref != "" || before[s].barred ==> r.ref == before[s].ref
  {
    OwnFirst({}, drops, s);
    OwnFirst(AllBarred(before), drops, s);
    assert before[s].vessel.Some? ==> !NoVessel(before, Family({}, drops, s)[0]);
    assert before[s].ref != "" ==> !NoRef(before, Family(AllBarred(before), drops, s)[0]);
  }

  /** The records merged into s itself, in the order of the merges. */
  ghost function Into(drops: seq<Drop>, s: nat): seq<nat> {
    if drops == [] then []
    else
      var earlier, last := drops[..|drops| - 1], drops[|drops| - 1];
      if last.kept == Some(s) then Into(earlier, s) + [last.id] else Into(earlier, s)
  }

  lemma {:induction false} FamilyOfOne(shut: set<nat>, drops: seq<Drop>, s: nat)
    requires forall i: nat :: !DropsInto(drops, i, s)
    ensures Family(shut, drops, s) == [s]
    decreases |drops|
  {
    if drops != [] {
      var n := |drops| - 1;
      assert drops[n].kept == Some(s) ==> DropsInto(drops, drops[n].id, s);
      forall i: nat
        ensures !DropsInto(drops[..n], i, s)
      {
        assert !DropsInto(drops, i, s);
      }
      FamilyOfOne(shut, drops[..n], s);
    }
  }

  /** Where nobody was merged into those merged into s, the family is s and those, in their order. */
  lemma {:induction false} DirectFamily(shut: set<nat>, drops: seq<Drop>, s: nat)
    requires s !in shut
    requires forall i: nat, j: nat :: DropsInto(drops, i, s) ==> !DropsInto(drops, j, i)
    ensures Family(shut, drops, s) == [s] + Into(drops, s)
    decreases |drops|
  {
    if drops != [] {
      var n := |drops| - 1;
      assert forall k :: 0 <= k < n ==> drops[..n][k] == drops[k];
      forall i: nat, j: nat | DropsInto(drops[..n], i, s)
        ensures !DropsInto(drops[..n], j, i)
      {
        assert DropsInto(drops, i, s) && !DropsInto(drops, j, i);
      }
      DirectFamily(shut, drops[..n], s);
      if drops[n].kept == Some(s) {
        var d := drops[n].id;
        assert DropsInto(drops, d, s);
        forall j: nat
          ensures !DropsInto(drops[..n], j, d)
        {
          assert !DropsInto(drops, j, d);
        }
        FamilyOfOne(shut, drops[..n], d);
      }
    }
  }
}
