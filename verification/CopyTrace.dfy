/** Following a dropped copy to the record that stayed, across the three passes. */
module CopyTrace {
  import opened Wrappers
  import opened Copies

  /** Kept as s, or dropped into it, or into a record itself dropped into it. */
  ghost predicate Reaches(drops: seq<Drop>, i: nat, s: nat) {
    i == s || DropsInto(drops, i, s) || exists m: nat :: DropsInto(drops, i, m) && DropsInto(drops, m, s)
  }

  /** Every link ends at a record that stayed after one step or two, after one for data entry; and
      who stayed has exactly the files of those who reach it. */
  ghost predicate Traced(before: seq<Record>, after: seq<Record>, given: seq<nat>, kept: seq<nat>, drops: seq<Drop>) {
    && |before| == |after|
    && multiset(given) == multiset(kept) + multiset(Ids(drops))
    && (forall i: nat, m: nat {:trigger DropsInto(drops, i, m)} :: DropsInto(drops, i, m) ==>
          i < |before| && m < |before| && (m in kept || Relayed(drops, kept, m)) &&
            (before[i].kind == DataEntry ==> m in kept))
    && (forall s: nat {:trigger after[s]} :: s in kept && s < |after| ==> FilesOf(before, after[s], drops, s))
  }

  ghost predicate Relayed(drops: seq<Drop>, kept: seq<nat>, m: nat) {
    exists s: nat :: DropsInto(drops, m, s) && s in kept
  }

  ghost predicate FilesOf(before: seq<Record>, r: Record, drops: seq<Drop>, s: nat) {
    forall f :: f in r.files <==> exists i: nat :: i < |before| && Reaches(drops, i, s) && f in before[i].files
  }

  // The facts of one pass

  lemma DropsOnce(before: seq<Record>, after: seq<Record>, given: seq<nat>, kept: seq<nat>, drops: seq<Drop>)
    requires Passed(before, after, given, kept, drops) && Once(given)
    ensures Once(kept)
    ensures forall i: nat, m: nat {:trigger DropsInto(drops, i, m)} :: DropsInto(drops, i, m) ==>
      i in given && i !in kept && m in kept && m in given
    ensures forall i :: i in kept ==> i in given && i < |before|
  {
    GivenParts(before, after, given, kept, drops);
    forall x
      ensures multiset(kept)[x] + multiset(Ids(drops))[x] <= 1
    {
      assert multiset(given)[x] == (multiset(kept) + multiset(Ids(drops)))[x];
    }
    forall i: nat, m: nat {:trigger DropsInto(drops, i, m)} | DropsInto(drops, i, m)
      ensures i in given && i !in kept && m in kept && m in given
    {
      var k :| 0 <= k < |drops| && drops[k].id == i && drops[k].kept == Some(m);
      assert Ids(drops)[k] == i;
      assert i in multiset(Ids(drops));
      assert multiset(kept)[i] == 0;
    }
  }

  lemma DropsIntoParts(one: seq<Drop>, other: seq<Drop>, i: nat, s: nat)
    ensures DropsInto(one + other, i, s) <==> DropsInto(one, i, s) || DropsInto(other, i, s)
  {
    var all := one + other;
    if DropsInto(one, i, s) {
      var k :| 0 <= k < |one| && one[k].id == i && one[k].kept == Some(s);
      assert all[k] == one[k];
    }
    if DropsInto(other, i, s) {
      var k :| 0 <= k < |other| && other[k].id == i && other[k].kept == Some(s);
      assert all[|one| + k] == other[k];
    }
  }

  // Two passes in a row

  ghost predicate Passes(first: seq<Record>, middle: seq<Record>, last: seq<Record>, given: seq<nat>, some: seq<nat>,
      kept: seq<nat>, one: seq<Drop>, two: seq<Drop>) {
    && Passed(first, middle, given, some, one) && Passed(middle, last, some, kept, two) && Once(given)
  }

  /** A record reaches its survivor by one link of either pass, or by one of each. */
  lemma ReachesBy(first: seq<Record>, middle: seq<Record>, last: seq<Record>, given: seq<nat>, some: seq<nat>,
      kept: seq<nat>, one: seq<Drop>, two: seq<Drop>, i: nat, s: nat)
    requires Passes(first, middle, last, given, some, kept, one, two) && s in kept
    ensures Reaches(one + two, i, s) <==>
      || i == s || DropsInto(one, i, s) || DropsInto(two, i, s)
      || exists m: nat :: DropsInto(one, i, m) && DropsInto(two, m, s)
  {
    DropsOnce(first, middle, given, some, one);
    DropsOnce(middle, last, some, kept, two);
    forall a: nat, b: nat
      ensures DropsInto(one + two, a, b) <==> DropsInto(one, a, b) || DropsInto(two, a, b)
    {
      DropsIntoParts(one, two, a, b);
    }
  }

  lemma FilesReach(first: seq<Record>, middle: seq<Record>, last: seq<Record>, given: seq<nat>, some: seq<nat>,
      kept: seq<nat>, one: seq<Drop>, two: seq<Drop>, s: nat, f: string)
    requires Passes(first, middle, last, given, some, kept, one, two) && s in kept && s < |last|
    ensures f in last[s].files <==> exists i: nat :: i < |first| && Reaches(one + two, i, s) && f in first[i].files
  {
    DropsOnce(first, middle, given, some, one);
    DropsOnce(middle, last, some, kept, two);
    forall i: nat
      ensures Reaches(one + two, i, s) <==>
        || i == s || DropsInto(one, i, s) || DropsInto(two, i, s)
        || exists m: nat :: DropsInto(one, i, m) && DropsInto(two, m, s)
    {
      ReachesBy(first, middle, last, given, some, kept, one, two, i, s);
    }
    assert HasFiles(middle, last[s], two, s);
    if f in last[s].files {
      if f in middle[s].files {
        var i := FileFrom(first, middle, given, some, one, s, f);
        assert Reaches(one + two, i, s);
      } else {
        var m: nat :| m < |middle| && DropsInto(two, m, s) && f in middle[m].files;
        var i := FileFrom(first, middle, given, some, one, m, f);
        assert Reaches(one + two, i, s);
      }
    }
    if i: nat :| i < |first| && Reaches(one + two, i, s) && f in first[i].files {
      if i == s || DropsInto(one, i, s) {
        FileTo(first, middle, given, some, one, i, s, f);
      } else if DropsInto(two, i, s) {
        FileTo(first, middle, given, some, one, i, i, f);
      } else {
        var m: nat :| DropsInto(one, i, m) && DropsInto(two, m, s);
        FileTo(first, middle, given, some, one, i, m, f);
      }
    }
  }

  /** A file a kept record has after a pass was its own or that of a record dropped into it. */
  lemma FileFrom(before: seq<Record>, after: seq<Record>, given: seq<nat>, kept: seq<nat>, drops: seq<Drop>, s: nat,
      f: string) returns (i: nat)
    requires Passed(before, after, given, kept, drops) && s in kept && s < |after| && f in after[s].files
    ensures i < |before| && f in before[i].files && (i == s || DropsInto(drops, i, s))
  {
    assert HasFiles(before, after[s], drops, s);
    if f in before[s].files {
      i := s;
    } else {
      i :| i < |before| && DropsInto(drops, i, s) && f in before[i].files;
    }
  }

  lemma FileTo(before: seq<Record>, after: seq<Record>, given: seq<nat>, kept: seq<nat>, drops: seq<Drop>, i: nat,
      s: nat, f: string)
    requires Passed(before, after, given, kept, drops) && i < |before| && s < |after| && f in before[i].files
    requires s in kept && (i == s || DropsInto(drops, i, s))
    ensures f in after[s].files
  {
    assert HasFiles(before, after[s], drops, s);
  }

  lemma LinksEnd(first: seq<Record>, middle: seq<Record>, last: seq<Record>, given: seq<nat>, some: seq<nat>,
      kept: seq<nat>, one: seq<Drop>, two: seq<Drop>, i: nat, m: nat)
    requires Passes(first, middle, last, given, some, kept, one, two) && DropsInto(one + two, i, m)
    requires forall k :: 0 <= k < |two| ==> two[k].kept.Some?
    ensures i < |first| && m < |first| && (m in kept || Relayed(one + two, kept, m))
    ensures DropsInto(two, i, m) ==> m in kept
    ensures m in kept || exists k :: 0 <= k < |two| && two[k].id == m
  {
    DropsOnce(first, middle, given, some, one);
    DropsOnce(middle, last, some, kept, two);
    DropsIntoParts(one, two, i, m);
    GivenParts(middle, last, some, kept, two);
    InRange(first, middle, given, some, one);
    if m !in kept {
      assert m in Ids(two);
      var k :| 0 <= k < |two| && two[k].id == m;
      var s := two[k].kept.value;
      assert DropsInto(two, m, s) && s in kept;
      DropsIntoParts(one, two, m, s);
    }
  }

  lemma InRange(before: seq<Record>, after: seq<Record>, given: seq<nat>, kept: seq<nat>, drops: seq<Drop>)
    requires Passed(before, after, given, kept, drops)
    ensures forall i :: i in given ==> i < |before|
  {
  }

  // The three passes

  ghost predicate IntoDataEntry(before: seq<Record>, drops: seq<Drop>) {
    forall i: nat, m: nat {:trigger DropsInto(drops, i, m)} ::
      DropsInto(drops, i, m) && i < |before| && m < |before| && before[i].kind == DataEntry ==>
      before[m].kind == DataEntry
  }

  ghost predicate OnlyPrints(before: seq<Record>, drops: seq<Drop>) {
    forall k :: 0 <= k < |drops| ==>
      drops[k].kept.Some? && drops[k].id < |before| && before[drops[k].id].kind == PrintOnly
  }

  lemma TwoTraced(first: seq<Record>, middle: seq<Record>, last: seq<Record>, given: seq<nat>, some: seq<nat>,
      kept: seq<nat>, one: seq<Drop>, two: seq<Drop>)
    requires Passes(first, middle, last, given, some, kept, one, two)
    requires IntoDataEntry(first, one) && OnlyPrints(first, two)
    ensures Traced(first, last, given, kept, one + two)
  {
    CountTraced(first, middle, last, given, some, kept, one, two);
    forall i: nat, m: nat {:trigger DropsInto(one + two, i, m)} | DropsInto(one + two, i, m)
      ensures i < |first| && m < |first| && (m in kept || Relayed(one + two, kept, m)) &&
        (first[i].kind == DataEntry ==> m in kept)
    {
      LinkTraced(first, middle, last, given, some, kept, one, two, i, m);
    }
    forall s: nat {:trigger last[s]} | s in kept && s < |last|
      ensures FilesOf(first, last[s], one + two, s)
    {
      AllFilesReach(first, middle, last, given, some, kept, one, two, s);
    }
  }

  lemma CountTraced(first: seq<Record>, middle: seq<Record>, last: seq<Record>, given: seq<nat>, some: seq<nat>,
      kept: seq<nat>, one: seq<Drop>, two: seq<Drop>)
    requires Passes(first, middle, last, given, some, kept, one, two)
    ensures |first| == |last| && multiset(given) == multiset(kept) + multiset(Ids(one + two))
  {
    assert Ids(one + two) == Ids(one) + Ids(two);
  }

  lemma LinkTraced(first: seq<Record>, middle: seq<Record>, last: seq<Record>, given: seq<nat>, some: seq<nat>,
      kept: seq<nat>, one: seq<Drop>, two: seq<Drop>, i: nat, m: nat)
    requires Passes(first, middle, last, given, some, kept, one, two) && DropsInto(one + two, i, m)
    requires IntoDataEntry(first, one) && OnlyPrints(first, two)
    ensures i < |first| && m < |first| && (m in kept || Relayed(one + two, kept, m)) &&
      (first[i].kind == DataEntry ==> m in kept)
  {
    LinksEnd(first, middle, last, given, some, kept, one, two, i, m);
    DropsIntoParts(one, two, i, m);
  }

  lemma AllFilesReach(first: seq<Record>, middle: seq<Record>, last: seq<Record>, given: seq<nat>, some: seq<nat>,
      kept: seq<nat>, one: seq<Drop>, two: seq<Drop>, s: nat)
    requires Passes(first, middle, last, given, some, kept, one, two) && s in kept && s < |last|
    ensures FilesOf(first, last[s], one + two, s)
  {
    forall f
      ensures f in last[s].files <==> exists i: nat :: i < |first| && Reaches(one + two, i, s) && f in first[i].files
    {
      FilesReach(first, middle, last, given, some, kept, one, two, s, f);
    }
  }

  /** A pass that only leaves records out adds no link. */
  lemma TracedAfterStale(before: seq<Record>, after: seq<Record>, all: seq<nat>, given: seq<nat>, kept: seq<nat>,
      stale: seq<Drop>, drops: seq<Drop>)
    requires Traced(before, after, given, kept, drops) && multiset(all) == multiset(given) + multiset(Ids(stale))
    requires forall k :: 0 <= k < |stale| ==> stale[k].kept.None?
    ensures Traced(before, after, all, kept, stale + drops)
  {
    assert Ids(stale + drops) == Ids(stale) + Ids(drops);
    forall i: nat, m: nat
      ensures DropsInto(stale + drops, i, m) <==> DropsInto(drops, i, m)
    {
      DropsIntoParts(stale, drops, i, m);
    }
    forall m: nat
      ensures Relayed(stale + drops, kept, m) <==> Relayed(drops, kept, m)
    {
    }
    forall s: nat {:trigger after[s]} | s in kept && s < |after|
      ensures FilesOf(before, after[s], stale + drops, s)
    {
      assert FilesOf(before, after[s], drops, s);
      assert forall i: nat :: Reaches(stale + drops, i, s) <==> Reaches(drops, i, s);
    }
  }

  /** What a dropped record was kept as, where it was. */
  function KeptAs(drops: seq<Drop>): (r: map<nat, nat>)
    ensures forall i :: i in r ==> DropsInto(drops, i, r[i])
  {
    if drops == [] then map[]
    else
      var k := |drops| - 1;
      var rest := KeptAs(drops[..k]);
      var last := drops[k];
      assert drops == drops[..k] + [last];
      assert forall i: nat, s: nat :: DropsInto(drops[..k], i, s) ==> DropsInto(drops, i, s) by {
        forall i: nat, s: nat | DropsInto(drops[..k], i, s)
          ensures DropsInto(drops, i, s)
        {
          DropsIntoParts(drops[..k], [last], i, s);
        }
      }
      if last.kept.Some? then rest[last.id := last.kept.value] else rest
  }

  /** For a data-entry record one lookup finds the record that stayed. */
  lemma OneLookup(before: seq<Record>, after: seq<Record>, given: seq<nat>, kept: seq<nat>, drops: seq<Drop>, i: nat)
    requires Traced(before, after, given, kept, drops)
    requires i in KeptAs(drops) && i < |before| && before[i].kind == DataEntry
    ensures KeptAs(drops)[i] in kept
  {
    assert DropsInto(drops, i, KeptAs(drops)[i]);
  }
}
