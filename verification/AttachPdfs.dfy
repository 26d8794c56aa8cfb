/** Attaching archive PDFs to parsed records in four greedy passes. */
module AttachPdfs {
  import opened Wrappers

  /** Numbers are normalised, stems are file names without folder and extension. */
  datatype Pdf = Pdf(number: string, date: Option<string>, grand: Option<int>, stem: string)

  /** `numbers` are the printed number and those of merged copies, `grand` the printed total
      rounded to the rupiah. */
  datatype Record = Record(original: string, numbers: set<string>, date: Option<string>, grand: Option<int>,
    stems: seq<string>)

  datatype Flag = MatchedByFileName | NumberDiffers

  const TOLERANCE := 1
  const PASSES: nat := 4

  function Abs(x: int): nat {
    if x < 0 then -x else x
  }

  predicate GrandMatches(r: Record, pdf: Pdf) {
    r.grand.Some? && pdf.grand.Some? && Abs(r.grand.value - pdf.grand.value) <= TOLERANCE
  }

  predicate ByNumber(r: Record, pdf: Pdf) {
    pdf.number in r.numbers && r.date == pdf.date
  }

  predicate ByName(r: Record, pdf: Pdf) {
    exists k | 0 <= k < |r.stems| :: pdf.stem <= r.stems[k]
  }

  /** The passes in order: exact totals first, and in each round numbers before file names. */
  predicate Exact(pass: nat) {
    pass < 2
  }

  predicate NamePass(pass: nat) {
    pass % 2 == 1
  }

  predicate Fits(pass: nat, r: Record, pdf: Pdf) {
    (if NamePass(pass) then ByName(r, pdf) else ByNumber(r, pdf)) && (Exact(pass) ==> GrandMatches(r, pdf))
  }

  predicate Rising(xs: seq<nat>) {
    forall k, l :: 0 <= k < l < |xs| ==> xs[k] < xs[l]
  }

  function Where(xs: seq<nat>, keep: nat -> bool): (r: seq<nat>)
    ensures forall x :: x in r <==> x in xs && keep(x)
  {
    if xs == [] then [] else (if keep(xs[0]) then [xs[0]] else []) + Where(xs[1..], keep)
  }

  lemma {:induction false} WhereRises(xs: seq<nat>, keep: nat -> bool)
    requires Rising(xs)
    ensures Rising(Where(xs, keep))
  {
    if xs != [] {
      WhereRises(xs[1..], keep);
      var rest := Where(xs[1..], keep);
      assert forall k :: 0 <= k < |rest| ==> rest[k] in rest;
    }
  }

  /** Several candidates narrowed to those that pass the test, if any does. */
  function Narrowed(cands: seq<nat>, keep: nat -> bool): (r: seq<nat>)
    ensures cands != [] ==> r != []
    ensures forall c :: c in r ==> c in cands
  {
    if |cands| > 1 && Where(cands, keep) != [] then Where(cands, keep) else cands
  }

  /** The narrowing of several candidates: by total, then by file name, then the first. */
  function Pick(records: seq<Record>, cands: seq<nat>, pdf: Pdf): (r: Option<nat>)
    requires forall k :: 0 <= k < |cands| ==> cands[k] < |records|
    ensures r.None? <==> cands == []
    ensures r.Some? ==> r.value in cands
  {
    if cands == [] then None
    else
      var exact := if pdf.grand.Some? then Narrowed(cands, HasTotal(records, pdf)) else cands;
      var named := Narrowed(exact, HasName(records, pdf));
      assert named[0] in named;
      Some(named[0])
  }

  function HasTotal(records: seq<Record>, pdf: Pdf): nat -> bool {
    (c: nat) => c < |records| && GrandMatches(records[c], pdf)
  }

  function HasName(records: seq<Record>, pdf: Pdf): nat -> bool {
    (c: nat) => c < |records| && ByName(records[c], pdf)
  }

  /** Record r suits the PDF at least as well as s: its total matches if that of s does; that being
      equal, its file name does; and that too, it comes first. */
  predicate Suits(records: seq<Record>, pdf: Pdf, r: nat, s: nat)
    requires r < |records| && s < |records|
  {
    && (GrandMatches(records[s], pdf) ==> GrandMatches(records[r], pdf))
    && (GrandMatches(records[s], pdf) == GrandMatches(records[r], pdf) ==>
          && (ByName(records[s], pdf) ==> ByName(records[r], pdf))
          && (ByName(records[s], pdf) == ByName(records[r], pdf) ==> r <= s))
  }

  /** Who is left after narrowing passes the test if anybody did; and who passed it is still there. */
  lemma NarrowedTo(cands: seq<nat>, keep: nat -> bool, c: nat)
    requires Rising(cands) && c in cands
    ensures Rising(Narrowed(cands, keep))
    ensures keep(c) ==> c in Narrowed(cands, keep) && forall x :: x in Narrowed(cands, keep) ==> keep(x)
    ensures c !in Narrowed(cands, keep) ==> !keep(c) && forall x :: x in Narrowed(cands, keep) ==> keep(x)
  {
    WhereRises(cands, keep);
    if keep(c) {
      assert c in Where(cands, keep);
      assert |cands| == 1 ==> forall x :: x in cands ==> x == c;
    }
  }

  lemma FirstOfRising(xs: seq<nat>, c: nat)
    requires Rising(xs) && c in xs
    ensures xs[0] <= c
  {
    var k :| 0 <= k < |xs| && xs[k] == c;
  }

  /** The narrowing picks the candidate that suits best. */
  lemma PickSuits(records: seq<Record>, cands: seq<nat>, pdf: Pdf, c: nat)
    requires Rising(cands) && (forall k :: 0 <= k < |cands| ==> cands[k] < |records|) && c in cands
    ensures Pick(records, cands, pdf).Some? && Pick(records, cands, pdf).value < |records|
    ensures Suits(records, pdf, Pick(records, cands, pdf).value, c)
  {
    var total, name := HasTotal(records, pdf), HasName(records, pdf);
    var exact := if pdf.grand.Some? then Narrowed(cands, total) else cands;
    var named := Narrowed(exact, name);
    var r := named[0];
    assert r in named && r in exact && r in cands;
    NarrowedTo(cands, total, c);
    NarrowedTo(cands, total, r);
    assert total(c) == GrandMatches(records[c], pdf) && total(r) == GrandMatches(records[r], pdf);
    assert total(c) ==> total(r);
    if c in exact {
      NarrowedTo(exact, name, c);
      assert name(c) == ByName(records[c], pdf) && name(r) == ByName(records[r], pdf);
      if c in named {
        FirstOfRising(named, c);
      }
    }
  }

  // What the attachment is

  /** Which PDF each record holds, and in which pass it took it. */
  datatype Matching = Matching(pdfOf: seq<Option<nat>>, takenIn: seq<nat>)

  ghost predicate Shaped(records: seq<Record>, pdfs: seq<Pdf>, m: Matching) {
    && |m.pdfOf| == |m.takenIn| == |records|
    && forall r {:trigger m.pdfOf[r]} :: 0 <= r < |records| && m.pdfOf[r].Some? ==> m.pdfOf[r].value < |pdfs|
  }

  /** p was attached in pass k or before. */
  ghost predicate AttachedBy(m: Matching, p: nat, pass: nat) {
    exists r :: 0 <= r < |m.pdfOf| == |m.takenIn| && m.pdfOf[r] == Some(p) && m.takenIn[r] <= pass
  }

  /** A record that is free, or was when the pass ended. */
  predicate FreeAfter(m: Matching, r: nat, pass: nat)
    requires r < |m.pdfOf| == |m.takenIn|
  {
    m.pdfOf[r].None? || m.takenIn[r] > pass
  }

  /** Each PDF sits on at most one record, one that fits it in the pass that took it. */
  ghost predicate Injection(records: seq<Record>, pdfs: seq<Pdf>, m: Matching)
    requires Shaped(records, pdfs, m)
  {
    && (forall r, s {:trigger m.pdfOf[r], m.pdfOf[s]} ::
      0 <= r < |records| && 0 <= s < |records| && m.pdfOf[r].Some? && m.pdfOf[r] == m.pdfOf[s] ==> r == s)
    && (forall r {:trigger m.pdfOf[r]} :: 0 <= r < |records| && m.pdfOf[r].Some? ==>
      Fits(m.takenIn[r], records[r], pdfs[m.pdfOf[r].value]))
  }

  /** A record that was free when PDF p was offered in the pass: PDFs are offered in their order. */
  predicate FreeAt(m: Matching, r: nat, pass: nat, p: nat)
    requires r < |m.pdfOf| == |m.takenIn|
  {
    m.pdfOf[r].None? || m.takenIn[r] > pass || (m.takenIn[r] == pass && m.pdfOf[r].value >= p)
  }

  /** Each PDF went to the record that suits it best of all that were free and fitted. */
  ghost predicate BestTaken(records: seq<Record>, pdfs: seq<Pdf>, m: Matching)
    requires Shaped(records, pdfs, m)
  {
    forall r: nat, s: nat {:trigger m.pdfOf[r], records[s]} :: r < |records| && s < |records| && m.pdfOf[r].Some? ==>
      var p, pass := m.pdfOf[r].value, m.takenIn[r];
      FreeAt(m, s, pass, p) && Fits(pass, records[s], pdfs[p]) ==> Suits(records, pdfs[p], r, s)
  }

  /** The PDFs taken in this pass came before those still to be offered. */
  ghost predicate TookEarlier(m: Matching, pass: nat, rest: seq<nat>) {
    |m.pdfOf| == |m.takenIn| && forall r: nat, k {:trigger m.pdfOf[r], rest[k]} ::
      r < |m.pdfOf| && m.pdfOf[r].Some? && m.takenIn[r] == pass && 0 <= k < |rest| ==> m.pdfOf[r].value < rest[k]
  }

  lemma TakenStaysBest(records: seq<Record>, pdfs: seq<Pdf>, m: Matching, n: Matching, pass: nat, p: nat, r: nat,
      rest: seq<nat>)
    requires Shaped(records, pdfs, m) && r < |records| && m.pdfOf[r].None? && p < |pdfs|
    requires n == Matching(m.pdfOf[r := Some(p)], m.takenIn[r := pass]) && Shaped(records, pdfs, n)
    requires BestTaken(records, pdfs, m) && TakenBefore(m, pass + 1)
    requires Rising([p] + rest) && TookEarlier(m, pass, [p] + rest)
    requires forall s: nat {:trigger records[s]} |
        s < |records| && m.pdfOf[s].None? && Fits(pass, records[s], pdfs[p]) ::
      Suits(records, pdfs[p], r, s)
    ensures BestTaken(records, pdfs, n) && TookEarlier(n, pass, rest)
  {
    var all := [p] + rest;
    assert all[0] == p && forall k :: 0 <= k < |rest| ==> rest[k] == all[k + 1];
    forall a: nat, s: nat {:trigger n.pdfOf[a], records[s]} | a < |records| && s < |records| && n.pdfOf[a].Some?
      ensures var q, k := n.pdfOf[a].value, n.takenIn[a];
        FreeAt(n, s, k, q) && Fits(k, records[s], pdfs[q]) ==> Suits(records, pdfs[q], a, s)
    {
      if a == r {
        if s != r && m.pdfOf[s].Some? {
          assert m.takenIn[s] < pass + 1 && (m.takenIn[s] == pass ==> m.pdfOf[s].value < all[0]);
        }
      } else {
        assert m.pdfOf[a] == n.pdfOf[a];
      }
    }
  }

  /** No pass leaves behind a PDF and a record that fit in it: a record still free after a pass has
      every PDF it fitted in that pass attached by then. */
  ghost predicate Exhausted(records: seq<Record>, pdfs: seq<Pdf>, m: Matching, pass: nat)
    requires Shaped(records, pdfs, m)
  {
    forall r, p {:trigger Fits(pass, records[r], pdfs[p])} |
      0 <= r < |records| && 0 <= p < |pdfs| && FreeAfter(m, r, pass) && Fits(pass, records[r], pdfs[p]) ::
      AttachedBy(m, p, pass)
  }

  ghost predicate AllExhausted(records: seq<Record>, pdfs: seq<Pdf>, m: Matching, passes: nat)
    requires Shaped(records, pdfs, m)
  {
    forall k: nat {:trigger Exhausted(records, pdfs, m, k)} :: k < passes ==> Exhausted(records, pdfs, m, k)
  }

  /** The PDFs no record holds, in their order. */
  ghost predicate Unattached(n: nat, pdfOf: seq<Option<nat>>, pending: seq<nat>) {
    && Rising(pending)
    && (forall p: nat {:trigger p in pending} :: p in pending <==> p < n && Waiting(pdfOf, p))
  }

  ghost predicate Waiting(pdfOf: seq<Option<nat>>, p: nat) {
    forall r :: 0 <= r < |pdfOf| ==> pdfOf[r] != Some(p)
  }

  ghost predicate TakenBefore(m: Matching, pass: nat) {
    |m.pdfOf| == |m.takenIn| && forall r {:trigger m.pdfOf[r]} :: 0 <= r < |m.pdfOf| && m.pdfOf[r].Some? ==>
      m.takenIn[r] < pass
  }

  /** A record taken now was free in every earlier pass, and what was attached stays attached. */
  lemma TakenStaysExhausted(records: seq<Record>, pdfs: seq<Pdf>, m: Matching, n: Matching, pass: nat, p: nat, r: nat)
    requires Shaped(records, pdfs, m) && r < |records| && m.pdfOf[r].None? && p < |pdfs|
    requires n == Matching(m.pdfOf[r := Some(p)], m.takenIn[r := pass]) && Shaped(records, pdfs, n)
    requires AllExhausted(records, pdfs, m, pass)
    ensures AllExhausted(records, pdfs, n, pass)
  {
    forall k: nat, s, q | k < pass && 0 <= s < |records| && 0 <= q < |pdfs| && FreeAfter(n, s, k) &&
      Fits(k, records[s], pdfs[q])
      ensures AttachedBy(n, q, k)
    {
      assert FreeAfter(m, s, k) && Exhausted(records, pdfs, m, k);
      var t :| 0 <= t < |m.pdfOf| && m.pdfOf[t] == Some(q) && m.takenIn[t] <= k;
      assert n.pdfOf[t] == Some(q) && n.takenIn[t] <= k;
    }
  }

  lemma RestRises(left: seq<nat>, p: nat, rest: seq<nat>)
    requires Rising(left + ([p] + rest))
    ensures Rising([p] + rest)
  {
    var all := left + ([p] + rest);
    assert forall k :: 0 <= k < |[p] + rest| ==> ([p] + rest)[k] == all[|left| + k];
  }

  lemma RestTookEarlier(m: Matching, pass: nat, p: nat, rest: seq<nat>)
    requires TookEarlier(m, pass, [p] + rest)
    ensures TookEarlier(m, pass, rest)
  {
    assert forall k :: 0 <= k < |rest| ==> rest[k] == ([p] + rest)[k + 1];
  }

  lemma NowExhausted(records: seq<Record>, pdfs: seq<Pdf>, m: Matching, pass: nat, left: seq<nat>)
    requires Shaped(records, pdfs, m) && Unattached(|pdfs|, m.pdfOf, left) && AllExhausted(records, pdfs, m, pass)
    requires TakenBefore(m, pass + 1) && NoneFits(records, pdfs, m, pass, left)
    ensures AllExhausted(records, pdfs, m, pass + 1)
  {
    forall r, p | 0 <= r < |records| && 0 <= p < |pdfs| && FreeAfter(m, r, pass) && Fits(pass, records[r], pdfs[p])
      ensures AttachedBy(m, p, pass)
    {
      assert m.pdfOf[r].None?;
      assert p !in left;
      assert !Waiting(m.pdfOf, p);
      var s :| 0 <= s < |m.pdfOf| && m.pdfOf[s] == Some(p);
      assert m.takenIn[s] < pass + 1;
    }
  }

  /** The PDFs left over so far fit no free record in this pass. */
  ghost predicate NoneFits(records: seq<Record>, pdfs: seq<Pdf>, m: Matching, pass: nat, left: seq<nat>)
    requires Shaped(records, pdfs, m)
  {
    forall p: nat, r: nat {:trigger p in left, m.pdfOf[r]} :: p in left && r < |records| && m.pdfOf[r].None? ==>
      p < |pdfs| && !Fits(pass, records[r], pdfs[p])
  }

  lemma Dropped(n: nat, before: seq<Option<nat>>, after: seq<Option<nat>>, r: nat, left: seq<nat>, p: nat,
      rest: seq<nat>)
    requires r < |before| && before[r].None? && after == before[r := Some(p)]
    requires Unattached(n, before, left + ([p] + rest))
    ensures Unattached(n, after, left + rest)
  {
    var was, now := left + ([p] + rest), left + rest;
    forall k, l | 0 <= k < l < |now|
      ensures now[k] < now[l]
    {
      assert now[k] == was[if k < |left| then k else k + 1] && now[l] == was[if l < |left| then l else l + 1];
    }
    assert was[|left|] == p;
    forall k | 0 <= k < |left|
      ensures left[k] != p
    {
      assert left[k] == was[k];
    }
    forall k | 0 <= k < |rest|
      ensures rest[k] != p
    {
      assert rest[k] == was[|left| + 1 + k];
    }
    forall q: nat
      ensures q in now <==> q < n && Waiting(after, q)
    {
      assert q in was <==> q in left || q == p || q in rest;
      assert after[r] == Some(p);
      if Waiting(after, q) {
        assert forall s :: 0 <= s < |before| && s != r ==> before[s] == after[s];
        assert Waiting(before, q);
      }
      if q != p && Waiting(before, q) {
        assert Waiting(after, q);
      }
    }
  }

  /** In the middle of a pass: what holds while some PDFs are left over and the rest is still to be offered. */
  ghost predicate Midway(records: seq<Record>, pdfs: seq<Pdf>, m: Matching, pass: nat, left: seq<nat>, rest: seq<nat>) {
    && Shaped(records, pdfs, m) && AllExhausted(records, pdfs, m, pass) && TakenBefore(m, pass + 1)
    && Unattached(|pdfs|, m.pdfOf, left + rest) && NoneFits(records, pdfs, m, pass, left)
    && BestTaken(records, pdfs, m) && TookEarlier(m, pass, rest)
  }

  lemma PassStarts(records: seq<Record>, pdfs: seq<Pdf>, m: Matching, pass: nat, pending: seq<nat>)
    requires Shaped(records, pdfs, m) && AllExhausted(records, pdfs, m, pass) && TakenBefore(m, pass)
    requires Unattached(|pdfs|, m.pdfOf, pending) && BestTaken(records, pdfs, m)
    ensures Midway(records, pdfs, m, pass, [], pending[0..])
  {
    assert [] + pending[0..] == pending;
  }

  lemma PassEnds(records: seq<Record>, pdfs: seq<Pdf>, m: Matching, pass: nat, left: seq<nat>, rest: seq<nat>)
    requires Midway(records, pdfs, m, pass, left, rest) && rest == []
    ensures Unattached(|pdfs|, m.pdfOf, left) && AllExhausted(records, pdfs, m, pass + 1)
    ensures TakenBefore(m, pass + 1) && BestTaken(records, pdfs, m)
  {
    assert left + rest == left;
    NowExhausted(records, pdfs, m, pass, left);
  }

  lemma IsWaiting(records: seq<Record>, pdfs: seq<Pdf>, m: Matching, pass: nat, left: seq<nat>, p: nat, rest: seq<nat>)
    requires Midway(records, pdfs, m, pass, left, [p] + rest)
    ensures p < |pdfs| && Waiting(m.pdfOf, p)
  {
    assert (left + ([p] + rest))[|left|] == p;
    assert p in left + ([p] + rest);
  }

  lemma LeftOver(records: seq<Record>, pdfs: seq<Pdf>, m: Matching, pass: nat, left: seq<nat>, p: nat, rest: seq<nat>)
    requires Midway(records, pdfs, m, pass, left, [p] + rest) && p < |pdfs|
    requires forall r: nat {:trigger m.pdfOf[r]} | r < |records| && m.pdfOf[r].None? ::
      !Fits(pass, records[r], pdfs[p])
    ensures Midway(records, pdfs, m, pass, left + [p], rest)
  {
    assert (left + [p]) + rest == left + ([p] + rest);
    RestTookEarlier(m, pass, p, rest);
  }

  lemma TakenMidway(records: seq<Record>, pdfs: seq<Pdf>, m: Matching, n: Matching, pass: nat, left: seq<nat>, p: nat,
      rest: seq<nat>, r: nat)
    requires Midway(records, pdfs, m, pass, left, [p] + rest) && r < |records| && m.pdfOf[r].None? && p < |pdfs|
    requires n == Matching(m.pdfOf[r := Some(p)], m.takenIn[r := pass])
    requires forall s: nat {:trigger records[s]} |
        s < |records| && m.pdfOf[s].None? && Fits(pass, records[s], pdfs[p]) ::
      Suits(records, pdfs[p], r, s)
    ensures Midway(records, pdfs, n, pass, left, rest)
  {
    RestRises(left, p, rest);
    Dropped(|pdfs|, m.pdfOf, n.pdfOf, r, left, p, rest);
    TakenStaysExhausted(records, pdfs, m, n, pass, p, r);
    TakenStaysBest(records, pdfs, m, n, pass, p, r, rest);
  }

  class Attachment {
    const records: seq<Record>
    const pdfs: seq<Pdf>
    var pdfOf: seq<Option<nat>>
    var numberPdf: seq<Option<string>>
    var flags: seq<seq<Flag>>
    ghost var takenIn: seq<nat>

    ghost function View(): Matching
      reads this
    {
      Matching(pdfOf, takenIn)
    }

    /** What taking a PDF writes on its record, and nothing else. */
    ghost predicate Written()
      reads this
    {
      && |numberPdf| == |flags| == |records|
      && Shaped(records, pdfs, View())
      && forall r {:trigger flags[r]} {:trigger numberPdf[r]} :: 0 <= r < |records| ==>
           if pdfOf[r].None? then numberPdf[r].None? && flags[r] == []
           else
             && numberPdf[r] == Some(pdfs[pdfOf[r].value].number)
             && flags[r] == (if NamePass(takenIn[r]) then [MatchedByFileName] else [])
                            + (if pdfs[pdfOf[r].value].number != records[r].original then [NumberDiffers] else [])
    }

    ghost predicate Valid()
      reads this
    {
      Written() && Injection(records, pdfs, View())
    }

    constructor (records: seq<Record>, pdfs: seq<Pdf>)
      ensures Valid() && this.records == records && this.pdfs == pdfs
      ensures forall r :: 0 <= r < |records| ==> pdfOf[r].None?
    {
      this.records, this.pdfs := records, pdfs;
      pdfOf := seq(|records|, r => None);
      numberPdf := seq(|records|, r => None);
      flags := seq(|records|, r => []);
      takenIn := seq(|records|, r => 0);
    }

    /** Free records a PDF may belong to in this pass, in record order. */
    method Candidates(pass: nat, pdf: Pdf) returns (cands: seq<nat>)
      requires Written()
      ensures forall r: nat :: r in cands <==> r < |records| && pdfOf[r].None? && Fits(pass, records[r], pdf)
      ensures Rising(cands)
    {
      cands := [];
      for r := 0 to |records|
        invariant forall q: nat :: q in cands <==> q < r && pdfOf[q].None? && Fits(pass, records[q], pdf)
        invariant Rising(cands)
      {
        if pdfOf[r].None? && Fits(pass, records[r], pdf) {
          assert forall k :: 0 <= k < |cands| ==> cands[k] in cands;
          cands := cands + [r];
        }
      }
    }

    /** Writes the PDF on the record. */
    method Take(pass: nat, p: nat, r: nat)
      requires Valid() && p < |pdfs| && r < |records| && pdfOf[r].None? && Fits(pass, records[r], pdfs[p])
      requires forall s :: 0 <= s < |records| ==> pdfOf[s] != Some(p)
      modifies this
      ensures Valid()
      ensures pdfOf == old(pdfOf)[r := Some(p)] && takenIn == old(takenIn)[r := pass]
    {
      pdfOf := pdfOf[r := Some(p)];
      takenIn := takenIn[r := pass];
      numberPdf := numberPdf[r := Some(pdfs[p].number)];
      if NamePass(pass) {
        flags := flags[r := flags[r] + [MatchedByFileName]];
      }
      if pdfs[p].number != records[r].original {
        flags := flags[r := flags[r] + [NumberDiffers]];
      }
    }

    /** One pass over the PDFs still waiting. */
    method RunPass(pass: nat, pending: seq<nat>) returns (left: seq<nat>)
      requires Valid() && Unattached(|pdfs|, pdfOf, pending) && AllExhausted(records, pdfs, View(), pass) &&
        TakenBefore(View(), pass) && BestTaken(records, pdfs, View())
      modifies this
      ensures Valid() && Unattached(|pdfs|, pdfOf, left) && AllExhausted(records, pdfs, View(), pass + 1) &&
        TakenBefore(View(), pass + 1) && BestTaken(records, pdfs, View())
    {
      left := [];
      PassStarts(records, pdfs, View(), pass, pending);
      for i := 0 to |pending|
        invariant Valid() && Midway(records, pdfs, View(), pass, left, pending[i..])
      {
        assert pending[i..] == [pending[i]] + pending[i + 1..];
        left := Offer(pass, pending[i], left, pending[i + 1..]);
      }
      PassEnds(records, pdfs, View(), pass, left, pending[|pending|..]);
    }

    lemma AllSuit(cands: seq<nat>, pass: nat, p: nat)
      requires Written() && p < |pdfs| && Rising(cands)
      requires forall r: nat :: r in cands <==> r < |records| && pdfOf[r].None? && Fits(pass, records[r], pdfs[p])
      ensures forall k :: 0 <= k < |cands| ==> cands[k] < |records|
      ensures forall s: nat {:trigger records[s]} |
          s < |records| && pdfOf[s].None? && Fits(pass, records[s], pdfs[p]) ::
        var best := Pick(records, cands, pdfs[p]);
        best.Some? && best.value < |records| && Suits(records, pdfs[p], best.value, s)
    {
      assert forall k :: 0 <= k < |cands| ==> cands[k] in cands;
      forall s: nat | s in cands
        ensures var best := Pick(records, cands, pdfs[p]);
          best.Some? && best.value < |records| && Suits(records, pdfs[p], best.value, s)
      {
        PickSuits(records, cands, pdfs[p], s);
      }
    }

    /** Offers one PDF to the free records it fits: it is attached or left over. */
    method Offer(pass: nat, p: nat, left: seq<nat>, ghost rest: seq<nat>) returns (more: seq<nat>)
      requires Valid() && Midway(records, pdfs, View(), pass, left, [p] + rest)
      modifies this
      ensures Valid() && Midway(records, pdfs, View(), pass, more, rest)
      ensures more == left + [p] || (more == left && exists r :: 0 <= r < |pdfOf| && pdfOf[r] == Some(p))
    {
      ghost var m := View();
      IsWaiting(records, pdfs, m, pass, left, p, rest);
      var cands := Candidates(pass, pdfs[p]);
      AllSuit(cands, pass, p);
      var rec := Pick(records, cands, pdfs[p]);
      if rec.None? {
        more := left + [p];
        LeftOver(records, pdfs, m, pass, left, p, rest);
      } else {
        Take(pass, p, rec.value);
        more := left;
        TakenMidway(records, pdfs, m, View(), pass, left, p, rest, rec.value);
        assert pdfOf[rec.value] == Some(p);
      }
    }

    /** Attaches each PDF to its record and returns the PDFs left over: exactly the unattached
        ones, none of which has a free record by number or by name. */
    method Attach() returns (pending: seq<nat>)
      requires Valid() && forall r :: 0 <= r < |records| ==> pdfOf[r].None?
      modifies this
      ensures Valid() && Unattached(|pdfs|, pdfOf, pending)
      ensures AllExhausted(records, pdfs, View(), PASSES) && BestTaken(records, pdfs, View())
    {
      pending := seq(|pdfs|, i => i);
      assert forall p: nat :: p < |pdfs| ==> pending[p] == p && Waiting(pdfOf, p);
      for pass := 0 to PASSES
        invariant Valid() && Unattached(|pdfs|, pdfOf, pending) && AllExhausted(records, pdfs, View(), pass) &&
          TakenBefore(View(), pass) && BestTaken(records, pdfs, View())
      {
        pending := RunPass(pass, pending);
      }
    }
  }

  /** After all passes no left over PDF has a free record by number or by name. */
  lemma NothingFreeForLeftovers(records: seq<Record>, pdfs: seq<Pdf>, m: Matching, pending: seq<nat>, p: nat, r: nat)
    requires Shaped(records, pdfs, m) && AllExhausted(records, pdfs, m, PASSES) && Unattached(|pdfs|, m.pdfOf, pending)
    requires p in pending && r < |records| && m.pdfOf[r].None?
    ensures p < |pdfs| && !ByNumber(records[r], pdfs[p]) && !ByName(records[r], pdfs[p])
  {
    assert Waiting(m.pdfOf, p);
    assert Exhausted(records, pdfs, m, 2) && Exhausted(records, pdfs, m, 3);
    assert !AttachedBy(m, p, 2) && !AttachedBy(m, p, 3);
    assert !Fits(2, records[r], pdfs[p]) && !Fits(3, records[r], pdfs[p]);
  }

  /** No PDF takes a record another PDF proves: when a record was taken in some pass, every PDF it
      fitted in an earlier pass was attached by the end of that earlier pass. */
  lemma EarlierClaimsComeFirst(records: seq<Record>, pdfs: seq<Pdf>, m: Matching, r: nat, p: nat, pass: nat)
    requires Shaped(records, pdfs, m) && AllExhausted(records, pdfs, m, PASSES) && r < |records| && p < |pdfs|
    requires m.pdfOf[r].Some? && pass < m.takenIn[r] && pass < PASSES
    requires Fits(pass, records[r], pdfs[p])
    ensures AttachedBy(m, p, pass)
  {
    assert Exhausted(records, pdfs, m, pass) && FreeAfter(m, r, pass);
  }
}
