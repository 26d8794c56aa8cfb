/** Matching an invoice's printed lines to the lines of its purchase order. */
module MatchLines {
  import opened Wrappers
  import opened Money

  /** A purchase order line and what it is worth, quantity times sell price, in sen. */
  datatype POLine = POLine(number: int, worth: real)

  /** What the line comes to on paper. */
  function Amount(line: POLine): int { Round(line.worth) }

  predicate Free(line: POLine) { line.worth == 0.0 }

  /** Worth something, but not half a sen. */
  predicate Tiny(line: POLine) { Amount(line) == 0 && !Free(line) }

  lemma FreeAmount(line: POLine)
    requires Free(line)
    ensures Amount(line) == 0
  {
    RoundWhole(0);
  }

  // What a match is

  /** From one position on, the line at m answers the amount and only free lines are passed over. */
  predicate Answers(po: seq<POLine>, from: nat, m: nat, amount: int) {
    && from <= m < |po| && Amount(po[m]) == amount
    && forall k :: from <= k < m ==> Free(po[k])
  }

  /** Just behind the k-th chosen position. */
  function Behind(chosen: seq<nat>, k: nat): nat
    requires k <= |chosen|
  {
    if k == 0 then 0 else chosen[k - 1] + 1
  }

  predicate AnswersAt(amounts: seq<int>, po: seq<POLine>, chosen: seq<nat>, k: nat) {
    k < |chosen| && k < |amounts| && Answers(po, Behind(chosen, k), chosen[k], amounts[k])
  }

  /** Positions chosen for the amounts, each the answer to its amount behind the one before. */
  ghost predicate Selects(amounts: seq<int>, po: seq<POLine>, chosen: seq<nat>) {
    && |chosen| == |amounts|
    && forall k: nat :: k < |chosen| ==> AnswersAt(amounts, po, chosen, k)
  }

  function End(chosen: seq<nat>): nat { Behind(chosen, |chosen|) }

  /** That is: in order, equal line by line, and nothing but free lines passed over before the last. */
  lemma {:induction false} SelectsInOrder(amounts: seq<int>, po: seq<POLine>, chosen: seq<nat>, n: nat, m: nat)
    requires Selects(amounts, po, chosen) && n <= |chosen| && m < Behind(chosen, n)
    ensures m < |po| && (m in chosen[..n] || Free(po[m]))
    ensures forall k :: 0 <= k < n ==> chosen[k] < Behind(chosen, n)
    decreases n
  {
    var k := n - 1;
    assert AnswersAt(amounts, po, chosen, k);
    assert chosen[..n] == chosen[..k] + [chosen[k]];
    if Behind(chosen, k) > 0 {
      SelectsInOrder(amounts, po, chosen, k, if m < Behind(chosen, k) then m else 0);
    }
  }

  // The scan

  /** The first line from m on with this amount, reached over free lines alone. */
  function Next(po: seq<POLine>, m: nat, amount: int): Option<nat>
    decreases |po| - m
  {
    if m >= |po| then None
    else if Amount(po[m]) == amount then Some(m)
    else if Free(po[m]) then Next(po, m + 1, amount)
    else None
  }

  lemma {:induction false} NextFound(po: seq<POLine>, m: nat, amount: int)
    requires Next(po, m, amount).Some?
    ensures Answers(po, m, Next(po, m, amount).value, amount)
    decreases |po| - m
  {
    if Amount(po[m]) != amount {
      NextFound(po, m + 1, amount);
    }
  }

  function Scan(amounts: seq<int>, po: seq<POLine>, n: nat): Option<seq<nat>>
    requires n <= |amounts|
  {
    if n == 0 then Some([])
    else match Scan(amounts, po, n - 1)
      case None => None
      case Some(chosen) => match Next(po, End(chosen), amounts[n - 1])
        case None => None
        case Some(m) => Some(chosen + [m])
  }

  /** Whatever the scan chooses is a match. */
  lemma {:induction false} ScanSelects(amounts: seq<int>, po: seq<POLine>, n: nat)
    requires n <= |amounts| && Scan(amounts, po, n).Some?
    ensures Selects(amounts[..n], po, Scan(amounts, po, n).value)
    decreases n
  {
    if n > 0 {
      ScanSelects(amounts, po, n - 1);
      var chosen := Scan(amounts, po, n - 1).value;
      NextFound(po, End(chosen), amounts[n - 1]);
      SelectsMore(amounts, po, chosen, n, Next(po, End(chosen), amounts[n - 1]).value);
    }
  }

  lemma SelectsMore(amounts: seq<int>, po: seq<POLine>, chosen: seq<nat>, n: nat, m: nat)
    requires 0 < n <= |amounts| && Selects(amounts[..n - 1], po, chosen) && Answers(po, End(chosen), m, amounts[n - 1])
    ensures Selects(amounts[..n], po, chosen + [m])
  {
    forall k: nat | k < n
      ensures AnswersAt(amounts[..n], po, chosen + [m], k)
    {
      if k < n - 1 {
        assert AnswersAt(amounts[..n - 1], po, chosen, k);
      }
    }
  }

  datatype Failure =
    | SkipsPriced(line: nat, skipped: int)
    | NoLine(line: nat)

  predicate AreLinesAt(lines: seq<POLine>, po: seq<POLine>, chosen: seq<nat>) {
    |lines| == |chosen| && forall k :: 0 <= k < |chosen| ==> chosen[k] < |po| && lines[k] == po[chosen[k]]
  }

  /** The failure names the first printed line that cannot be placed and, if one would be skipped,
      a priced line of another amount. */
  ghost predicate Explains(f: Failure, amounts: seq<int>, po: seq<POLine>) {
    && f.line < |amounts| && Scan(amounts, po, f.line).Some? && Scan(amounts, po, f.line + 1).None?
    && (f.SkipsPriced? ==> exists line :: Refuses(line, po, amounts[f.line]) && line.number == f.skipped)
  }

  predicate Refuses(line: POLine, po: seq<POLine>, amount: int) {
    line in po && !Free(line) && Amount(line) != amount
  }

  /** Each printed line's purchase order line, in order; free ones may be passed over. */
  method Match(amounts: seq<int>, po: seq<POLine>) returns (r: Result<seq<POLine>, Failure>)
    ensures r.Ok? <==> Scan(amounts, po, |amounts|).Some?
    ensures r.Ok? ==> exists chosen :: Selects(amounts, po, chosen) && AreLinesAt(r.value, po, chosen)
    ensures r.Err? ==> Explains(r.error, amounts, po)
  {
    var out := [];
    var pending := po;
    ghost var chosen: seq<nat> := [];
    for k := 0 to |amounts|
      invariant Scan(amounts, po, k) == Some(chosen)
      invariant AreLinesAt(out, po, chosen)
      invariant End(chosen) <= |po| && pending == po[End(chosen)..]
    {
      var priced;
      ghost var m;
      pending, priced, m := Skip(pending, amounts[k], po, End(chosen));
      if priced.Some? || pending == [] {
        ScanStops(amounts, po, k + 1, |amounts|);
        return Err(if priced.Some? then SkipsPriced(k, priced.value) else NoLine(k));
      }
      out := out + [pending[0]];
      pending, chosen := pending[1..], chosen + [m];
      assert pending == po[m..][1..] == po[m + 1..];
    }
    ScanSelects(amounts, po, |amounts|);
    assert amounts[..|amounts|] == amounts;
    r := Ok(out);
  }

  /** Pops lines of other amounts off the front, up to the first that is priced. */
  method Skip(lines: seq<POLine>, amount: int, ghost po: seq<POLine>, ghost start: nat)
    returns (pending: seq<POLine>, priced: Option<int>, ghost m: nat)
    requires start <= |po| && lines == po[start..]
    ensures m <= |po| && pending == po[m..]
    ensures priced.None? && pending != [] ==> Next(po, start, amount) == Some(m)
    ensures priced.None? && pending == [] ==> Next(po, start, amount) == None
    ensures priced.Some? ==> Next(po, start, amount) == None
    ensures priced.Some? ==> exists line :: Refuses(line, po, amount) && line.number == priced.value
  {
    pending, priced, m := lines, None, start;
    while pending != [] && Amount(pending[0]) != amount
      invariant m <= |po| && pending == po[m..] && priced.None?
      invariant Next(po, start, amount) == Next(po, m, amount)
      decreases |pending|
    {
      var skipped := pending[0];
      assert skipped == po[m] && skipped in po;
      pending, m := pending[1..], m + 1;
      if !Free(skipped) {
        assert Refuses(skipped, po, amount);
        priced := Some(skipped.number);
        return;
      }
    }
  }

  lemma {:induction false} ScanStops(amounts: seq<int>, po: seq<POLine>, n: nat, up: nat)
    requires n <= up <= |amounts| && Scan(amounts, po, n).None?
    ensures Scan(amounts, po, up).None?
    decreases up
  {
    if n < up {
      ScanStops(amounts, po, n, up - 1);
    }
  }

  // The same two notions from the front of both lists

  predicate Fits(amounts: seq<int>, po: seq<POLine>)
    decreases |po|
  {
    amounts == [] ||
    (po != [] &&
     ((Amount(po[0]) == amounts[0] && Fits(amounts[1..], po[1..])) || (Free(po[0]) && Fits(amounts, po[1..]))))
  }

  predicate Greedy(amounts: seq<int>, po: seq<POLine>)
    decreases |po|
  {
    amounts == [] ||
    (po != [] &&
     if Amount(po[0]) == amounts[0] then Greedy(amounts[1..], po[1..]) else Free(po[0]) && Greedy(amounts, po[1..]))
  }

  function Up(chosen: seq<nat>): (r: seq<nat>)
    ensures |r| == |chosen| && forall k :: 0 <= k < |r| ==> r[k] == chosen[k] + 1
  {
    seq(|chosen|, k requires 0 <= k < |chosen| => chosen[k] + 1)
  }

  function Down(chosen: seq<nat>): (r: seq<nat>)
    requires forall k :: 0 <= k < |chosen| ==> chosen[k] > 0
    ensures |r| == |chosen| && forall k :: 0 <= k < |r| ==> r[k] == chosen[k] - 1
  {
    seq(|chosen|, k requires 0 <= k < |chosen| => chosen[k] - 1)
  }

  lemma {:induction false} FitsSelects(amounts: seq<int>, po: seq<POLine>) returns (chosen: seq<nat>)
    requires Fits(amounts, po)
    ensures Selects(amounts, po, chosen)
    decreases |po|
  {
    if amounts == [] {
      chosen := [];
    } else if Amount(po[0]) == amounts[0] && Fits(amounts[1..], po[1..]) {
      var rest := FitsSelects(amounts[1..], po[1..]);
      chosen := [0] + Up(rest);
      SelectsHead(amounts, po, rest);
    } else {
      var rest := FitsSelects(amounts, po[1..]);
      chosen := Up(rest);
      SelectsSkip(amounts, po, rest);
    }
  }

  lemma SelectsHead(amounts: seq<int>, po: seq<POLine>, rest: seq<nat>)
    requires amounts != [] && po != [] && Amount(po[0]) == amounts[0] && Selects(amounts[1..], po[1..], rest)
    ensures Selects(amounts, po, [0] + Up(rest))
  {
    var chosen := [0] + Up(rest);
    forall k: nat | k < |chosen|
      ensures AnswersAt(amounts, po, chosen, k)
    {
      if k > 0 {
        assert AnswersAt(amounts[1..], po[1..], rest, k - 1);
        HeadMoves(amounts, po, rest, k);
      }
    }
  }

  lemma HeadMoves(amounts: seq<int>, po: seq<POLine>, rest: seq<nat>, k: nat)
    requires 0 < k && amounts != [] && po != [] && AnswersAt(amounts[1..], po[1..], rest, k - 1)
    ensures AnswersAt(amounts, po, [0] + Up(rest), k)
  {
    AnswersUp(po, Behind(rest, k - 1), rest[k - 1], amounts[k]);
  }

  lemma AnswersUp(po: seq<POLine>, from: nat, m: nat, amount: int)
    requires po != []
    ensures Answers(po[1..], from, m, amount) <==> Answers(po, from + 1, m + 1, amount)
  {
    assert forall k :: 0 <= k < |po[1..]| ==> po[1..][k] == po[k + 1];
    if Answers(po[1..], from, m, amount) {
      forall k | from + 1 <= k < m + 1
        ensures Free(po[k])
      {
        assert po[1..][k - 1] == po[k];
      }
    }
  }

  lemma AnswersWider(po: seq<POLine>, m: nat, amount: int)
    requires po != [] && Free(po[0]) && m > 0
    ensures Answers(po, 0, m, amount) <==> Answers(po, 1, m, amount)
  {
  }

  lemma SelectsSkip(amounts: seq<int>, po: seq<POLine>, rest: seq<nat>)
    requires po != [] && Free(po[0]) && Selects(amounts, po[1..], rest)
    ensures Selects(amounts, po, Up(rest))
  {
    var chosen := Up(rest);
    forall k: nat | k < |chosen|
      ensures AnswersAt(amounts, po, chosen, k)
    {
      assert AnswersAt(amounts, po[1..], rest, k);
      AnswersUp(po, Behind(rest, k), rest[k], amounts[k]);
      AnswersWider(po, chosen[k], amounts[k]);
    }
  }

  lemma {:induction false} SelectsFits(amounts: seq<int>, po: seq<POLine>, chosen: seq<nat>)
    requires Selects(amounts, po, chosen)
    ensures Fits(amounts, po)
    decreases |po|
  {
    if amounts != [] {
      Rises(amounts, po, chosen, |chosen|);
      assert AnswersAt(amounts, po, chosen, 0);
      if chosen[0] == 0 {
        var rest := Down(chosen[1..]);
        forall k: nat | k < |rest|
          ensures AnswersAt(amounts[1..], po[1..], rest, k)
        {
          assert AnswersAt(amounts, po, chosen, k + 1);
          AnswersUp(po, Behind(rest, k), rest[k], amounts[k + 1]);
        }
        SelectsFits(amounts[1..], po[1..], rest);
      } else {
        var rest := Down(chosen);
        forall k: nat | k < |rest|
          ensures AnswersAt(amounts, po[1..], rest, k)
        {
          assert AnswersAt(amounts, po, chosen, k);
          AnswersUp(po, Behind(rest, k), rest[k], amounts[k]);
          AnswersWider(po, chosen[k], amounts[k]);
        }
        SelectsFits(amounts, po[1..], rest);
      }
    }
  }

  lemma {:induction false} Rises(amounts: seq<int>, po: seq<POLine>, chosen: seq<nat>, n: nat)
    requires Selects(amounts, po, chosen) && n <= |chosen|
    ensures forall k :: 0 < k < n ==> chosen[k] > chosen[0]
    decreases n
  {
    if n > 1 {
      Rises(amounts, po, chosen, n - 1);
      assert AnswersAt(amounts, po, chosen, n - 1);
    }
  }

  lemma {:induction false} GreedyNext(amounts: seq<int>, po: seq<POLine>, m: nat)
    requires amounts != [] && m <= |po|
    ensures Greedy(amounts, po[m..]) <==>
            var next := Next(po, m, amounts[0]);
            next.Some? && next.value < |po| && Greedy(amounts[1..], po[next.value + 1..])
    decreases |po| - m
  {
    if m < |po| {
      assert po[m..][0] == po[m] && po[m..][1..] == po[m + 1..];
      if Amount(po[m]) != amounts[0] {
        GreedyNext(amounts, po, m + 1);
      }
    }
  }

  lemma {:induction false} ScanIsGreedyFrom(amounts: seq<int>, po: seq<POLine>, n: nat)
    requires n <= |amounts| && Scan(amounts, po, n).Some? && End(Scan(amounts, po, n).value) <= |po|
    ensures Greedy(amounts[n..], po[End(Scan(amounts, po, n).value)..]) <==> Scan(amounts, po, |amounts|).Some?
    decreases |amounts| - n
  {
    if n < |amounts| {
      var m := End(Scan(amounts, po, n).value);
      GreedyNext(amounts[n..], po, m);
      assert amounts[n..][0] == amounts[n] && amounts[n..][1..] == amounts[n + 1..];
      if Next(po, m, amounts[n]).Some? {
        NextFound(po, m, amounts[n]);
        ScanIsGreedyFrom(amounts, po, n + 1);
      } else {
        ScanStops(amounts, po, n + 1, |amounts|);
      }
    }
  }

  lemma ScanIsGreedy(amounts: seq<int>, po: seq<POLine>)
    ensures Greedy(amounts, po) <==> Scan(amounts, po, |amounts|).Some?
  {
    ScanIsGreedyFrom(amounts, po, 0);
    assert amounts[0..] == amounts && po[0..] == po;
  }

  // When the scan finds every match there is

  /** A free line, then a tiny one in the same run of lines that come to nothing, then a line that
      comes to something. */
  ghost predicate Trap(po: seq<POLine>) {
    exists i: nat, j: nat, k: nat :: TrapAt(po, i, j, k)
  }

  predicate TrapAt(po: seq<POLine>, i: nat, j: nat, k: nat) {
    && i < j < k < |po| && Free(po[i]) && Tiny(po[j]) && Amount(po[k]) != 0
    && forall m :: i <= m < k ==> Amount(po[m]) == 0
  }

  lemma TrapBehind(po: seq<POLine>, n: nat)
    requires n <= |po| && Trap(po[n..])
    ensures Trap(po)
  {
    var i: nat, j: nat, k: nat :| TrapAt(po[n..], i, j, k);
    forall m | n + i <= m < n + k
      ensures Amount(po[m]) == 0
    {
      assert Amount(po[n..][m - n]) == 0;
    }
    assert TrapAt(po, n + i, n + j, n + k);
  }

  predicate AllNothing(po: seq<POLine>) {
    forall m :: 0 <= m < |po| ==> Amount(po[m]) == 0
  }

  lemma {:induction false} NothingFits(amounts: seq<int>, po: seq<POLine>)
    requires AllNothing(po)
    ensures Fits(amounts, po) <==> |amounts| <= |po| && forall k :: 0 <= k < |amounts| ==> amounts[k] == 0
    decreases |po|
  {
    if amounts != [] && po != [] {
      NothingFits(amounts[1..], po[1..]);
      NothingFits(amounts, po[1..]);
      if forall k :: 0 <= k < |amounts| ==> amounts[k] == 0 {
        assert forall k :: 0 <= k < |amounts[1..]| ==> amounts[1..][k] == 0;
      }
      if Fits(amounts[1..], po[1..]) && amounts[0] == 0 {
        assert forall k :: 0 < k < |amounts| ==> amounts[k] == amounts[1..][k - 1];
      }
    }
  }

  /** The first line that comes to something closes a trap opened in front of it. */
  lemma ClosesTrap(po: seq<POLine>)
    requires |po| > 1 && Free(po[0]) && Tiny(po[1]) && !AllNothing(po)
    ensures Trap(po)
  {
    FreeAmount(po[0]);
    var k := 0;
    while Amount(po[k]) == 0
      invariant k < |po| && forall m :: 0 <= m < k ==> Amount(po[m]) == 0
      invariant exists m :: k <= m < |po| && Amount(po[m]) != 0
      decreases |po| - k
    {
      k := k + 1;
    }
    assert TrapAt(po, 0, 1, k);
  }

  /** A free line may take the place of whatever line answered a zero amount. */
  lemma {:induction false} TakeTheFreeLine(amounts: seq<int>, po: seq<POLine>)
    requires po != [] && Free(po[0]) && !Trap(po)
    requires amounts != [] && amounts[0] == 0 && Fits(amounts, po[1..])
    ensures Fits(amounts[1..], po[1..])
    decreases |po|
  {
    var rest := po[1..];
    if Tiny(rest[0]) {
      if !AllNothing(po) {
        ClosesTrap(po);
        assert false;
      }
      assert AllNothing(rest);
      NothingFits(amounts, rest);
      NothingFits(amounts[1..], rest);
    } else if Amount(rest[0]) == 0 && Fits(amounts[1..], rest[1..]) {
      if amounts[1..] != [] {
        assert Free(rest[0]);
      }
    } else {
      if Trap(rest) {
        TrapBehind(po, 1);
      }
      TakeTheFreeLine(amounts, rest);
    }
  }

  lemma {:induction false} GreedyFindsAll(amounts: seq<int>, po: seq<POLine>)
    requires !Trap(po) && Fits(amounts, po)
    ensures Greedy(amounts, po)
    decreases |po|
  {
    if amounts != [] {
      if Trap(po[1..]) {
        TrapBehind(po, 1);
      }
      if Amount(po[0]) == amounts[0] {
        if !Fits(amounts[1..], po[1..]) {
          FreeAmount(po[0]);
          TakeTheFreeLine(amounts, po);
        }
        GreedyFindsAll(amounts[1..], po[1..]);
      } else {
        GreedyFindsAll(amounts, po[1..]);
      }
    }
  }

  // An invoice the scan fails on, for a purchase order with a trap

  function Zeros(n: nat): (r: seq<int>)
    ensures |r| == n && forall k :: 0 <= k < n ==> r[k] == 0
  {
    seq(n, _ => 0)
  }

  lemma {:induction false} ZerosFirst(n: nat, b: int, po: seq<POLine>)
    requires n <= |po| && forall m :: 0 <= m < n ==> Amount(po[m]) == 0
    ensures Greedy(Zeros(n) + [b], po) <==> Greedy([b], po[n..])
    ensures Fits([b], po[n..]) ==> Fits(Zeros(n) + [b], po)
    decreases n
  {
    if n == 0 {
      assert Zeros(0) + [b] == [b] && po[0..] == po;
    } else {
      ZerosFirst(n - 1, b, po[1..]);
      assert (Zeros(n) + [b])[1..] == Zeros(n - 1) + [b];
      assert po[1..][n - 1..] == po[n..];
    }
  }

  lemma {:induction false} FreeThenOne(po: seq<POLine>, k: nat)
    requires k < |po| && forall m :: 0 <= m < k ==> Free(po[m])
    ensures Fits([Amount(po[k])], po)
  {
    if k == 0 {
      assert Fits([Amount(po[0])][1..], po[1..]);
    } else {
      FreeThenOne(po[1..], k - 1);
    }
  }

  /** The last tiny line before the trap closes. */
  lemma LastTiny(po: seq<POLine>, i: nat, j: nat, k: nat) returns (last: nat)
    requires TrapAt(po, i, j, k)
    ensures TrapAt(po, i, last, k) && forall m :: last < m < k ==> Free(po[m])
  {
    last := k - 1;
    while !Tiny(po[last])
      invariant j <= last < k
      invariant forall m :: last < m < k ==> Free(po[m])
      decreases last
    {
      last := last - 1;
    }
  }

  lemma TrapSprings(po: seq<POLine>, j: nat, k: nat) returns (amounts: seq<int>)
    requires TrapAt(po, 0, j, k)
    ensures Fits(amounts, po) && !Greedy(amounts, po)
  {
    var last := LastTiny(po, 0, j, k);
    var b := Amount(po[k]);
    amounts := Zeros(last) + [b];
    ZerosFirst(last, b, po);
    assert po[last..][0] == po[last];
    var rest := po[1..];
    forall m | 0 <= m < last
      ensures Amount(rest[m]) == 0
    {
      assert rest[m] == po[m + 1];
    }
    ZerosFirst(last, b, rest);
    var tail := rest[last..];
    forall m | 0 <= m < k - last - 1
      ensures Free(tail[m])
    {
      assert tail[m] == po[last + 1 + m];
    }
    assert tail[k - last - 1] == po[k];
    FreeThenOne(tail, k - last - 1);
  }

  lemma {:induction false} TrapFails(po: seq<POLine>, i: nat, j: nat, k: nat) returns (amounts: seq<int>)
    requires TrapAt(po, i, j, k)
    ensures Fits(amounts, po) && !Greedy(amounts, po)
    decreases i
  {
    if i == 0 {
      amounts := TrapSprings(po, j, k);
    } else {
      forall m | i - 1 <= m < k - 1
        ensures Amount(po[1..][m]) == 0
      {
        assert po[1..][m] == po[m + 1];
      }
      var rest := TrapFails(po[1..], i - 1, j - 1, k - 1);
      amounts := [Amount(po[0])] + rest;
      assert amounts[1..] == rest;
    }
  }

  /** For a purchase order, the scan places every invoice that can be placed exactly when the order has no trap. */
  lemma ScanIsComplete(po: seq<POLine>)
    ensures !Trap(po) <==>
            forall amounts, chosen :: Selects(amounts, po, chosen) ==> Scan(amounts, po, |amounts|).Some?
  {
    if Trap(po) {
      var i: nat, j: nat, k: nat :| TrapAt(po, i, j, k);
      var amounts := TrapFails(po, i, j, k);
      var chosen := FitsSelects(amounts, po);
      ScanIsGreedy(amounts, po);
    } else {
      forall amounts, chosen | Selects(amounts, po, chosen)
        ensures Scan(amounts, po, |amounts|).Some?
      {
        SelectsFits(amounts, po, chosen);
        GreedyFindsAll(amounts, po);
        ScanIsGreedy(amounts, po);
      }
    }
  }

  /** With no priced line that rounds to zero there is no trap, so the scan raises only when there is no match. */
  lemma NoTinyLinesNoTrap(po: seq<POLine>, amounts: seq<int>)
    requires forall line :: line in po ==> !Tiny(line)
    ensures Scan(amounts, po, |amounts|).Some? <==> exists chosen :: Selects(amounts, po, chosen)
  {
    assert forall i: nat, j: nat, k: nat :: TrapAt(po, i, j, k) ==> po[j] in po;
    ScanIsComplete(po);
    if Scan(amounts, po, |amounts|).Some? {
      ScanSelects(amounts, po, |amounts|);
      assert amounts[..|amounts|] == amounts;
    }
  }

  /** Such an order: a free line, one worth 0.4 sen, one worth a rupiah. The invoice of the last two
      can be placed, and the scan raises on it. */
  lemma TrapExample()
    ensures var po := [POLine(1, 0.0), POLine(2, 0.4), POLine(3, 100.0)];
      Trap(po) && Selects([0, 100], po, [1, 2]) && Scan([0, 100], po, 2).None?
  {
    var amounts, po := [0, 100], [POLine(1, 0.0), POLine(2, 0.4), POLine(3, 100.0)];
    RoundWhole(0);
    RoundWhole(100);
    assert Round(0.4) == 0;
    assert TrapAt(po, 0, 1, 2);
    forall k: nat | k < 2
      ensures AnswersAt(amounts, po, [1, 2], k)
    {
    }
    assert Scan(amounts, po, 0) == Some([]) && End([]) == 0 && Next(po, 0, amounts[0]) == Some(0);
    assert [] + [0] == [0];
    assert Scan(amounts, po, 1) == Some([0]) && End([0]) == 1 && Next(po, 1, amounts[1]) == None;
  }
}
