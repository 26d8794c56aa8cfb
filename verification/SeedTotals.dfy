/** Quotation totals and the spreading of an invoice's discount and tax over its lines. */
module SeedTotals {
  import opened Money
  import Sorting

  /** A quotation line: quantity, sell price in sen, and whether it is a product or a charge. */
  datatype Line = Line(number: int, product: bool, qty: real, sell: int)

  datatype Totals = Totals(products: int, total: int, discount: int, dpp: int, ppn: int, grand: int)

  function Gross(line: Line): real { line.qty * line.sell as real }

  function AfterDiscount(gross: real, pct: real): real { gross * (1.0 - pct / 100.0) }

  /** DPP Nilai Lain. */
  function LineDpp(net: int): int { Round(net as real * 11.0 / 12.0) }

  function LinePpn(net: int): int { Round(LineDpp(net) as real * 0.12) }

  function Before(x: Line, y: Line): bool { x.number < y.number }

  // What one line is worth

  function Product(line: Line): int { if line.product then Round(Gross(line)) else 0 }

  function Worth(line: Line): int {
    if line.product then Round(Gross(line)) else if line.sell > 0 then line.sell else 0
  }

  function Net(pct: real, line: Line): int {
    if line.product then Round(AfterDiscount(Gross(line), pct)) else if line.sell > 0 then line.sell else 0
  }

  function Off(pct: real, line: Line): int { Worth(line) - Net(pct, line) }

  function Nets(pct: real): Line -> int { line => Net(pct, line) }

  function Dpps(pct: real): Line -> int { line => LineDpp(Net(pct, line)) }

  function Ppns(pct: real): Line -> int { line => LinePpn(Net(pct, line)) }

  function Offs(pct: real): Line -> int { line => Off(pct, line) }

  /** What the client pays for a line. */
  function Charges(pct: real): Line -> int { line => Net(pct, line) + LinePpn(Net(pct, line)) }

  /** What the columns allow: no negative quantity or price, a percentage from 0 to 100. */
  predicate Plain(lines: seq<Line>, pct: real) {
    0.0 <= pct <= 100.0 && forall line :: line in lines ==> line.qty >= 0.0 && line.sell >= 0
  }

  lemma PartOfWhole(x: real, share: real)
    requires x >= 0.0 && 0.0 <= share <= 1.0
    ensures 0.0 <= x * share <= x
  {
    assert x * (1.0 - share) >= 0.0;
  }

  lemma NetBounds(pct: real, line: Line)
    requires 0.0 <= pct <= 100.0 && line.qty >= 0.0 && line.sell >= 0
    ensures 0 <= Net(pct, line) <= Worth(line)
    ensures 0 <= Off(pct, line) <= Product(line)
  {
    var gross := Gross(line);
    var share := 1.0 - pct / 100.0;
    assert gross >= 0.0;
    assert 0.0 <= share <= 1.0;
    PartOfWhole(gross, share);
    RoundMonotone(gross * share, gross);
  }

  lemma PpnBounds(net: int)
    ensures -0.56 <= LinePpn(net) as real - 0.11 * net as real <= 0.56
  {
  }

  /** The accumulators over these lines. */
  ghost predicate Running(lines: seq<Line>, pct: real, t: Totals) {
    && t.dpp == Sum(Dpps(pct), lines)
    && t.ppn == Sum(Ppns(pct), lines)
    && t.discount == Sum(Offs(pct), lines)
    && (Plain(lines, pct) ==>
          t.products == Sum(Product, lines) && t.total == Sum(Worth, lines) && t.products >= 0 && t.total >= 0)
  }

  /** One line added to the accumulators, rounding as it goes. */
  function Added(t: Totals, line: Line, pct: real): Totals {
    var net := Net(pct, line);
    var u := t.(dpp := t.dpp + LineDpp(net), ppn := t.ppn + LinePpn(net));
    if line.product then
      u.(products := Round(t.products as real + Gross(line)), total := Round(t.total as real + Gross(line)),
         discount := Round((t.discount + Round(Gross(line)) - net) as real))
    else if line.sell > 0 then u.(total := Round((t.total + net) as real))
    else u
  }

  /** A line adds exactly its own rounded amounts, unless it carries half a sen across zero: the
      running totals then drift, and otherwise never. DPP, PPN and discount add exactly in any case. */
  lemma AddedExactly(t: Totals, line: Line, pct: real)
    ensures var u := Added(t, line, pct);
      && u.dpp == t.dpp + LineDpp(Net(pct, line)) && u.ppn == t.ppn + LinePpn(Net(pct, line))
      && u.discount == t.discount + Off(pct, line)
      && (u.total == t.total + Worth(line) <==> !(line.product && Crosses(t.total, Gross(line))))
      && (u.products == t.products + Product(line) <==> !(line.product && Crosses(t.products, Gross(line))))
  {
    RoundShift(t.total, Gross(line));
    RoundShift(t.products, Gross(line));
    RoundWhole(t.discount + Round(Gross(line)) - Net(pct, line));
    RoundWhole(t.total + Net(pct, line));
  }

  lemma RunningStep(lines: seq<Line>, i: nat, pct: real, t: Totals)
    requires i < |lines| && Running(lines[..i], pct, t)
    ensures Running(lines[..i + 1], pct, Added(t, lines[i], pct))
  {
    AddedExactly(t, lines[i], pct);
    SumOne(Dpps(pct), lines, i);
    SumOne(Ppns(pct), lines, i);
    SumOne(Offs(pct), lines, i);
    SumOne(Product, lines, i);
    SumOne(Worth, lines, i);
    if Plain(lines[..i + 1], pct) {
      PlainPrefix(lines, i, pct);
      PlainNeverCrosses(t.total, lines[i]);
      PlainNeverCrosses(t.products, lines[i]);
    }
  }

  lemma PlainPrefix(lines: seq<Line>, i: nat, pct: real)
    requires i < |lines| && Plain(lines[..i + 1], pct)
    ensures Plain(lines[..i], pct) && lines[i].qty >= 0.0 && lines[i].sell >= 0
    ensures Product(lines[i]) >= 0 && Worth(lines[i]) >= 0
  {
    assert lines[..i + 1] == lines[..i] + [lines[i]];
    assert forall line :: line in lines[..i] ==> line in lines[..i + 1];
    assert lines[i] in lines[..i + 1];
    assert Gross(lines[i]) >= 0.0;
  }

  lemma SameSums(lines: seq<Line>, sorted: seq<Line>, pct: real, t: Totals)
    requires multiset(lines) == multiset(sorted) && Running(sorted, pct, t)
    ensures Running(lines, pct, t)
  {
    SamePlain(lines, sorted, pct);
    SumPermutes(Dpps(pct), sorted, lines);
    SumPermutes(Ppns(pct), sorted, lines);
    SumPermutes(Offs(pct), sorted, lines);
    SumPermutes(Product, sorted, lines);
    SumPermutes(Worth, sorted, lines);
  }

  /** The accumulators after the first n lines. */
  function Totalled(lines: seq<Line>, n: nat, pct: real): Totals
    requires n <= |lines|
  {
    if n == 0 then Totals(0, 0, 0, 0, 0, 0) else Added(Totalled(lines, n - 1, pct), lines[n - 1], pct)
  }

  lemma {:induction false} TotalledRuns(lines: seq<Line>, n: nat, pct: real)
    requires n <= |lines|
    ensures Running(lines[..n], pct, Totalled(lines, n, pct))
    decreases n
  {
    if n > 0 {
      TotalledRuns(lines, n - 1, pct);
      RunningStep(lines, n - 1, pct, Totalled(lines, n - 1, pct));
    }
  }

  /** One turn of the loop below. */
  method AddLine(t: Totals, line: Line, pct: real) returns (u: Totals)
    ensures u == Added(t, line, pct)
  {
    u := t;
    var gross := Gross(line);
    var net;
    if line.product {
      net := Round(AfterDiscount(gross, pct));
      u := u.(total := Round(u.total as real + gross));
      u := u.(products := Round(u.products as real + gross));
      u := u.(discount := Round((u.discount + Round(gross) - net) as real));
    } else if line.sell > 0 {
      net := line.sell;
      u := u.(total := Round((u.total + net) as real));
    } else {
      net := 0;
    }
    u := u.(dpp := u.dpp + LineDpp(net));
    u := u.(ppn := u.ppn + LinePpn(net));
  }

  /** Per-line DPP and PPN, summed. */
  method QuotationTotals(lines: seq<Line>, pct: real) returns (t: Totals)
    ensures Running(lines, pct, t) && t.grand == t.total - t.discount + t.ppn
  {
    var sorted := Sorting.Sort(Before, lines);
    t := Totals(0, 0, 0, 0, 0, 0);
    for i := 0 to |sorted|
      invariant t == Totalled(sorted, i, pct)
    {
      t := AddLine(t, sorted[i], pct);
    }
    LoopDone(lines, sorted, pct);
    t := t.(grand := t.total - t.discount + t.ppn);
  }

  lemma LoopDone(lines: seq<Line>, sorted: seq<Line>, pct: real)
    requires multiset(lines) == multiset(sorted)
    ensures Running(lines, pct, Totalled(sorted, |sorted|, pct))
  {
    assert sorted[..|sorted|] == sorted;
    TotalledRuns(sorted, |sorted|, pct);
    SameSums(lines, sorted, pct, Totalled(sorted, |sorted|, pct));
  }

  /** What the columns allow crosses nothing. */
  lemma PlainNeverCrosses(total: int, line: Line)
    requires total >= 0 && line.qty >= 0.0 && line.sell >= 0
    ensures Gross(line) >= 0.0 && !Crosses(total, Gross(line))
  {
    assert line.qty * line.sell as real >= 0.0;
  }

  lemma SamePlain(lines: seq<Line>, sorted: seq<Line>, pct: real)
    requires multiset(lines) == multiset(sorted)
    ensures Plain(lines, pct) <==> Plain(sorted, pct)
  {
    assert forall line :: line in lines <==> line in multiset(sorted);
    assert forall line :: line in sorted <==> line in multiset(lines);
  }

  /** The roundings never drift: the discounted total is the sum of the nets, and the grand total
      adds each line's tax. */
  lemma NothingDrifts(lines: seq<Line>, pct: real, t: Totals)
    requires Plain(lines, pct) && Running(lines, pct, t) && t.grand == t.total - t.discount + t.ppn
    ensures t.total - t.discount == Sum(Nets(pct), lines)
    ensures t.grand == Sum(Charges(pct), lines)
  {
    SumDifference(Offs(pct), Worth, Nets(pct), lines);
    SumDifference(Nets(pct), Charges(pct), Ppns(pct), lines);
  }

  /** A discount within 0 and 100 percent is never negative and never exceeds the products. */
  lemma DiscountWithinProducts(lines: seq<Line>, pct: real, t: Totals)
    requires Plain(lines, pct) && Running(lines, pct, t)
    ensures 0 <= t.discount <= t.products
  {
    forall line | line in lines
      ensures 0 <= Offs(pct)(line) <= Product(line)
    {
      NetBounds(pct, line);
    }
    SumAtMost(Offs(pct), Product, lines);
    SumNotNegative(Offs(pct), lines);
  }

  lemma {:induction false} SumNotNegative<T>(f: T -> int, xs: seq<T>)
    requires forall x :: x in xs ==> f(x) >= 0
    ensures Sum(f, xs) >= 0
    decreases |xs|
  {
    if xs != [] {
      SumNotNegative(f, xs[..|xs| - 1]);
    }
  }

  /** The tax stays within 0.56 sen a line of 11 percent of the nets. */
  lemma {:induction false} PpnNearElevenPercent(lines: seq<Line>, pct: real)
    ensures -0.56 * |lines| as real <= Sum(Ppns(pct), lines) as real - 0.11 * Sum(Nets(pct),
      lines) as real <= 0.56 * |lines| as real
    decreases |lines|
  {
    if lines != [] {
      var k := |lines| - 1;
      PpnNearElevenPercent(lines[..k], pct);
      PpnBounds(Net(pct, lines[k]));
    }
  }

  function PartOf(pct: real): Line -> real { (line: Line) => pct / 100.0 * if line.product then Gross(line) else 0.0 }

  lemma OffNear(pct: real, line: Line)
    ensures -1.0 <= Off(pct, line) as real - PartOf(pct)(line) <= 1.0
  {
    var gross, rate := Gross(line), pct / 100.0;
    assert AfterDiscount(gross, pct) == gross - rate * gross;
  }

  /** The discount given stays within a sen a line of the percentage of the products. */
  lemma DiscountNearPercentage(lines: seq<Line>, pct: real, t: Totals)
    requires Running(lines, pct, t)
    ensures -(|lines| as real) <= t.discount as real - SumReal(PartOf(pct), lines) <= |lines| as real
  {
    forall line | line in lines
      ensures -1.0 <= Offs(pct)(line) as real - PartOf(pct)(line) <= 1.0
    {
      OffNear(pct, line);
    }
    SumNear(Offs(pct), PartOf(pct), lines);
  }

  // Spreading a discount and a tax over invoice lines

  /** What an amount is worth after its part of the discount. */
  function Share(discount: int, base: int, amount: int): real
    requires base != 0
  {
    amount as real - amount as real * discount as real / base as real
  }

  function ShareOf(discount: int, base: int): int -> real
    requires base != 0
  {
    amount => Share(discount, base, amount)
  }

  function SplitDiscount(amounts: seq<int>, discount: int): (nets: seq<int>)
    ensures |nets| == |amounts|
  {
    var base := Sum(Id, amounts);
    if amounts == [] || discount == 0 || base == 0 then amounts
    else Settle(Rounded(ShareOf(discount, base), amounts), base - discount)
  }

  /** The nets add up to the discounted base exactly when there is something to discount, or nothing to take off. */
  lemma SplitDiscountSums(amounts: seq<int>, discount: int)
    ensures Sum(Id, SplitDiscount(amounts, discount)) == Sum(Id, amounts) - discount <==>
      discount == 0 || Sum(Id, amounts) != 0
  {
  }

  lemma ShareAdds(discount: int, base: int, a: int, b: int)
    requires base != 0
    ensures Share(discount, base, a + b) == Share(discount, base, a) + Share(discount, base, b)
  {
    QuotientAdds(a as real, b as real, discount as real, base as real);
  }

  lemma QuotientAdds(a: real, b: real, d: real, n: real)
    requires n != 0.0
    ensures (a + b) * d / n == a * d / n + b * d / n
  {
    Distribute(d, a, b);
    var x, y := a * d, b * d;
    assert (x + y) / n == x / n + y / n;
  }

  lemma ShareWhole(discount: int, base: int)
    requires base != 0
    ensures Share(discount, base, base) == (base - discount) as real && Share(discount, base, 0) == 0.0
  {
    WholeQuotient(base as real, discount as real);
    WholeQuotient(base as real, 0.0);
    ShareAdds(discount, base, 0, 0);
  }

  lemma SharesAdd(discount: int, base: int, share: int -> real)
    requires base != 0 && forall a :: share(a) == Share(discount, base, a)
    ensures Additive(share)
  {
    forall a, b
      ensures AddsUp(share, a, b)
    {
      ShareAdds(discount, base, a, b);
    }
    assert AddsUp(share, 0, 0);
  }

  lemma DiscountShares(discount: int, base: int, share: int -> real)
    requires base != 0 && share == ShareOf(discount, base)
    ensures Additive(share) && share(base) == (base - discount) as real
  {
    SharesAdd(discount, base, share);
    ShareWhole(discount, base);
  }

  lemma WholeQuotient(n: real, d: real)
    requires n != 0.0
    ensures n * d / n == d
  {
  }

  /** Every line but the last is its own share to half a sen. */
  lemma SplitDiscountIsFair(amounts: seq<int>, discount: int, i: nat)
    requires i < |amounts| - 1 && Sum(Id, amounts) != 0 && discount != 0
    ensures -0.5 <= SplitDiscount(amounts, discount)[i] as real - ShareOf(discount, Sum(Id, amounts))(amounts[i]) <= 0.5
  {
    var base := Sum(Id, amounts);
    KeptShare(ShareOf(discount, base), amounts, base - discount, i);
  }

  /** The last is its own share to half a sen for each other line. */
  lemma LastLineIsFair(amounts: seq<int>, discount: int)
    requires Sum(Id, amounts) != 0 && discount != 0 && amounts != []
    ensures
      var k := |amounts| - 1;
      -0.5 * k as real <= SplitDiscount(amounts, discount)[k] as real - ShareOf(discount,
        Sum(Id, amounts))(amounts[k]) <= 0.5 * k as real
  {
    var base := Sum(Id, amounts);
    DiscountShares(discount, base, ShareOf(discount, base));
    SettledNear(ShareOf(discount, base), amounts, base - discount);
  }

  /** The last line goes below zero exactly when the others, each rounded on its own, already take
      more than the discounted base. */
  lemma LastLineBelowZero(amounts: seq<int>, discount: int)
    requires Sum(Id, amounts) != 0 && discount != 0 && amounts != []
    ensures
      var k, base := |amounts| - 1, Sum(Id, amounts);
      SplitDiscount(amounts, discount)[k] < 0 <==>
        Sum(Id, Rounded(ShareOf(discount, base), amounts[..k])) > base - discount
  {
    var k, base := |amounts| - 1, Sum(Id, amounts);
    var parts := Rounded(ShareOf(discount, base), amounts);
    SettleLast(parts, base - discount);
    assert parts[..k] == Rounded(ShareOf(discount, base), amounts[..k]);
  }

  /** It never does when its own share is at least half a sen for each other line. */
  lemma LastLineStaysAbove(amounts: seq<int>, discount: int)
    requires Sum(Id, amounts) != 0 && discount != 0 && amounts != []
    requires Share(discount, Sum(Id, amounts), amounts[|amounts| - 1]) >= 0.5 * (|amounts| - 1) as real
    ensures SplitDiscount(amounts, discount)[|amounts| - 1] >= 0
  {
    LastLineIsFair(amounts, discount);
  }

  /** And that bound is met for every number of lines: 2j lines of one sen and a free one, with j sen
      off, leave the last line at minus j. */
  lemma LastLineCanGoNegative(j: int)
    requires j > 0
    ensures var amounts := Ones(2 * j) + [0];
      Sum(Id, amounts) == 2 * j && SplitDiscount(amounts, j)[2 * j] == -j
  {
    var amounts := Ones(2 * j) + [0];
    SumOnes(2 * j);
    SumOne(Id, amounts, 2 * j);
    assert amounts[..2 * j] == Ones(2 * j) && amounts[..2 * j + 1] == amounts;
    HalfShare(j);
    var parts := Rounded(ShareOf(j, 2 * j), amounts);
    assert parts[..2 * j] == Ones(2 * j);
    SettleLast(parts, j);
  }

  function Ones(n: nat): (r: seq<int>)
    ensures |r| == n && forall i :: 0 <= i < n ==> r[i] == 1
  {
    seq(n, _ => 1)
  }

  lemma {:induction false} SumOnes(n: nat)
    ensures Sum(Id, Ones(n)) == n
  {
    if n > 0 {
      SumOnes(n - 1);
      assert Ones(n)[..n - 1] == Ones(n - 1);
    }
  }

  lemma HalfShare(j: nat)
    requires j > 0
    ensures Share(j, 2 * j, 1) == 0.5 && Round(Share(j, 2 * j, 1)) == 1
  {
    var x := j as real;
    assert (2 * j) as real == 2.0 * x;
    assert x / (2.0 * x) == 0.5;
    assert 1.0 * x / (2.0 * x) == 0.5;
    assert Round(0.5) == 1;
  }

  /** Per-line tax at a rate, the last line taking the rounding rest. */
  function SplitTotal(bases: seq<int>, total: int, rate: real): (parts: seq<int>)
    ensures |parts| == |bases|
  {
    if bases == [] then []
    else Settle(seq(|bases|, i requires 0 <= i < |bases| => Round(bases[i] as real * rate / 100.0)), total)
  }

  lemma SplitTotalSums(bases: seq<int>, total: int, rate: real)
    ensures Sum(Id, SplitTotal(bases, total, rate)) == total <==> bases != [] || total == 0
  {
  }
}
