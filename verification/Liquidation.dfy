/**
 Choosing what to liquidate: every large enough debt is paired with every collateral, with the repay and seize
 amounts rounded as on chain. Prices, rates and ratios are integers scaled by 10^18.
 */
module Liquidation {

  import opened Basics

  const TREASURY_PERCENT := 50_000_000_000_000_000

  datatype CompReserve = CompReserve(addr: string, colAmount: int, debtAmount: int, debtInterest: int)

  datatype CToken = CToken(price: int, borrowIndex: int, exchangeRate: int)

  datatype CometConfigs = CometConfigs(closeFactor: int, liqIncentive: int)

  type CTokens = map<string, CToken>

  function MulScalarTruncate(ratio: int, repayAmount: int): int {
    FloorDiv(ratio * repayAmount, EXP_SCALE)
  }

  function MulScalarTruncateReverse(ratio: int, seizeAmount: int): int
    requires ratio != 0
  {
    FloorDiv(seizeAmount * EXP_SCALE, ratio)
  }

  /** The repay amount computed backwards is the greatest whose product with the ratio, unrounded, is covered. */
  lemma ReverseIffCovered(ratio: int, seize: int, repay: int)
    requires ratio > 0
    ensures repay <= MulScalarTruncateReverse(ratio, seize) <==> ratio * repay <= seize * EXP_SCALE
  {
    FloorAtLeastIff(seize * EXP_SCALE, ratio, repay);
  }

  lemma FloorShift(k: int, n: int, d: int)
    requires d > 0
    ensures FloorDiv(k * d + n, d) == k + FloorDiv(n, d)
  {
    var q := FloorDiv(n, d);
    FloorBounds(n, d);
    assert (k + q) * d == k * d + q * d && (k + q + 1) * d == k * d + q * d + d;
    FloorAtLeastIff(k * d + n, d, k + q);
    FloorAtLeastIff(k * d + n, d, k + q + 1);
  }

  /**
   Seizing for what was computed backwards falls short of the amount by the remainder of the division, scaled down and
   rounded up: it gives the amount back if and only if the division leaves none. One unit more repays for it in full.
   */
  lemma ReverseFallsShort(ratio: int, seize: int) returns (rest: int)
    requires ratio > 0
    ensures rest == seize * EXP_SCALE - ratio * MulScalarTruncateReverse(ratio, seize) && 0 <= rest < ratio
    ensures MulScalarTruncate(ratio, MulScalarTruncateReverse(ratio, seize)) == seize + FloorDiv(-rest, EXP_SCALE)
    ensures MulScalarTruncate(ratio, MulScalarTruncateReverse(ratio, seize)) == seize <==> rest == 0
    ensures MulScalarTruncate(ratio, MulScalarTruncateReverse(ratio, seize)) <= seize
         <= MulScalarTruncate(ratio, MulScalarTruncateReverse(ratio, seize) + 1)
  {
    var repay := MulScalarTruncateReverse(ratio, seize);
    rest := seize * EXP_SCALE - ratio * repay;
    FloorBounds(seize * EXP_SCALE, ratio);
    FloorShift(seize, -rest, EXP_SCALE);
    FloorBounds(-rest, EXP_SCALE);
    assert ratio * (repay + 1) == ratio * repay + ratio;
    FloorAtLeastIff(ratio * (repay + 1), EXP_SCALE, seize);
  }

  // ----- Sorting, largest first -----

  function Insert<T>(better: (T, T) -> bool, x: T, s: seq<T>): (r: seq<T>)
    ensures multiset(r) == multiset(s) + multiset{x}
  {
    if s == [] then [x]
    else if better(s[0], x) then
      assert s == [s[0]] + s[1..];
      [s[0]] + Insert(better, x, s[1..])
    else [x] + s
  }

  /** Python's stable `sorted(..., reverse=True)`: equal elements keep their order. */
  function Sorted<T>(better: (T, T) -> bool, s: seq<T>): (r: seq<T>)
    ensures multiset(r) == multiset(s)
  {
    if s == [] then []
    else
      assert s == [s[0]] + s[1..];
      Insert(better, s[0], Sorted(better, s[1..]))
  }

  /** No later element is better than an earlier one. */
  ghost predicate Descending<T>(better: (T, T) -> bool, s: seq<T>) {
    forall i, j :: 0 <= i < j < |s| ==> !better(s[j], s[i])
  }

  /** A strict order in which being not better is transitive. */
  ghost predicate Ranking<T(!new)>(better: (T, T) -> bool) {
    && (forall x, y :: better(x, y) ==> !better(y, x))
    && (forall x, y, z :: !better(x, y) && !better(y, z) ==> !better(x, z))
  }

  lemma {:induction false} InsertDescending<T(!new)>(better: (T, T) -> bool, x: T, s: seq<T>)
    requires Ranking(better) && Descending(better, s)
    ensures Descending(better, Insert(better, x, s))
  {
    var r := Insert(better, x, s);
    if s != [] && better(s[0], x) {
      InsertDescending(better, x, s[1..]);
      var rest := Insert(better, x, s[1..]);
      forall y | y in rest ensures !better(y, s[0]) {
        assert y in multiset(rest);
        assert y == x || y in s[1..];
      }
      forall i, j | 0 <= i < j < |r| ensures !better(r[j], r[i]) {
        assert r[j] == rest[j - 1];
      }
    } else if s != [] {
      forall i, j | 0 <= i < j < |r| ensures !better(r[j], r[i]) {
        assert r[j] == s[j - 1];
        assert j > 1 ==> !better(s[j - 1], s[0]);
      }
    }
  }

  lemma {:induction false} SortedDescending<T(!new)>(better: (T, T) -> bool, s: seq<T>)
    requires Ranking(better)
    ensures Descending(better, Sorted(better, s))
  {
    if s != [] {
      SortedDescending(better, s[1..]);
      InsertDescending(better, s[0], Sorted(better, s[1..]));
    }
  }

  /** The elements that tie with x, in their order. */
  function Ties<T>(better: (T, T) -> bool, x: T, s: seq<T>): seq<T> {
    if s == [] then []
    else if !better(s[0], x) && !better(x, s[0]) then [s[0]] + Ties(better, x, s[1..])
    else Ties(better, x, s[1..])
  }

  lemma {:induction false} InsertStable<T(!new)>(better: (T, T) -> bool, x: T, y: T, s: seq<T>)
    requires Ranking(better)
    ensures Ties(better, x, Insert(better, y, s)) == Ties(better, x, [y] + s)
  {
    assert ([y] + s)[1..] == s;
    if s != [] && better(s[0], y) {
      InsertStable(better, x, y, s[1..]);
      var r := Insert(better, y, s);
      assert r[0] == s[0] && r[1..] == Insert(better, y, s[1..]);
      assert ([y] + s[1..])[1..] == s[1..];
    }
  }

  /** Sorting leaves elements that tie in their order. */
  lemma {:induction false} SortedStable<T(!new)>(better: (T, T) -> bool, x: T, s: seq<T>)
    requires Ranking(better)
    ensures Ties(better, x, Sorted(better, s)) == Ties(better, x, s)
  {
    if s != [] {
      SortedStable(better, x, s[1..]);
      InsertStable(better, x, s[0], Sorted(better, s[1..]));
      assert ([s[0]] + Sorted(better, s[1..]))[1..] == Sorted(better, s[1..]);
    }
  }

  // ----- Debts -----

  datatype Debt = Debt(normalized: int, addr: string, maxRepay: int)

  /** The order of the tuples. */
  predicate BiggerDebt(a: Debt, b: Debt) {
    || a.normalized > b.normalized
    || (a.normalized == b.normalized && StringLess(b.addr, a.addr))
    || (a.normalized == b.normalized && a.addr == b.addr && a.maxRepay > b.maxRepay)
  }

  /** The debt with its interest, or None where the interest index is zero. */
  function Accrued(r: CompReserve, ctk: CTokens): Option<int>
    requires r.addr in ctk
  {
    if r.debtInterest == 0 then None
    else Some(FloorDiv(r.debtAmount * ctk[r.addr].borrowIndex, r.debtInterest))
  }

  /** The debts of an account in order; None where the source raises. */
  function DebtsOf(reserves: seq<CompReserve>, ctk: CTokens, com: CometConfigs): Option<seq<Debt>> {
    if reserves == [] then Some([])
    else
      var n := |reserves| - 1;
      var before := DebtsOf(reserves[..n], ctk, com);
      var r := reserves[n];
      if before.None? || r.addr !in ctk then None
      else if r.debtAmount <= 0 then before
      else
        var accrued := Accrued(r, ctk);
        if accrued.None? then None
        else
          var maxRepay := MulScalarTruncate(com.closeFactor, accrued.value);
          Some(before.value + [Debt(FloorDiv(ctk[r.addr].price * maxRepay, EXP_SCALE), r.addr, maxRepay)])
  }

  // ----- Pairs -----

  datatype LiqPair = LiqPair(profit: int, colCtoken: string, debtCtoken: string, seizeTokens: int, repayAmount: int)

  predicate MoreProfit(a: LiqPair, b: LiqPair) {
    a.profit > b.profit
  }

  /** What a pair comes to before the treasury takes its part. */
  datatype Amounts = Amounts(numerator: int, denominator: int, seize: int, repay: int)

  /** The seize and repay amounts; None where a division by zero raises. */
  function AmountsOf(col: int, price: int, rate: int, debtPrice: int, incentive: int, maxRepay: int): Option<Amounts> {
    var numerator := FloorDiv(incentive * debtPrice, EXP_SCALE);
    var denominator := FloorDiv(price * rate, EXP_SCALE);
    if denominator == 0 then None
    else
      var ratio := FloorDiv(numerator * EXP_SCALE, denominator);
      var wanted := MulScalarTruncate(ratio, maxRepay);
      if wanted <= col then Some(Amounts(numerator, denominator, wanted, maxRepay))
      else if ratio == 0 then None
      else Some(Amounts(numerator, denominator, col, MulScalarTruncateReverse(ratio, col)))
  }

  /** One pair of a debt and a collateral; None where the source raises. */
  function PairOf(r: CompReserve, debt: Debt, ctk: CTokens, com: CometConfigs): Option<LiqPair>
    requires r.addr in ctk && debt.addr in ctk
  {
    var col, price, rate, debtPrice := r.colAmount, ctk[r.addr].price, ctk[r.addr].exchangeRate, ctk[debt.addr].price;
    var a := AmountsOf(col, price, rate, debtPrice, com.liqIncentive, debt.maxRepay);
    if a.None? || com.liqIncentive == 0 then None
    else
      var seize := a.value.seize - FloorDiv(a.value.seize * TREASURY_PERCENT, com.liqIncentive);
      var profit := FloorDiv(FloorDiv(seize * rate, EXP_SCALE) * price - a.value.repay * debtPrice, EXP_SCALE);
      Some(LiqPair(profit, r.addr, debt.addr, seize, a.value.repay))
  }

  /** The pairs of one debt with every collateral, in the order of the account. */
  function PairsOf(reserves: seq<CompReserve>, debt: Debt, ctk: CTokens, com: CometConfigs): Option<seq<LiqPair>> {
    if reserves == [] then Some([])
    else
      var n := |reserves| - 1;
      var before := PairsOf(reserves[..n], debt, ctk, com);
      var r := reserves[n];
      if before.None? then None
      else if r.colAmount <= 0 then before
      else if r.addr !in ctk || debt.addr !in ctk then None
      else
        var pair := PairOf(r, debt, ctk, com);
        if pair.None? then None else Some(before.value + [pair.value])
  }

  /** Debts below eight tenths of the largest are passed over. */
  predicate LargeEnough(debt: Debt, largest: Debt) {
    debt.normalized * 10 >= largest.normalized * 8
  }

  /** The entry for one debt: its pairs by falling profit, if it is large enough and there is any collateral. */
  datatype Entry = Entry(debtCtoken: string, pairs: seq<LiqPair>)

  function EntriesOf(debts: seq<Debt>, largest: Debt, reserves: seq<CompReserve>, ctk: CTokens,
      com: CometConfigs): Option<seq<Entry>> {
    if debts == [] then Some([])
    else
      var n := |debts| - 1;
      var before := EntriesOf(debts[..n], largest, reserves, ctk, com);
      if before.None? || debts[n].addr !in ctk then None
      else if !LargeEnough(debts[n], largest) then before
      else
        var pairs := PairsOf(reserves, debts[n], ctk, com);
        if pairs.None? then None
        else if pairs.value == [] then before
        else Some(before.value + [Entry(debts[n].addr, Sorted(MoreProfit, pairs.value))])
  }

  /** `liquidation_simulation`: the dictionary as its entries in insertion order; None where the source raises. */
  function Simulate(reserves: seq<CompReserve>, ctk: CTokens, com: CometConfigs): Option<seq<Entry>> {
    var debts := DebtsOf(reserves, ctk, com);
    if debts.None? then None
    else if debts.value == [] then Some([])
    else
      var sorted := Sorted(BiggerDebt, debts.value);
      assert |multiset(sorted)| == |sorted| && |multiset(debts.value)| == |debts.value|;
      EntriesOf(sorted, sorted[0], reserves, ctk, com)
  }

  // ----- Rounding -----

  /** Prices, rates and ratios as the protocol has them: every divisor positive,
      the incentive above the treasury's part. */
  ghost predicate SaneMarket(ctk: CTokens, com: CometConfigs) {
    && com.closeFactor >= 0 && com.liqIncentive >= TREASURY_PERCENT
    && forall addr :: addr in ctk ==>
         ctk[addr].price > 0 && ctk[addr].exchangeRate > 0 && ctk[addr].borrowIndex >= 0
         && FloorDiv(ctk[addr].price * ctk[addr].exchangeRate, EXP_SCALE) > 0
  }

  lemma ProductNonnegative(a: int, b: int)
    requires a >= 0 && b >= 0
    ensures a * b >= 0
  {
  }

  lemma FloorNonnegative(n: int, d: int)
    requires n >= 0 && d > 0
    ensures FloorDiv(n, d) >= 0
  {
    FloorAtLeastIff(n, d, 0);
  }

  /** Chaining the two roundings of a seize amount: what the ratio allows, the prices allow. */
  lemma RatioIsSafe(numerator: int, denominator: int, ratio: int, seize: int, repay: int)
    requires denominator > 0 && ratio * denominator <= numerator * EXP_SCALE && repay >= 0
    requires seize * EXP_SCALE <= ratio * repay
    ensures seize * denominator <= numerator * repay
  {
    assert seize * EXP_SCALE * denominator <= ratio * repay * denominator by {
      ScaleMonotone(seize * EXP_SCALE, ratio * repay, denominator);
    }
    assert ratio * denominator * repay <= numerator * EXP_SCALE * repay by {
      ScaleMonotone(ratio * denominator, numerator * EXP_SCALE, repay);
    }
    assert ratio * repay * denominator == ratio * denominator * repay;
    assert seize * EXP_SCALE * denominator == (seize * denominator) * EXP_SCALE;
    assert numerator * EXP_SCALE * repay == (numerator * repay) * EXP_SCALE;
  }

  /** And that the prices demand more than a unit less, the ratio does, too. */
  lemma RatioIsTight(numerator: int, denominator: int, ratio: int, seize: int, repay: int)
    requires denominator > 0 && numerator * EXP_SCALE < (ratio + 1) * denominator && repay >= 0
    requires ratio * repay < (seize + 1) * EXP_SCALE
    ensures numerator * repay * EXP_SCALE < denominator * ((seize + 1) * EXP_SCALE + repay)
  {
    ScaleMonotone(numerator * EXP_SCALE, (ratio + 1) * denominator, repay);
    ScaleMonotone(ratio * repay + 1, (seize + 1) * EXP_SCALE, denominator);
    assert (ratio + 1) * denominator * repay == (ratio * repay + 1) * denominator + denominator * repay - denominator;
    assert numerator * EXP_SCALE * repay == numerator * repay * EXP_SCALE;
    assert (seize + 1) * EXP_SCALE * denominator + denominator * repay
        == denominator * ((seize + 1) * EXP_SCALE + repay);
  }

  /**
   Before the treasury's part: no more is repaid than allowed and no more seized than held. Despite all rounding the
   seized amount is covered by the repaid one and one unit more, and falls short of what that is worth by hardly more
   than one unit. Either all that is allowed is repaid or all that is held is seized.
   */
  lemma AmountsBounded(col: int, price: int, rate: int, debtPrice: int, incentive: int, maxRepay: int)
    requires col >= 0 && maxRepay >= 0 && incentive * debtPrice >= 0 && FloorDiv(price * rate, EXP_SCALE) > 0
    ensures var a := AmountsOf(col, price, rate, debtPrice, incentive, maxRepay);
            && a.Some?
            && 0 <= a.value.repay <= maxRepay && 0 <= a.value.seize <= col
            && a.value.seize * a.value.denominator <= a.value.numerator * (a.value.repay + 1)
            && a.value.numerator * a.value.repay * EXP_SCALE
               < a.value.denominator * ((a.value.seize + 1) * EXP_SCALE + a.value.repay)
            && (a.value.repay == maxRepay || a.value.seize == col)
  {
    var numerator := FloorDiv(incentive * debtPrice, EXP_SCALE);
    var denominator := FloorDiv(price * rate, EXP_SCALE);
    var ratio := FloorDiv(numerator * EXP_SCALE, denominator);
    var wanted := MulScalarTruncate(ratio, maxRepay);
    FloorNonnegative(incentive * debtPrice, EXP_SCALE);
    FloorNonnegative(numerator * EXP_SCALE, denominator);
    FloorBounds(numerator * EXP_SCALE, denominator);
    FloorBounds(ratio * maxRepay, EXP_SCALE);
    ProductNonnegative(ratio, maxRepay);
    FloorNonnegative(ratio * maxRepay, EXP_SCALE);
    if wanted <= col {
      RatioIsSafe(numerator, denominator, ratio, wanted, maxRepay);
      RatioIsTight(numerator, denominator, ratio, wanted, maxRepay);
      assert numerator * (maxRepay + 1) == numerator * maxRepay + numerator;
    } else {
      CappedBounded(numerator, denominator, ratio, col, maxRepay);
    }
  }

  /** The case in which the collateral does not suffice. */
  lemma CappedBounded(numerator: int, denominator: int, ratio: int, col: int, maxRepay: int)
    requires denominator > 0 && ratio >= 0
    requires ratio * denominator <= numerator * EXP_SCALE < (ratio + 1) * denominator
    requires 0 <= col < MulScalarTruncate(ratio, maxRepay) && maxRepay >= 0
    ensures ratio > 0
    ensures var repay := MulScalarTruncateReverse(ratio, col);
            && 0 <= repay <= maxRepay && col * denominator <= numerator * (repay + 1)
            && numerator * repay * EXP_SCALE < denominator * ((col + 1) * EXP_SCALE + repay)
  {
    assert ratio == 0 ==> ratio * maxRepay == 0;
    var repay := MulScalarTruncateReverse(ratio, col);
    FloorBounds(ratio * maxRepay, EXP_SCALE);
    ReverseIffCovered(ratio, col, 0);
    ReverseIffCovered(ratio, col, maxRepay + 1);
    ReverseIffCovered(ratio, col, repay + 1);
    assert ratio * (maxRepay + 1) == ratio * maxRepay + ratio;
    RatioIsSafe(numerator, denominator, ratio, col, repay + 1);
    ReverseIffCovered(ratio, col, repay);
    RatioIsTight(numerator, denominator, ratio, col, repay);
  }

  /** The treasury's part is taken out of what is seized, never more than all of it. */
  lemma TreasuryBounded(seize: int, incentive: int)
    requires seize >= 0 && incentive >= TREASURY_PERCENT
    ensures 0 <= FloorDiv(seize * TREASURY_PERCENT, incentive) <= seize
  {
    FloorNonnegative(seize * TREASURY_PERCENT, incentive);
    FloorBounds(seize * TREASURY_PERCENT, incentive);
    ScaleMonotone(TREASURY_PERCENT, incentive, seize);
    FloorAtLeastIff(seize * TREASURY_PERCENT, incentive, seize + 1);
    assert (seize + 1) * incentive > seize * TREASURY_PERCENT;
  }

  /**
   The amounts `a` of the pair `p` before the treasury's part: within the two caps, one of them reached, the seized
   amount covered by the repaid one and one unit more, and hardly more than one unit less than that is worth.
   */
  ghost predicate BeforeTreasury(a: Amounts, p: LiqPair, r: CompReserve, debt: Debt, com: CometConfigs)
    requires com.liqIncentive != 0
  {
    && 0 <= a.repay <= debt.maxRepay && 0 <= a.seize <= r.colAmount
    && (a.repay == debt.maxRepay || a.seize == r.colAmount)
    && a.seize * a.denominator <= a.numerator * (a.repay + 1)
    && a.numerator * a.repay * EXP_SCALE < a.denominator * ((a.seize + 1) * EXP_SCALE + a.repay)
    && p.repayAmount == a.repay
    && p.seizeTokens == a.seize - FloorDiv(a.seize * TREASURY_PERCENT, com.liqIncentive)
  }

  /** The profit is what the seized tokens are worth, less what the repaid ones are, rounded down twice. */
  ghost predicate IsProfit(p: LiqPair, rate: int, price: int, debtPrice: int, worth: int) {
    && worth * EXP_SCALE <= p.seizeTokens * rate < (worth + 1) * EXP_SCALE
    && p.profit * EXP_SCALE <= worth * price - p.repayAmount * debtPrice < (p.profit + 1) * EXP_SCALE
  }

  lemma ProfitOf(r: CompReserve, debt: Debt, ctk: CTokens, com: CometConfigs, p: LiqPair) returns (worth: int)
    requires r.addr in ctk && debt.addr in ctk && PairOf(r, debt, ctk, com) == Some(p)
    ensures IsProfit(p, ctk[r.addr].exchangeRate, ctk[r.addr].price, ctk[debt.addr].price, worth)
  {
    var rate, price, debtPrice := ctk[r.addr].exchangeRate, ctk[r.addr].price, ctk[debt.addr].price;
    worth := FloorDiv(p.seizeTokens * rate, EXP_SCALE);
    FloorBounds(p.seizeTokens * rate, EXP_SCALE);
    FloorBounds(worth * price - p.repayAmount * debtPrice, EXP_SCALE);
  }

  /** A pair repays at most what its debt allows and seizes at most the collateral held. */
  lemma PairBounded(r: CompReserve, debt: Debt, ctk: CTokens, com: CometConfigs) returns (a: Amounts, p: LiqPair)
    requires SaneMarket(ctk, com) && r.addr in ctk && debt.addr in ctk && r.colAmount > 0 && debt.maxRepay >= 0
    ensures PairOf(r, debt, ctk, com) == Some(p) && p.colCtoken == r.addr && p.debtCtoken == debt.addr
    ensures a.numerator == FloorDiv(com.liqIncentive * ctk[debt.addr].price, EXP_SCALE)
    ensures a.denominator == FloorDiv(ctk[r.addr].price * ctk[r.addr].exchangeRate, EXP_SCALE)
    ensures BeforeTreasury(a, p, r, debt, com)
    ensures 0 <= p.repayAmount <= debt.maxRepay && 0 <= p.seizeTokens <= r.colAmount
  {
    var price, rate, debtPrice := ctk[r.addr].price, ctk[r.addr].exchangeRate, ctk[debt.addr].price;
    ProductNonnegative(com.liqIncentive, debtPrice);
    AmountsBounded(r.colAmount, price, rate, debtPrice, com.liqIncentive, debt.maxRepay);
    a := AmountsOf(r.colAmount, price, rate, debtPrice, com.liqIncentive, debt.maxRepay).value;
    p := PairOf(r, debt, ctk, com).value;
    TreasuryBounded(a.seize, com.liqIncentive);
  }

  // ----- Debts and their order -----

  /** `d` is the debt of reserve `r`: at most the close factor's share of the accrued debt may be repaid. */
  ghost predicate DebtOfReserve(d: Debt, r: CompReserve, ctk: CTokens, com: CometConfigs) {
    && r.debtAmount > 0 && d.addr == r.addr && r.addr in ctk && r.debtInterest != 0
    && var accrued := FloorDiv(r.debtAmount * ctk[r.addr].borrowIndex, r.debtInterest);
       && d.maxRepay * EXP_SCALE <= com.closeFactor * accrued < (d.maxRepay + 1) * EXP_SCALE
       && d.normalized * EXP_SCALE <= ctk[r.addr].price * d.maxRepay < (d.normalized + 1) * EXP_SCALE
  }

  function Debtors(reserves: seq<CompReserve>): seq<CompReserve> {
    if reserves == [] then []
    else
      var n := |reserves| - 1;
      if reserves[n].debtAmount > 0 then Debtors(reserves[..n]) + [reserves[n]] else Debtors(reserves[..n])
  }

  /** There is one debt for each reserve borrowed from, in their order. */
  lemma {:induction false} DebtsAreTheReserves(reserves: seq<CompReserve>, ctk: CTokens, com: CometConfigs)
    requires DebtsOf(reserves, ctk, com).Some?
    ensures var debts := DebtsOf(reserves, ctk, com).value;
            && |debts| == |Debtors(reserves)|
            && forall k :: 0 <= k < |debts| ==> DebtOfReserve(debts[k], Debtors(reserves)[k], ctk, com)
    decreases |reserves|
  {
    if reserves != [] {
      var n := |reserves| - 1;
      var r := reserves[n];
      DebtsAreTheReserves(reserves[..n], ctk, com);
      if r.debtAmount > 0 {
        var accrued := Accrued(r, ctk).value;
        FloorBounds(com.closeFactor * accrued, EXP_SCALE);
        FloorBounds(ctk[r.addr].price * MulScalarTruncate(com.closeFactor, accrued), EXP_SCALE);
      }
    }
  }

  lemma BiggerDebtRanks()
    ensures Ranking(BiggerDebt)
  {
    forall x: Debt, y: Debt | BiggerDebt(x, y) ensures !BiggerDebt(y, x) {
      StringOrder(x.addr, y.addr, x.addr);
      StringOrder(y.addr, x.addr, x.addr);
    }
    forall x: Debt, y: Debt, z: Debt | !BiggerDebt(x, y) && !BiggerDebt(y, z) ensures !BiggerDebt(x, z) {
      StringOrder(z.addr, y.addr, x.addr);
      StringOrder(x.addr, y.addr, z.addr);
      StringOrder(y.addr, z.addr, x.addr);
      StringOrder(y.addr, x.addr, z.addr);
    }
  }

  // ----- The result -----

  function Collaterals(reserves: seq<CompReserve>): seq<CompReserve> {
    if reserves == [] then []
    else
      var n := |reserves| - 1;
      if reserves[n].colAmount > 0 then Collaterals(reserves[..n]) + [reserves[n]] else Collaterals(reserves[..n])
  }

  lemma {:induction false} CollateralsAreHeld(reserves: seq<CompReserve>, k: nat)
    requires k < |Collaterals(reserves)|
    ensures Collaterals(reserves)[k] in reserves && Collaterals(reserves)[k].colAmount > 0
    decreases |reserves|
  {
    var n := |reserves| - 1;
    assert reserves == reserves[..n] + [reserves[n]];
    if k < |Collaterals(reserves[..n])| {
      CollateralsAreHeld(reserves[..n], k);
    }
  }

  ghost predicate PairsMatch(pairs: seq<LiqPair>, cols: seq<CompReserve>, debt: Debt, ctk: CTokens,
                             com: CometConfigs) {
    && |pairs| == |cols|
    && forall k :: 0 <= k < |pairs| ==>
         cols[k].addr in ctk && debt.addr in ctk && PairOf(cols[k], debt, ctk, com) == Some(pairs[k])
  }

  lemma {:induction false} CollateralsAreAllHeld(reserves: seq<CompReserve>, r: CompReserve)
    ensures r in Collaterals(reserves) <==> r in reserves && r.colAmount > 0
    decreases |reserves|
  {
    if reserves != [] {
      var n := |reserves| - 1;
      assert reserves == reserves[..n] + [reserves[n]];
      CollateralsAreAllHeld(reserves[..n], r);
    }
  }

  /** There is one pair for each collateral, in their order. */
  lemma {:induction false} PairsAreTheCollaterals(reserves: seq<CompReserve>, debt: Debt, ctk: CTokens,
      com: CometConfigs)
    requires PairsOf(reserves, debt, ctk, com).Some?
    ensures PairsMatch(PairsOf(reserves, debt, ctk, com).value, Collaterals(reserves), debt, ctk, com)
    decreases |reserves|
  {
    if reserves != [] {
      PairsAreTheCollaterals(reserves[..|reserves| - 1], debt, ctk, com);
    }
  }

  function LargeDebts(debts: seq<Debt>, largest: Debt): (kept: seq<Debt>)
    ensures forall k :: 0 <= k < |kept| ==> kept[k] in debts && LargeEnough(kept[k], largest)
  {
    if debts == [] then []
    else
      var n := |debts| - 1;
      assert debts == debts[..n] + [debts[n]];
      if LargeEnough(debts[n], largest) then LargeDebts(debts[..n], largest) + [debts[n]]
      else LargeDebts(debts[..n], largest)
  }

  /** If there is any collateral, every large debt has its entry, in order; otherwise there is none. */
  lemma {:induction false} EntriesAreTheLargeDebts(
      debts: seq<Debt>, largest: Debt, reserves: seq<CompReserve>, ctk: CTokens, com: CometConfigs)
    requires EntriesOf(debts, largest, reserves, ctk, com).Some?
    ensures var entries, kept := EntriesOf(debts, largest, reserves, ctk, com).value, LargeDebts(debts, largest);
            if Collaterals(reserves) == [] then entries == []
            else
              && |entries| == |kept|
              && forall k :: 0 <= k < |entries| ==>
                   && entries[k].debtCtoken == kept[k].addr
                   && PairsOf(reserves, kept[k], ctk, com).Some?
                   && entries[k].pairs == Sorted(MoreProfit, PairsOf(reserves, kept[k], ctk, com).value)
    decreases |debts|
  {
    if debts != [] {
      var n := |debts| - 1;
      EntriesAreTheLargeDebts(debts[..n], largest, reserves, ctk, com);
      if LargeEnough(debts[n], largest) {
        PairsAreTheCollaterals(reserves, debts[n], ctk, com);
      }
    }
  }

  /** Exactly the debts of at least eight tenths of the largest are kept, in their order. */
  lemma {:induction false} KeptAreTheLarge(debts: seq<Debt>, largest: Debt, d: Debt)
    ensures d in LargeDebts(debts, largest) <==> d in debts && d.normalized * 10 >= largest.normalized * 8
    decreases |debts|
  {
    if debts != [] {
      var n := |debts| - 1;
      assert debts == debts[..n] + [debts[n]];
      KeptAreTheLarge(debts[..n], largest, d);
    }
  }

  lemma {:induction false} KeptDescend(debts: seq<Debt>, largest: Debt)
    requires Descending(BiggerDebt, debts)
    ensures Descending(BiggerDebt, LargeDebts(debts, largest))
    decreases |debts|
  {
    if debts != [] {
      var n := |debts| - 1;
      var before := LargeDebts(debts[..n], largest);
      KeptDescend(debts[..n], largest);
      forall i | 0 <= i < |before| ensures !BiggerDebt(debts[n], before[i]) {
        var k :| 0 <= k < n && debts[..n][k] == before[i];
      }
      DescendingWith(before, debts[n]);
    }
  }

  lemma DescendingWith(debts: seq<Debt>, last: Debt)
    requires Descending(BiggerDebt, debts) && forall i :: 0 <= i < |debts| ==> !BiggerDebt(last, debts[i])
    ensures Descending(BiggerDebt, debts + [last])
  {
  }

  /** The order of debts spelled out: largest first, then by address and amount, from the end. */
  ghost predicate LargestFirst(debts: seq<Debt>) {
    forall i, j :: 0 <= i < j < |debts| ==>
      var a, b := debts[i], debts[j];
      && a.normalized >= b.normalized
      && (a.normalized == b.normalized ==> !StringLess(a.addr, b.addr))
      && (a.normalized == b.normalized && a.addr == b.addr ==> a.maxRepay >= b.maxRepay)
  }

  lemma DescendingIsLargestFirst(debts: seq<Debt>)
    requires Descending(BiggerDebt, debts)
    ensures LargestFirst(debts)
  {
    forall i, j | 0 <= i < j < |debts| ensures !BiggerDebt(debts[j], debts[i]) {
    }
  }

  ghost predicate MostProfitFirst(pairs: seq<LiqPair>) {
    forall i, j :: 0 <= i < j < |pairs| ==> pairs[i].profit >= pairs[j].profit
  }

  lemma {:induction false} FirstKept(debts: seq<Debt>, largest: Debt)
    requires debts != [] && LargeEnough(debts[0], largest)
    ensures LargeDebts(debts, largest) != [] && LargeDebts(debts, largest)[0] == debts[0]
    decreases |debts|
  {
    if |debts| > 1 {
      FirstKept(debts[..|debts| - 1], largest);
    }
  }

  /**
   Whatever the entries: their keys are the debts of at least eight tenths of the largest, largest first, and every
   list of pairs is by falling profit.
   */
  lemma EntriesAreRanked(reserves: seq<CompReserve>, ctk: CTokens, com: CometConfigs)
      returns (debts: seq<Debt>, kept: seq<Debt>)
    requires Simulate(reserves, ctk, com).Some? && Simulate(reserves, ctk, com).value != []
    ensures DebtsOf(reserves, ctk, com).Some? && multiset(debts) == multiset(DebtsOf(reserves, ctk, com).value)
    ensures debts == Sorted(BiggerDebt, DebtsOf(reserves, ctk, com).value)
    ensures debts != [] && LargestFirst(debts) && LargestFirst(kept) && kept == LargeDebts(debts, debts[0])
    ensures forall d :: d in kept <==> d in debts && d.normalized * 10 >= debts[0].normalized * 8
    ensures var entries := Simulate(reserves, ctk, com).value;
            && |entries| == |kept|
            && (debts[0].normalized >= 0 ==> entries[0].debtCtoken == debts[0].addr)
            && forall k :: 0 <= k < |entries| ==>
                 entries[k].debtCtoken == kept[k].addr && MostProfitFirst(entries[k].pairs)
  {
    debts := Sorted(BiggerDebt, DebtsOf(reserves, ctk, com).value);
    assert debts != [] by {
      assert |multiset(debts)| == |debts|;
      assert |multiset(DebtsOf(reserves, ctk, com).value)| == |DebtsOf(reserves, ctk, com).value|;
    }
    kept := LargeDebts(debts, debts[0]);
    BiggerDebtRanks();
    SortedDescending(BiggerDebt, DebtsOf(reserves, ctk, com).value);
    KeptDescend(debts, debts[0]);
    DescendingIsLargestFirst(debts);
    DescendingIsLargestFirst(kept);
    forall d ensures d in kept <==> d in debts && d.normalized * 10 >= debts[0].normalized * 8 {
      KeptAreTheLarge(debts, debts[0], d);
    }
    EntriesAreTheLargeDebts(debts, debts[0], reserves, ctk, com);
    var entries := Simulate(reserves, ctk, com).value;
    forall k | 0 <= k < |entries| ensures MostProfitFirst(entries[k].pairs) {
      SortedByProfit(PairsOf(reserves, kept[k], ctk, com).value);
    }
    if debts[0].normalized >= 0 {
      FirstKept(debts, debts[0]);
    }
  }

  lemma SortedByProfit(pairs: seq<LiqPair>)
    ensures MostProfitFirst(Sorted(MoreProfit, pairs))
  {
    SortedDescending(MoreProfit, pairs);
    var sorted := Sorted(MoreProfit, pairs);
    forall i, j | 0 <= i < j < |sorted| ensures !MoreProfit(sorted[j], sorted[i]) {
    }
  }

  lemma DebtorOf(reserves: seq<CompReserve>, ctk: CTokens, com: CometConfigs, debts: seq<Debt>, debt: Debt)
      returns (debtor: CompReserve)
    requires DebtsOf(reserves, ctk, com).Some? && multiset(debts) == multiset(DebtsOf(reserves, ctk, com).value)
    requires debt in debts
    ensures debtor in Debtors(reserves) && DebtOfReserve(debt, debtor, ctk, com)
  {
    var unsorted := DebtsOf(reserves, ctk, com).value;
    DebtsAreTheReserves(reserves, ctk, com);
    assert debt in multiset(debts);
    var k :| 0 <= k < |unsorted| && unsorted[k] == debt;
    debtor := Debtors(reserves)[k];
  }

  lemma {:induction false} DebtorsAreAllBorrowed(reserves: seq<CompReserve>, r: CompReserve)
    ensures r in Debtors(reserves) <==> r in reserves && r.debtAmount > 0
    decreases |reserves|
  {
    if reserves != [] {
      var n := |reserves| - 1;
      assert reserves == reserves[..n] + [reserves[n]];
      DebtorsAreAllBorrowed(reserves[..n], r);
    }
  }

  lemma HeldOf(reserves: seq<CompReserve>, ctk: CTokens, com: CometConfigs, debt: Debt,
      p: LiqPair) returns (held: CompReserve)
    requires PairsOf(reserves, debt, ctk, com).Some? && p in Sorted(MoreProfit, PairsOf(reserves, debt, ctk, com).value)
    ensures held in reserves && held.colAmount > 0 && held.addr in ctk && debt.addr in ctk
    ensures PairOf(held, debt, ctk, com) == Some(p)
  {
    var pairs := PairsOf(reserves, debt, ctk, com).value;
    PairsAreTheCollaterals(reserves, debt, ctk, com);
    assert p in multiset(Sorted(MoreProfit, pairs));
    var k :| 0 <= k < |pairs| && pairs[k] == p;
    held := Collaterals(reserves)[k];
    CollateralsAreHeld(reserves, k);
  }

  lemma MaxRepayNonnegative(debt: Debt, debtor: CompReserve, ctk: CTokens, com: CometConfigs)
    requires SaneMarket(ctk, com) && DebtOfReserve(debt, debtor, ctk, com) && debtor.debtInterest > 0
    ensures debt.maxRepay >= 0
  {
    var index := ctk[debtor.addr].borrowIndex;
    ProductNonnegative(debtor.debtAmount, index);
    FloorNonnegative(debtor.debtAmount * index, debtor.debtInterest);
    ProductNonnegative(com.closeFactor, FloorDiv(debtor.debtAmount * index, debtor.debtInterest));
  }

  lemma EntryOf(reserves: seq<CompReserve>, ctk: CTokens, com: CometConfigs, e: Entry)
      returns (debts: seq<Debt>, debt: Debt)
    requires Simulate(reserves, ctk, com).Some? && e in Simulate(reserves, ctk, com).value
    ensures DebtsOf(reserves, ctk, com).Some? && multiset(debts) == multiset(DebtsOf(reserves, ctk, com).value)
    ensures debt in debts && e.debtCtoken == debt.addr && PairsOf(reserves, debt, ctk, com).Some?
    ensures e.pairs == Sorted(MoreProfit, PairsOf(reserves, debt, ctk, com).value)
  {
    var kept;
    debts, kept := EntriesAreRanked(reserves, ctk, com);
    var entries := Simulate(reserves, ctk, com).value;
    var k :| 0 <= k < |entries| && entries[k] == e;
    debt := kept[k];
    EntriesAreTheLargeDebts(debts, debts[0], reserves, ctk, com);
  }

  /**
   Every pair of the result belongs to a debt of the account and a collateral it holds, repays at most the close
   factor's share of the accrued debt and seizes at most the collateral. Despite all rounding, what is seized before
   the treasury's part is worth at most the incentive on what is repaid and one unit more, and hardly less; the profit
   is the difference in worth after the treasury's part.
   */
  lemma EveryPairBounded(reserves: seq<CompReserve>, ctk: CTokens, com: CometConfigs, e: Entry, p: LiqPair)
      returns (debt: Debt, debtor: CompReserve, held: CompReserve, amounts: Amounts, worth: int)
    requires SaneMarket(ctk, com) && Simulate(reserves, ctk, com).Some?
    requires e in Simulate(reserves, ctk, com).value && p in e.pairs
    requires forall r :: r in reserves ==> r.debtAmount > 0 ==> r.debtInterest > 0
    ensures debtor in Debtors(reserves) && DebtOfReserve(debt, debtor, ctk, com) && e.debtCtoken == debt.addr
    ensures held in reserves && held.colAmount > 0 && held.addr in ctk && debt.addr in ctk
    ensures PairOf(held, debt, ctk, com) == Some(p) && p.colCtoken == held.addr && p.debtCtoken == debt.addr
    ensures 0 <= p.repayAmount <= debt.maxRepay && 0 <= p.seizeTokens <= held.colAmount
    ensures amounts.numerator == FloorDiv(com.liqIncentive * ctk[debt.addr].price, EXP_SCALE)
    ensures amounts.denominator == FloorDiv(ctk[held.addr].price * ctk[held.addr].exchangeRate, EXP_SCALE)
    ensures com.liqIncentive != 0 && BeforeTreasury(amounts, p, held, debt, com)
    ensures IsProfit(p, ctk[held.addr].exchangeRate, ctk[held.addr].price, ctk[debt.addr].price, worth)
  {
    var debts, pair;
    debts, debt := EntryOf(reserves, ctk, com, e);
    debtor := DebtorOf(reserves, ctk, com, debts, debt);
    DebtorsAreAllBorrowed(reserves, debtor);
    held := HeldOf(reserves, ctk, com, debt, p);
    MaxRepayNonnegative(debt, debtor, ctk, com);
    amounts, pair := PairBounded(held, debt, ctk, com);
    worth := ProfitOf(held, debt, ctk, com, p);
  }

  // ----- When it raises -----

  /** A reserve the market does not know, or a debt whose interest index is zero. */
  ghost predicate Unknown(r: CompReserve, ctk: CTokens) {
    r.addr !in ctk || (r.debtAmount > 0 && r.debtInterest == 0)
  }

  lemma {:induction false} DebtsRaiseIff(reserves: seq<CompReserve>, ctk: CTokens, com: CometConfigs)
    ensures DebtsOf(reserves, ctk, com).None? <==> exists r :: r in reserves && Unknown(r, ctk)
    decreases |reserves|
  {
    if reserves != [] {
      var n := |reserves| - 1;
      assert reserves == reserves[..n] + [reserves[n]];
      DebtsRaiseIff(reserves[..n], ctk, com);
      assert reserves[n] in reserves;
    }
  }

  lemma AmountsExist(col: int, price: int, rate: int, debtPrice: int, incentive: int, maxRepay: int)
    requires col > 0 && FloorDiv(price * rate, EXP_SCALE) > 0
    ensures AmountsOf(col, price, rate, debtPrice, incentive, maxRepay).Some?
  {
  }

  lemma {:induction false} PairsExist(reserves: seq<CompReserve>, debt: Debt, ctk: CTokens, com: CometConfigs)
    requires SaneMarket(ctk, com) && debt.addr in ctk && forall r :: r in reserves ==> r.addr in ctk
    ensures PairsOf(reserves, debt, ctk, com).Some?
    decreases |reserves|
  {
    if reserves != [] {
      var n := |reserves| - 1;
      var r := reserves[n];
      PairsExist(reserves[..n], debt, ctk, com);
      assert r in reserves;
      if r.colAmount > 0 {
        AmountsExist(r.colAmount, ctk[r.addr].price, ctk[r.addr].exchangeRate, ctk[debt.addr].price,
                     com.liqIncentive, debt.maxRepay);
      }
    }
  }

  lemma {:induction false} EntriesExist(debts: seq<Debt>, largest: Debt, reserves: seq<CompReserve>, ctk: CTokens,
                                        com: CometConfigs)
    requires SaneMarket(ctk, com) && forall r :: r in reserves ==> r.addr in ctk
    requires forall d :: d in debts ==> d.addr in ctk
    ensures EntriesOf(debts, largest, reserves, ctk, com).Some?
    decreases |debts|
  {
    if debts != [] {
      var n := |debts| - 1;
      EntriesExist(debts[..n], largest, reserves, ctk, com);
      assert debts[n] in debts;
      PairsExist(reserves, debts[n], ctk, com);
    }
  }

  /** In a sane market the simulation raises if and only if it meets an unknown reserve or a zero interest index. */
  lemma SimulateRaisesIff(reserves: seq<CompReserve>, ctk: CTokens, com: CometConfigs)
    requires SaneMarket(ctk, com)
    ensures Simulate(reserves, ctk, com).None? <==> exists r :: r in reserves && Unknown(r, ctk)
  {
    DebtsRaiseIff(reserves, ctk, com);
    if DebtsOf(reserves, ctk, com).Some? && DebtsOf(reserves, ctk, com).value != [] {
      var debts := Sorted(BiggerDebt, DebtsOf(reserves, ctk, com).value);
      forall d | d in debts ensures d.addr in ctk {
        var debtor := DebtorOf(reserves, ctk, com, debts, d);
      }
      assert |multiset(debts)| == |debts| && |multiset(DebtsOf(reserves, ctk, com).value)| > 0;
      forall r | r in reserves ensures r.addr in ctk {
        assert !Unknown(r, ctk);
      }
      EntriesExist(debts, debts[0], reserves, ctk, com);
    }
  }

  // ----- The loops -----

  method CollectDebts(reserves: seq<CompReserve>, ctk: CTokens, com: CometConfigs) returns (debts: Option<seq<Debt>>)
    ensures debts == DebtsOf(reserves, ctk, com)
  {
    var found: seq<Debt> := [];
    for i := 0 to |reserves|
      invariant DebtsOf(reserves[..i], ctk, com) == Some(found)
      invariant forall n :: 0 <= n < i ==> DebtsOf(reserves[..n], ctk, com).Some?
    {
      assert reserves[..i + 1][..i] == reserves[..i];
      var r := reserves[i];
      if r.addr !in ctk || (r.debtAmount > 0 && r.debtInterest == 0) {
        DebtsFail(reserves, ctk, com, i + 1);
        return None;
      }
      if r.debtAmount > 0 {
        var balance := FloorDiv(r.debtAmount * ctk[r.addr].borrowIndex, r.debtInterest);
        var maxRepay := MulScalarTruncate(com.closeFactor, balance);
        found := found + [Debt(FloorDiv(ctk[r.addr].price * maxRepay, EXP_SCALE), r.addr, maxRepay)];
      }
    }
    assert reserves[..|reserves|] == reserves;
    debts := Some(found);
  }

  /** Once a reserve raises, so does the whole loop. */
  lemma {:induction false} DebtsFail(reserves: seq<CompReserve>, ctk: CTokens, com: CometConfigs, i: nat)
    requires i <= |reserves| && DebtsOf(reserves[..i], ctk, com).None?
    ensures DebtsOf(reserves, ctk, com).None?
    decreases |reserves| - i
  {
    if i < |reserves| {
      assert reserves[..i + 1][..i] == reserves[..i];
      DebtsFail(reserves, ctk, com, i + 1);
    } else {
      assert reserves[..i] == reserves;
    }
  }

  lemma {:induction false} PairsFail(reserves: seq<CompReserve>, debt: Debt, ctk: CTokens, com: CometConfigs, i: nat)
    requires i <= |reserves| && PairsOf(reserves[..i], debt, ctk, com).None?
    ensures PairsOf(reserves, debt, ctk, com).None?
    decreases |reserves| - i
  {
    if i < |reserves| {
      assert reserves[..i + 1][..i] == reserves[..i];
      PairsFail(reserves, debt, ctk, com, i + 1);
    } else {
      assert reserves[..i] == reserves;
    }
  }

  lemma {:induction false} EntriesFail(
      debts: seq<Debt>, largest: Debt, reserves: seq<CompReserve>, ctk: CTokens, com: CometConfigs, i: nat)
    requires i <= |debts| && EntriesOf(debts[..i], largest, reserves, ctk, com).None?
    ensures EntriesOf(debts, largest, reserves, ctk, com).None?
    decreases |debts| - i
  {
    if i < |debts| {
      assert debts[..i + 1][..i] == debts[..i];
      EntriesFail(debts, largest, reserves, ctk, com, i + 1);
    } else {
      assert debts[..i] == debts;
    }
  }

  /** The body of the inner loop. */
  method MakePair(r: CompReserve, debt: Debt, ctk: CTokens, com: CometConfigs) returns (pair: Option<LiqPair>)
    requires r.addr in ctk && debt.addr in ctk
    ensures pair == PairOf(r, debt, ctk, com)
  {
    var price, rate, debtPrice := ctk[r.addr].price, ctk[r.addr].exchangeRate, ctk[debt.addr].price;
    var numerator := FloorDiv(com.liqIncentive * debtPrice, EXP_SCALE);
    var denominator := FloorDiv(price * rate, EXP_SCALE);
    if denominator == 0 {
      return None;
    }
    var ratio := FloorDiv(numerator * EXP_SCALE, denominator);
    var seizeTokens := MulScalarTruncate(ratio, debt.maxRepay);
    var repay := debt.maxRepay;
    if r.colAmount < seizeTokens {
      seizeTokens := r.colAmount;
      if ratio == 0 {
        return None;
      }
      repay := MulScalarTruncateReverse(ratio, seizeTokens);
    }
    if com.liqIncentive == 0 {
      return None;
    }
    seizeTokens := seizeTokens - FloorDiv(seizeTokens * TREASURY_PERCENT, com.liqIncentive);
    var profit := FloorDiv(FloorDiv(seizeTokens * rate, EXP_SCALE) * price - repay * debtPrice, EXP_SCALE);
    pair := Some(LiqPair(profit, r.addr, debt.addr, seizeTokens, repay));
  }

  method CollectPairs(reserves: seq<CompReserve>, debt: Debt, ctk: CTokens,
      com: CometConfigs) returns (pairs: Option<seq<LiqPair>>)
    ensures pairs == PairsOf(reserves, debt, ctk, com)
  {
    var found: seq<LiqPair> := [];
    for i := 0 to |reserves|
      invariant PairsOf(reserves[..i], debt, ctk, com) == Some(found)
    {
      assert reserves[..i + 1][..i] == reserves[..i];
      var r := reserves[i];
      if r.colAmount > 0 {
        if r.addr !in ctk || debt.addr !in ctk {
          PairsFail(reserves, debt, ctk, com, i + 1);
          return None;
        }
        var pair := MakePair(r, debt, ctk, com);
        if pair.None? {
          PairsFail(reserves, debt, ctk, com, i + 1);
          return None;
        }
        found := found + [pair.value];
      }
    }
    assert reserves[..|reserves|] == reserves;
    pairs := Some(found);
  }

  method CollectEntries(debts: seq<Debt>, largest: Debt, reserves: seq<CompReserve>, ctk: CTokens, com: CometConfigs)
      returns (entries: Option<seq<Entry>>)
    ensures entries == EntriesOf(debts, largest, reserves, ctk, com)
  {
    var found: seq<Entry> := [];
    for i := 0 to |debts|
      invariant EntriesOf(debts[..i], largest, reserves, ctk, com) == Some(found)
    {
      assert debts[..i + 1][..i] == debts[..i];
      var debt := debts[i];
      if debt.addr !in ctk {
        EntriesFail(debts, largest, reserves, ctk, com, i + 1);
        return None;
      }
      if debt.normalized * 10 >= largest.normalized * 8 {
        var pairs := CollectPairs(reserves, debt, ctk, com);
        if pairs.None? {
          EntriesFail(debts, largest, reserves, ctk, com, i + 1);
          return None;
        }
        if pairs.value != [] {
          found := found + [Entry(debt.addr, Sorted(MoreProfit, pairs.value))];
        }
      }
    }
    assert debts[..|debts|] == debts;
    entries := Some(found);
  }

  method LiquidationSimulation(reserves: seq<CompReserve>, ctk: CTokens,
      com: CometConfigs) returns (entries: Option<seq<Entry>>)
    ensures entries == Simulate(reserves, ctk, com)
  {
    var debts := CollectDebts(reserves, ctk, com);
    if debts.None? {
      return None;
    }
    if debts.value == [] {
      return Some([]);
    }
    var sorted := Sorted(BiggerDebt, debts.value);
    assert |multiset(sorted)| == |sorted| && |multiset(debts.value)| == |debts.value|;
    entries := CollectEntries(sorted, sorted[0], reserves, ctk, com);
  }
}
