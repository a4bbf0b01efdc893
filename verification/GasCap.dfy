/**
 Fee arithmetic: the cap on what an outbound may spend on gas, the minimum accepted under a
 slippage, and the fixed-rate conversion between PUSH and USDC.
 */
module GasCap {
  import opened Wrappers
  import opened Decimal

  const BPS_DENOMINATOR: int := 10_000
  const DEFAULT_BUFFER_BPS: real := 1000.0
  const BUFFER_BPS_LIMIT: real := 10000.0

  /** Division of bigints, which truncates toward zero. */
  function Div(a: int, b: int): int
    requires b > 0
  {
    if a >= 0 then a / b else 0 - (0 - a) / b
  }

  // ---------------------------------------------------------------- the cap

  datatype Error =
    | NegativeAmount | NegativeFee | NegativeValue | FeeAboveValue | BadBuffer
    | BadSlippage | EmptyAmount | BadAmount

  datatype Quote = Quote(maxPCForGas: int, nativeValueForGas: int, gasLegNativePc: int, protocolFee: int, bufferBps: int)

  function ApplyBufferCeil(amount: int, bps: int): int {
    if amount == 0 then 0
    else Div(amount * (BPS_DENOMINATOR + bps) + BPS_DENOMINATOR - 1, BPS_DENOMINATOR)
  }

  predicate ValidBuffer(bps: Option<real>) {
    bps.Some? ==> bps.value == bps.value.Floor as real && 0.0 <= bps.value <= BUFFER_BPS_LIMIT
  }

  /** The buffer in force; the default when none is given. */
  function BufferBps(bps: Option<real>): int {
    if bps.Some? then bps.value.Floor else DEFAULT_BUFFER_BPS.Floor
  }

  function QuoteMaxPCForGasCap(gasLeg: int, protocolFee: Option<int>, bps: Option<real>): (r: Outcome<Quote, Error>)
    ensures r.Ok? <==>
            && gasLeg >= 0 && (protocolFee.Some? ==> protocolFee.value >= 0)
            && (bps.Some? ==> bps.value == bps.value.Floor as real && 0.0 <= bps.value <= 10000.0)
    ensures r.Ok? ==> r.value.nativeValueForGas - r.value.maxPCForGas == r.value.protocolFee >= 0
  {
    var fee := if protocolFee.Some? then protocolFee.value else 0;
    if gasLeg < 0 then Err(NegativeAmount)
    else if fee < 0 then Err(NegativeFee)
    else if !ValidBuffer(bps) then Err(BadBuffer)
    else
      var cap := ApplyBufferCeil(gasLeg, BufferBps(bps));
      Ok(Quote(cap, fee + cap, gasLeg, fee, BufferBps(bps)))
  }

  function QuoteFromNativeValue(nativeValue: int, protocolFee: int, bps: Option<real>): (r: Outcome<Quote, Error>)
    ensures r.Ok? <==>
            && 0 <= protocolFee <= nativeValue
            && (bps.Some? ==> bps.value == bps.value.Floor as real && 0.0 <= bps.value <= 10000.0)
  {
    if nativeValue < 0 then Err(NegativeValue)
    else if protocolFee < 0 then Err(NegativeFee)
    else if nativeValue < protocolFee then Err(FeeAboveValue)
    else QuoteMaxPCForGasCap(nativeValue - protocolFee, Some(protocolFee), bps)
  }

  /** The cap is the least integer that covers the amount and its buffer. */
  lemma CapIsLeast(amount: nat, bps: nat, x: int)
    ensures x >= ApplyBufferCeil(amount, bps) <==> 10000 * x >= amount * (10000 + bps)
  {
    if amount == 0 {
      assert amount * (10000 + bps) == 0;
    } else {
      CeilIsLeast(amount * (10000 + bps), x);
      assert amount * (10000 + bps) >= 0;
    }
  }

  lemma CeilIsLeast(n: nat, x: int)
    ensures x >= (n + 10000 - 1) / 10000 <==> 10000 * x >= n
  {
  }

  /** A larger amount or a larger buffer never lowers the cap. */
  lemma CapIsMonotone(a: nat, b: nat, bps: nat, bps': nat)
    requires a <= b && bps <= bps'
    ensures ApplyBufferCeil(a, bps) <= ApplyBufferCeil(b, bps')
  {
    var y := ApplyBufferCeil(b, bps');
    CapIsLeast(b, bps', y);
    Products(a, b, bps, bps');
    CapIsLeast(a, bps, y);
  }

  lemma Products(a: nat, b: nat, bps: nat, bps': nat)
    requires a <= b && bps <= bps'
    ensures a * (10000 + bps) <= b * (10000 + bps')
  {
    Grow(a, b, 10000 + bps);
    Grow(10000 + bps, 10000 + bps', b);
  }

  lemma Grow(x: nat, y: nat, k: nat)
    requires x <= y
    ensures x * k <= y * k
  {
    assert y * k == x * k + (y - x) * k;
  }

  /** With a buffer in the accepted range the cap lies between the amount and twice the amount. */
  lemma CapIsBetween(amount: nat, bps: nat)
    requires bps <= 10000
    ensures amount <= ApplyBufferCeil(amount, bps) <= 2 * amount
  {
    CapIsMonotone(amount, amount, 0, bps);
    CapIsMonotone(amount, amount, bps, 10000);
    CapIsLeast(amount, 0, amount - 1);
    CapIsLeast(amount, 10000, 2 * amount);
  }

  /** The cap adds nothing exactly when there is nothing to buffer. */
  lemma CapIsExactIff(amount: nat, bps: nat)
    ensures ApplyBufferCeil(amount, bps) == amount <==> amount == 0 || bps == 0
  {
    CapIsLeast(amount, bps, amount);
    CapIsLeast(amount, bps, amount - 1);
    assert amount * (10000 + bps) == 10000 * amount + amount * bps;
    if amount > 0 && bps > 0 {
      Grow(1, amount, bps);
    }
  }

  // ---------------------------------------------------------------- several legs

  function Sum(legs: seq<nat>): nat {
    if legs == [] then 0 else Sum(legs[..|legs| - 1]) + legs[|legs| - 1]
  }

  function SumOfCaps(legs: seq<nat>, bps: nat): int {
    if legs == [] then 0 else SumOfCaps(legs[..|legs| - 1], bps) + ApplyBufferCeil(legs[|legs| - 1], bps)
  }

  /** Capping two amounts apart costs at most one unit more than capping them together. */
  lemma TwoLegs(a: nat, b: nat, bps: nat)
    ensures ApplyBufferCeil(a + b, bps) <= ApplyBufferCeil(a, bps) + ApplyBufferCeil(b, bps)
                                        <= ApplyBufferCeil(a + b, bps) + 1
  {
    var x, y, z := ApplyBufferCeil(a, bps), ApplyBufferCeil(b, bps), ApplyBufferCeil(a + b, bps);
    Distribute(a, b, 10000 + bps);
    CapIsLeast(a, bps, x);
    CapIsLeast(b, bps, y);
    CapIsLeast(a, bps, x - 1);
    CapIsLeast(b, bps, y - 1);
    CapIsLeast(a + b, bps, x + y);
    CapIsLeast(a + b, bps, x + y - 2);
  }

  /** Over `n` legs, rounding up leg by leg costs less than one unit for each leg after the first. */
  lemma {:induction false} LegByLeg(legs: seq<nat>, bps: nat)
    requires legs != []
    ensures ApplyBufferCeil(Sum(legs), bps) <= SumOfCaps(legs, bps) <= ApplyBufferCeil(Sum(legs), bps) + |legs| - 1
  {
    var front, last := legs[..|legs| - 1], legs[|legs| - 1];
    if front == [] {
      assert Sum(front) == 0 && SumOfCaps(front, bps) == 0;
      assert Sum(legs) == last && SumOfCaps(legs, bps) == ApplyBufferCeil(last, bps);
    } else {
      LegByLeg(front, bps);
      TwoLegs(Sum(front), last, bps);
    }
  }

  /** A cap exceeds the buffered amount by less than one unit. */
  lemma CapIsClose(amount: nat, bps: nat)
    ensures 0 <= 10000 * ApplyBufferCeil(amount, bps) - amount * (10000 + bps) <= 9999
  {
    var x := ApplyBufferCeil(amount, bps);
    CapIsLeast(amount, bps, x);
    CapIsLeast(amount, bps, x - 1);
  }

  lemma {:induction false} SumIsClose(legs: seq<nat>, bps: nat)
    ensures 10000 * SumOfCaps(legs, bps) - Sum(legs) * (10000 + bps) <= 9999 * |legs|
  {
    if legs != [] {
      var front, last := legs[..|legs| - 1], legs[|legs| - 1];
      SumIsClose(front, bps);
      CapIsClose(last, bps);
      Distribute(Sum(front), last, 10000 + bps);
    }
  }

  lemma Distribute(a: nat, b: nat, m: nat)
    ensures (a + b) * m == a * m + b * m
  {
  }

  function Ones(n: nat): (legs: seq<nat>)
    ensures |legs| == n
  {
    if n == 0 then [] else Ones(n - 1) + [1]
  }

  lemma {:induction false} OnesSum(n: nat)
    ensures Sum(Ones(n)) == n && SumOfCaps(Ones(n), 1) == 2 * n
  {
    if n > 0 {
      OnesSum(n - 1);
      assert Ones(n)[..n - 1] == Ones(n - 1);
      assert ApplyBufferCeil(1, 1) == 2;
    }
  }

  /** The bound of `n - 1` units is reached exactly for up to 10000 legs; beyond, it is never reached. */
  lemma LegByLegIsTightIff(n: nat)
    requires n > 0
    ensures (exists legs: seq<nat>, bps: nat :: |legs| == n && bps <= 10000 && Apart(legs, bps) == n - 1) <==> n <= 10000
  {
    if n <= 10000 {
      OnesSum(n);
      CapIsLeast(n, 1, n);
      CapIsLeast(n, 1, n + 1);
      assert Apart(Ones(n), 1) == n - 1;
    } else {
      forall legs: seq<nat>, bps: nat | |legs| == n && bps <= 10000 ensures Apart(legs, bps) != n - 1 {
        SumIsClose(legs, bps);
        CapIsClose(Sum(legs), bps);
      }
    }
  }

  /** What capping leg by leg costs more. */
  function Apart(legs: seq<nat>, bps: nat): int {
    SumOfCaps(legs, bps) - ApplyBufferCeil(Sum(legs), bps)
  }

  // ---------------------------------------------------------------- quotes

  /**
   Quoting from a planned native value never asks for less, or for more than the gas leg again;
   it asks for that value itself exactly when the buffer or the gas leg is zero.
   */
  lemma QuoteCoversNativeValue(nativeValue: int, fee: int, bps: Option<real>)
    requires QuoteFromNativeValue(nativeValue, fee, bps).Ok?
    ensures
      var q := QuoteFromNativeValue(nativeValue, fee, bps).value;
      && nativeValue <= q.nativeValueForGas <= nativeValue + (nativeValue - fee)
      && (q.nativeValueForGas == nativeValue <==> nativeValue == fee || q.bufferBps == 0)
      && q.gasLegNativePc == nativeValue - fee
  {
    assert 0 <= BufferBps(bps) <= 10000 by {
      if bps.Some? {
        assert bps.value.Floor as real == bps.value;
      }
    }
    CapIsBetween(nativeValue - fee, BufferBps(bps));
    CapIsExactIff(nativeValue - fee, BufferBps(bps));
  }

  /** Without a buffer the quote is that of ten percent, and without a fee that of a zero fee. */
  lemma Defaults(gasLeg: int, fee: Option<int>, bps: Option<real>)
    ensures QuoteMaxPCForGasCap(gasLeg, fee, None) == QuoteMaxPCForGasCap(gasLeg, fee, Some(1000.0))
    ensures QuoteMaxPCForGasCap(gasLeg, None, bps) == QuoteMaxPCForGasCap(gasLeg, Some(0), bps)
    ensures QuoteMaxPCForGasCap(gasLeg, fee, bps).Ok? && bps.Some? ==>
              QuoteMaxPCForGasCap(gasLeg, fee, bps).value.bufferBps as real == bps.value
  {
    assert (1000.0).Floor as real == 1000.0;
  }

  /** What a quote promises the contract it is for: the cap covers the gas leg and its buffer, and no less would. */
  lemma QuoteIsLeast(gasLeg: int, fee: Option<int>, bps: Option<real>, x: int)
    requires QuoteMaxPCForGasCap(gasLeg, fee, bps).Ok?
    ensures
      var q := QuoteMaxPCForGasCap(gasLeg, fee, bps).value;
      && q.gasLegNativePc == gasLeg && (fee.Some? ==> q.protocolFee == fee.value)
      && (x >= q.maxPCForGas <==> 10000 * x >= gasLeg * (10000 + q.bufferBps))
      && (x >= q.nativeValueForGas <==> 10000 * (x - q.protocolFee) >= gasLeg * (10000 + q.bufferBps))
  {
    var q := QuoteMaxPCForGasCap(gasLeg, fee, bps).value;
    assert q.bufferBps >= 0 by {
      if bps.Some? {
        assert bps.value.Floor as real == bps.value;
      }
    }
    CapIsLeast(gasLeg, q.bufferBps, x);
    CapIsLeast(gasLeg, q.bufferBps, x - q.protocolFee);
  }

  /** Quoting again from what a quote asks for, with no buffer, asks for the same and keeps the cap. */
  lemma RequoteIsStable(gasLeg: int, fee: Option<int>, bps: Option<real>)
    requires QuoteMaxPCForGasCap(gasLeg, fee, bps).Ok?
    ensures
      var q := QuoteMaxPCForGasCap(gasLeg, fee, bps).value;
      var again := QuoteFromNativeValue(q.nativeValueForGas, q.protocolFee, Some(0.0));
      again.Ok? && again.value.maxPCForGas == q.maxPCForGas && again.value.nativeValueForGas == q.nativeValueForGas
  {
    var q := QuoteMaxPCForGasCap(gasLeg, fee, bps).value;
    assert 0 <= BufferBps(bps) <= 10000 by {
      if bps.Some? {
        assert bps.value.Floor as real == bps.value;
      }
    }
    CapIsBetween(gasLeg, BufferBps(bps));
    CapIsExactIff(q.maxPCForGas, 0);
    assert ValidBuffer(Some(0.0)) && BufferBps(Some(0.0)) == 0;
  }

  // ---------------------------------------------------------------- slippage

  /** What a slippage leaves of an amount, rounded toward zero. */
  function MinAmount(amount: int, bps: nat): int {
    Div(amount * (10000 - bps), 10000)
  }

  /** The amount comes and goes as a string; `bigIntOf` is the language's own reading of it. */
  function SlippageToMinAmount(bigIntOf: string -> Option<int>, amount: string, bps: real): (r: Outcome<string, Error>)
    ensures r.Ok? <==>
            bps == bps.Floor as real && 0.0 <= bps <= 10000.0 && Trim(amount) != "" && bigIntOf(amount).Some?
  {
    if bps != bps.Floor as real || bps < 0.0 || bps > 10000.0 then Err(BadSlippage)
    else if Trim(amount) == "" then Err(EmptyAmount)
    else if bigIntOf(amount).None? then Err(BadAmount)
    else Ok(SignedToString(MinAmount(bigIntOf(amount).value, bps.Floor)))
  }

  /**
   The minimum is the integer nearest to what the slippage leaves on the side of zero: the
   greatest below it for an amount that is not negative, the least above it for one that is.
   It never exceeds the amount in size.
   */
  lemma SlippageIsNearest(amount: int, bps: nat, y: int)
    requires bps <= 10000
    ensures amount >= 0 ==> 0 <= MinAmount(amount, bps) <= amount
    ensures amount >= 0 ==> (y <= MinAmount(amount, bps) <==> 10000 * y <= amount * (10000 - bps))
    ensures amount <= 0 ==> amount <= MinAmount(amount, bps) <= 0
    ensures amount <= 0 ==> (y >= MinAmount(amount, bps) <==> 10000 * y >= amount * (10000 - bps))
  {
    var kept := 10000 - bps;
    if amount >= 0 {
      Part(amount, kept);
      FloorIsGreatest(amount * kept, y);
    } else {
      Part(0 - amount, kept);
      Negate(amount, kept);
      FloorIsGreatest((0 - amount) * kept, 0 - y);
    }
  }

  /** A part of an amount, in ten thousandths, rounded down. */
  lemma Part(size: nat, kept: nat)
    requires kept <= 10000
    ensures 0 <= size * kept / 10000 <= size
  {
    Grow(kept, 10000, size);
  }

  lemma Negate(amount: int, kept: int)
    ensures (0 - amount) * kept == 0 - amount * kept
  {
  }

  /** The string that comes back reads as that minimum. */
  lemma SlippageReadsBack(bigIntOf: string -> Option<int>, amount: string, bps: real)
    requires SlippageToMinAmount(bigIntOf, amount, bps).Ok?
    ensures BigIntOf(SlippageToMinAmount(bigIntOf, amount, bps).value) ==
            Some(MinAmount(bigIntOf(amount).value, bps.Floor))
  {
    SignedReadsBack(MinAmount(bigIntOf(amount).value, bps.Floor));
  }

  lemma FloorIsGreatest(n: nat, y: int)
    ensures y <= n / 10000 <==> 10000 * y <= n
  {
  }

  // ---------------------------------------------------------------- PUSH and USDC

  const NUMERATOR: int := 10_000_000
  const DENOMINATOR: int := 1_000_000_000_000_000_000
  /** What one unit of USDC is worth in units of PUSH. */
  const UNIT: int := 100_000_000_000

  function PushToUSDC(amount: int): int {
    Div(amount * NUMERATOR, DENOMINATOR)
  }

  function UsdcToPush(amount: int): int {
    Div(amount * DENOMINATOR, NUMERATOR)
  }

  /** Every amount of USDC survives the trip to PUSH and back, negative amounts included. */
  lemma UsdcRoundTrip(b: int)
    ensures PushToUSDC(UsdcToPush(b)) == b
  {
    ExactUsdc(b);
  }

  /** An amount of PUSH loses, toward zero, what is below one unit of USDC; nothing exactly when it is a multiple. */
  lemma PushRoundTrip(a: int)
    ensures
      var back := UsdcToPush(PushToUSDC(a));
      && (a >= 0 ==> a - UNIT < back <= a)
      && (a <= 0 ==> a <= back < a + UNIT)
      && (back == a <==> a % UNIT == 0)
  {
    ExactUsdc(PushToUSDC(a));
  }

  lemma ExactUsdc(b: int)
    ensures UsdcToPush(b) == b * UNIT
  {
  }

  /** The two conversions are adjoint: an amount of PUSH buys `b` units exactly when it is worth that much. */
  lemma Worth(a: nat, b: int)
    ensures b <= PushToUSDC(a) <==> UsdcToPush(b) <= a
  {
    ExactUsdc(b);
  }

  /** The fixed rate: one PUSH, of 18 decimals, is a tenth of a USDC, of 8 decimals. */
  lemma OnePush(n: int)
    ensures PushToUSDC(n * 1_000_000_000_000_000_000) == n * 10_000_000
    ensures UsdcToPush(n * 10_000_000) == n * 1_000_000_000_000_000_000
  {
  }
}
