/** Rounding-exact constant-product swaps: one swap, sequences of swaps, and the search for an exact quote. */
module ConstantProduct {
  import opened Outcomes
  import opened Division

  const FEE_DENOMINATOR: int := 10_000

  datatype SwapFailure =
    | NotPositive | FeeOutOfRange | NoNetInput | NoOutput | NotOperational | NoExactQuote | QuoteDiverged | TooManySwaps
    | BadDecimals

  datatype Reserves = Reserves(reserve0: int, reserve1: int) {
    function In(zeroForOne: bool): int {
      if zeroForOne then reserve0 else reserve1
    }

    function Product(): int {
      reserve0 * reserve1
    }

    predicate Positive() {
      0 < reserve0 && 0 < reserve1
    }
  }

  datatype SwapResult = SwapResult(reserves: Reserves, amountOut: int)

  /** Integer division as the source's big integers do it: towards zero. */
  function TruncDiv(n: int, d: int): int
    requires d > 0
  {
    if 0 <= n then n / d else -((-n) / d)
  }

  function NetInput(amountIn: int, feeBps: int): int {
    TruncDiv(amountIn * (FEE_DENOMINATOR - feeBps), FEE_DENOMINATOR)
  }

  /** The modelled quote of the live runners. */
  function ModeledAmountOut(amountIn: int, reserveIn: int, reserveOut: int, feeBps: int): Result<int, SwapFailure>
    requires 0 <= reserveIn && 0 <= reserveOut
  {
    var net := NetInput(amountIn, feeBps);
    if net <= 0 then Err(NoNetInput)
    else
      var retained := CeilDiv(reserveIn * reserveOut, reserveIn + net);
      Ok(if reserveOut <= retained then 0 else reserveOut - retained)
  }

  function ModeledProtocolFee(amountIn: int, feeBps: int): int {
    TruncDiv(amountIn - NetInput(amountIn, feeBps), 6)
  }

  function ModeledPostSwapReserves(amountIn: int, reserveIn: int, reserveOut: int, feeBps: int)
    : Result<(int, int), SwapFailure>
    requires 0 <= reserveIn && 0 <= reserveOut
  {
    var protocolFee := ModeledProtocolFee(amountIn, feeBps);
    var amountOut :- ModeledAmountOut(amountIn, reserveIn, reserveOut, feeBps);
    :- Need(!(amountOut <= 0 || protocolFee <= 0 || reserveOut <= amountOut), NotOperational);
    Ok((reserveIn + amountIn - protocolFee, reserveOut - amountOut))
  }

  function SwapExactInput(reserves: Reserves, amountIn: int, feeBps: int, zeroForOne: bool)
    : Result<SwapResult, SwapFailure> {
    var net := NetInput(amountIn, feeBps);
    :- Need(0 < reserves.reserve0 && 0 < reserves.reserve1 && 0 < amountIn, NotPositive);
    :- Need(0 <= feeBps < FEE_DENOMINATOR, FeeOutOfRange);
    :- Need(0 < net, NoNetInput);
    var nextIn := reserves.In(zeroForOne) + net;
    var reserveOut := reserves.In(!zeroForOne);
    var retained := (reserves.In(zeroForOne) * reserveOut + nextIn - 1) / nextIn;
    :- Need(0 < reserveOut - retained, NoOutput);
    Ok(SwapResult(if zeroForOne then Reserves(nextIn, retained) else Reserves(retained, nextIn), reserveOut - retained))
  }

  // ---- Quotients ----

  /** Keeping the rounded-up share of the product gives out the rounded-down share of the reserve. */
  lemma CeilComplement(reserveIn: int, reserveOut: int, net: int)
    requires 0 <= reserveIn && 0 <= reserveOut && 0 < net
    ensures reserveOut - CeilDiv(reserveIn * reserveOut, reserveIn + net) == reserveOut * net / (reserveIn + net)
    ensures 0 <= reserveOut * net / (reserveIn + net) <= reserveOut
  {
    var d := reserveIn + net;
    assert reserveIn * reserveOut == reserveOut * d - reserveOut * net;
    CeilOfRest(reserveOut, reserveOut * net, d);
    hide CeilDiv;
    ShareWithin(reserveOut, net, d);
  }

  /** A share of at most the whole is at most the whole. */
  lemma ShareWithin(reserve: int, net: int, d: int)
    requires 0 <= reserve && 0 <= net <= d && 0 < d
    ensures 0 <= reserve * net / d <= reserve
  {
    MulMono(0, reserve, net);
    MulMono(net, d, reserve);
    DivAtLeast(reserve * net, d, 0);
    DivAtLeast(reserve * net, d, reserve + 1);
    Distribute(reserve, 1, d);
  }

  // ---- The fee ----

  /** `net` is the input less a fee of `feeBps` ten-thousandths, rounded down. */
  predicate IsNet(amountIn: int, feeBps: int, net: int) {
    net * 10000 <= amountIn * (10000 - feeBps) < (net + 1) * 10000
  }

  /** The net input is that floor wherever it is positive or nothing is negative, and never positive elsewhere. */
  lemma NetIsFloor(amountIn: int, feeBps: int, net: int)
    requires IsNet(amountIn, feeBps, net)
    ensures 0 < net || 0 < NetInput(amountIn, feeBps) ==> NetInput(amountIn, feeBps) == net
    ensures 0 <= amountIn && 0 <= feeBps <= 10000 ==> NetInput(amountIn, feeBps) == net
  {
    var kept := amountIn * (10000 - feeBps);
    if 0 <= kept {
      DivUnique(kept, 10000, net, kept - net * 10000);
    }
    if 0 <= amountIn && 0 <= feeBps <= 10000 {
      MulMono(0, amountIn, 10000 - feeBps);
    }
  }

  /** So a quote is the floor of the exact constant-product output of what the fee leaves of the input. */
  lemma QuoteIsFloor(amountIn: int, reserveIn: int, reserveOut: int, feeBps: int, net: int)
    requires 0 <= reserveIn && 0 <= reserveOut && IsNet(amountIn, feeBps, net)
    ensures ModeledAmountOut(amountIn, reserveIn, reserveOut, feeBps)
         == if net <= 0 then Err(NoNetInput) else Ok(reserveOut * net / (reserveIn + net))
  {
    hide NetInput, ModeledAmountOut;
    NetIsFloor(amountIn, feeBps, net);
    QuoteOverNet(amountIn, reserveIn, reserveOut, feeBps);
  }

  /** The modelled quote over its own net input. */
  lemma QuoteOverNet(amountIn: int, reserveIn: int, reserveOut: int, feeBps: int)
    requires 0 <= reserveIn && 0 <= reserveOut
    ensures var net := NetInput(amountIn, feeBps);
      ModeledAmountOut(amountIn, reserveIn, reserveOut, feeBps)
        == if net <= 0 then Err(NoNetInput) else Ok(reserveOut * net / (reserveIn + net))
  {
    var net := NetInput(amountIn, feeBps);
    if 0 < net {
      CeilComplement(reserveIn, reserveOut, net);
    }
  }

  /** One more unit of output reserve raises the quote by at most one, and never lowers it. */
  lemma QuoteStep(reserveIn: int, reserveOut: int, net: int)
    requires 0 <= reserveIn && 0 < net
    ensures var d := reserveIn + net;
      reserveOut * net / d <= (reserveOut + 1) * net / d <= reserveOut * net / d + 1
  {
    var d := reserveIn + net;
    Distribute(reserveOut, 1, net);
    DivMono(reserveOut * net, (reserveOut + 1) * net, d);
    DivMono((reserveOut + 1) * net, reserveOut * net + 1 * d, d);
    DivShift(reserveOut * net, d, 1);
  }

  lemma QuoteMono(a: int, b: int, reserveIn: int, net: int)
    requires 0 <= reserveIn && 0 < net && a <= b
    ensures a * net / (reserveIn + net) <= b * net / (reserveIn + net)
  {
    MulMono(a, b, net);
    DivMono(a * net, b * net, reserveIn + net);
  }

  /** The least reserve that quotes at least `target`, described without the search. */
  ghost predicate LeastReserveFor(target: int, reserveIn: int, net: int, reserveOut: int)
    requires 0 <= reserveIn && 0 < net
  {
    && 1 <= reserveOut && reserveOut * net / (reserveIn + net) == target
    && forall r :: 1 <= r < reserveOut ==> r * net / (reserveIn + net) < target
  }

  lemma LargeReserveSuffices(target: int, reserveIn: int, net: int, reserveOut: int)
    requires 0 <= reserveIn && 0 < net && 1 <= reserveOut && target * (reserveIn + net) <= reserveOut
    ensures target <= reserveOut * net / (reserveIn + net)
  {
    MulMono(1, net, reserveOut);
    DivAtLeast(reserveOut * net, reserveIn + net, target);
  }

  /**
   * Doubling and bisection always end, and end on the least reserve whose quote is exactly the target. The only
   * targets without one are negative, or zero against an empty input reserve.
   */
  method ReserveOutForExactQuote(target: int, amountIn: int, reserveIn: int, feeBps: int, initialUpperBound: int)
    returns (r: Result<int, SwapFailure>)
    requires 0 <= reserveIn
    ensures var net := amountIn * (10000 - feeBps) / 10000;
      if net <= 0 then r == Err(NoNetInput)
      else if 1 <= target || (target == 0 && 1 <= reserveIn) then
        r.Ok? && LeastReserveFor(target, reserveIn, net, r.value)
      else r == Err(NoExactQuote)
  {
    var lower := 1;
    var upper := if 1 < initialUpperBound then initialUpperBound else 2;
    ghost var net := NetInput(amountIn, feeBps);
    Euclid(amountIn * (10000 - feeBps), 10000);
    NetIsFloor(amountIn, feeBps, amountIn * (10000 - feeBps) / 10000);
    QuoteOverNet(amountIn, reserveIn, upper, feeBps);
    var quote := ModeledAmountOut(amountIn, reserveIn, upper, feeBps);
    if quote.Err? {
      return quote;
    }
    while quote.value < target
      invariant 2 <= upper && 0 < net && quote == Ok(upper * net / (reserveIn + net))
      decreases target * (reserveIn + net) - upper
    {
      if target * (reserveIn + net) <= upper {
        LargeReserveSuffices(target, reserveIn, net, upper);
      }
      upper := upper * 2;
      QuoteOverNet(amountIn, reserveIn, upper, feeBps);
      quote := ModeledAmountOut(amountIn, reserveIn, upper, feeBps);
    }
    while lower < upper
      invariant 1 <= lower <= upper && target <= upper * net / (reserveIn + net)
      invariant forall k :: 1 <= k < lower ==> k * net / (reserveIn + net) < target
    {
      var midpoint := (lower + upper) / 2;
      QuoteOverNet(amountIn, reserveIn, midpoint, feeBps);
      quote := ModeledAmountOut(amountIn, reserveIn, midpoint, feeBps);
      if quote.value < target {
        forall k | 1 <= k <= midpoint
          ensures k * net / (reserveIn + net) < target
        {
          QuoteMono(k, midpoint, reserveIn, net);
        }
        lower := midpoint + 1;
      } else {
        upper := midpoint;
      }
    }
    QuoteOverNet(amountIn, reserveIn, lower, feeBps);
    quote := ModeledAmountOut(amountIn, reserveIn, lower, feeBps);
    QuoteStep(reserveIn, lower - 1, net);
    SmallestQuotes(reserveIn, net);
    if quote.value != target {
      return Err(NoExactQuote);
    }
    return Ok(lower);
  }

  lemma SmallestQuotes(reserveIn: int, net: int)
    requires 0 <= reserveIn && 0 < net
    ensures 0 * net / (reserveIn + net) == 0
    ensures 1 * net / (reserveIn + net) == if reserveIn == 0 then 1 else 0
  {
    DivUnique(0, reserveIn + net, 0, 0);
    if reserveIn == 0 {
      DivUnique(net, net, 1, 0);
    } else {
      DivUnique(net, reserveIn + net, 0, net);
    }
  }

  // ---- Sequences of swaps ----

  datatype Trade = Trade(amountIn: int, feeBps: int, zeroForOne: bool)

  /** A swap that fails leaves the reserves alone and pays nothing. */
  function Apply(reserves: Reserves, trade: Trade): SwapResult {
    match SwapExactInput(reserves, trade.amountIn, trade.feeBps, trade.zeroForOne)
    case Ok(result) => result
    case Err(_) => SwapResult(reserves, 0)
  }

  function ApplyAll(reserves: Reserves, trades: seq<Trade>): Reserves
    decreases |trades|
  {
    if trades == [] then reserves else ApplyAll(Apply(reserves, trades[0]).reserves, trades[1..])
  }

  lemma SwapNumbers(x: int, y: int, net: int)
    requires 0 < x && 0 < y && 0 < net
    ensures var kept := (x * y + (x + net) - 1) / (x + net);
      && kept == CeilDiv(x * y, x + net) && 1 <= kept
      && x * y <= kept * (x + net) < x * y + x + net
      && y - kept == y * net / (x + net)
  {
    hide CeilDiv;
    var kept := CeilDiv(x * y, x + net);
    CeilComplement(x, y, net);
    MulMono(1, x, y);
    CeilForm(x * y, x + net);
    CeilBounds(x * y, x + net);
    CeilIsLeast(x * y, x + net, 0);
    Distribute(kept, -1, x + net);
  }

  /**
   * Everything a successful swap guarantees, over what the fee leaves of the input and without divisions but for the
   * exact output; and exactly when a swap succeeds.
   */
  lemma SwapIsTight(reserves: Reserves, trade: Trade, net: int)
    requires IsNet(trade.amountIn, trade.feeBps, net)
    ensures var r := SwapExactInput(reserves, trade.amountIn, trade.feeBps, trade.zeroForOne);
      var (x, y) := (reserves.In(trade.zeroForOne), reserves.In(!trade.zeroForOne));
      r.Ok? <==> reserves.Positive() && 0 < trade.amountIn && 0 <= trade.feeBps < 10000 && 0 < net < x + net <= y * net
    ensures var r := SwapExactInput(reserves, trade.amountIn, trade.feeBps, trade.zeroForOne);
      r.Ok? ==>
        var next := r.value;
        var (x, y) := (reserves.In(trade.zeroForOne), reserves.In(!trade.zeroForOne));
        && net <= trade.amountIn && next.amountOut == y * net / (x + net) && 0 < next.amountOut < y
        && next.reserves.In(trade.zeroForOne) == x + net && next.reserves.In(!trade.zeroForOne) == y - next.amountOut
        && x * y <= (x + net) * (y - next.amountOut) < x * y + x + net
  {
    var r := SwapExactInput(reserves, trade.amountIn, trade.feeBps, trade.zeroForOne);
    var (x, y) := (reserves.In(trade.zeroForOne), reserves.In(!trade.zeroForOne));
    NetIsFloor(trade.amountIn, trade.feeBps, net);
    if r.Ok? {
      SwapOverNet(reserves, trade);
      DivAtLeast(y * net, x + net, 1);
    } else if reserves.Positive() && 0 < net {
      hide NetInput;
      SwapNumbers(x, y, net);
      DivAtLeast(y * net, x + net, 1);
    }
  }

  /** The same over its own net input. */
  lemma SwapOverNet(reserves: Reserves, trade: Trade)
    requires SwapExactInput(reserves, trade.amountIn, trade.feeBps, trade.zeroForOne).Ok?
    ensures var net := NetInput(trade.amountIn, trade.feeBps);
      var next := Apply(reserves, trade);
      var (x, y) := (reserves.In(trade.zeroForOne), reserves.In(!trade.zeroForOne));
      && reserves.Positive() && 1 <= net <= trade.amountIn
      && next.reserves.In(trade.zeroForOne) == x + net
      && next.reserves.In(!trade.zeroForOne) == y - next.amountOut
      && next.reserves.Positive() && 0 < next.amountOut < y
      && x * y <= (x + net) * (y - next.amountOut) < x * y + x + net
      && reserves.Product() == x * y && next.reserves.Product() == (x + net) * (y - next.amountOut)
      && next.amountOut == y * net / (x + net)
  {
    hide NetInput, SwapExactInput, Apply;
    SwapShape(reserves, trade);
    NetWithinAmount(trade.amountIn, trade.feeBps);
    SwapNumbers(reserves.In(trade.zeroForOne), reserves.In(!trade.zeroForOne), NetInput(trade.amountIn, trade.feeBps));
  }

  lemma SwapShape(reserves: Reserves, trade: Trade)
    requires SwapExactInput(reserves, trade.amountIn, trade.feeBps, trade.zeroForOne).Ok?
    ensures var net := NetInput(trade.amountIn, trade.feeBps);
      var (x, y) := (reserves.In(trade.zeroForOne), reserves.In(!trade.zeroForOne));
      var kept := (x * y + (x + net) - 1) / (x + net);
      && reserves.Positive() && 0 < trade.amountIn && 0 <= trade.feeBps < FEE_DENOMINATOR && 0 < net && kept < y
      && Apply(reserves, trade)
         == SwapResult(if trade.zeroForOne then Reserves(x + net, kept) else Reserves(kept, x + net), y - kept)
  {
    hide NetInput;
  }

  lemma NetWithinAmount(amountIn: int, feeBps: int)
    requires 0 < amountIn && 0 <= feeBps < FEE_DENOMINATOR
    ensures 0 <= NetInput(amountIn, feeBps) <= amountIn
  {
    MulMono(FEE_DENOMINATOR - feeBps, FEE_DENOMINATOR, amountIn);
    MulMono(0, FEE_DENOMINATOR - feeBps, amountIn);
    DivMono(amountIn * (FEE_DENOMINATOR - feeBps), amountIn * FEE_DENOMINATOR, FEE_DENOMINATOR);
    DivUnique(amountIn * FEE_DENOMINATOR, FEE_DENOMINATOR, amountIn, 0);
  }

  /** Over any sequence of swaps, both ways and at any fees, the product never falls and reserves stay positive. */
  lemma {:induction false} ProductNeverDecreases(reserves: Reserves, trades: seq<Trade>)
    requires reserves.Positive()
    ensures ApplyAll(reserves, trades).Positive()
    ensures reserves.Product() <= ApplyAll(reserves, trades).Product()
    decreases |trades|
  {
    hide SwapExactInput, NetInput;
    if trades != [] {
      if SwapExactInput(reserves, trades[0].amountIn, trades[0].feeBps, trades[0].zeroForOne).Ok? {
        SwapOverNet(reserves, trades[0]);
      }
      ProductNeverDecreases(Apply(reserves, trades[0]).reserves, trades[1..]);
    }
  }

  /** No sequence of swaps takes out of one reserve without leaving something in the other. */
  lemma NoFreeLunch(reserves: Reserves, trades: seq<Trade>)
    requires reserves.Positive()
    ensures var next := ApplyAll(reserves, trades);
      && (next.reserve0 <= reserves.reserve0 ==> reserves.reserve1 <= next.reserve1)
      && (next.reserve1 <= reserves.reserve1 ==> reserves.reserve0 <= next.reserve0)
  {
    hide ApplyAll;
    ProductNeverDecreases(reserves, trades);
    var next := ApplyAll(reserves, trades);
    if next.reserve0 <= reserves.reserve0 {
      SmallerFactor(reserves.reserve0, reserves.reserve1, next.reserve0, next.reserve1);
    }
    if next.reserve1 <= reserves.reserve1 {
      SmallerFactor(reserves.reserve1, reserves.reserve0, next.reserve1, next.reserve0);
    }
  }

  lemma SmallerFactor(x: int, y: int, u: int, v: int)
    requires 0 < x && 0 < v && x * y <= u * v && u <= x
    ensures y <= v
  {
    MulMono(u, x, v);
    if v < y {
      MulMono(v + 1, y, x);
    }
  }

  /** Swapping an output straight back returns at most what the fee left of the first input. */
  lemma RoundTripNeverGains(reserves: Reserves, there: Trade, feeBack: int, net: int)
    requires SwapExactInput(reserves, there.amountIn, there.feeBps, there.zeroForOne).Ok?
    requires IsNet(there.amountIn, there.feeBps, net)
    ensures var first := Apply(reserves, there);
      var back := Apply(first.reserves, Trade(first.amountOut, feeBack, !there.zeroForOne));
      back.amountOut <= net <= there.amountIn
  {
    SwapOverNet(reserves, there);
    NetIsFloor(there.amountIn, there.feeBps, net);
    var first := Apply(reserves, there);
    var back := Trade(first.amountOut, feeBack, !there.zeroForOne);
    if SwapExactInput(first.reserves, back.amountIn, back.feeBps, back.zeroForOne).Ok? {
      SwapOverNet(first.reserves, back);
      var z := there.zeroForOne;
      BackFloor(reserves.In(z), reserves.In(!z), net, first.amountOut, NetInput(back.amountIn, back.feeBps));
    }
  }

  /** With `paid` at most what `net` buys from `y`, `back <= paid` buys at most `net` again. */
  lemma BackFloor(x: int, y: int, net: int, paid: int, back: int)
    requires 0 < x && 0 < net && 0 < paid < y && paid == y * net / (x + net) && 0 < back <= paid
    ensures (x + net) * back / (y - paid + back) <= net
  {
    var d := y - paid + back;
    DivAtLeast((x + net) * back, d, net + 1);
    Euclid(y * net, x + net);
    BackProduct(x, y, net, paid, back);
  }

  lemma BackProduct(x: int, y: int, net: int, paid: int, back: int)
    requires 0 < x && 0 < net && 0 < paid < y && 0 < back <= paid && paid * (x + net) <= y * net
    ensures (x + net) * back < (net + 1) * (y - paid + back)
  {
    MulMono(back, paid, x);
    assert paid * (x + net) == paid * x + paid * net;
    assert (x + net) * back == back * x + net * back;
    Distribute(net, 1, y - paid + back);
    assert net * (y - paid + back) == y * net - paid * net + net * back;
  }

  function TotalIn(amounts: seq<int>): int {
    if amounts == [] then 0 else amounts[0] + TotalIn(amounts[1..])
  }

  function Trades(amounts: seq<int>, feeBps: int, zeroForOne: bool): seq<Trade> {
    seq(|amounts|, i requires 0 <= i < |amounts| => Trade(amounts[i], feeBps, zeroForOne))
  }

  lemma NetAdds(a: int, b: int, feeBps: int)
    requires 0 <= a && 0 <= b && 0 <= feeBps < FEE_DENOMINATOR
    ensures 0 <= NetInput(a, feeBps) && NetInput(a, feeBps) + NetInput(b, feeBps) <= NetInput(a + b, feeBps)
  {
    var k := FEE_DENOMINATOR - feeBps;
    MulMono(0, a, k);
    MulMono(0, b, k);
    Distribute(a, b, k);
  }

  /** The input side of a split run never receives more net input than one swap of the total would bring. */
  lemma {:induction false} SplitBounds(reserves: Reserves, amounts: seq<int>, feeBps: int, zeroForOne: bool)
    requires reserves.Positive() && 0 <= feeBps < FEE_DENOMINATOR && forall a :: a in amounts ==> 0 < a
    ensures var next := ApplyAll(reserves, Trades(amounts, feeBps, zeroForOne));
      && 0 <= TotalIn(amounts)
      && reserves.In(zeroForOne) <= next.In(zeroForOne) <= reserves.In(zeroForOne) + NetInput(TotalIn(amounts), feeBps)
    decreases |amounts|
  {
    hide SwapExactInput, NetInput;
    if amounts == [] {
      NetAdds(0, 0, feeBps);
    } else {
      assert amounts[0] in amounts && forall a :: a in amounts[1..] ==> a in amounts;
      var trades := Trades(amounts, feeBps, zeroForOne);
      var mid := Apply(reserves, trades[0]);
      assert trades[1..] == Trades(amounts[1..], feeBps, zeroForOne);
      if SwapExactInput(reserves, amounts[0], feeBps, zeroForOne).Ok? {
        SwapOverNet(reserves, trades[0]);
      }
      SplitBounds(mid.reserves, amounts[1..], feeBps, zeroForOne);
      NetAdds(amounts[0], TotalIn(amounts[1..]), feeBps);
    }
  }

  /**
   * Splitting a swap never pays more: what the parts take out in total is at most what one swap of the summed input
   * takes out.
   */
  lemma SplittingNeverGains(reserves: Reserves, amounts: seq<int>, feeBps: int, zeroForOne: bool)
    requires reserves.Positive() && 0 <= feeBps < FEE_DENOMINATOR && forall a :: a in amounts ==> 0 < a
    ensures var split := ApplyAll(reserves, Trades(amounts, feeBps, zeroForOne));
      var once := Apply(reserves, Trade(TotalIn(amounts), feeBps, zeroForOne));
      reserves.In(!zeroForOne) - split.In(!zeroForOne) <= once.amountOut
  {
    hide SwapExactInput, NetInput, ApplyAll, TotalIn;
    var trades := Trades(amounts, feeBps, zeroForOne);
    var split := ApplyAll(reserves, trades);
    var total := Trade(TotalIn(amounts), feeBps, zeroForOne);
    ProductNeverDecreases(reserves, trades);
    SplitBounds(reserves, amounts, feeBps, zeroForOne);
    WhatOneSwapKeeps(reserves, total, split.In(!zeroForOne), split.In(zeroForOne));
  }

  /** What keeps the product with less input is at least what one swap keeps. */
  lemma KeptSuffices(x: int, y: int, net: int, input: int, kept: int)
    requires 0 < x && 0 < y && 0 < net && 0 < kept && input <= x + net && x * y <= input * kept
    ensures 0 < (x * y + (x + net) - 1) / (x + net) <= kept
  {
    hide CeilDiv;
    MulMono(input, x + net, kept);
    CeilForm(x * y, x + net);
    CeilIsLeast(x * y, x + net, kept);
    MulMono(1, x, y);
    CeilIsLeast(x * y, x + net, 0);
  }

  /** One swap takes out everything but the least reserve that still carries the product. */
  lemma WhatOneSwapKeeps(reserves: Reserves, trade: Trade, kept: int, input: int)
    requires reserves.Positive() && 0 <= trade.amountIn && 0 <= trade.feeBps < FEE_DENOMINATOR && 0 < kept
    requires var z := trade.zeroForOne; var x := reserves.In(z);
      && x <= input <= x + NetInput(trade.amountIn, trade.feeBps)
      && x * reserves.In(!z) <= input * kept
    ensures reserves.In(!trade.zeroForOne) - kept <= Apply(reserves, trade).amountOut
  {
    hide NetInput, CeilDiv;
    var net := NetInput(trade.amountIn, trade.feeBps);
    var (x, y) := (reserves.In(trade.zeroForOne), reserves.In(!trade.zeroForOne));
    if 0 < net {
      NoInputNoNet(trade.amountIn, trade.feeBps);
      KeptSuffices(x, y, net, input, kept);
    } else {
      SmallerFactor(x, y, input, kept);
    }
  }

  lemma NoInputNoNet(amountIn: int, feeBps: int)
    requires 0 < NetInput(amountIn, feeBps) && 0 <= amountIn && 0 <= feeBps < FEE_DENOMINATOR
    ensures 0 < amountIn
  {
  }

  /**
   * The funded swap model pays the floor of the exact output and takes a sixth of the fee, rounded down, out of the
   * pool; the rest of the fee stays in the reserve, so the product grows at least as much as without it.
   */
  lemma PostSwapProductGrows(amountIn: int, reserveIn: int, reserveOut: int, feeBps: int, net: int)
    requires 0 <= reserveIn && 0 <= reserveOut && 0 <= feeBps && IsNet(amountIn, feeBps, net)
    ensures var r := ModeledPostSwapReserves(amountIn, reserveIn, reserveOut, feeBps);
      r.Ok? ==>
        && reserveIn < r.value.0 && 0 < r.value.1 < reserveOut
        && reserveIn * reserveOut <= r.value.0 * r.value.1
    ensures var r := ModeledPostSwapReserves(amountIn, reserveIn, reserveOut, feeBps);
      r.Ok? ==>
        var protocolFee := reserveIn + amountIn - r.value.0;
        && 0 < net && reserveOut - r.value.1 == reserveOut * net / (reserveIn + net)
        && 0 < protocolFee && 6 * protocolFee <= amountIn - net < 6 * protocolFee + 6
    ensures ModeledPostSwapReserves(amountIn, reserveIn, reserveOut, feeBps).Ok? <==>
      0 < net && 6 <= amountIn - net && 0 < reserveOut * net / (reserveIn + net) < reserveOut
  {
    NetIsFloor(amountIn, feeBps, net);
    QuoteIsFloor(amountIn, reserveIn, reserveOut, feeBps, net);
    hide NetInput;
    var r := ModeledPostSwapReserves(amountIn, reserveIn, reserveOut, feeBps);
    if r.Ok? {
      var kept := CeilDiv(reserveIn * reserveOut, reserveIn + net);
      CeilIsLeast(reserveIn * reserveOut, reserveIn + net, kept);
      MulMono(reserveIn + net, r.value.0, r.value.1);
    }
  }

  /** The fee taken out of the pool is a sixth of what the fee takes off the input, rounded down. */
  lemma ProtocolFeeIsSixth(amountIn: int, feeBps: int, net: int)
    requires 0 <= amountIn && 0 <= feeBps <= 10000 && IsNet(amountIn, feeBps, net)
    ensures 0 <= net <= amountIn
    ensures var fee := ModeledProtocolFee(amountIn, feeBps); 6 * fee <= amountIn - net < 6 * fee + 6 && 0 <= fee
  {
    NetIsFloor(amountIn, feeBps, net);
    MulMono(0, amountIn, 10000 - feeBps);
    MulMono(10000 - feeBps, 10000, amountIn);
    assert 0 <= net;
  }
}
