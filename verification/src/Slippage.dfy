/** Slippage bounds of the funded calls: the least output, and the shares and prices a liquidity call accepts. */
module Slippage {
  import opened Outcomes
  import opened Division
  import FeeGrowth
  import PriceObservation

  const BPS: int := 10000
  const MAX_SLIPPAGE: int := 5000
  const UINT256_MAX: int := FeeGrowth.UINT256_MAX
  const PRICE_SCALE: int := PriceObservation.PRICE_SCALE

  datatype Failure = NotPositive | BadSlippage | BadInputs | Overflow | PriceOverflow

  datatype LiquidityBounds = LiquidityBounds(minShares: int, minPrice: int, maxPrice: int)

  function MinimumWithSlippage(value: int, slippage: int): Result<int, Failure> {
    var positive := 0 < value;
    :- Need(positive, NotPositive);
    :- Need(0 <= slippage <= MAX_SLIPPAGE, BadSlippage);
    var bounded := CeilDiv(value * (BPS - slippage), BPS);
    Ok(if 0 < bounded then bounded else 1)
  }

  /** The minimum is the value less its slippage, rounded up, and never leaves 1 to the value. */
  lemma MinimumIsTight(value: int, slippage: int)
    ensures var r := MinimumWithSlippage(value, slippage);
      && (r.Ok? <==> 0 < value && 0 <= slippage <= MAX_SLIPPAGE)
      && (r.Ok? ==> 1 <= r.value <= value)
      && (r.Ok? ==> (r.value - 1) * BPS < value * (BPS - slippage) <= r.value * BPS)
  {
    if 0 < value && 0 <= slippage <= MAX_SLIPPAGE {
      var kept := value * (BPS - slippage);
      MulMono(1, BPS - slippage, value);
      MulMono(BPS - slippage, BPS, value);
      CeilBounds(kept, BPS);
      CeilIsLeast(kept, BPS, value);
    }
  }

  function Normalized(amount: int, decimals: int): int
    requires 0 <= decimals <= 18
  {
    amount * PriceObservation.PowerOfTen(18 - decimals)
  }

  predicate GoodInputs(amount0: int, decimals0: int, amount1: int, decimals1: int) {
    0 < amount0 && 0 < amount1 && 0 <= decimals0 <= 18 && 0 <= decimals1 <= 18
  }

  function ConfidentialLiquidityBounds(
    amount0: int, decimals0: int, amount1: int, decimals1: int, initialized: bool, slippage: int)
    : Result<LiquidityBounds, Failure>
  {
    var good := GoodInputs(amount0, decimals0, amount1, decimals1);
    :- Need(good, BadInputs);
    var n0, n1 := Normalized(amount0, decimals0), Normalized(amount1, decimals1);
    BoundsOver(n0, n1, initialized, slippage)
  }

  /** The bounds over amounts already normalized to 18 decimals. */
  function BoundsOver(n0: int, n1: int, initialized: bool, slippage: int): Result<LiquidityBounds, Failure> {
    var numerator := n1 * PRICE_SCALE;
    :- Need(0 < n0 <= UINT256_MAX && n1 <= UINT256_MAX && numerator <= UINT256_MAX, Overflow);
    var minPrice :- MinimumWithSlippage(numerator / n0, slippage);
    var maxNumerator := CeilDiv(numerator, n0) * (BPS + slippage);
    :- Need(maxNumerator <= UINT256_MAX * BPS, PriceOverflow);
    var minShares :- if initialized then Ok(1) else MinimumWithSlippage(if n0 < n1 then n0 else n1, slippage);
    Ok(LiquidityBounds(minShares, minPrice, CeilDiv(maxNumerator, BPS)))
  }

  lemma NormalizedIsPositive(amount: int, decimals: int)
    requires 0 < amount && 0 <= decimals <= 18
    ensures amount <= Normalized(amount, decimals)
  {
    var power := PriceObservation.PowerOfTen(18 - decimals);
    MulMono(1, power, amount);
  }

  /** The floor of a price, less slippage, is not above the price. */
  lemma LowBound(numerator: int, n0: int, slippage: int)
    requires 0 < n0
    ensures var r := MinimumWithSlippage(numerator / n0, slippage);
      r.Ok? ==> 1 <= r.value <= numerator / n0 && r.value * n0 <= numerator
  {
    var r := MinimumWithSlippage(numerator / n0, slippage);
    MinimumIsTight(numerator / n0, slippage);
    if r.Ok? {
      DivAtLeast(numerator, n0, r.value);
    }
  }

  /** The ceiling of a price, plus slippage, is not below the price. */
  lemma HighBound(numerator: int, n0: int, slippage: int)
    requires 0 < n0 && 0 <= numerator && 0 <= slippage
    ensures var high := CeilDiv(numerator, n0);
      var highest := CeilDiv(high * (BPS + slippage), BPS);
      numerator / n0 <= high <= highest && numerator <= highest * n0
  {
    var high := CeilDiv(numerator, n0);
    var highest := CeilDiv(high * (BPS + slippage), BPS);
    CeilBounds(numerator, n0);
    DivAtLeast(numerator, n0, 0);
    MulMono(BPS, BPS + slippage, high);
    CeilIsLeast(high * (BPS + slippage), BPS, high - 1);
    MulMono(high, highest, n0);
  }

  /**
   * Whenever bounds are returned, the price of the amounts themselves, n1 * 10^18 / n0, lies between them however it
   * is rounded; the maximum fits in 256 bits; and the initial shares asked for are at least 1 and at most the lesser
   * amount.
   */
  lemma BoundsEncloseThePrice(n0: int, n1: int, initialized: bool, slippage: int)
    requires 0 < n0 && 0 < n1
    ensures var r := BoundsOver(n0, n1, initialized, slippage);
      r.Ok? ==>
        && 1 <= r.value.minPrice && r.value.minPrice * n0 <= n1 * PRICE_SCALE <= r.value.maxPrice * n0
        && r.value.minPrice <= r.value.maxPrice <= UINT256_MAX
        && 1 <= r.value.minShares <= n0 && r.value.minShares <= n1
  {
    var r := BoundsOver(n0, n1, initialized, slippage);
    if r.Ok? {
      var numerator := n1 * PRICE_SCALE;
      MulMono(0, n1, PRICE_SCALE);
      LowBound(numerator, n0, slippage);
      MinimumIsTight(numerator / n0, slippage);
      HighBound(numerator, n0, slippage);
      CeilIsLeast(CeilDiv(numerator, n0) * (BPS + slippage), BPS, UINT256_MAX);
      hide CeilDiv;
      MinimumIsTight(if n0 < n1 then n0 else n1, slippage);
    }
  }

  /**
   * Neither bound is looser than its rounding: each is the least integer that leaves the slippage around the rounded
   * price, and the initial shares are the least that leave it below the lesser amount.
   */
  lemma BoundsAreTight(n0: int, n1: int, initialized: bool, slippage: int)
    requires 0 < n0 && 0 < n1
    ensures var r := BoundsOver(n0, n1, initialized, slippage);
      r.Ok? ==>
        var high := CeilDiv(n1 * PRICE_SCALE, n0);
        && (high - 1) * n0 < n1 * PRICE_SCALE <= high * n0
        && (r.value.maxPrice - 1) * BPS < high * (BPS + slippage) <= r.value.maxPrice * BPS
        && (r.value.minPrice - 1) * BPS < n1 * PRICE_SCALE / n0 * (BPS - slippage) <= r.value.minPrice * BPS
    ensures var r := BoundsOver(n0, n1, initialized, slippage);
      r.Ok? ==>
        var lesser := if n0 < n1 then n0 else n1;
        if initialized then r.value.minShares == 1
        else (r.value.minShares - 1) * BPS < lesser * (BPS - slippage) <= r.value.minShares * BPS
  {
    var r := BoundsOver(n0, n1, initialized, slippage);
    if r.Ok? {
      var numerator := n1 * PRICE_SCALE;
      CeilBounds(numerator, n0);
      CeilBounds(CeilDiv(numerator, n0) * (BPS + slippage), BPS);
      hide CeilDiv;
      MinimumIsTight(numerator / n0, slippage);
      MinimumIsTight(if n0 < n1 then n0 else n1, slippage);
    }
  }

  /** Bounds are returned exactly when the price is not below one quantum, fits, and leaves room for the slippage. */
  lemma BoundsExistExactly(n0: int, n1: int, initialized: bool, slippage: int)
    requires 0 < n0 && 0 < n1
    ensures BoundsOver(n0, n1, initialized, slippage).Ok? <==>
      && n0 <= n1 * PRICE_SCALE <= UINT256_MAX && n0 <= UINT256_MAX && n1 <= UINT256_MAX
        && 0 <= slippage <= MAX_SLIPPAGE
      && CeilDiv(n1 * PRICE_SCALE, n0) * (BPS + slippage) <= UINT256_MAX * BPS
  {
    var numerator := n1 * PRICE_SCALE;
    MinimumIsTight(numerator / n0, slippage);
    MinimumIsTight(if n0 < n1 then n0 else n1, slippage);
    DivAtLeast(numerator, n0, 1);
  }

  /** Normalizing multiplies by the missing decimals: with them put back it is the amount in 10^-18. */
  lemma NormalizedExactly(amount: int, decimals: int)
    requires 0 <= decimals <= 18
    ensures Normalized(amount, decimals) * PriceObservation.PowerOfTen(decimals) == amount * 1_000_000_000_000_000_000
    ensures Normalized(amount, 18) == amount && Normalized(amount, 17) == 10 * amount
    ensures PRICE_SCALE == 1_000_000_000_000_000_000
  {
    PriceObservation.PowersOfTen(decimals);
    var up, down := PriceObservation.PowerOfTen(18 - decimals), PriceObservation.PowerOfTen(decimals);
    Associates(amount, up, down);
  }

  lemma Associates(x: int, y: int, z: int)
    ensures x * y * z == x * (y * z)
  {
  }

  /** The same for the amounts as the caller gives them, in their own decimals. */
  lemma AmountsAreEnclosed(amount0: int, decimals0: int, amount1: int, decimals1: int, initialized: bool, slippage: int)
    ensures var r := ConfidentialLiquidityBounds(amount0, decimals0, amount1, decimals1, initialized, slippage);
      && (r.Ok? ==> GoodInputs(amount0, decimals0, amount1, decimals1))
      && (r.Ok? ==>
        var n0, n1 := Normalized(amount0, decimals0), Normalized(amount1, decimals1);
        && r.value.minPrice * n0 <= n1 * PRICE_SCALE <= r.value.maxPrice * n0 && r.value.maxPrice <= UINT256_MAX
        && 1 <= r.value.minShares <= n0 && r.value.minShares <= n1)
  {
    if GoodInputs(amount0, decimals0, amount1, decimals1) {
      NormalizedIsPositive(amount0, decimals0);
      NormalizedIsPositive(amount1, decimals1);
      BoundsEncloseThePrice(Normalized(amount0, decimals0), Normalized(amount1, decimals1), initialized, slippage);
    }
  }
}
