/** Two uint128 fields in one uint256 word, and a transition model with a separate and a packed interface. */
module Packing {
  import opened Outcomes
  import opened Division
  import FeeGrowth

  /** 2^128, as in the fee arithmetic. */
  const FIELD_BASE: int := FeeGrowth.SCALE
  const UINT256_MAX: int := FeeGrowth.UINT256_MAX
  const DEVIATION_DENOMINATOR: int := 10000

  datatype Failure =
    | FieldRange | WordRange | DeviationRange | InvalidRequest | RequestUsed | Expired | NotPositive | BelowMinimum
    | Overflow

  datatype Pair = Pair(high: int, low: int)

  predicate IsUint128(n: int) {
    0 <= n < FIELD_BASE
  }

  predicate IsUint256(n: int) {
    0 <= n <= UINT256_MAX
  }

  function Pack(high: int, low: int): Result<int, Failure> {
    var fits := IsUint128(high) && IsUint128(low);
    :- Need(fits, FieldRange);
    Ok(high * FIELD_BASE + low)
  }

  function Unpack(word: int): Result<Pair, Failure> {
    var fits := IsUint256(word);
    :- Need(fits, WordRange);
    Ok(Pair(word / FIELD_BASE, word % FIELD_BASE))
  }

  /** Packing refuses exactly the pairs that do not fit, and unpacking gives back the pair that was packed. */
  lemma PackThenUnpack(high: int, low: int)
    ensures Pack(high, low).Ok? <==> IsUint128(high) && IsUint128(low)
    ensures Pack(high, low).Ok? ==>
      IsUint256(Pack(high, low).value) && Unpack(Pack(high, low).value) == Ok(Pair(high, low))
  {
    if IsUint128(high) && IsUint128(low) {
      var word := high * FIELD_BASE + low;
      DivUnique(word, FIELD_BASE, high, low);
      MulMono(0, high, FIELD_BASE);
      MulMono(high, FIELD_BASE - 1, FIELD_BASE);
      Distribute(FIELD_BASE - 1, 1, FIELD_BASE);
    }
  }

  /** Every word is the packing of the fields it unpacks to, and of no others. */
  lemma UnpackThenPack(word: int)
    ensures Unpack(word).Ok? <==> IsUint256(word)
    ensures Unpack(word).Ok? ==> Pack(Unpack(word).value.high, Unpack(word).value.low) == Ok(word)
    ensures Unpack(word).Ok? ==>
      var Pair(high, low) := Unpack(word).value;
      0 <= high < FIELD_BASE && 0 <= low < FIELD_BASE && word == high * FIELD_BASE + low
  {
    if IsUint256(word) {
      Euclid(word, FIELD_BASE);
      DivAtLeast(word, FIELD_BASE, 0);
      DivAtLeast(word, FIELD_BASE, FIELD_BASE);
    }
  }

  // ---- Price bounds ----

  datatype Bounds = Bounds(minimum: int, maximum: int)

  /** The deviation is taken off the quotient and the remainder apart, so that no product leaves 256 bits. */
  function DeriveSymmetricPriceBounds(price: int, deviation: int): Result<Bounds, Failure> {
    var fits := IsUint256(price);
    :- Need(fits, WordRange);
    :- Need(0 <= deviation <= DEVIATION_DENOMINATOR, DeviationRange);
    var quotient := price / DEVIATION_DENOMINATOR;
    var remainder := price % DEVIATION_DENOMINATOR;
    var delta := quotient * deviation + remainder * deviation / DEVIATION_DENOMINATOR;
    var maximum := price + delta;
    Ok(Bounds(price - delta, if maximum > UINT256_MAX then UINT256_MAX else maximum))
  }

  /**
   * The bounds lie around the price by exactly the floor of its deviation, the maximum capped at 256 bits; every
   * intermediate product fits as well.
   */
  lemma BoundsAreExact(price: int, deviation: int)
    requires IsUint256(price) && 0 <= deviation <= DEVIATION_DENOMINATOR
    ensures var r := DeriveSymmetricPriceBounds(price, deviation);
      var delta := price * deviation / DEVIATION_DENOMINATOR;
      && r.Ok? && 0 <= r.value.minimum == price - delta <= price <= r.value.maximum <= UINT256_MAX
      && (r.value.maximum == price + delta || r.value.maximum == UINT256_MAX < price + delta)
    ensures 0 <= price / DEVIATION_DENOMINATOR * deviation <= UINT256_MAX
  {
    var d := DEVIATION_DENOMINATOR;
    var q, m := price / d, price % d;
    Euclid(price, d);
    assert price * deviation == m * deviation + (q * deviation) * d by {
      Distribute(q * d, m, deviation);
      assert q * d * deviation == (q * deviation) * d;
    }
    DivShift(m * deviation, d, q * deviation);
    MulMono(0, price, deviation);
    MulMono(deviation, d, price);
    DivAtLeast(price * deviation, d, 0);
    DivMono(price * deviation, price * d, d);
    DivShift(0, d, price);
    MulMono(deviation, d, q);
    MulMono(0, q, deviation);
  }
}
