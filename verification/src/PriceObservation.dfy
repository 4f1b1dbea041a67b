/** Quantized price observations of a constant-product pool, and what an observer can infer from one of them. */
module PriceObservation {
  import opened Outcomes
  import opened Division
  import opened ConstantProduct

  function PowerOfTen(n: nat): (p: int)
    ensures 0 < p
  {
    if n == 0 then 1 else 10 * PowerOfTen(n - 1)
  }

  const PRICE_SCALE: int := PowerOfTen(18)

  predicate ValidDecimals(token0Decimals: int, token1Decimals: int) {
    0 <= token0Decimals <= 18 && 0 <= token1Decimals <= 18
  }

  function NormalizedPriceX18(reserves: Reserves, token0Decimals: int, token1Decimals: int): Result<int, SwapFailure> {
    var valid := ValidDecimals(token0Decimals, token1Decimals);
    :- Need(0 < reserves.reserve0 && 0 < reserves.reserve1, NotPositive);
    :- Need(valid, BadDecimals);
    var scale0 := PowerOfTen(18 - token0Decimals);
    var scale1 := PowerOfTen(18 - token1Decimals);
    PositiveProduct(reserves.reserve0, scale0);
    Ok(reserves.reserve1 * scale1 * PRICE_SCALE / (reserves.reserve0 * scale0))
  }

  /** The price is the whole part of token 1 over token 0, both in 18 decimals, in units of 10^-18. */
  lemma NormalizedPriceIsFloor(reserves: Reserves, token0Decimals: int, token1Decimals: int)
    ensures var r := NormalizedPriceX18(reserves, token0Decimals, token1Decimals);
      && (r.Ok? <==> reserves.Positive() && ValidDecimals(token0Decimals, token1Decimals))
      && (r.Ok? ==>
          var n0 := reserves.reserve0 * PowerOfTen(18 - token0Decimals);
          var scaled := reserves.reserve1 * PowerOfTen(18 - token1Decimals) * PRICE_SCALE;
          0 <= r.value && r.value * n0 <= scaled < (r.value + 1) * n0)
  {
    var r := NormalizedPriceX18(reserves, token0Decimals, token1Decimals);
    if r.Ok? {
      var n0 := reserves.reserve0 * PowerOfTen(18 - token0Decimals);
      var n1 := reserves.reserve1 * PowerOfTen(18 - token1Decimals);
      PositiveProduct(reserves.reserve0, PowerOfTen(18 - token0Decimals));
      PositiveProduct(reserves.reserve1, PowerOfTen(18 - token1Decimals));
      PositiveProduct(n1, PRICE_SCALE);
      Euclid(n1 * PRICE_SCALE, n0);
      DivAtLeast(n1 * PRICE_SCALE, n0, 0);
      Distribute(r.value, 1, n0);
    }
  }

  lemma PositiveProduct(x: int, y: int)
    requires 0 < x && 0 < y
    ensures 0 < x * y
  {
    MulMono(1, x, y);
  }

  function QuantizePriceFloor(price: int, quantum: int): Result<int, SwapFailure> {
    var sane := 0 <= price && 0 < quantum;
    :- Need(sane, NotPositive);
    Ok(price / quantum * quantum)
  }

  function ObservationQuantum(reference: int, bucketBps: int): Result<int, SwapFailure> {
    var quotient := reference / FEE_DENOMINATOR;
    :- Need(0 < reference && 0 < bucketBps, NotPositive);
    :- Need(bucketBps < FEE_DENOMINATOR, FeeOutOfRange);
    var quantum := quotient * bucketBps + reference % FEE_DENOMINATOR * bucketBps / FEE_DENOMINATOR;
    Ok(if quantum == 0 then 1 else quantum)
  }

  function BoundedObservationPrice(exact: int, reference: int): Result<int, SwapFailure> {
    var half := reference / 2;
    :- Need(0 < exact && 0 < reference, NotPositive);
    var lower := if half == 0 then 1 else half;
    Ok(if exact < lower then lower else if reference * 2 < exact then reference * 2 else exact)
  }

  function AdaptiveObservationBucket(exact: int, reference: int, bucketBps: int): Result<(int, int), SwapFailure> {
    var half := reference / 2;
    var quantum :- ObservationQuantum(reference, bucketBps);
    var bounded :- BoundedObservationPrice(exact, reference);
    var bucket :- QuantizePriceFloor(bounded, quantum);
    Ok((bucket, quantum))
  }

  /**
   * An observation reveals the price only up to one quantum, and only between half and twice the reference; the
   * quantum is the exact share of the reference, computed without forming its product.
   */
  lemma ObservationIsCoarse(exact: int, reference: int, bucketBps: int)
    ensures var r := AdaptiveObservationBucket(exact, reference, bucketBps);
      && (r.Ok? <==> 0 < exact && 0 < reference && 0 < bucketBps < FEE_DENOMINATOR)
      && (r.Ok? ==>
          var (bucket, quantum) := r.value;
          var share := reference * bucketBps / FEE_DENOMINATOR;
          && quantum == (if share == 0 then 1 else share)
          && (reference <= 2 * exact + 1 && exact <= 2 * reference ==> bucket <= exact < bucket + quantum)
          && (exact > 2 * reference ==> bucket <= 2 * reference < bucket + quantum)
          && (2 * exact + 1 < reference ==> bucket <= reference / 2 < bucket + quantum)
          && bucket % quantum == 0)
  {
    if 0 < exact && 0 < reference && 0 < bucketBps < FEE_DENOMINATOR {
      ShareIsExact(reference, bucketBps);
      var r := AdaptiveObservationBucket(exact, reference, bucketBps);
      var quantum := ObservationQuantum(reference, bucketBps).value;
      var bounded := BoundedObservationPrice(exact, reference).value;
      Euclid(bounded, quantum);
      DivShift(0, quantum, bounded / quantum);
      DivUnique(0, quantum, 0, 0);
    }
  }

  lemma ShareIsExact(reference: int, bucketBps: int)
    requires 0 < reference && 0 < bucketBps
    ensures ObservationQuantum(reference, bucketBps).Ok? ==>
      var share := reference * bucketBps / FEE_DENOMINATOR;
      && 0 <= share
      && ObservationQuantum(reference, bucketBps).value == if share == 0 then 1 else share
  {
    var q, m := reference / FEE_DENOMINATOR, reference % FEE_DENOMINATOR;
    Distribute(q * FEE_DENOMINATOR, m, bucketBps);
    DivShift(m * bucketBps, FEE_DENOMINATOR, q * bucketBps);
    MulMono(0, reference, bucketBps);
  }

  // ---- Inference ----

  datatype Question = Question(
    opening: Reserves, observed: int, quantum: int, feeBps: int, zeroForOne: bool, decimals0: int, decimals1: int)

  function Outcome(q: Question, input: int): Result<SwapResult, SwapFailure> {
    SwapExactInput(q.opening, input, q.feeBps, q.zeroForOne)
  }

  function BucketAfter(q: Question, reserves: Reserves): Result<int, SwapFailure> {
    var decimals := (q.decimals0, q.decimals1);
    var price :- NormalizedPriceX18(reserves, decimals.0, decimals.1);
    QuantizePriceFloor(price, q.quantum)
  }

  /** An input is a candidate when its swap succeeds and lands in the observed bucket. */
  predicate Candidate(q: Question, input: int) {
    Outcome(q, input).Ok? && BucketAfter(q, Outcome(q, input).value.reserves) == Ok(q.observed)
  }

  lemma NetMono(a: int, b: int, feeBps: int)
    requires 0 <= a <= b && 0 <= feeBps < FEE_DENOMINATOR
    ensures NetInput(a, feeBps) <= NetInput(b, feeBps)
  {
    MulMono(a, b, FEE_DENOMINATOR - feeBps);
    MulMono(0, a, FEE_DENOMINATOR - feeBps);
    DivMono(a * (FEE_DENOMINATOR - feeBps), b * (FEE_DENOMINATOR - feeBps), FEE_DENOMINATOR);
  }

  /** More input never fails where less succeeded; it leaves more of one reserve and no more of the other. */
  lemma SwapMonotone(q: Question, a: int, b: int)
    requires a <= b && Outcome(q, a).Ok?
    ensures Outcome(q, b).Ok?
    ensures var ra, rb := Outcome(q, a).value.reserves, Outcome(q, b).value.reserves;
      && ra.Positive() && rb.Positive()
      && ra.In(q.zeroForOne) <= rb.In(q.zeroForOne) && rb.In(!q.zeroForOne) <= ra.In(!q.zeroForOne)
  {
    hide NetInput;
    var trade := Trade(a, q.feeBps, q.zeroForOne);
    var (x, y) := (q.opening.In(q.zeroForOne), q.opening.In(!q.zeroForOne));
    var (m, n) := (NetInput(a, q.feeBps), NetInput(b, q.feeBps));
    SwapOverNet(q.opening, trade);
    SwapShape(q.opening, trade);
    NetMono(a, b, q.feeBps);
    KeptAntitone(x, y, m, n);
    SwapNumbers(x, y, n);
  }

  lemma KeptAntitone(x: int, y: int, m: int, n: int)
    requires 0 < x && 0 < y && 0 < m <= n
    ensures (x * y + (x + n) - 1) / (x + n) <= (x * y + (x + m) - 1) / (x + m)
  {
    hide CeilDiv;
    MulMono(0, x, y);
    CeilForm(x * y, x + m);
    CeilForm(x * y, x + n);
    CeilAntitone(x * y, x + m, x + n);
  }

  lemma QuotientMono(n: int, d: int, m: int, e: int)
    requires 0 <= n <= m && 0 < e <= d
    ensures n / d <= m / e
  {
    DivMono(n, m, d);
    Euclid(m, d);
    DivAtLeast(m, d, 0);
    MulMono(e, d, m / d);
    DivAtLeast(m, e, m / d);
  }

  /** More of reserve 1 and less of reserve 0 never lowers the observed bucket. */
  lemma BucketMono(q: Question, low: Reserves, high: Reserves)
    requires low.Positive() && high.Positive() && ValidDecimals(q.decimals0, q.decimals1) && 0 < q.quantum
    requires low.reserve1 <= high.reserve1 && high.reserve0 <= low.reserve0
    ensures BucketAfter(q, low).Ok? && BucketAfter(q, high).Ok?
    ensures BucketAfter(q, low).value <= BucketAfter(q, high).value
  {
    hide PowerOfTen;
    var s0, s1 := PowerOfTen(18 - q.decimals0), PowerOfTen(18 - q.decimals1);
    var pl := NormalizedPriceX18(low, q.decimals0, q.decimals1).value;
    var ph := NormalizedPriceX18(high, q.decimals0, q.decimals1).value;
    PriceMono(low, high, s0, s1, PRICE_SCALE);
    DivMono(pl, ph, q.quantum);
    MulMono(pl / q.quantum, ph / q.quantum, q.quantum);
  }

  lemma PriceMono(low: Reserves, high: Reserves, s0: int, s1: int, scale: int)
    requires low.Positive() && high.Positive() && 0 < s0 && 0 < s1 && 0 < scale
    requires low.reserve1 <= high.reserve1 && high.reserve0 <= low.reserve0
    ensures 0 < low.reserve0 * s0 && 0 < high.reserve0 * s0
    ensures 0 <= low.reserve1 * s1 * scale / (low.reserve0 * s0) <= high.reserve1 * s1 * scale / (high.reserve0 * s0)
  {
    PositiveProduct(low.reserve0, s0);
    PositiveProduct(high.reserve0, s0);
    PositiveProduct(low.reserve1, s1);
    PositiveProduct(low.reserve1 * s1, scale);
    MulMono(low.reserve1, high.reserve1, s1);
    MulMono(low.reserve1 * s1, high.reserve1 * s1, scale);
    MulMono(high.reserve0, low.reserve0, s0);
    DivAtLeast(low.reserve1 * s1 * scale, low.reserve0 * s0, 0);
    QuotientMono(low.reserve1 * s1 * scale, low.reserve0 * s0, high.reserve1 * s1 * scale, high.reserve0 * s0);
  }

  /** Between two candidates every input is a candidate: what an observer learns is one interval. */
  lemma CandidatesAreContiguous(q: Question, a: int, c: int, b: int)
    requires a <= c <= b && Candidate(q, a) && Candidate(q, b) && 0 < q.quantum
    ensures Candidate(q, c)
  {
    hide SwapExactInput, NetInput, PowerOfTen;
    SwapMonotone(q, a, c);
    SwapMonotone(q, c, b);
    var (ra, rc, rb) := (Outcome(q, a).value.reserves, Outcome(q, c).value.reserves, Outcome(q, b).value.reserves);
    if q.zeroForOne {
      BucketMono(q, rb, rc);
      BucketMono(q, rc, ra);
    } else {
      BucketMono(q, ra, rc);
      BucketMono(q, rc, rb);
    }
  }

  /**
   * What makes an input match, in plain arithmetic: the swap of what the fee leaves of it succeeds, and the price of
   * the reserves after it, in 18 decimals and rounded down, lies in the observed bucket.
   */
  lemma CandidateExactly(q: Question, input: int, net: int)
    requires 0 < q.quantum && ValidDecimals(q.decimals0, q.decimals1) && IsNet(input, q.feeBps, net)
    ensures var (x, y) := (q.opening.In(q.zeroForOne), q.opening.In(!q.zeroForOne));
      Candidate(q, input) <==>
        && q.opening.Positive() && 0 < input && 0 <= q.feeBps < 10000 && 0 < net < x + net <= y * net
        && InBucket(q, x + net, y - y * net / (x + net))
  {
    hide NetInput, SwapExactInput, PowerOfTen;
    SwapIsTight(q.opening, Trade(input, q.feeBps, q.zeroForOne), net);
    var r := Outcome(q, input);
    if r.Ok? {
      BucketExactly(q, r.value.reserves);
    }
  }

  /** The price of the reserves, in 18 decimals and rounded down, lies in the observed multiple of the quantum. */
  predicate InBucket(q: Question, reserveIn: int, reserveOut: int)
    requires 0 < q.quantum && ValidDecimals(q.decimals0, q.decimals1)
  {
    var (r0, r1) := if q.zeroForOne then (reserveIn, reserveOut) else (reserveOut, reserveIn);
    var n0, n1 := r0 * PowerOfTen(18 - q.decimals0), r1 * PowerOfTen(18 - q.decimals1);
    0 < n0 && var price := n1 * PowerOfTen(18) / n0;
    q.observed % q.quantum == 0 && q.observed <= price < q.observed + q.quantum
  }

  lemma BucketExactly(q: Question, reserves: Reserves)
    requires 0 < q.quantum && ValidDecimals(q.decimals0, q.decimals1) && reserves.Positive()
    ensures BucketAfter(q, reserves) == Ok(q.observed) <==>
      InBucket(q, reserves.In(q.zeroForOne), reserves.In(!q.zeroForOne))
  {
    hide PowerOfTen;
    var s0, s1 := PowerOfTen(18 - q.decimals0), PowerOfTen(18 - q.decimals1);
    PositiveProduct(reserves.reserve0, s0);
    PositiveProduct(reserves.reserve1, s1);
    PositiveProduct(reserves.reserve1 * s1, PRICE_SCALE);
    var price := reserves.reserve1 * s1 * PRICE_SCALE / (reserves.reserve0 * s0);
    DivAtLeast(reserves.reserve1 * s1 * PRICE_SCALE, reserves.reserve0 * s0, 0);
    MultipleBelow(price, q.quantum, q.observed);
  }

  /** The multiple of the quantum at or below a price is the one within a quantum of it. */
  lemma MultipleBelow(price: int, quantum: int, observed: int)
    requires 0 < quantum
    ensures price / quantum * quantum == observed <==> observed % quantum == 0 && observed <= price < observed + quantum
  {
    Euclid(price, quantum);
    Euclid(observed, quantum);
    DivUnique(price / quantum * quantum, quantum, price / quantum, 0);
    if observed % quantum == 0 && observed <= price < observed + quantum {
      DivUnique(price, quantum, observed / quantum, price - observed);
    }
  }

  /** The powers of ten are what they are called. */
  lemma PowersOfTen(n: nat)
    ensures PowerOfTen(0) == 1 && PowerOfTen(1) == 10 && PowerOfTen(18) == 1_000_000_000_000_000_000
    ensures PowerOfTen(n + 1) == 10 * PowerOfTen(n)
    ensures n <= 18 ==> PowerOfTen(18 - n) * PowerOfTen(n) == 1_000_000_000_000_000_000
  {
    assert PowerOfTen(6) == 1_000_000;
    assert PowerOfTen(12) == 1_000_000_000_000;
    if n <= 18 {
      PowersAdd(18 - n, n);
    }
  }

  lemma {:induction false} PowersAdd(m: nat, n: nat)
    ensures PowerOfTen(m) * PowerOfTen(n) == PowerOfTen(m + n)
  {
    if m > 0 {
      PowersAdd(m - 1, n);
      assert PowerOfTen(m) * PowerOfTen(n) == 10 * (PowerOfTen(m - 1) * PowerOfTen(n));
    }
  }

  datatype CandidateInputRange = CandidateInputRange(minimum: int, maximum: int, count: int)

  /** The interval of all candidates up to a maximum, and how many there are. */
  ghost predicate IsRange(q: Question, maximumInput: int, range: Option<CandidateInputRange>) {
    match range
    case None => forall i :: 1 <= i <= maximumInput ==> !Candidate(q, i)
    case Some(r) =>
      && 1 <= r.minimum <= r.maximum <= maximumInput && r.count == r.maximum - r.minimum + 1
      && forall i :: 1 <= i <= maximumInput ==> (Candidate(q, i) <==> r.minimum <= i <= r.maximum)
  }

  /**
   * The exhaustive scan reports exactly the least candidate, the greatest and their number, which is always the
   * length of the interval. It fails only on bad arguments, or on bad decimals once some swap succeeds.
   */
  method InferAggregateInputRange(q: Question, maximumInput: int)
    returns (r: Result<Option<CandidateInputRange>, SwapFailure>)
    ensures q.quantum <= 0 || maximumInput <= 0 ==> r == Err(NotPositive)
    ensures 0 < q.quantum && 0 < maximumInput ==>
      var swappable := exists i :: 1 <= i <= maximumInput && Outcome(q, i).Ok?;
      if swappable && !ValidDecimals(q.decimals0, q.decimals1) then r == Err(BadDecimals)
      else r.Ok? && IsRange(q, maximumInput, r.value)
  {
    hide SwapExactInput, PowerOfTen;
    if q.quantum <= 0 || maximumInput <= 0 {
      return Err(NotPositive);
    }
    var minimum: Option<int> := None;
    var maximum: Option<int> := None;
    var count := 0;
    for input := 1 to maximumInput + 1
      invariant minimum.Some? <==> maximum.Some?
      invariant minimum.None? ==> count == 0 && forall i :: 1 <= i < input ==> !Candidate(q, i)
      invariant minimum.Some? ==>
        && 1 <= minimum.value <= maximum.value < input && count == maximum.value - minimum.value + 1
        && Candidate(q, minimum.value) && Candidate(q, maximum.value)
        && forall i :: 1 <= i < input ==> (Candidate(q, i) <==> minimum.value <= i <= maximum.value)
      invariant (exists i :: 1 <= i < input && Outcome(q, i).Ok?) ==> ValidDecimals(q.decimals0, q.decimals1)
    {
      var result := SwapExactInput(q.opening, input, q.feeBps, q.zeroForOne);
      if result.Err? {
        continue;
      }
      assert Outcome(q, input).Ok?;
      SwapMonotone(q, input, input);
      var price := NormalizedPriceX18(result.value.reserves, q.decimals0, q.decimals1);
      if price.Err? {
        return Err(price.error);
      }
      BucketMono(q, result.value.reserves, result.value.reserves);
      var bucket := QuantizePriceFloor(price.value, q.quantum);
      if bucket != Ok(q.observed) {
        continue;
      }
      assert Candidate(q, input);
      if minimum.Some? && maximum.value < input - 1 {
        CandidatesAreContiguous(q, maximum.value, input - 1, input);
      }
      minimum := if minimum.None? then Some(input) else minimum;
      maximum := Some(input);
      count := count + 1;
    }
    return Ok(if minimum.None? then None else Some(CandidateInputRange(minimum.value, maximum.value, count)));
  }
}
