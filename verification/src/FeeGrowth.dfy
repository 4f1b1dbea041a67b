/**
 * Two-limb cumulative fee growth per share: `whole` units plus a `fraction` of SCALE.
 * The lemmas state that both operations agree exactly with arithmetic on the single scaled number.
 */
module FeeGrowth {
  import opened Outcomes
  import opened Division

  function TwoToThe(bits: seq<()>): (p: int)
    ensures 1 + |bits| <= p
  {
    if bits == [] then 1 else 2 * TwoToThe(bits[1..])
  }

  function ScaleBits(): (bits: seq<()>)
    ensures |bits| == 128
  {
    seq(128, i => ())
  }

  type Scale = n: int | 4 <= n witness 4

  /** 2^128. The recursion keeps it a symbol for the solver: proofs know only that it is at least 4. */
  const SCALE: Scale := TwoToThe(ScaleBits())
  const UINT256_MAX: int := SCALE * SCALE - 1
  const MAX_TOTAL_SHARES: int := SCALE - 1
  const MAX_RESERVE_OPERAND: int := SCALE - 1
  const MAX_LP_FEE_OPERAND: int := SCALE - 1
  const UINT64_MAX: int := 0xFFFF_FFFF_FFFF_FFFF

  datatype Failure =
    | OutOfRange
    | Overflow
    | NormalizationBound
    | GrowthExceedsLifetimeFees
    | GrowthMovedBackwards
    | BorrowUnderflow
    | PoolAuthorityRequired
    | TotalSharesCap
    | LockedPrincipal
    | InsufficientAllowance
    | SelfTransfer
    | LockExists
    | UnknownLock
    | PermanentLock
    | LockNotMatured
    | ReserveCap
    | ZeroShares
    | ClaimExceedsLiability
    | RecycledGrowthExceedsLifetimeFees
    | PaidExceedsAccrued
    | LiabilityDiverged
    | FractionNotConserved
    | CustodyDiverged

  type Fallible<+T> = Result<T, Failure>

  function RequireRange(value: int, minimum: int, maximum: int): Check<Failure> {
    Need(minimum <= value <= maximum, OutOfRange)
  }

  function CheckedAdd(left: int, right: int): Fallible<int> {
    var result := left + right;
    :- RequireRange(left, 0, UINT256_MAX);
    :- RequireRange(right, 0, UINT256_MAX);
    :- Need(result <= UINT256_MAX, Overflow);
    Ok(result)
  }

  function CheckedMul(left: int, right: int): Fallible<int> {
    var result := left * right;
    :- RequireRange(left, 0, UINT256_MAX);
    :- RequireRange(right, 0, UINT256_MAX);
    :- Need(result <= UINT256_MAX, Overflow);
    Ok(result)
  }

  datatype Growth = Growth(whole: int, fraction: int) {
    /** The growth as one number, in units of 1/SCALE. */
    function Scaled(): int {
      whole * SCALE + fraction
    }

    predicate Normal() {
      0 <= whole <= UINT256_MAX && 0 <= fraction < SCALE
    }

    predicate Before(other: Growth) {
      whole < other.whole || (whole == other.whole && fraction < other.fraction)
    }
  }

  datatype GrowthState = GrowthState(growth: Growth, remainder: int, lifetime: int) {
    predicate InRange() {
      growth.Normal() && 0 <= remainder < SCALE && 0 <= lifetime <= UINT256_MAX
    }
  }

  function AdvanceFeeGrowth(st: GrowthState, lpFee: int, totalShares: int): Fallible<GrowthState> {
    var growth := st.growth;
    :- RequireRange(totalShares, 1, MAX_TOTAL_SHARES);
    :- RequireRange(lpFee, 1, MAX_LP_FEE_OPERAND);
    :- RequireRange(growth.whole, 0, UINT256_MAX);
    :- RequireRange(growth.fraction, 0, SCALE - 1);
    :- RequireRange(st.remainder, 0, SCALE - 1);
    :- RequireRange(st.lifetime, 0, UINT256_MAX);
    var feeWhole := lpFee / totalShares;
    var feeRemainder := lpFee % totalShares;
    var product :- CheckedMul(feeRemainder, SCALE);
    var numerator :- CheckedAdd(product, st.remainder);
    var combined := growth.fraction + numerator / totalShares;
    :- Need(combined < SCALE * 2, NormalizationBound);
    var raised :- CheckedAdd(growth.whole, feeWhole);
    var whole :- CheckedAdd(raised, combined / SCALE);
    var lifetime :- CheckedAdd(st.lifetime, lpFee);
    :- Need(whole <= lifetime, GrowthExceedsLifetimeFees);
    Ok(GrowthState(Growth(whole, combined % SCALE), numerator % totalShares, lifetime))
  }

  datatype Settlement = Settlement(checkpoint: Growth, carry: int, newClaim: int)

  /** The distance between two growths, limb by limb, borrowing one whole unit when the fraction is behind. */
  function WholeDelta(checkpoint: Growth, growth: Growth): int {
    growth.whole - checkpoint.whole - (if growth.fraction < checkpoint.fraction then 1 else 0)
  }

  function FractionDelta(checkpoint: Growth, growth: Growth): int {
    growth.fraction - checkpoint.fraction + (if growth.fraction < checkpoint.fraction then SCALE else 0)
  }

  function SettleFeeGrowth(balance: int, checkpoint: Growth, carry: int, growth: Growth): Fallible<Settlement> {
    var borrow := growth.fraction < checkpoint.fraction;
    :- RequireRange(balance, 0, MAX_TOTAL_SHARES);
    :- RequireRange(carry, 0, SCALE - 1);
    :- RequireRange(checkpoint.whole, 0, UINT256_MAX);
    :- RequireRange(checkpoint.fraction, 0, SCALE - 1);
    :- RequireRange(growth.whole, 0, UINT256_MAX);
    :- RequireRange(growth.fraction, 0, SCALE - 1);
    :- Need(!growth.Before(checkpoint), GrowthMovedBackwards);
    :- Need(!borrow || growth.whole != checkpoint.whole, BorrowUnderflow);
    var wholeClaim :- CheckedMul(balance, WholeDelta(checkpoint, growth));
    var product :- CheckedMul(balance, FractionDelta(checkpoint, growth));
    var numerator :- CheckedAdd(product, carry);
    var newClaim :- CheckedAdd(wholeClaim, numerator / SCALE);
    Ok(Settlement(growth, numerator % SCALE, newClaim))
  }

  lemma ProductFits(x: int, y: int)
    requires 0 <= x < SCALE && 0 <= y <= SCALE
    ensures 0 <= x * y <= UINT256_MAX - (SCALE - 1)
  {
    MulMono(0, x, y);
    MulMono(x, SCALE - 1, y);
    MulMono(y, SCALE, SCALE - 1);
  }

  lemma ScaleFits()
    ensures 3 * SCALE <= UINT256_MAX
  {
    MulMono(4, SCALE, SCALE);
  }

  /** What an accrual of `lpFee` over `totalShares` must do to the scaled growth and remainder. */
  function AccruedScaled(st: GrowthState, lpFee: int, totalShares: int): int
    requires totalShares > 0
  {
    st.growth.Scaled() + (lpFee * SCALE + st.remainder) / totalShares
  }

  lemma FractionalQuotient(whole: int, part: int, remainder: int, d: int, scale: int)
    requires 0 <= part < d && 0 <= remainder < scale
    ensures var n := part * scale + remainder;
      && 0 <= part * scale <= n && 0 <= n / d < scale
      && ((whole * d + part) * scale + remainder) / d == whole * scale + n / d
      && ((whole * d + part) * scale + remainder) % d == n % d
  {
    var n := part * scale + remainder;
    MulMono(0, part, scale);
    MulMono(part, d - 1, scale);
    Distribute(d, -1, scale);
    assert n < scale * d;
    DivAtLeast(n, d, scale);
    DivAtLeast(n, d, 0);
    Distribute(whole * d, part, scale);
    assert whole * d * scale == whole * scale * d;
    DivShift(n, d, whole * scale);
  }

  /** The intermediate fraction never leaves uint256 and never needs more than one carry. */
  lemma FractionalStep(lpFee: int, remainder: int, totalShares: int)
    requires 1 <= totalShares <= MAX_TOTAL_SHARES && 0 <= remainder < SCALE
    ensures var numerator := lpFee % totalShares * SCALE + remainder;
      && 0 <= lpFee % totalShares * SCALE <= numerator <= UINT256_MAX
      && 0 <= numerator / totalShares < SCALE
      && (lpFee * SCALE + remainder) / totalShares == lpFee / totalShares * SCALE + numerator / totalShares
      && (lpFee * SCALE + remainder) % totalShares == numerator % totalShares
  {
    Euclid(lpFee, totalShares);
    ProductFits(lpFee % totalShares, SCALE);
    FractionalQuotient(lpFee / totalShares, lpFee % totalShares, remainder, totalShares, SCALE);
  }

  lemma CombinedFraction(combined: int)
    requires 0 <= combined < 2 * SCALE
    ensures 0 <= combined / SCALE <= 1
  {
    DivAtLeast(combined, SCALE, 0);
    DivAtLeast(combined, SCALE, 2);
  }

  /** Every intermediate of the two-limb accrual, tied to the scaled growth. */
  lemma AdvanceIntermediates(st: GrowthState, lpFee: int, totalShares: int)
    requires 1 <= totalShares <= MAX_TOTAL_SHARES && 1 <= lpFee && st.InRange()
    ensures var numerator := lpFee % totalShares * SCALE + st.remainder;
      var combined := st.growth.fraction + numerator / totalShares;
      var scaled := AccruedScaled(st, lpFee, totalShares);
      && 0 <= lpFee / totalShares <= lpFee
      && 0 <= lpFee % totalShares
      && 0 <= lpFee % totalShares * SCALE <= numerator <= UINT256_MAX
      && numerator % totalShares == (lpFee * SCALE + st.remainder) % totalShares
      && combined < SCALE * 2 && 0 <= combined / SCALE <= 1
      && scaled / SCALE == st.growth.whole + lpFee / totalShares + combined / SCALE
      && scaled % SCALE == combined % SCALE
  {
    hide TwoToThe, ScaleBits;
    FractionalStep(lpFee, st.remainder, totalShares);
    var feeWhole := lpFee / totalShares;
    var combined := st.growth.fraction + (lpFee % totalShares * SCALE + st.remainder) / totalShares;
    DivAtLeast(lpFee, totalShares, 0);
    Euclid(lpFee, totalShares);
    MulMono(1, totalShares, feeWhole);
    CombinedFraction(combined);
    Distribute(st.growth.whole, feeWhole, SCALE);
    DivShift(combined, SCALE, st.growth.whole + feeWhole);
  }

  /** The accrual with its range checks discharged: what is left is the overflow and lifetime guards. */
  lemma AdvanceGuards(st: GrowthState, lpFee: int, totalShares: int)
    requires 1 <= totalShares <= MAX_TOTAL_SHARES && 1 <= lpFee <= MAX_LP_FEE_OPERAND && st.InRange()
    ensures var scaled := AccruedScaled(st, lpFee, totalShares);
      AdvanceFeeGrowth(st, lpFee, totalShares) ==
      if UINT256_MAX < scaled / SCALE || UINT256_MAX < st.lifetime + lpFee then Err(Overflow)
      else if st.lifetime + lpFee < scaled / SCALE then Err(GrowthExceedsLifetimeFees)
      else Ok(GrowthState(Growth(scaled / SCALE, scaled % SCALE),
                          (lpFee * SCALE + st.remainder) % totalShares, st.lifetime + lpFee))
  {
    hide AccruedScaled;
    AdvanceIntermediates(st, lpFee, totalShares);
    ScaleFits();
  }

  /**
   * The two-limb accrual succeeds exactly when the whole growth and the lifetime fees fit and growth does not
   * outrun lifetime fees; it then distributes the fee to the last fractional unit.
   */
  lemma AdvanceIsExact(st: GrowthState, lpFee: int, totalShares: int)
    requires 1 <= totalShares <= MAX_TOTAL_SHARES && 1 <= lpFee <= MAX_LP_FEE_OPERAND && st.InRange()
    ensures var r := AdvanceFeeGrowth(st, lpFee, totalShares);
      && (r.Ok? <==> AccruedScaled(st, lpFee, totalShares) / SCALE <= st.lifetime + lpFee <= UINT256_MAX)
      && (r.Ok? ==>
          && r.value.InRange() && r.value.remainder < totalShares
          && totalShares * (r.value.growth.Scaled() - st.growth.Scaled()) + r.value.remainder
               == lpFee * SCALE + st.remainder
          && r.value.lifetime == st.lifetime + lpFee
          && r.value.growth.whole <= r.value.lifetime)
  {
    hide AdvanceFeeGrowth, TwoToThe, ScaleBits;
    AdvanceGuards(st, lpFee, totalShares);
    AccrualParts(st, lpFee, totalShares);
  }

  /** What is dealt out per share, and the scaled growth after it, both with what is left over. */
  lemma AccrualParts(st: GrowthState, lpFee: int, totalShares: int)
    requires 1 <= totalShares && 1 <= lpFee && st.InRange()
    ensures var dealt := lpFee * SCALE + st.remainder; var scaled := AccruedScaled(st, lpFee, totalShares);
      && 0 <= dealt % totalShares < totalShares
      && totalShares * (scaled - st.growth.Scaled()) + dealt % totalShares == dealt
      && scaled == scaled / SCALE * SCALE + scaled % SCALE && 0 <= scaled % SCALE < SCALE && 0 <= scaled / SCALE
  {
    hide TwoToThe, ScaleBits;
    var dealt := lpFee * SCALE + st.remainder;
    Euclid(st.growth.Scaled() + dealt / totalShares, SCALE);
    Euclid(dealt, totalShares);
    MulMono(0, lpFee, SCALE);
    DivAtLeast(dealt, totalShares, 0);
    MulMono(0, st.growth.whole, SCALE);
    DivAtLeast(st.growth.Scaled() + dealt / totalShares, SCALE, 0);
  }

  lemma RemaindersCompose(first: int, second: int, remainder: int, totalShares: int)
    requires 1 <= totalShares
    ensures var n := first * SCALE + remainder;
      var both := (first + second) * SCALE + remainder;
      && n / totalShares + (second * SCALE + n % totalShares) / totalShares == both / totalShares
      && (second * SCALE + n % totalShares) % totalShares == both % totalShares
  {
    var n := first * SCALE + remainder;
    Euclid(n, totalShares);
    DivShift(second * SCALE + n % totalShares, totalShares, n / totalShares);
  }

  /** At a fixed supply, two accruals are the same as one accrual of their sum. */
  lemma AccrualsCompose(st: GrowthState, first: int, second: int, totalShares: int)
    requires 1 <= totalShares <= MAX_TOTAL_SHARES && 1 <= first && 1 <= second && st.InRange()
    requires first + second <= MAX_LP_FEE_OPERAND
    ensures var once := AdvanceFeeGrowth(st, first + second, totalShares);
      var half := AdvanceFeeGrowth(st, first, totalShares);
      half.Ok? && once.Ok? ==>
        var twice := AdvanceFeeGrowth(half.value, second, totalShares);
        twice.Ok? ==> twice == once
  {
    hide AdvanceFeeGrowth;
    AdvanceGuards(st, first, totalShares);
    AdvanceIsExact(st, first, totalShares);
    AdvanceGuards(st, first + second, totalShares);
    var half := AdvanceFeeGrowth(st, first, totalShares);
    if half.Ok? {
      AdvanceGuards(half.value, second, totalShares);
      Euclid(AccruedScaled(st, first, totalShares), SCALE);
      RemaindersCompose(first, second, st.remainder, totalShares);
      assert AccruedScaled(half.value, second, totalShares) == AccruedScaled(st, first + second, totalShares);
    }
  }

  /** The limb-wise order is the order of the scaled numbers. */
  lemma BeforeIsScaledOrder(g: Growth, h: Growth)
    requires 0 <= g.fraction < SCALE && 0 <= h.fraction < SCALE
    ensures g.Before(h) <==> g.Scaled() < h.Scaled()
  {
    if g.whole < h.whole {
      MulMono(g.whole + 1, h.whole, SCALE);
      Distribute(g.whole, 1, SCALE);
    } else if h.whole < g.whole {
      MulMono(h.whole + 1, g.whole, SCALE);
      Distribute(h.whole, 1, SCALE);
    }
  }

  lemma DeltaSplits(checkpoint: Growth, growth: Growth)
    ensures growth.Scaled() - checkpoint.Scaled()
         == WholeDelta(checkpoint, growth) * SCALE + FractionDelta(checkpoint, growth)
  {
    Distribute(growth.whole, -checkpoint.whole, SCALE);
    Distribute(growth.whole - checkpoint.whole, -1, SCALE);
  }

  lemma SettleQuotient(balance: int, whole: int, fraction: int, carry: int, scale: int)
    requires 0 <= balance && 0 <= whole && 0 <= fraction && 0 <= carry && 0 < scale
    ensures 0 <= balance * whole && 0 <= (balance * fraction + carry) / scale
    ensures var entitlement := balance * (whole * scale + fraction) + carry;
      && entitlement / scale == balance * whole + (balance * fraction + carry) / scale
      && entitlement % scale == (balance * fraction + carry) % scale
  {
    MulMono(0, balance, whole);
    MulMono(0, balance, fraction);
    DivAtLeast(balance * fraction + carry, scale, 0);
    Distribute(whole * scale, fraction, balance);
    assert balance * (whole * scale + fraction) == balance * fraction + balance * whole * scale;
    DivShift(balance * fraction + carry, scale, balance * whole);
  }

  /** Every intermediate of a settlement, tied to the single-number entitlement. */
  lemma SettleIntermediates(balance: int, checkpoint: Growth, carry: int, growth: Growth)
    requires 0 <= balance <= MAX_TOTAL_SHARES && 0 <= carry < SCALE && checkpoint.Normal() && growth.Normal()
    requires checkpoint.Scaled() <= growth.Scaled()
    ensures var numerator := balance * FractionDelta(checkpoint, growth) + carry;
      var entitlement := balance * (growth.Scaled() - checkpoint.Scaled()) + carry;
      && 0 <= WholeDelta(checkpoint, growth) <= UINT256_MAX && 0 <= balance * WholeDelta(checkpoint, growth)
      && 0 <= FractionDelta(checkpoint, growth) < SCALE
      && 0 <= balance * FractionDelta(checkpoint, growth) <= numerator <= UINT256_MAX
      && 0 <= numerator / SCALE
      && entitlement / SCALE == balance * WholeDelta(checkpoint, growth) + numerator / SCALE
      && entitlement % SCALE == numerator % SCALE
  {
    BeforeIsScaledOrder(growth, checkpoint);
    DeltaSplits(checkpoint, growth);
    var w, f := WholeDelta(checkpoint, growth), FractionDelta(checkpoint, growth);
    ProductFits(balance, f);
    SettleQuotient(balance, w, f, carry, SCALE);
  }

  /**
   * Settling succeeds exactly when growth did not move backwards and the whole claim fits in uint256; claim and
   * carry are then the quotient and remainder of the single-number entitlement.
   */
  lemma SettleIsExact(balance: int, checkpoint: Growth, carry: int, growth: Growth)
    requires 0 <= balance <= MAX_TOTAL_SHARES && 0 <= carry < SCALE && checkpoint.Normal() && growth.Normal()
    ensures var r := SettleFeeGrowth(balance, checkpoint, carry, growth);
      var entitlement := balance * (growth.Scaled() - checkpoint.Scaled()) + carry;
      && (r.Ok? <==> checkpoint.Scaled() <= growth.Scaled() && entitlement / SCALE <= UINT256_MAX)
      && (r.Ok? ==> r.value == Settlement(growth, entitlement % SCALE, entitlement / SCALE))
  {
    hide Growth.Scaled, WholeDelta, FractionDelta;
    BeforeIsScaledOrder(growth, checkpoint);
    ScaleFits();
    if checkpoint.Scaled() <= growth.Scaled() {
      SettleIntermediates(balance, checkpoint, carry, growth);
    }
  }
}
