/** The effective-reserve model of a funded fee-collection run, replayed swap by swap. */
module ReserveModel {
  import opened Outcomes
  import opened Division
  import opened ConstantProduct

  const FEE_BPS: int := 100
  const TARGET_SWAP_COUNT: int := 8

  datatype Pool = Pool(reserve0: int, reserve1: int, protocolFee0: int, protocolFee1: int) {
    function Reserves(): Reserves {
      ConstantProduct.Reserves(reserve0, reserve1)
    }
  }

  /** What one swap does to the pool, and what it pays. */
  function SwapPool(pool: Pool, amountIn: int, zeroForOne: bool): Result<(Pool, int), SwapFailure>
    requires 0 <= pool.reserve0 && 0 <= pool.reserve1
  {
    var protocolFee := ModeledProtocolFee(amountIn, FEE_BPS);
    var (reserveIn, reserveOut) := (pool.Reserves().In(zeroForOne), pool.Reserves().In(!zeroForOne));
    var amountOut :- ModeledAmountOut(amountIn, reserveIn, reserveOut, FEE_BPS);
    :- Need(0 < amountOut, NoOutput);
    :- Need(0 < protocolFee, NotOperational);
    var kept := amountIn - protocolFee;
    Ok((if zeroForOne
        then pool.(reserve0 := pool.reserve0 + kept, reserve1 := pool.reserve1 - amountOut,
                   protocolFee0 := pool.protocolFee0 + protocolFee)
        else pool.(reserve1 := pool.reserve1 + kept, reserve0 := pool.reserve0 - amountOut,
                   protocolFee1 := pool.protocolFee1 + protocolFee), amountOut))
  }

  /** Token by token, nothing is created: custody moves by the input and the output alone, and the product grows. */
  lemma SwapPoolConserves(pool: Pool, amountIn: int, zeroForOne: bool)
    requires 0 <= pool.reserve0 && 0 <= pool.reserve1
    ensures var r := SwapPool(pool, amountIn, zeroForOne);
      r.Ok? ==>
        var (next, amountOut) := r.value;
        && 0 < amountIn && 0 < amountOut
        && next.reserve0 + next.protocolFee0
           == pool.reserve0 + pool.protocolFee0 + (if zeroForOne then amountIn else -amountOut)
        && next.reserve1 + next.protocolFee1
           == pool.reserve1 + pool.protocolFee1 + (if zeroForOne then -amountOut else amountIn)
        && pool.protocolFee0 <= next.protocolFee0 && pool.protocolFee1 <= next.protocolFee1
        && 0 <= next.reserve0 && 0 <= next.reserve1
        && pool.Reserves().Product() <= next.Reserves().Product()
        && (pool.Reserves().Positive() ==> next.Reserves().Positive())
  {
    hide ModeledAmountOut, ModeledProtocolFee;
    SwapPoolNumbers(pool.Reserves().In(zeroForOne), pool.Reserves().In(!zeroForOne), amountIn);
  }

  /**
   * What a pool swap pays and keeps, in plain arithmetic: the floor of the exact output of the input less one percent;
   * a sixth of that percent, rounded down, becomes protocol fee, and the rest of the input becomes reserve.
   */
  lemma SwapPoolExactly(pool: Pool, amountIn: int, zeroForOne: bool, net: int)
    requires 0 <= pool.reserve0 && 0 <= pool.reserve1 && 0 <= amountIn
    requires net * 10000 <= amountIn * 9900 < (net + 1) * 10000
    ensures var (x, y) := if zeroForOne then (pool.reserve0, pool.reserve1) else (pool.reserve1, pool.reserve0);
      var r := SwapPool(pool, amountIn, zeroForOne);
      && (r.Ok? <==> 0 < net && 6 <= amountIn - net && 0 < y * net / (x + net))
      && (r.Ok? ==>
        var (next, amountOut) := r.value;
        var fee := if zeroForOne then next.protocolFee0 - pool.protocolFee0 else next.protocolFee1 - pool.protocolFee1;
        && amountOut == y * net / (x + net) && 6 * fee <= amountIn - net < 6 * fee + 6
        && next == (if zeroForOne
            then Pool(x + amountIn - fee, y - amountOut, pool.protocolFee0 + fee, pool.protocolFee1)
            else Pool(y - amountOut, x + amountIn - fee, pool.protocolFee0, pool.protocolFee1 + fee)))
  {
    var (x, y) := if zeroForOne then (pool.reserve0, pool.reserve1) else (pool.reserve1, pool.reserve0);
    QuoteIsFloor(amountIn, x, y, FEE_BPS, net);
    ProtocolFeeIsSixth(amountIn, FEE_BPS, net);
    hide ModeledAmountOut, ModeledProtocolFee;
  }

  lemma SwapPoolNumbers(x: int, y: int, amountIn: int)
    requires 0 <= x && 0 <= y
    ensures var out := ModeledAmountOut(amountIn, x, y, FEE_BPS);
      var protocolFee := ModeledProtocolFee(amountIn, FEE_BPS);
      out.Ok? && 0 < out.value && 0 < protocolFee ==>
        && protocolFee < amountIn && 0 <= y - out.value
        && x * y <= (x + amountIn - protocolFee) * (y - out.value)
        && (0 < x ==> 0 < y - out.value)
  {
    hide CeilDiv;
    var net := NetInput(amountIn, FEE_BPS);
    var protocolFee := ModeledProtocolFee(amountIn, FEE_BPS);
    if 0 < net {
      var kept := CeilDiv(x * y, x + net);
      CeilComplement(x, y, net);
      CeilIsLeast(x * y, x + net, kept);
      CeilIsLeast(x * y, x + net, 0);
      if 0 < protocolFee {
        MulMono(x + net, x + amountIn - protocolFee, kept);
      }
      if 0 < x && 0 < y {
        MulMono(1, x, y);
      }
    }
  }

  datatype Replayed = Replayed(pool: Pool, paid0: int, paid1: int)

  /** A list of swaps replayed in order, with the totals paid out in each token; the first failure stops it. */
  function Replay(pool: Pool, swaps: seq<(int, bool)>): Result<Replayed, SwapFailure>
    requires 0 <= pool.reserve0 && 0 <= pool.reserve1
    ensures Replay(pool, swaps).Ok? ==>
      0 <= Replay(pool, swaps).value.pool.reserve0 && 0 <= Replay(pool, swaps).value.pool.reserve1
    decreases |swaps|
  {
    if swaps == [] then Ok(Replayed(pool, 0, 0))
    else
      var n := |swaps| - 1;
      var before :- Replay(pool, swaps[..n]);
      SwapPoolConserves(before.pool, swaps[n].0, swaps[n].1);
      var (next, out) :- SwapPool(before.pool, swaps[n].0, swaps[n].1);
      if swaps[n].1 then Ok(Replayed(next, before.paid0, before.paid1 + out))
      else Ok(Replayed(next, before.paid0 + out, before.paid1))
  }

  /** The amounts sent in on one side. */
  function SentIn(swaps: seq<(int, bool)>, zeroForOne: bool): int {
    if swaps == [] then 0
    else
      var n := |swaps| - 1;
      SentIn(swaps[..n], zeroForOne) + if swaps[n].1 == zeroForOne then swaps[n].0 else 0
  }

  /**
   * Over a whole replay: custody equals liquidity plus what came in minus what was paid, and the product never falls.
   */
  lemma {:induction false} ReplayConserves(pool: Pool, swaps: seq<(int, bool)>)
    requires 0 <= pool.reserve0 && 0 <= pool.reserve1
    ensures var r := Replay(pool, swaps);
      r.Ok? ==>
        var p := r.value.pool;
        && p.reserve0 + p.protocolFee0 == pool.reserve0 + pool.protocolFee0 + SentIn(swaps, true) - r.value.paid0
        && p.reserve1 + p.protocolFee1 == pool.reserve1 + pool.protocolFee1 + SentIn(swaps, false) - r.value.paid1
        && pool.Reserves().Product() <= p.Reserves().Product()
        && (pool.Reserves().Positive() ==> p.Reserves().Positive())
    decreases |swaps|
  {
    hide SwapPool;
    if swaps != [] {
      var n := |swaps| - 1;
      ReplayConserves(pool, swaps[..n]);
      var before := Replay(pool, swaps[..n]);
      if before.Ok? {
        SwapPoolConserves(before.value.pool, swaps[n].0, swaps[n].1);
      }
    }
  }

  /** Round by round: a swap of token 0 while any are left, then one of token 1 while any are left. */
  function Rounds(rounds: nat, swap0: int, swap1: int, count0: int, count1: int): seq<(int, bool)> {
    if rounds == 0 then []
    else
      Rounds(rounds - 1, swap0, swap1, count0, count1) + Round(rounds - 1, swap0, swap1, count0, count1)
  }

  lemma SentInAppend(swaps: seq<(int, bool)>, swap: (int, bool), zeroForOne: bool)
    ensures SentIn(swaps + [swap], zeroForOne) == SentIn(swaps, zeroForOne) + if swap.1 == zeroForOne then swap.0 else 0
  {
    assert (swaps + [swap])[..|swaps|] == swaps;
  }

  function Min(a: int, b: int): int {
    if a < b then a else b
  }

  function Round(index: int, swap0: int, swap1: int, count0: int, count1: int): seq<(int, bool)> {
    (if index < count0 then [(swap0, true)] else []) + (if index < count1 then [(swap1, false)] else [])
  }

  lemma {:induction false} SentInConcat(a: seq<(int, bool)>, b: seq<(int, bool)>, zeroForOne: bool)
    ensures SentIn(a + b, zeroForOne) == SentIn(a, zeroForOne) + SentIn(b, zeroForOne)
    decreases |b|
  {
    if b == [] {
      assert a + b == a;
    } else {
      var n := |b| - 1;
      SentInConcat(a, b[..n], zeroForOne);
      assert a + b == a + b[..n] + [b[n]];
      SentInAppend(a + b[..n], b[n], zeroForOne);
    }
  }

  lemma RoundSends(index: int, swap0: int, swap1: int, count0: int, count1: int)
    ensures var round := Round(index, swap0, swap1, count0, count1);
      && SentIn(round, true) == (if index < count0 then swap0 else 0)
      && SentIn(round, false) == (if index < count1 then swap1 else 0)
  {
    var first: seq<(int, bool)> := if index < count0 then [(swap0, true)] else [];
    SentInAppend(first, (swap1, false), true);
    SentInAppend(first, (swap1, false), false);
    SentInAppend([], (swap0, true), true);
    SentInAppend([], (swap0, true), false);
    assert [] + [(swap0, true)] == [(swap0, true)];
    assert first + [] == first;
  }

  lemma {:induction false} RoundsSend(rounds: nat, swap0: int, swap1: int, count0: nat, count1: nat)
    ensures var swaps := Rounds(rounds, swap0, swap1, count0, count1);
      && SentIn(swaps, true) == Min(rounds, count0) * swap0
      && SentIn(swaps, false) == Min(rounds, count1) * swap1
  {
    hide SentIn, Round;
    if rounds == 0 {
      SentInNothing();
    } else {
      var prior := Rounds(rounds - 1, swap0, swap1, count0, count1);
      var round := Round(rounds - 1, swap0, swap1, count0, count1);
      RoundsSend(rounds - 1, swap0, swap1, count0, count1);
      SentInConcat(prior, round, true);
      SentInConcat(prior, round, false);
      RoundSends(rounds - 1, swap0, swap1, count0, count1);
      Distribute(rounds - 1, 1, swap0);
      Distribute(rounds - 1, 1, swap1);
    }
  }

  /** Each round sends token 0 first, while it is due, and then token 1, while that is; nothing else is sent. */
  lemma {:induction false} RoundsAlternate(rounds: nat, swap0: int, swap1: int, count0: nat, count1: nat, k: nat)
    ensures var swaps := Rounds(rounds, swap0, swap1, count0, count1);
      && |swaps| == Min(rounds, count0) + Min(rounds, count1)
      && (k < Min(rounds, count0) ==> swaps[k + Min(k, count1)] == (swap0, true))
      && (k < Min(rounds, count1) ==> swaps[Min(k + 1, count0) + k] == (swap1, false))
  {
    if rounds > 0 {
      RoundsAlternate(rounds - 1, swap0, swap1, count0, count1, k);
    }
  }

  lemma SentInNothing()
    ensures SentIn([], true) == 0 && SentIn([], false) == 0
  {
  }

  class EffectiveReserveModel {
    var reserve0: int
    var reserve1: int
    var protocolFee0: int
    var protocolFee1: int

    function Value(): Pool
      reads this
    {
      Pool(reserve0, reserve1, protocolFee0, protocolFee1)
    }

    constructor (liquidity0: int, liquidity1: int)
      ensures Value() == Pool(liquidity0, liquidity1, 0, 0)
    {
      reserve0, reserve1, protocolFee0, protocolFee1 := liquidity0, liquidity1, 0, 0;
    }

    /** A failing swap leaves the model as it was. */
    method ApplyModeledSwap(amountIn: int, zeroForOne: bool, expectedOutput: Option<int>)
      returns (r: Result<int, SwapFailure>)
      requires 0 <= reserve0 && 0 <= reserve1
      modifies this
      ensures 0 <= reserve0 && 0 <= reserve1
      ensures var exact := SwapPool(old(Value()), amountIn, zeroForOne);
        var quote := ModeledAmountOut(amountIn, old(Value()).Reserves().In(zeroForOne),
                                      old(Value()).Reserves().In(!zeroForOne), FEE_BPS);
        var diverged := expectedOutput.Some? && quote.Ok? && 0 < quote.value && quote.value != expectedOutput.value;
        match exact
        case Ok((next, amountOut)) =>
          if diverged then r == Err(QuoteDiverged) && Value() == old(Value()) else r == Ok(amountOut) && Value() == next
        case Err(error) => r == Err(if diverged then QuoteDiverged else error) && Value() == old(Value())
    {
      SwapPoolConserves(Value(), amountIn, zeroForOne);
      var reserveIn := if zeroForOne then reserve0 else reserve1;
      var reserveOut := if zeroForOne then reserve1 else reserve0;
      var amountOut :- ModeledAmountOut(amountIn, reserveIn, reserveOut, FEE_BPS);
      if amountOut <= 0 {
        return Err(NoOutput);
      }
      if expectedOutput.Some? && amountOut != expectedOutput.value {
        return Err(QuoteDiverged);
      }
      var protocolFee := ModeledProtocolFee(amountIn, FEE_BPS);
      if protocolFee <= 0 {
        return Err(NotOperational);
      }
      if zeroForOne {
        reserve0 := reserve0 + amountIn - protocolFee;
        reserve1 := reserve1 - amountOut;
        protocolFee0 := protocolFee0 + protocolFee;
      } else {
        reserve1 := reserve1 + amountIn - protocolFee;
        reserve0 := reserve0 - amountOut;
        protocolFee1 := protocolFee1 + protocolFee;
      }
      return Ok(amountOut);
    }
  }

  /**
   * Rebuilding the model from the two counters replays exactly the alternating sequence, and what it rebuilds
   * accounts for every unit sent in.
   */
  method ReconstructModel(liquidity0: int, liquidity1: int, swap0: int, swap1: int, count0: nat, count1: nat)
    returns (r: Result<EffectiveReserveModel, SwapFailure>)
    requires 0 <= liquidity0 && 0 <= liquidity1
    ensures r.Ok? ==> fresh(r.value)
    ensures
      if TARGET_SWAP_COUNT < count0 || TARGET_SWAP_COUNT < count1 then r == Err(TooManySwaps)
      else
        var rounds := if count0 > count1 then count0 else count1;
        match Replay(Pool(liquidity0, liquidity1, 0, 0), Rounds(rounds, swap0, swap1, count0, count1))
        case Err(error) => r == Err(error)
        case Ok(end) =>
          && r.Ok? && r.value.Value() == end.pool
          && end.pool.reserve0 + end.pool.protocolFee0 == liquidity0 + count0 * swap0 - end.paid0
          && end.pool.reserve1 + end.pool.protocolFee1 == liquidity1 + count1 * swap1 - end.paid1
          && liquidity0 * liquidity1 <= end.pool.reserve0 * end.pool.reserve1
  {
    hide Replay, Round, SwapPool;
    if TARGET_SWAP_COUNT < count0 || TARGET_SWAP_COUNT < count1 {
      return Err(TooManySwaps);
    }
    var model := new EffectiveReserveModel(liquidity0, liquidity1);
    var rounds := if count0 > count1 then count0 else count1;
    ghost var start := Pool(liquidity0, liquidity1, 0, 0);
    ReplayNothing(start);
    for index := 0 to rounds
      invariant fresh(model) && 0 <= model.reserve0 && 0 <= model.reserve1
      invariant Replays(model.Value(), start, Rounds(index, swap0, swap1, count0, count1))
    {
      ghost var prior := Rounds(index, swap0, swap1, count0, count1);
      RoundInSteps(prior, index, swap0, swap1, count0, count1);
      ghost var first := if index < count0 then prior + [(swap0, true)] else prior;
      if index < count0 {
        var out := ReplayOne(model, start, prior, swap0, true);
        if out.Err? {
          RoundsExtend(index + 1, rounds, swap0, swap1, count0, count1, first);
          FailedPrefix(start, first, Rounds(rounds, swap0, swap1, count0, count1));
          return Err(out.error);
        }
      }
      if index < count1 {
        var out := ReplayOne(model, start, first, swap1, false);
        if out.Err? {
          RoundsExtend(index + 1, rounds, swap0, swap1, count0, count1, first + [(swap1, false)]);
          FailedPrefix(start, first + [(swap1, false)], Rounds(rounds, swap0, swap1, count0, count1));
          return Err(out.error);
        }
      }
    }
    RoundsSend(rounds, swap0, swap1, count0, count1);
    ReplayConserves(start, Rounds(rounds, swap0, swap1, count0, count1));
    return Ok(model);
  }

  /** The model holds what the replay reaches. */
  ghost predicate Replays(now: Pool, start: Pool, swaps: seq<(int, bool)>)
    requires 0 <= start.reserve0 && 0 <= start.reserve1
  {
    Replay(start, swaps).Ok? && Replay(start, swaps).value.pool == now
  }

  lemma ReplayNothing(start: Pool)
    requires 0 <= start.reserve0 && 0 <= start.reserve1
    ensures Replays(start, start, [])
  {
  }

  lemma RoundInSteps(prior: seq<(int, bool)>, index: int, swap0: int, swap1: int, count0: int, count1: int)
    ensures var first := if index < count0 then prior + [(swap0, true)] else prior;
      var both := if index < count1 then first + [(swap1, false)] else first;
      first <= both == prior + Round(index, swap0, swap1, count0, count1)
  {
    assert prior + [] == prior;
  }

  /** One more swap of a replay, on the mutable model. */
  method ReplayOne(
    model: EffectiveReserveModel, ghost start: Pool, ghost swaps: seq<(int, bool)>, amountIn: int, zeroForOne: bool)
    returns (r: Result<int, SwapFailure>)
    requires 0 <= start.reserve0 && 0 <= start.reserve1 && Replays(model.Value(), start, swaps)
    modifies model
    ensures 0 <= model.reserve0 && 0 <= model.reserve1
    ensures match r
      case Ok(_) => Replays(model.Value(), start, swaps + [(amountIn, zeroForOne)])
      case Err(error) => Replay(start, swaps + [(amountIn, zeroForOne)]) == Err(error)
  {
    hide SwapPool, ModeledAmountOut;
    assert (swaps + [(amountIn, zeroForOne)])[..|swaps|] == swaps;
    r := model.ApplyModeledSwap(amountIn, zeroForOne, None);
  }

  /** A replay that fails on a prefix fails the same way on the whole. */
  lemma {:induction false} FailedPrefix(pool: Pool, part: seq<(int, bool)>, whole: seq<(int, bool)>)
    requires 0 <= pool.reserve0 && 0 <= pool.reserve1
    ensures part <= whole && Replay(pool, part).Err? ==> Replay(pool, whole) == Replay(pool, part)
    decreases |whole|
  {
    hide SwapPool;
    if part <= whole && part != whole {
      FailedPrefix(pool, part, whole[..|whole| - 1]);
    }
  }

  lemma {:induction false} RoundsExtend(
    index: nat, rounds: nat, swap0: int, swap1: int, count0: int, count1: int, part: seq<(int, bool)>)
    requires index <= rounds && part <= Rounds(index, swap0, swap1, count0, count1)
    ensures part <= Rounds(rounds, swap0, swap1, count0, count1)
    decreases rounds
  {
    if index < rounds {
      RoundsExtend(index, rounds - 1, swap0, swap1, count0, count1, part);
    }
  }
}
