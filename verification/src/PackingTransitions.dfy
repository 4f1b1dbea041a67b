/** A transition model whose calls consume request ids, through a separate and through a packed interface. */
module PackingTransitions {
  import opened Outcomes
  import opened Division
  import opened Packing

  type RequestId = string

  datatype State = State(used: set<RequestId>, calls: nat)

  const EMPTY: State := State({}, 0)

  datatype Call =
    | Swap(id: RequestId, amountIn: int, minimumOut: int, deadline: int, now: int)
    | Liquidity(id: RequestId, amount0: int, amount1: int)
    | SwapWord(id: RequestId, word: int, deadline: int, now: int)
    | LiquidityWord(id: RequestId, word: int)

  type Reply = Result<int, Failure>

  predicate IsHexDigit(c: char) {
    '0' <= c <= '9' || 'a' <= c <= 'f' || 'A' <= c <= 'F'
  }

  /** 32 bytes in hexadecimal, in either case, not all zero. */
  predicate ValidId(id: RequestId) {
    && |id| == 66 && id[0] == '0' && (id[1] == 'x' || id[1] == 'X')
    && (forall i :: 2 <= i < 66 ==> IsHexDigit(id[i]))
    && exists i :: 2 <= i < 66 && id[i] != '0'
  }

  predicate Consumable(s: State, id: RequestId) {
    ValidId(id) && id !in s.used
  }

  function ConsumeFailure(s: State, id: RequestId): Failure {
    if ValidId(id) then RequestUsed else InvalidRequest
  }

  /** What a swap answers once its request id is consumed. */
  function SwapReply(amountIn: int, minimumOut: int, deadline: int, now: int): Reply {
    var fits := IsUint128(amountIn) && IsUint128(minimumOut);
    :- Need(fits, FieldRange);
    :- Need(now <= deadline, Expired);
    :- Need(amountIn != 0, NotPositive);
    :- Need(amountIn * 2 <= UINT256_MAX, Overflow);
    :- Need(minimumOut <= amountIn * 2, BelowMinimum);
    Ok(amountIn * 2)
  }

  function LiquidityReply(amount0: int, amount1: int): Reply {
    var fits := IsUint128(amount0) && IsUint128(amount1);
    :- Need(fits, FieldRange);
    :- Need(amount0 != 0 && amount1 != 0, NotPositive);
    :- Need(amount0 + amount1 <= UINT256_MAX, Overflow);
    Ok(amount0 + amount1)
  }

  /** A call consumes its id and counts exactly when it succeeds; a failed call changes nothing. */
  function Transact(s: State, id: RequestId, reply: Reply): (State, Reply) {
    if !Consumable(s, id) then (s, Err(ConsumeFailure(s, id)))
    else if reply.Ok? then (State(s.used + {id}, s.calls + 1), reply)
    else (s, reply)
  }

  function Apply(s: State, call: Call): (State, Reply) {
    match call
    case Swap(id, amountIn, minimumOut, deadline, now) =>
      Transact(s, id, SwapReply(amountIn, minimumOut, deadline, now))
    case Liquidity(id, amount0, amount1) => Transact(s, id, LiquidityReply(amount0, amount1))
    case SwapWord(id, word, deadline, now) =>
      (match Unpack(word)
       case Err(error) => (s, Err(error))
       case Ok(Pair(high, low)) => Transact(s, id, SwapReply(high, low, deadline, now)))
    case LiquidityWord(id, word) =>
      (match Unpack(word)
       case Err(error) => (s, Err(error))
       case Ok(Pair(high, low)) => Transact(s, id, LiquidityReply(high, low)))
  }

  /** A history of calls: the final state and every reply, in order. */
  function History(s: State, calls: seq<Call>): (State, seq<Reply>)
    decreases |calls|
  {
    if calls == [] then (s, [])
    else
      var (next, reply) := Apply(s, calls[0]);
      var (final, replies) := History(next, calls[1..]);
      (final, [reply] + replies)
  }

  // ---- The mutable model ----

  class PackingTransitionModel {
    var used: set<RequestId>
    var calls: nat

    function Now(): State
      reads this
    {
      State(used, calls)
    }

    constructor ()
      ensures Now() == EMPTY
    {
      used, calls := {}, 0;
    }

    /** Marks the id before anything else is checked; the caller restores it if the transition fails. */
    method Consume(id: RequestId) returns (r: Check<Failure>)
      modifies this`used
      ensures r == if Consumable(old(Now()), id) then Pass else Fail(ConsumeFailure(old(Now()), id))
      ensures used == if r.Pass? then old(used) + {id} else old(used)
    {
      if !ValidId(id) {
        return Fail(InvalidRequest);
      }
      if id in used {
        return Fail(RequestUsed);
      }
      used := used + {id};
      return Pass;
    }

    method TrySwap(id: RequestId, amountIn: int, minimumOut: int, deadline: int, now: int) returns (r: Reply)
      modifies this
      ensures var after := Transact(old(Now()), id, SwapReply(amountIn, minimumOut, deadline, now));
        r == after.1 && (r.Ok? ==> Now() == after.0)
    {
      var consumed := Consume(id);
      if consumed.Fail? {
        return Err(consumed.error);
      }
      if !IsUint128(amountIn) || !IsUint128(minimumOut) {
        return Err(FieldRange);
      }
      if deadline < now {
        return Err(Expired);
      }
      if amountIn == 0 {
        return Err(NotPositive);
      }
      var output := amountIn * 2;
      if output > UINT256_MAX {
        return Err(Overflow);
      }
      if output < minimumOut {
        return Err(BelowMinimum);
      }
      calls := calls + 1;
      return Ok(output);
    }

    method TryLiquidity(id: RequestId, amount0: int, amount1: int) returns (r: Reply)
      modifies this
      ensures var after := Transact(old(Now()), id, LiquidityReply(amount0, amount1));
        r == after.1 && (r.Ok? ==> Now() == after.0)
    {
      var consumed := Consume(id);
      if consumed.Fail? {
        return Err(consumed.error);
      }
      if !IsUint128(amount0) || !IsUint128(amount1) {
        return Err(FieldRange);
      }
      if amount0 == 0 || amount1 == 0 {
        return Err(NotPositive);
      }
      var result := amount0 + amount1;
      if result > UINT256_MAX {
        return Err(Overflow);
      }
      calls := calls + 1;
      return Ok(result);
    }

    /** Puts back what a failed transition may have changed. */
    method Restore(snapshot: State)
      modifies this
      ensures Now() == snapshot
    {
      used, calls := snapshot.used, snapshot.calls;
    }

    method SwapSeparate(id: RequestId, amountIn: int, minimumOut: int, deadline: int, now: int) returns (r: Reply)
      modifies this
      ensures (Now(), r) == Apply(old(Now()), Swap(id, amountIn, minimumOut, deadline, now))
    {
      var snapshot := Now();
      r := TrySwap(id, amountIn, minimumOut, deadline, now);
      if r.Err? {
        Restore(snapshot);
      }
    }

    method SwapPacked(id: RequestId, word: int, deadline: int, now: int) returns (r: Reply)
      modifies this
      ensures (Now(), r) == Apply(old(Now()), SwapWord(id, word, deadline, now))
    {
      var snapshot := Now();
      var fields := Unpack(word);
      if fields.Err? {
        return Err(fields.error);
      }
      r := TrySwap(id, fields.value.high, fields.value.low, deadline, now);
      if r.Err? {
        Restore(snapshot);
      }
    }

    method LiquiditySeparate(id: RequestId, amount0: int, amount1: int) returns (r: Reply)
      modifies this
      ensures (Now(), r) == Apply(old(Now()), Liquidity(id, amount0, amount1))
    {
      var snapshot := Now();
      r := TryLiquidity(id, amount0, amount1);
      if r.Err? {
        Restore(snapshot);
      }
    }

    method LiquidityPacked(id: RequestId, word: int) returns (r: Reply)
      modifies this
      ensures (Now(), r) == Apply(old(Now()), LiquidityWord(id, word))
    {
      var snapshot := Now();
      var fields := Unpack(word);
      if fields.Err? {
        return Err(fields.error);
      }
      r := TryLiquidity(id, fields.value.high, fields.value.low);
      if r.Err? {
        Restore(snapshot);
      }
    }
  }

  // ---- The packed interface refines the separate one ----

  /** A separate call whose two fields can be packed. */
  predicate Packable(call: Call) {
    match call
    case Swap(_, amountIn, minimumOut, _, _) => Pack(amountIn, minimumOut).Ok?
    case Liquidity(_, amount0, amount1) => Pack(amount0, amount1).Ok?
    case _ => false
  }

  function Packed(call: Call): Call {
    match call
    case Swap(id, amountIn, minimumOut, deadline, now) =>
      if Packable(call) then SwapWord(id, Pack(amountIn, minimumOut).value, deadline, now) else call
    case Liquidity(id, amount0, amount1) =>
      if Packable(call) then LiquidityWord(id, Pack(amount0, amount1).value) else call
    case _ => call
  }

  function Unpacked(call: Call): Call {
    match call
    case SwapWord(id, word, deadline, now) =>
      (match Unpack(word) case Ok(f) => Swap(id, f.high, f.low, deadline, now) case Err(_) => call)
    case LiquidityWord(id, word) =>
      (match Unpack(word) case Ok(f) => Liquidity(id, f.high, f.low) case Err(_) => call)
    case _ => call
  }

  function PackedAll(calls: seq<Call>): seq<Call> {
    if calls == [] then [] else [Packed(calls[0])] + PackedAll(calls[1..])
  }

  function UnpackedAll(calls: seq<Call>): seq<Call> {
    if calls == [] then [] else [Unpacked(calls[0])] + UnpackedAll(calls[1..])
  }

  lemma PackedApplies(s: State, call: Call)
    ensures Apply(s, Packed(call)) == Apply(s, call)
    ensures Packable(call) ==> Unpacked(Packed(call)) == call
  {
    match call
    case Swap(_, amountIn, minimumOut, _, _) => PackThenUnpack(amountIn, minimumOut);
    case Liquidity(_, amount0, amount1) => PackThenUnpack(amount0, amount1);
    case _ =>
  }

  lemma UnpackedApplies(s: State, call: Call)
    ensures Apply(s, Unpacked(call)) == Apply(s, call)
    ensures call.SwapWord? || call.LiquidityWord? ==> Packed(Unpacked(call)) == call
  {
    match call
    case SwapWord(_, word, _, _) => UnpackThenPack(word);
    case LiquidityWord(_, word) => UnpackThenPack(word);
    case _ =>
  }

  /** On every history, packing every call that can be packed changes no reply, no failure and no state. */
  lemma {:induction false} PackedHistoryIsSeparate(s: State, calls: seq<Call>)
    ensures History(s, PackedAll(calls)) == History(s, calls)
    decreases |calls|
  {
    hide Apply, Packed, Unpacked, ValidId;
    if calls != [] {
      PackedApplies(s, calls[0]);
      PackedHistoryIsSeparate(Apply(s, calls[0]).0, calls[1..]);
      assert PackedAll(calls)[1..] == PackedAll(calls[1..]);
    }
  }

  /** And conversely, every packed history is the separate history of the unpacked fields. */
  lemma {:induction false} UnpackedHistoryIsPacked(s: State, calls: seq<Call>)
    ensures History(s, UnpackedAll(calls)) == History(s, calls)
    decreases |calls|
  {
    hide Apply, Packed, Unpacked, ValidId;
    if calls != [] {
      UnpackedApplies(s, calls[0]);
      UnpackedHistoryIsPacked(Apply(s, calls[0]).0, calls[1..]);
      assert UnpackedAll(calls)[1..] == UnpackedAll(calls[1..]);
    }
  }

  // ---- Every success consumes one id of its own ----

  /** The ids of the calls that succeeded, in order. */
  function Succeeded(calls: seq<Call>, replies: seq<Reply>): seq<RequestId>
    requires |calls| == |replies|
  {
    if calls == [] then []
    else (if replies[0].Ok? then [calls[0].id] else []) + Succeeded(calls[1..], replies[1..])
  }

  lemma {:induction false} RepliesToAll(s: State, calls: seq<Call>)
    ensures |History(s, calls).1| == |calls|
    decreases |calls|
  {
    hide Apply, Packed, Unpacked, ValidId;
    if calls != [] {
      RepliesToAll(Apply(s, calls[0]).0, calls[1..]);
    }
  }

  /** Along every history the consumed ids are exactly those of the successful calls, and none succeeds twice. */
  lemma {:induction false} SuccessesAreConsumed(s: State, calls: seq<Call>)
    requires s.calls == |s.used|
    ensures |History(s, calls).1| == |calls|
    ensures var (final, replies) := History(s, calls);
      var ids := Succeeded(calls, replies);
      && final.calls == |final.used| == s.calls + |ids|
      && (forall id :: id in final.used <==> id in s.used || id in ids)
      && (forall id :: id in ids ==> id !in s.used && ValidId(id))
      && (forall a, b :: 0 <= a < b < |ids| ==> ids[a] != ids[b])
    decreases |calls|
  {
    hide Apply, Packed, Unpacked, ValidId;
    if calls != [] {
      var next := Apply(s, calls[0]).0;
      OneCall(s, calls[0]);
      SuccessesAreConsumed(next, calls[1..]);
      RepliesToAll(s, calls);
    }
  }

  lemma OneTransaction(s: State, id: RequestId, reply: Reply)
    requires s.calls == |s.used|
    ensures var (next, r) := Transact(s, id, reply);
      && (r.Err? ==> next == s)
      && (r.Ok? ==> next == State(s.used + {id}, s.calls + 1) && id !in s.used && ValidId(id))
      && next.calls == |next.used|
  {
    hide ValidId;
  }

  lemma OneCall(s: State, call: Call)
    requires s.calls == |s.used|
    ensures var (next, reply) := Apply(s, call);
      && (reply.Err? ==> next == s)
      && (reply.Ok? ==> next == State(s.used + {call.id}, s.calls + 1) && call.id !in s.used && ValidId(call.id))
      && next.calls == |next.used|
  {
    hide Transact, ValidId, SwapReply, LiquidityReply;
    forall reply
      ensures var (next, r) := Transact(s, call.id, reply);
        && (r.Err? ==> next == s)
        && (r.Ok? ==> next == State(s.used + {call.id}, s.calls + 1) && call.id !in s.used && ValidId(call.id))
        && next.calls == |next.used|
    {
      OneTransaction(s, call.id, reply);
    }
  }

  /** From the empty state, the number of successful calls is the number of consumed ids. */
  lemma CallsCountRequests(calls: seq<Call>)
    ensures var final := History(EMPTY, calls).0; final.calls == |final.used|
  {
    SuccessesAreConsumed(EMPTY, calls);
  }

  /** The overflow guards of the transitions never fire on fields that passed the range check. */
  lemma NoTransitionOverflows(s: State, call: Call)
    ensures Apply(s, call).1 != Err(Overflow)
  {
    MulMono(4, FIELD_BASE, FIELD_BASE);
    var f := Unpack(if call.SwapWord? || call.LiquidityWord? then call.word else 0);
  }

  // ---- Exactly when a call succeeds, and what it pays ----

  predicate Fits(n: int) {
    0 <= n < FIELD_BASE
  }

  /**
   * A swap succeeds exactly under a valid unused id, within its deadline, with a positive input and two fields of 128
   * bits, and a minimum of at most twice the input, which it pays; several faults are reported in this order.
   */
  lemma SwapExactly(s: State, id: RequestId, amountIn: int, minimumOut: int, deadline: int, now: int)
    ensures var (t, reply) := Apply(s, Swap(id, amountIn, minimumOut, deadline, now));
      && (reply == if !ValidId(id) then Err(InvalidRequest)
                   else if id in s.used then Err(RequestUsed)
                   else if !Fits(amountIn) || !Fits(minimumOut) then Err(FieldRange)
                   else if deadline < now then Err(Expired)
                   else if amountIn == 0 then Err(NotPositive)
                   else if 2 * amountIn < minimumOut then Err(BelowMinimum)
                   else Ok(2 * amountIn))
      && (reply.Err? ==> t == s) && (reply.Ok? ==> t.used == s.used + {id} && t.calls == s.calls + 1)
  {
    hide ValidId;
    NoTransitionOverflows(s, Swap(id, amountIn, minimumOut, deadline, now));
  }

  /** A liquidity call succeeds exactly under a valid unused id with two positive fields, and pays their sum. */
  lemma LiquidityExactly(s: State, id: RequestId, amount0: int, amount1: int)
    ensures var (t, reply) := Apply(s, Liquidity(id, amount0, amount1));
      && (reply == if !ValidId(id) then Err(InvalidRequest)
                   else if id in s.used then Err(RequestUsed)
                   else if !Fits(amount0) || !Fits(amount1) then Err(FieldRange)
                   else if amount0 == 0 || amount1 == 0 then Err(NotPositive)
                   else Ok(amount0 + amount1))
      && (reply.Err? ==> t == s) && (reply.Ok? ==> t.used == s.used + {id} && t.calls == s.calls + 1)
  {
    hide ValidId;
    NoTransitionOverflows(s, Liquidity(id, amount0, amount1));
  }

  /** An id is `0x`, in either case, before 64 hexadecimal digits in either case, of which one at least is not zero. */
  lemma IdsExactly(prefix: string, digits: string)
    requires |prefix| == 2
    ensures ValidId(prefix + digits) <==>
      && prefix in {"0x", "0X"} && |digits| == 64 && (exists i :: 0 <= i < 64 && digits[i] != '0')
      && forall i :: 0 <= i < |digits| ==>
           '0' <= digits[i] <= '9' || 'a' <= digits[i] <= 'f' || 'A' <= digits[i] <= 'F'
  {
    var id := prefix + digits;
    assert forall i :: 0 <= i < |digits| ==> id[i + 2] == digits[i];
    assert forall i :: 2 <= i < |id| ==> id[i] == digits[i - 2];
    assert id[0] == prefix[0] && id[1] == prefix[1];
    assert prefix == "0x" <==> prefix[0] == '0' && prefix[1] == 'x';
    assert prefix == "0X" <==> prefix[0] == '0' && prefix[1] == 'X';
    if ValidId(id) {
      forall i | 0 <= i < |digits| ensures IsHexDigit(digits[i]) {
        assert IsHexDigit(id[i + 2]);
      }
      var i :| 2 <= i < 66 && id[i] != '0';
      assert digits[i - 2] != '0';
    }
  }

  // ---- Replays ----

  function Lower(c: char): char {
    if 'A' <= c <= 'Z' then c + ('a' - 'A') else c
  }

  /** Two ids write the same 32 bytes: they agree up to the case of their letters, that of the prefix included. */
  predicate SameValue(a: RequestId, b: RequestId) {
    |a| == |b| && forall i :: 0 <= i < |a| ==> Lower(a[i]) == Lower(b[i])
  }

  /** The prefix and every digit in lower case. */
  predicate NormalForm(id: RequestId) {
    forall i :: 0 <= i < |id| ==> Lower(id[i]) == id[i]
  }

  /** What a call answers where its id does not stand in the way. */
  function FieldsReply(call: Call): Reply {
    match call
    case Swap(_, amountIn, minimumOut, deadline, now) => SwapReply(amountIn, minimumOut, deadline, now)
    case Liquidity(_, amount0, amount1) => LiquidityReply(amount0, amount1)
    case SwapWord(_, word, deadline, now) =>
      (match Unpack(word)
       case Err(error) => Err(error)
       case Ok(Pair(high, low)) => SwapReply(high, low, deadline, now))
    case LiquidityWord(_, word) =>
      (match Unpack(word)
       case Err(error) => Err(error)
       case Ok(Pair(high, low)) => LiquidityReply(high, low))
  }

  /**
   * When a replay is refused: a call whose id writes the value of a used one, and whose fields pass, succeeds if and
   * only if its own spelling is not among the used ones.
   */
  lemma ReplayIsRefusedExactly(s: State, a: RequestId, call: Call)
    requires a in s.used && SameValue(a, call.id) && ValidId(call.id) && FieldsReply(call).Ok?
    ensures Apply(s, call).1.Ok? <==> call.id !in s.used
    ensures call.id in s.used ==> Apply(s, call) == (s, Err(RequestUsed))
    ensures NormalForm(a) && NormalForm(call.id) ==> Apply(s, call) == (s, Err(RequestUsed))
  {
    hide ValidId, SwapReply, LiquidityReply;
    if NormalForm(a) && NormalForm(call.id) {
      NormalIsUnique(a, call.id);
    }
  }

  lemma NormalIsUnique(a: RequestId, b: RequestId)
    requires SameValue(a, b) && NormalForm(a) && NormalForm(b)
    ensures a == b
  {
    forall i | 0 <= i < |a|
      ensures a[i] == b[i]
    {
      assert Lower(a[i]) == a[i];
    }
  }

  /** No 32-byte value succeeds twice on the history. */
  ghost predicate ReplayFree(calls: seq<Call>)
    requires |History(EMPTY, calls).1| == |calls|
  {
    var ids := Succeeded(calls, History(EMPTY, calls).1);
    forall x, y :: 0 <= x < y < |ids| ==> !SameValue(ids[x], ids[y])
  }

  /** Every history over these ids lets each value succeed at most once. */
  ghost predicate NeverReplayed(ids: set<RequestId>) {
    forall calls: seq<Call> :: (forall call :: call in calls ==> call.id in ids) ==>
      |History(EMPTY, calls).1| == |calls| && ReplayFree(calls)
  }

  /** At most one valid spelling of each value. */
  predicate OneSpelling(ids: set<RequestId>) {
    forall a, b :: a in ids && b in ids && ValidId(a) && ValidId(b) && SameValue(a, b) ==> a == b
  }

  /** The successful ids of a history are ids of its calls. */
  lemma {:induction false} SucceededAreCalled(calls: seq<Call>, replies: seq<Reply>)
    requires |calls| == |replies|
    ensures forall id :: id in Succeeded(calls, replies) ==> exists call :: call in calls && call.id == id
    decreases |calls|
  {
    if calls != [] {
      SucceededAreCalled(calls[1..], replies[1..]);
      assert calls[0] in calls;
      assert forall call :: call in calls[1..] ==> call in calls;
    }
  }

  lemma OneSpellingSuffices(ids: set<RequestId>, calls: seq<Call>)
    requires OneSpelling(ids) && forall call :: call in calls ==> call.id in ids
    ensures |History(EMPTY, calls).1| == |calls| && ReplayFree(calls)
  {
    hide ValidId, SameValue, History, Succeeded;
    SuccessesAreConsumed(EMPTY, calls);
    SucceededAreCalled(calls, History(EMPTY, calls).1);
    var done := Succeeded(calls, History(EMPTY, calls).1);
    forall x, y | 0 <= x < y < |done|
      ensures !SameValue(done[x], done[y])
    {
      assert done[x] in done && done[y] in done;
    }
  }

  /** Two spellings of one value both succeed, one after the other. */
  lemma SpellingsBothSucceed(a: RequestId, b: RequestId, amount: int)
    requires ValidId(a) && ValidId(b) && a != b && SameValue(a, b) && 0 < amount && IsUint128(amount)
    ensures var calls := [Liquidity(a, amount, amount), Liquidity(b, amount, amount)];
      && History(EMPTY, calls).1 == [Ok(2 * amount), Ok(2 * amount)] && !ReplayFree(calls)
  {
    hide ValidId, SameValue;
    var first, second := Liquidity(a, amount, amount), Liquidity(b, amount, amount);
    NoTransitionOverflows(EMPTY, first);
    var done: Reply := Ok(2 * amount);
    assert LiquidityReply(amount, amount) == done;
    var s := State({a}, 1);
    assert EMPTY.used + {a} == {a};
    assert Apply(EMPTY, first) == (s, done);
    assert Apply(s, second).1 == done;
    assert [first, second][1..] == [second] && [second][1..] == [];
    assert History(s, [second]).1 == [done];
    var replies := History(EMPTY, [first, second]).1;
    assert replies == [done, done] && replies[1..] == [done] && replies[1..][1..] == [];
    assert Succeeded([second], [done]) == [b];
    var ids := Succeeded([first, second], replies);
    assert ids == [a, b];
    assert SameValue(ids[0], ids[1]);
  }

  lemma OneFits()
    ensures IsUint128(1)
  {
  }

  /** The exact condition on what callers use as ids: replays are refused if and only if no value has two spellings. */
  lemma NoReplayExactly(ids: set<RequestId>)
    ensures NeverReplayed(ids) <==> OneSpelling(ids)
  {
    hide ValidId, SameValue, ReplayFree;
    if OneSpelling(ids) {
      forall calls: seq<Call> | forall call :: call in calls ==> call.id in ids
        ensures |History(EMPTY, calls).1| == |calls| && ReplayFree(calls)
      {
        OneSpellingSuffices(ids, calls);
      }
    } else {
      var a, b :| a in ids && b in ids && ValidId(a) && ValidId(b) && SameValue(a, b) && a != b;
      OneFits();
      SpellingsBothSucceed(a, b, 1);
      var calls := [Liquidity(a, 1, 1), Liquidity(b, 1, 1)];
      assert forall call :: call in calls ==> call.id in ids;
    }
  }

  /** So on every history whose ids are in normal form, no 32-byte value succeeds twice. */
  lemma NormalFormsAreNeverReplayed(calls: seq<Call>)
    requires forall call :: call in calls ==> NormalForm(call.id)
    ensures |History(EMPTY, calls).1| == |calls| && ReplayFree(calls)
  {
    hide ValidId, ReplayFree;
    var ids := set call | call in calls :: call.id;
    forall a, b | a in ids && b in ids && SameValue(a, b)
      ensures a == b
    {
      NormalIsUnique(a, b);
    }
    OneSpellingSuffices(ids, calls);
  }

  /** The condition is not idle: there is a value with two valid spellings. */
  lemma SpellingsAreDistinct() returns (a: RequestId, b: RequestId)
    ensures ValidId(a) && ValidId(b) && SameValue(a, b) && a != b && NormalForm(a)
  {
    a := "0x" + seq(64, i => 'a');
    b := "0x" + seq(64, i => 'A');
    assert a[2] == 'a' && b[2] == 'A';
  }
}
