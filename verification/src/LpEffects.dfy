/** What every operation of the fee ledger moves, in every reachable state: shares, allowances, money and credits. */
module LpEffects {
  import opened Outcomes
  import opened Division
  import opened MapSums
  import opened FeeGrowth
  import opened LpLedger
  import opened LpInvariant
  import opened LpRecycling
  import opened LpEager
  import opened LpRefinement
  import opened LpOperations
  import opened LpGuarantees
  import opened LpExactness

  // ---- Shares ----

  /** How many shares an operation that was done brings to an account. */
  function Brought(op: Op, account: Account): int {
    match op
    case OpMint(_, to, amount) => if account == to then amount else 0
    case OpBurn(_, from, amount) => if account == from then -amount else 0
    case OpTransfer(sender, recipient, amount) =>
      (if account == recipient then amount else 0) - (if account == sender then amount else 0)
    case OpTransferFrom(_, owner, recipient, amount) =>
      (if account == recipient then amount else 0) - (if account == owner then amount else 0)
    case _ => 0
  }

  /** And how many to the supply. */
  function Issued(op: Op): int {
    match op
    case OpMint(_, _, amount) => amount
    case OpBurn(_, _, amount) => -amount
    case _ => 0
  }

  lemma EagerShares(pool: Account, e: Eager, op: Op, account: Account)
    ensures var (f, reply) := EagerStep(pool, e, op);
      && f.balance(account) == e.balance(account) + (if reply.Done? then Brought(op, account) else 0)
      && f.total == e.total + (if reply.Done? then Issued(op) else 0)
      && f.generation == e.generation + (if reply.Done? && op.OpBurn? && f.total == 0 then 1 else 0)
  {
    hide LockAmounts, Sum, Recycle, SpreadRemainder, AddSwapFees, AddPrincipal, TwoToThe, ScaleBits;
    match op
    case OpBurn(_, from, amount) => RecycleLeaves(WithBalance(e, from, -amount).(total := e.total - amount), from);
    case OpTransfer(sender, recipient, amount) =>
      RecycleLeaves(WithBalance(WithBalance(e, sender, -amount), recipient, amount), sender);
    case OpTransferFrom(spender, owner, recipient, amount) =>
      var f := ApproveShares(e, owner, spender, Allowance(e.allowances, owner, spender) - amount);
      RecycleLeaves(WithBalance(WithBalance(f, owner, -amount), recipient, amount), owner);
    case _ =>
  }

  /**
   * Shares move by exactly the amount of the operation, between exactly its parties; a full exit starts a generation.
   */
  lemma SharesMove(pool: Account, ops: seq<Op>, op: Op, account: Account)
    ensures var s := Run(pool, ops).0; var (t, reply) := Step(pool, s, op);
      && BalanceOf(t, account) == BalanceOf(s, account) + (if reply.Done? then Brought(op, account) else 0)
      && t.total == s.total + (if reply.Done? then Issued(op) else 0)
      && t.generation == s.generation + (if reply.Done? && op.OpBurn? && t.total == 0 then 1 else 0)
  {
    hide Inv, Run, EagerRun, EagerStep, Step, Brought, BookMatches, Credit;
    ReachablePair(pool, ops, op);
    var s, e := Run(pool, ops).0, EagerRun(pool, ops).0;
    EagerShares(pool, e, op, account);
    assert e.balance(account) == BalanceOf(s, account);
    assert EagerStep(pool, e, op).0.balance(account) == BalanceOf(Step(pool, s, op).0, account);
  }

  // ---- Allowances ----

  lemma EagerAllowances(pool: Account, e: Eager, op: Op, owner: Account, spender: Account)
    ensures var (f, reply) := EagerStep(pool, e, op);
      var before := Allowance(e.allowances, owner, spender);
      Allowance(f.allowances, owner, spender) ==
      if reply.Done? && op.OpApprove? && op.owner == owner && op.spender == spender then op.amount
      else if reply.Done? && op.OpTransferFrom? && op.owner == owner && op.spender == spender then before - op.amount
      else before
  {
    hide LockAmounts, Sum, Recycle, SpreadRemainder, AddSwapFees, AddPrincipal, TwoToThe, ScaleBits;
    match op
    case OpBurn(_, from, amount) => RecycleLeaves(WithBalance(e, from, -amount).(total := e.total - amount), from);
    case OpTransfer(sender, recipient, amount) =>
      RecycleLeaves(WithBalance(WithBalance(e, sender, -amount), recipient, amount), sender);
    case OpTransferFrom(third, from, recipient, amount) =>
      var f := ApproveShares(e, from, third, Allowance(e.allowances, from, third) - amount);
      RecycleLeaves(WithBalance(WithBalance(f, from, -amount), recipient, amount), from);
    case _ =>
  }

  /** An approval sets its own allowance, a delegated transfer takes its amount off it, and nothing else touches any. */
  lemma AllowancesMove(pool: Account, ops: seq<Op>, op: Op, owner: Account, spender: Account)
    ensures var s := Run(pool, ops).0; var (t, reply) := Step(pool, s, op);
      var before := Allowance(s.allowances, owner, spender);
      Allowance(t.allowances, owner, spender) ==
      if reply.Done? && op.OpApprove? && op.owner == owner && op.spender == spender then op.amount
      else if reply.Done? && op.OpTransferFrom? && op.owner == owner && op.spender == spender then before - op.amount
      else before
  {
    hide Inv, Run, EagerRun, EagerStep, Step, BookMatches, Credit, Allowance;
    ReachablePair(pool, ops, op);
    EagerAllowances(pool, EagerRun(pool, ops).0, op, owner, spender);
    SameAllowancesRefined(Run(pool, ops).0, EagerRun(pool, ops).0);
    SameAllowancesRefined(Step(pool, Run(pool, ops).0, op).0, EagerStep(pool, EagerRun(pool, ops).0, op).0);
  }

  lemma SameAllowancesRefined(s: Ledger, e: Eager)
    requires Refines(s, e)
    ensures e.allowances == s.allowances
  {
  }

  /** An approval is granted for every amount of 256 bits. */
  lemma ApproveExactly(pool: Account, ops: seq<Op>, owner: Account, spender: Account, amount: int)
    ensures Step(pool, Run(pool, ops).0, OpApprove(owner, spender, amount)).1.Done? <==> 0 <= amount < SCALE * SCALE
  {
    hide Run;
  }

  /** A delegated transfer succeeds exactly within its allowance, where the owner's own transfer would. */
  lemma TransferFromExactly(
    pool: Account, ops: seq<Op>, spender: Account, owner: Account, recipient: Account, amount: int)
    ensures var s := Run(pool, ops).0;
      Step(pool, s, OpTransferFrom(spender, owner, recipient, amount)).1.Done?
      <==> amount <= Allowance(s.allowances, owner, spender) && TransferFits(s, owner, recipient, amount)
  {
    hide Inv, Refines, Run, EagerRun, Allowance;
    var op := OpTransferFrom(spender, owner, recipient, amount);
    var s, e := Run(pool, ops).0, EagerRun(pool, ops).0;
    ReachablePair(pool, ops, op);
    SameAllowancesRefined(s, e);
    MoveVerdict(s, e, owner, recipient, amount);
    hide TransferFits;
    DelegatedVerdict(e, spender, owner, recipient, amount);
    hide MoveApproved, MoveShares, Step;
    FitsInRange(s, owner, recipient, amount);
  }

  lemma FitsInRange(s: Ledger, sender: Account, recipient: Account, amount: int)
    ensures TransferFits(s, sender, recipient, amount) ==> 1 <= amount
  {
    hide LockedOf, CarryFits;
  }

  lemma DelegatedVerdict(e: Eager, spender: Account, owner: Account, recipient: Account, amount: int)
    ensures MoveApproved(e, spender, owner, recipient, amount).Ok? <==>
      amount <= Allowance(e.allowances, owner, spender) && MoveShares(e, owner, recipient, amount).Ok?
  {
    hide LockAmounts, Sum, RecycleBook, TwoToThe, ScaleBits, Allowance;
  }

  // ---- Money ----

  /** What one side of the pool holds and owes. */
  datatype Money = Money(reserve: int, protocolFees: int, accrued: int, paid: int, liability: int, custody: int)

  function MoneyOf(st: SideState): Money {
    Money(st.reserve, st.protocolFees, st.accrued, st.paid, st.liability, st.custody)
  }

  /** The money of a side after an operation that was done and answered `value`. */
  function Moved(m: Money, op: Op, i: FeeSide, value: int): Money {
    match op
    case OpCreditPrincipal(_, side, amount) =>
      if side == i then m.(reserve := m.reserve + amount, custody := m.custody + amount) else m
    case OpRecordSwapFees(_, side, netInput, protocolFee, lpFee) =>
      if side == i then
        Money(m.reserve + netInput, m.protocolFees + protocolFee, m.accrued + lpFee, m.paid, m.liability + lpFee,
              m.custody + netInput + protocolFee + lpFee)
      else m
    case OpConsumeClaim(_, _, side) =>
      if side == i then m.(paid := m.paid + value, liability := m.liability - value, custody := m.custody - value)
      else m
    case _ => m
  }

  function BookMoney(b: Book): Money {
    Money(b.reserve, b.protocolFees, b.accrued, b.paid, b.accrued - b.paid,
      b.reserve + b.protocolFees + b.accrued - b.paid)
  }

  lemma SameMoney(s: Ledger, e: Eager, i: FeeSide)
    requires Inv(s) && Refines(s, e)
    ensures MoneyOf(s.sides.At(i)) == BookMoney(e.books.At(i))
  {
    hide Inv, Refines, Conserved;
    BooksOf(s, e, i);
  }

  lemma RecycleKeepsMoney(e: Eager, account: Account, i: FeeSide)
    ensures var r := Recycle(e, account); r.Ok? ==> BookMoney(r.value.books.At(i)) == BookMoney(e.books.At(i))
  {
    hide TwoToThe, ScaleBits;
  }

  lemma MintKeepsMoney(e: Eager, account: Account, amount: int, i: FeeSide)
    ensures var r := MintShares(e, account, amount);
      r.Ok? ==> BookMoney(r.value.books.At(i)) == BookMoney(e.books.At(i))
  {
    hide TwoToThe, ScaleBits;
  }

  lemma SwapMoney(b: Book, total: int, balance: Account -> int, netInput: int, protocolFee: int, lpFee: int)
    requires 0 <= total
    ensures var r := AddSwapFees(b, total, balance, netInput, protocolFee, lpFee);
      var op := OpRecordSwapFees("", Side0, netInput, protocolFee, lpFee);
      r.Ok? ==> BookMoney(r.value) == Moved(BookMoney(b), op, Side0, 0)
  {
    hide TwoToThe, ScaleBits;
  }

  lemma EagerMoney(pool: Account, e: Eager, op: Op, i: FeeSide)
    requires 0 <= e.total
    ensures var (f, reply) := EagerStep(pool, e, op);
      BookMoney(f.books.At(i))
        == if reply.Done? then Moved(BookMoney(e.books.At(i)), op, i, reply.value) else BookMoney(e.books.At(i))
  {
    hide LockAmounts, Sum, Recycle, AddSwapFees, MintShares, TwoToThe, ScaleBits;
    match op
    case OpMint(_, account, amount) => MintKeepsMoney(e, account, amount, i);
    case OpBurn(_, from, amount) => RecycleKeepsMoney(WithBalance(e, from, -amount).(total :=
      e.total - amount), from, i);
    case OpTransfer(sender, recipient, amount) =>
      RecycleKeepsMoney(WithBalance(WithBalance(e, sender, -amount), recipient, amount), sender, i);
    case OpTransferFrom(spender, owner, recipient, amount) =>
      var f := ApproveShares(e, owner, spender, Allowance(e.allowances, owner, spender) - amount);
      RecycleKeepsMoney(WithBalance(WithBalance(f, owner, -amount), recipient, amount), owner, i);
    case OpRecordSwapFees(_, j, netInput, protocolFee, lpFee) =>
      SwapMoney(e.books.At(j), e.total, e.balance, netInput, protocolFee, lpFee);
    case _ =>
  }

  /** Principal, swap fees and claims move the money of their own side by exactly their amounts; nothing else does. */
  lemma MoneyMoves(pool: Account, ops: seq<Op>, op: Op, i: FeeSide)
    ensures var s := Run(pool, ops).0; var (t, reply) := Step(pool, s, op);
      MoneyOf(t.sides.At(i))
        == if reply.Done? then Moved(MoneyOf(s.sides.At(i)), op, i, reply.value) else MoneyOf(s.sides.At(i))
  {
    hide Inv, Run, EagerRun, EagerStep, Step, Refines, Moved, MoneyOf, BookMoney;
    ReachablePair(pool, ops, op);
    var s, e := Run(pool, ops).0, EagerRun(pool, ops).0;
    SupplyCap(s);
    SameTotals(s, e);
    EagerMoney(pool, e, op, i);
    SameMoney(s, e, i);
    SameMoney(Step(pool, s, op).0, EagerStep(pool, e, op).0, i);
  }

  // ---- When money is taken ----

  lemma EagerPrincipal(b: Book, amount: int)
    ensures AddPrincipal(b, amount).Ok? <==>
      0 <= amount < SCALE && b.reserve + amount < SCALE && Custody(b) + amount < SCALE * SCALE
  {
    hide TwoToThe, ScaleBits;
  }

  /** Principal is taken from the pool within the reserve cap and 256 bits of custody. */
  lemma PrincipalExactly(pool: Account, ops: seq<Op>, caller: Account, i: FeeSide, amount: int)
    ensures var s := Run(pool, ops).0; var st := s.sides.At(i);
      Step(pool, s, OpCreditPrincipal(caller, i, amount)).1.Done?
      <==> caller == pool && 0 <= amount < SCALE && st.reserve + amount < SCALE && st.custody + amount < SCALE * SCALE
  {
    hide Inv, Refines, Run, EagerRun, AddPrincipal, Attempt, TwoToThe, ScaleBits, Custody;
    var op := OpCreditPrincipal(caller, i, amount);
    var s, e := Run(pool, ops).0, EagerRun(pool, ops).0;
    ReachablePair(pool, ops, op);
    SameCustody(s, e, i);
    EagerPrincipal(e.books.At(i), amount);
  }

  lemma SameCustody(s: Ledger, e: Eager, i: FeeSide)
    requires Inv(s) && Refines(s, e)
    ensures Custody(e.books.At(i)) == s.sides.At(i).custody && e.books.At(i).reserve == s.sides.At(i).reserve
    ensures e.total == s.total && 0 <= s.total
  {
    hide Inv, Refines, Conserved;
    BooksOf(s, e, i);
    SameTotals(s, e);
  }

  /** Whether the LP fee of a swap can be dealt out over the shares: growth stays within lifetime fees. */
  predicate FeeFitsGrowth(growth: int, remainder: int, accrued: int, total: int, lpFee: int)
    requires 0 < total
  {
    && accrued + lpFee < SCALE * SCALE
    && (growth + (lpFee * SCALE + remainder) / total) / SCALE <= accrued + lpFee
  }

  lemma EagerSwap(b: Book, total: int, balance: Account -> int, netInput: int, protocolFee: int, lpFee: int)
    requires 0 <= total
    ensures AddSwapFees(b, total, balance, netInput, protocolFee, lpFee).Ok? <==>
      && 0 <= netInput < SCALE && 0 <= protocolFee < SCALE && 0 <= lpFee < SCALE
      && b.reserve + netInput < SCALE && Custody(b) + netInput + protocolFee + lpFee < SCALE * SCALE
      && (lpFee > 0 ==> total > 0 && FeeFitsGrowth(b.growth, b.remainder, b.accrued, total, lpFee))
  {
    hide TwoToThe, ScaleBits;
  }

  /**
   * Swap fees are taken from the pool within the caps; an LP fee needs shares, and growth to stay within lifetime fees.
   */
  lemma SwapFeesExactly(
    pool: Account, ops: seq<Op>, caller: Account, i: FeeSide, netInput: int, protocolFee: int, lpFee: int)
    ensures var s := Run(pool, ops).0; var st := s.sides.At(i);
      Step(pool, s, OpRecordSwapFees(caller, i, netInput, protocolFee, lpFee)).1.Done? <==>
      && caller == pool && 0 <= netInput < SCALE && 0 <= protocolFee < SCALE && 0 <= lpFee < SCALE
      && st.reserve + netInput < SCALE && st.custody + netInput + protocolFee + lpFee < SCALE * SCALE
      && (lpFee > 0 ==> s.total > 0 && FeeFitsGrowth(st.growth.Scaled(), st.remainder, st.accrued, s.total, lpFee))
  {
    hide Inv, Refines, Run, EagerRun, AddSwapFees, Attempt, TwoToThe, ScaleBits, Custody, FeeFitsGrowth;
    var op := OpRecordSwapFees(caller, i, netInput, protocolFee, lpFee);
    var s, e := Run(pool, ops).0, EagerRun(pool, ops).0;
    ReachablePair(pool, ops, op);
    SameCustody(s, e, i);
    BooksOf(s, e, i);
    EagerSwap(e.books.At(i), e.total, e.balance, netInput, protocolFee, lpFee);
  }

  /** A claim of the pool always succeeds, for whatever is owed in whole units. */
  lemma ClaimExactly(pool: Account, ops: seq<Op>, caller: Account, owner: Account, i: FeeSide)
    ensures var s := Run(pool, ops).0; var (t, reply) := Step(pool, s, OpConsumeClaim(caller, owner, i));
      && (reply.Done? <==> caller == pool)
      && (reply.Done? ==> reply.value == Credit(s, owner, i) / SCALE)
      && (reply.Done? ==> Credit(t, owner, i) == Credit(s, owner, i) % SCALE)
  {
    hide Inv, Refines, Run, EagerRun, Attempt, TwoToThe, ScaleBits, Credit;
    var op := OpConsumeClaim(caller, owner, i);
    var s, e := Run(pool, ops).0, EagerRun(pool, ops).0;
    ReachablePair(pool, ops, op);
    CreditOf(s, e, owner, i);
    CreditOf(Step(pool, s, op).0, EagerStep(pool, e, op).0, owner, i);
    Euclid(Credit(s, owner, i), SCALE);
  }

  /** Shares are issued by the pool up to the cap; from empty, what was left over must still fit. */
  lemma MintExactly(pool: Account, ops: seq<Op>, caller: Account, account: Account, amount: int)
    ensures var s := Run(pool, ops).0;
      Step(pool, s, OpMint(caller, account, amount)).1.Done? <==>
      && caller == pool && 1 <= amount && s.total + amount < SCALE
      && (s.total == 0 ==> LeftoverFits(s.sides.zero, amount) && LeftoverFits(s.sides.one, amount))
  {
    hide Inv, Refines, Run, EagerRun, Attempt, TwoToThe, ScaleBits;
    var op := OpMint(caller, account, amount);
    var s, e := Run(pool, ops).0, EagerRun(pool, ops).0;
    ReachablePair(pool, ops, op);
    SameTotals(s, e);
    SupplyCap(s);
    BooksOf(s, e, Side0);
    BooksOf(s, e, Side1);
    EagerMint(e, account, amount);
  }

  /** Handing out what was left over to this many shares keeps growth within lifetime fees. */
  predicate LeftoverFits(st: SideState, total: int)
    requires total != 0
  {
    (st.growth.Scaled() + st.remainder / total) / SCALE <= st.lifetime
  }

  lemma EagerMint(e: Eager, account: Account, amount: int)
    requires 0 <= e.total && e.books.zero.accrued <= UINT256_MAX && e.books.one.accrued <= UINT256_MAX
    ensures MintShares(e, account, amount).Ok? <==>
      && 1 <= amount && e.total + amount < SCALE
      && (e.total == 0 ==>
        && (e.books.zero.growth + e.books.zero.remainder / amount) / SCALE <= e.books.zero.accrued
        && (e.books.one.growth + e.books.one.remainder / amount) / SCALE <= e.books.one.accrued)
  {
    hide TwoToThe, ScaleBits;
  }

  // ---- Credits, in units of 1/SCALE ----

  /** The account whose position an operation may empty: its burner or sender. */
  function Leaver(op: Op): Option<Account> {
    match op
    case OpBurn(_, account, _) => Some(account)
    case OpTransfer(sender, _, _) => Some(sender)
    case OpTransferFrom(_, owner, _, _) => Some(owner)
    case _ => None
  }

  /**
   * What an operation that was done adds to what an account is owed on a side, given the remainder of the side, the
   * account's own credit and shares before and after, the leaver's credit and shares after, and the supplies.
   */
  function Earned(
    op: Op, account: Account, i: FeeSide, remainder: int, credit: int, before: int, after: int, leaverCredit: int,
    leaverAfter: int, totalBefore: int, totalAfter: int): int
  {
    match op
    case OpRecordSwapFees(_, side, _, _, lpFee) =>
      if side == i && lpFee > 0 && totalBefore > 0 then before * ((lpFee * SCALE + remainder) / totalBefore) else 0
    case OpConsumeClaim(_, owner, side) => if side == i && owner == account then -(credit / SCALE * SCALE) else 0
    case OpMint(_, _, _) => if totalBefore == 0 && totalAfter > 0 then after * (remainder / totalAfter) else 0
    case _ =>
      if Leaver(op).None? || leaverAfter != 0 then 0
      else
        var name, carry := Leaver(op).value, leaverCredit % SCALE;
        var given := if name != account then 0 else if totalAfter > 0 || name == "" then -carry else remainder;
        given + if totalAfter > 0 then after * ((remainder + carry) / totalAfter) else 0
  }

  lemma RecycledCredit(e: Eager, name: Account, account: Account, i: FeeSide)
    requires 0 <= e.total
    ensures var r := Recycle(e, name);
      r.Ok? ==>
        r.value.books.At(i).credit(account) == e.books.At(i).credit(account)
        + Earned(OpTransfer(name, name, 0), account, i, e.books.At(i).remainder, e.books.At(i).credit(account), 0,
                 e.balance(account), e.books.At(i).credit(name), e.balance(name), 0, e.total)
  {
    hide RecycleBook, TwoToThe, ScaleBits;
    if e.balance(name) == 0 {
      if e.total > 0 {
        RecycleBookShared(e.books.zero, e.total, e.balance, name);
        RecycleBookShared(e.books.one, e.total, e.balance, name);
      } else {
        RecycleBookLast(e.books.zero, e.balance, name);
        RecycleBookLast(e.books.one, e.balance, name);
      }
    }
  }

  lemma MintedCredit(e: Eager, to: Account, amount: int, account: Account, i: FeeSide)
    requires 0 <= e.total
    ensures var r := MintShares(e, to, amount);
      r.Ok? ==>
        && r.value.total == e.total + amount && 1 <= amount
        && r.value.books.At(i).credit(account) == e.books.At(i).credit(account)
        + if e.total == 0 then r.value.balance(account) * (e.books.At(i).remainder / r.value.total) else 0
  {
    hide TwoToThe, ScaleBits;
  }

  lemma SwappedCredit(
    b: Book, total: int, balance: Account -> int, netInput: int, protocolFee: int, lpFee: int, a: Account)
    requires 0 <= total
    ensures AddSwapFees(b, total, balance, netInput, protocolFee, lpFee).Ok? && lpFee > 0 ==> total > 0
    ensures AddSwapFees(b, total, balance, netInput, protocolFee, lpFee).Ok? ==> 0 <= lpFee
    ensures var r := AddSwapFees(b, total, balance, netInput, protocolFee, lpFee);
      r.Ok? ==>
        r.value.credit(a)
        == b.credit(a) + if lpFee > 0 then balance(a) * ((lpFee * SCALE + b.remainder) / total) else 0
  {
    hide TwoToThe, ScaleBits;
  }

  /** The credit of an account after an operation, as its formula has it. */
  ghost predicate EarnedAsStated(pool: Account, e: Eager, op: Op, account: Account, i: FeeSide) {
    var f := EagerStep(pool, e, op).0; var b := e.books.At(i);
    var name := if Leaver(op).Some? then Leaver(op).value else "";
    f.books.At(i).credit(account) == b.credit(account)
      + Earned(op, account, i, b.remainder, b.credit(account), e.balance(account), f.balance(account), b.credit(name),
               f.balance(name), e.total, f.total)
  }

  lemma EagerCredits(pool: Account, e: Eager, op: Op, account: Account, i: FeeSide)
    requires 0 <= e.total
    requires EagerStep(pool, e, op).1.Done? && 0 <= EagerStep(pool, e, op).0.total
    ensures EarnedAsStated(pool, e, op, account, i)
  {
    hide EarnedAsStated, EagerStep;
    if Leaver(op).Some? {
      LeaverCredits(pool, e, op, account, i);
    } else if op.OpRecordSwapFees? {
      SwapCredits(pool, e, op, account, i);
    } else {
      OtherCredits(pool, e, op, account, i);
    }
  }

  lemma LeaverCredits(pool: Account, e: Eager, op: Op, account: Account, i: FeeSide)
    requires 0 <= e.total && Leaver(op).Some?
    requires EagerStep(pool, e, op).1.Done? && 0 <= EagerStep(pool, e, op).0.total
    ensures EarnedAsStated(pool, e, op, account, i)
  {
    hide EarnedAsStated, EagerStep;
    if op.OpBurn? {
      BurnCredits(pool, e, op, account, i);
    } else {
      MoverCredits(pool, e, op, account, i);
    }
  }

  lemma BurnCredits(pool: Account, e: Eager, op: Op, account: Account, i: FeeSide)
    requires 0 <= e.total && op.OpBurn? && EagerStep(pool, e, op).1.Done? && 0 <= EagerStep(pool, e, op).0.total
    ensures EarnedAsStated(pool, e, op, account, i)
  {
    hide LockAmounts, Sum, Recycle, TwoToThe, ScaleBits;
    var from, amount := op.account, op.amount;
    RecycleLeaves(WithBalance(e, from, -amount).(total := e.total - amount), from);
    RecycledCredit(WithBalance(e, from, -amount).(total := e.total - amount), from, account, i);
  }

  lemma MoverCredits(pool: Account, e: Eager, op: Op, account: Account, i: FeeSide)
    requires 0 <= e.total && (op.OpTransfer? || op.OpTransferFrom?) && EagerStep(pool, e, op).1.Done?
    ensures EarnedAsStated(pool, e, op, account, i)
  {
    hide LockAmounts, Sum, Recycle, TwoToThe, ScaleBits, Allowance, WithAllowance;
    match op
    case OpTransfer(sender, recipient, amount) =>
      RecycleLeaves(WithBalance(WithBalance(e, sender, -amount), recipient, amount), sender);
      RecycledCredit(WithBalance(WithBalance(e, sender, -amount), recipient, amount), sender, account, i);
    case OpTransferFrom(spender, owner, recipient, amount) =>
      var f := ApproveShares(e, owner, spender, Allowance(e.allowances, owner, spender) - amount);
      RecycleLeaves(WithBalance(WithBalance(f, owner, -amount), recipient, amount), owner);
      RecycledCredit(WithBalance(WithBalance(f, owner, -amount), recipient, amount), owner, account, i);
  }

  lemma SwapCredits(pool: Account, e: Eager, op: Op, account: Account, i: FeeSide)
    requires 0 <= e.total && op.OpRecordSwapFees? && EagerStep(pool, e, op).1.Done?
    ensures EarnedAsStated(pool, e, op, account, i)
  {
    hide AddSwapFees, Earned, TwoToThe, ScaleBits;
    SwappedCredit(e.books.At(op.side), e.total, e.balance, op.netInput, op.protocolFee, op.lpFee, account);
    SwapEarns(e.books.At(i), op, account, i, e.balance(account), e.total);
  }

  lemma OtherCredits(pool: Account, e: Eager, op: Op, account: Account, i: FeeSide)
    requires 0 <= e.total && Leaver(op).None? && !op.OpRecordSwapFees? && EagerStep(pool, e, op).1.Done?
    ensures EarnedAsStated(pool, e, op, account, i)
  {
    hide EarnedAsStated, EagerStep;
    if op.OpMint? {
      MintCredits(pool, e, op, account, i);
    } else if op.OpConsumeClaim? {
      ClaimCredits(pool, e, op, account, i);
    } else {
      UntouchedCredits(pool, e, op, account, i);
    }
  }

  lemma MintCredits(pool: Account, e: Eager, op: Op, account: Account, i: FeeSide)
    requires 0 <= e.total && op.OpMint? && EagerStep(pool, e, op).1.Done?
    ensures EarnedAsStated(pool, e, op, account, i)
  {
    hide MintShares, TwoToThe, ScaleBits;
    MintedCredit(e, op.account, op.amount, account, i);
  }

  lemma ClaimCredits(pool: Account, e: Eager, op: Op, account: Account, i: FeeSide)
    requires op.OpConsumeClaim? && EagerStep(pool, e, op).1.Done?
    ensures EarnedAsStated(pool, e, op, account, i)
  {
    hide TwoToThe, ScaleBits;
  }

  lemma UntouchedCredits(pool: Account, e: Eager, op: Op, account: Account, i: FeeSide)
    requires Leaver(op).None? && !op.OpRecordSwapFees? && !op.OpMint? && !op.OpConsumeClaim?
    requires EagerStep(pool, e, op).1.Done?
    ensures EarnedAsStated(pool, e, op, account, i)
  {
    hide LockAmounts, Sum, LockShares, UnlockShares, TwoToThe, ScaleBits, Allowance, WithAllowance;
    match op
    case OpLock(_, id, owner, amount, unlockAt, permanent) =>
      EagerLock(e, id, Lock(owner, amount, unlockAt, permanent, true));
    case OpUnlock(_, id, now) => EagerUnlock(e, id, now);
    case _ =>
  }

  lemma SwapEarns(b: Book, op: Op, account: Account, i: FeeSide, before: int, total: int)
    requires op.OpRecordSwapFees?
    ensures forall after, leaverCredit, leaverAfter, totalAfter ::
      Earned(op, account, i, b.remainder, b.credit(account), before, after, leaverCredit, leaverAfter, total,
        totalAfter)
      == if op.side == i && op.lpFee > 0 && total > 0 then before * ((op.lpFee * SCALE + b.remainder) / total) else 0
  {
  }

  /**
   * What everybody is owed changes by exactly what the operation earns them: an LP fee and a recycled carry per share,
   * whole units paid to their claimant; nothing else, and nothing at all by an operation that fails.
   */
  lemma CreditsMove(pool: Account, ops: seq<Op>, op: Op, account: Account, i: FeeSide)
    ensures var s := Run(pool, ops).0; var (t, reply) := Step(pool, s, op);
      var name := if Leaver(op).Some? then Leaver(op).value else "";
      Credit(t, account, i) == Credit(s, account, i) +
        if reply.Failed? then 0
        else Earned(op, account, i, s.sides.At(i).remainder, Credit(s, account, i), BalanceOf(s, account),
                    BalanceOf(t, account), Credit(s, name, i), BalanceOf(t, name), s.total, t.total)
  {
    hide Inv, Refines, Run, EagerRun, EagerStep, Step, Earned, Credit, BookMatches;
    ReachablePair(pool, ops, op);
    var s, e := Run(pool, ops).0, EagerRun(pool, ops).0;
    var t, f := Step(pool, s, op).0, EagerStep(pool, e, op).0;
    var name := if Leaver(op).Some? then Leaver(op).value else "";
    SupplyCap(s);
    SupplyCap(t);
    SameShares(s, e, account);
    SameShares(t, f, account);
    SameShares(t, f, name);
    SameRemainder(s, e, i);
    CreditOf(s, e, account, i);
    CreditOf(s, e, name, i);
    CreditOf(t, f, account, i);
    if Step(pool, s, op).1.Done? {
      assert 0 <= f.total && 0 <= e.total;
      EagerCredits(pool, e, op, account, i);
    } else {
      FailureChangesNothing(pool, s, op);
    }
  }

  lemma SameShares(s: Ledger, e: Eager, account: Account)
    requires Refines(s, e)
    ensures e.balance(account) == BalanceOf(s, account) && e.total == s.total
  {
  }

  lemma FailureChangesNothing(pool: Account, s: Ledger, op: Op)
    ensures Step(pool, s, op).1.Failed? ==> Step(pool, s, op).0 == s
  {
    hide Attempt;
  }
}
