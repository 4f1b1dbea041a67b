/**
 * The ledger of transferable LP shares as a value, with every public operation as a transition that either
 * yields the next ledger or fails. Holders are settled lazily: a position remembers the growth it was last
 * settled at. `LpModel` proves the mutable program against these transitions.
 */
module LpLedger {
  import opened Outcomes
  import opened MapSums
  import opened FeeGrowth

  type Account = string
  type LockId = string

  datatype FeeSide = Side0 | Side1

  datatype PerSide<T> = PerSide(zero: T, one: T) {
    function At(i: FeeSide): T {
      if i.Side0? then zero else one
    }

    function With(i: FeeSide, v: T): PerSide<T> {
      if i.Side0? then PerSide(v, one) else PerSide(zero, v)
    }
  }

  datatype Position = Position(checkpoint: Growth, carry: int, claimable: int)

  datatype Holder = Holder(balance: int, positions: PerSide<Position>)

  datatype Lock = Lock(owner: Account, amount: int, unlockAt: int, permanent: bool, active: bool)

  datatype SideState = SideState(
    growth: Growth, remainder: int, lifetime: int,
    accrued: int, paid: int, liability: int,
    reserve: int, protocolFees: int, custody: int)

  datatype Ledger = Ledger(
    total: int, generation: int,
    holders: map<Account, Holder>,
    allowances: Allowances,
    locks: map<LockId, Lock>,
    sides: PerSide<SideState>)

  const NEW_SIDE := SideState(Growth(0, 0), 0, 0, 0, 0, 0, 0, 0, 0)
  const EMPTY := Ledger(0, 0, map[], map[], map[], PerSide(NEW_SIDE, NEW_SIDE))

  function BalanceOf(s: Ledger, account: Account): int {
    if account in s.holders then s.holders[account].balance else 0
  }

  ghost function LockAmounts(locks: map<LockId, Lock>, account: Account): map<LockId, int> {
    map id | id in locks && locks[id].active && locks[id].owner == account :: locks[id].amount
  }

  ghost function LockedOf(s: Ledger, account: Account): int {
    Sum(LockAmounts(s.locks, account))
  }

  type Allowances = map<Account, map<Account, int>>

  function Allowance(allowances: Allowances, owner: Account, spender: Account): int {
    if owner in allowances && spender in allowances[owner] then allowances[owner][spender] else 0
  }

  function WithAllowance(allowances: Allowances, owner: Account, spender: Account, amount: int): Allowances {
    var values := if owner in allowances then allowances[owner] else map[];
    allowances[owner := values[spender := amount]]
  }

  function EnsureHolder(s: Ledger, account: Account): Ledger {
    if account in s.holders then s
    else
      var zero := Position(s.sides.zero.growth, 0, 0);
      var one := Position(s.sides.one.growth, 0, 0);
      s.(holders := s.holders[account := Holder(0, PerSide(zero, one))])
  }

  function SettlePosition(balance: int, p: Position, growth: Growth): Fallible<Position> {
    var settled :- SettleFeeGrowth(balance, p.checkpoint, p.carry, growth);
    var claimable :- CheckedAdd(p.claimable, settled.newClaim);
    Ok(Position(settled.checkpoint, settled.carry, claimable))
  }

  function SettleHolder(h: Holder, sides: PerSide<SideState>): Fallible<Holder> {
    var zero :- SettlePosition(h.balance, h.positions.zero, sides.zero.growth);
    var one :- SettlePosition(h.balance, h.positions.one, sides.one.growth);
    Ok(Holder(h.balance, PerSide(zero, one)))
  }

  function Settle(s: Ledger, account: Account): Fallible<Ledger> {
    var present := EnsureHolder(s, account);
    var h :- SettleHolder(present.holders[account], s.sides);
    Ok(present.(holders := present.holders[account := h]))
  }

  /** Shares leave or join one holder without settlement. */
  function AddBalance(s: Ledger, account: Account, amount: int): Ledger
    requires account in s.holders
  {
    var h := s.holders[account];
    s.(holders := s.holders[account := h.(balance := h.balance + amount)])
  }

  function SetPosition(s: Ledger, account: Account, i: FeeSide, p: Position): Ledger
    requires account in s.holders
  {
    var h := s.holders[account];
    s.(holders := s.holders[account := h.(positions := h.positions.With(i, p))])
  }

  function SetSide(s: Ledger, i: FeeSide, st: SideState): Ledger {
    s.(sides := s.sides.With(i, st))
  }

  /** The empty account name is the absent beneficiary, as in the source's truthiness test. */
  function Redistribute(s: Ledger, i: FeeSide, beneficiary: Account): Fallible<Ledger> {
    var st := s.sides.At(i);
    var unallocated := st.remainder;
    if unallocated == 0 then Ok(s)
    else if s.total == 0 then
      if beneficiary == "" then Ok(s)
      else
        var drained := EnsureHolder(SetSide(s, i, st.(remainder := unallocated % SCALE)), beneficiary);
        var p := drained.holders[beneficiary].positions.At(i);
        var claimable :- CheckedAdd(p.claimable, unallocated / SCALE);
        Ok(SetPosition(drained, beneficiary, i, p.(claimable := claimable)))
    else
      var increment := unallocated / s.total;
      var kept := st.(remainder := unallocated % s.total);
      if increment == 0 then Ok(SetSide(s, i, kept))
      else
        var combined :- CheckedAdd(st.growth.fraction, increment);
        var whole :- CheckedAdd(st.growth.whole, combined / SCALE);
        :- Need(whole <= st.lifetime, RecycledGrowthExceedsLifetimeFees);
        Ok(SetSide(s, i, kept.(growth := Growth(whole, combined % SCALE))))
  }

  function RecycleSide(s: Ledger, i: FeeSide, account: Account): Fallible<Ledger>
    requires account in s.holders
  {
    var p := s.holders[account].positions.At(i);
    var st := s.sides.At(i);
    var remainder :- CheckedAdd(st.remainder, p.carry);
    Redistribute(SetSide(SetPosition(s, account, i, p.(carry := 0)), i, st.(remainder := remainder)), i, account)
  }

  function RecycleIfEmpty(s: Ledger, account: Account): Fallible<Ledger>
    requires account in s.holders
  {
    if s.holders[account].balance != 0 then Ok(s)
    else
      var first :- RecycleSide(s, Side0, account);
      RecycleSide(EnsureHolder(first, account), Side1, account)
  }

  ghost function RequireUnlocked(s: Ledger, account: Account, amount: int): Check<Failure> {
    Need(amount <= BalanceOf(s, account) - LockedOf(s, account), LockedPrincipal)
  }

  ghost function Mint(s: Ledger, account: Account, amount: int): Fallible<Ledger> {
    var wasEmpty := s.total == 0;
    :- RequireRange(amount, 1, MAX_TOTAL_SHARES);
    var settled :- Settle(s, account);
    :- Need(s.total + amount <= MAX_TOTAL_SHARES, TotalSharesCap);
    var minted := AddBalance(settled, account, amount).(total := s.total + amount);
    if !wasEmpty then Ok(minted)
    else
      var first :- Redistribute(minted, Side0, "");
      Redistribute(first, Side1, "")
  }

  ghost function Burn(s: Ledger, account: Account, amount: int): Fallible<Ledger> {
    var total := s.total - amount;
    :- RequireRange(amount, 1, MAX_TOTAL_SHARES);
    var settled :- Settle(s, account);
    :- RequireUnlocked(settled, account, amount);
    var recycled :- RecycleIfEmpty(AddBalance(settled, account, -amount).(total := total), account);
    Ok(if total == 0 then recycled.(generation := recycled.generation + 1) else recycled)
  }

  ghost function Move(s: Ledger, sender: Account, recipient: Account, amount: int): Fallible<Ledger> {
    var same := sender == recipient;
    :- RequireRange(amount, 1, MAX_TOTAL_SHARES);
    :- Need(!same, SelfTransfer);
    var first :- Settle(s, sender);
    var both :- Settle(first, recipient);
    :- RequireUnlocked(both, sender, amount);
    RecycleIfEmpty(AddBalance(AddBalance(both, sender, -amount), recipient, amount), sender)
  }

  ghost function TransferFrom(s: Ledger, spender: Account, owner: Account, recipient: Account, amount: int)
    : Fallible<Ledger> {
    var current := Allowance(s.allowances, owner, spender);
    :- RequireRange(amount, 1, MAX_TOTAL_SHARES);
    :- Need(amount <= current, InsufficientAllowance);
    Move(s.(allowances := WithAllowance(s.allowances, owner, spender, current - amount)), owner, recipient, amount)
  }

  function Approve(s: Ledger, owner: Account, spender: Account, amount: int): Fallible<Ledger> {
    var allowances := WithAllowance(s.allowances, owner, spender, amount);
    :- RequireRange(amount, 0, UINT256_MAX);
    Ok(s.(allowances := allowances))
  }

  ghost function AddLock(s: Ledger, id: LockId, owner: Account, amount: int, unlockAt: int, permanent: bool)
    : Fallible<Ledger> {
    var lock := Lock(owner, amount, unlockAt, permanent, true);
    :- RequireRange(amount, 1, MAX_TOTAL_SHARES);
    :- RequireRange(unlockAt, 0, UINT64_MAX);
    :- Need(id !in s.locks, LockExists);
    var settled :- Settle(s, owner);
    :- RequireUnlocked(settled, owner, amount);
    Ok(settled.(locks := settled.locks[id := lock]))
  }

  function Unlock(s: Ledger, id: LockId, now: int): Fallible<Ledger> {
    var known := id in s.locks && s.locks[id].active;
    :- RequireRange(now, 0, UINT256_MAX);
    :- Need(known, UnknownLock);
    var lock := s.locks[id];
    :- Need(!lock.permanent, PermanentLock);
    :- Need(lock.unlockAt <= now, LockNotMatured);
    Ok(s.(locks := s.locks[id := lock.(active := false)]))
  }

  function CreditPrincipal(s: Ledger, i: FeeSide, amount: int): Fallible<Ledger> {
    var st := s.sides.At(i);
    :- RequireRange(amount, 0, MAX_RESERVE_OPERAND);
    :- Need(st.reserve + amount <= MAX_RESERVE_OPERAND, ReserveCap);
    var custody :- CheckedAdd(st.custody, amount);
    Ok(SetSide(s, i, st.(reserve := st.reserve + amount, custody := custody)))
  }

  /** Reserve, protocol fees and custody after a swap, before the LP fee accrues. */
  function CreditSwap(st: SideState, netInput: int, protocolFee: int, lpFee: int): Fallible<SideState> {
    var reserve := st.reserve + netInput;
    :- Need(reserve <= MAX_RESERVE_OPERAND, ReserveCap);
    var protocolFees :- CheckedAdd(st.protocolFees, protocolFee);
    var principal :- CheckedAdd(netInput, protocolFee);
    var credit :- CheckedAdd(principal, lpFee);
    var custody :- CheckedAdd(st.custody, credit);
    Ok(st.(reserve := reserve, protocolFees := protocolFees, custody := custody))
  }

  function Accrue(st: SideState, lpFee: int, total: int): Fallible<SideState> {
    var next :- AdvanceFeeGrowth(GrowthState(st.growth, st.remainder, st.lifetime), lpFee, total);
    var accrued :- CheckedAdd(st.accrued, lpFee);
    var liability :- CheckedAdd(st.liability, lpFee);
    Ok(st.(growth := next.growth, remainder := next.remainder, lifetime := next.lifetime,
           accrued := accrued, liability := liability))
  }

  function RecordSwapFees(s: Ledger, i: FeeSide, netInput: int, protocolFee: int, lpFee: int): Fallible<Ledger> {
    var st := s.sides.At(i);
    :- RequireRange(netInput, 0, MAX_RESERVE_OPERAND);
    :- RequireRange(protocolFee, 0, MAX_LP_FEE_OPERAND);
    :- RequireRange(lpFee, 0, MAX_LP_FEE_OPERAND);
    :- Need(!(lpFee > 0 && s.total == 0), ZeroShares);
    var credited :- CreditSwap(st, netInput, protocolFee, lpFee);
    if lpFee == 0 then Ok(SetSide(s, i, credited))
    else
      var accrued :- Accrue(credited, lpFee, s.total);
      Ok(SetSide(s, i, accrued))
  }

  function ConsumeClaim(s: Ledger, owner: Account, i: FeeSide): Fallible<(Ledger, int)> {
    var settled :- Settle(s, owner);
    var p := settled.holders[owner].positions.At(i);
    var amount := p.claimable;
    var st := settled.sides.At(i);
    :- Need(amount <= st.liability, ClaimExceedsLiability);
    var paid :- CheckedAdd(st.paid, amount);
    var cleared := SetPosition(settled, owner, i, p.(claimable := 0));
    Ok((SetSide(cleared, i, st.(liability := st.liability - amount, paid := paid, custody := st.custody - amount)),
        amount))
  }

  datatype FeeAudit = FeeAudit(
    accrued: int, lifetime: int, paid: int, outstanding: int, liability: int, reserve: int, protocolFees: int,
    custody: int, ownerCarry: int, remainder: int, fractionalLiability: int)

  ghost function ClaimsOf(s: Ledger, i: FeeSide): map<Account, int> {
    map a | a in s.holders :: s.holders[a].positions.At(i).claimable
  }

  ghost function CarriesOf(s: Ledger, i: FeeSide): map<Account, int> {
    map a | a in s.holders :: s.holders[a].positions.At(i).carry
  }

  /** Every holder settled at once; a holder that cannot be settled fails the audit. */
  ghost function SettleAll(s: Ledger): Fallible<Ledger> {
    if exists a :: a in s.holders && SettleHolder(s.holders[a], s.sides).Err? then
      var a :| a in s.holders && SettleHolder(s.holders[a], s.sides).Err?;
      Err(SettleHolder(s.holders[a], s.sides).error)
    else Ok(s.(holders := map a | a in s.holders :: SettleHolder(s.holders[a], s.sides).value))
  }

  /** The audit's comparisons, in the order they are made. */
  function CheckBooks(outstanding: int, ownerCarry: int, st: SideState): Fallible<FeeAudit> {
    var fractional := (st.liability - outstanding) * SCALE;
    :- Need(st.paid + outstanding <= st.accrued, PaidExceedsAccrued);
    :- Need(st.liability == st.accrued - st.paid, LiabilityDiverged);
    :- Need(ownerCarry + st.remainder == fractional, FractionNotConserved);
    :- Need(st.custody == st.reserve + st.protocolFees + st.liability, CustodyDiverged);
    Ok(FeeAudit(st.accrued, st.lifetime, st.paid, outstanding, st.liability, st.reserve, st.protocolFees, st.custody,
                ownerCarry, st.remainder, fractional))
  }

  /** The audit's checks on a settled ledger. */
  ghost function AuditSide(s: Ledger, i: FeeSide): Fallible<FeeAudit> {
    var outstanding := Sum(ClaimsOf(s, i));
    :- Need(outstanding <= UINT256_MAX, Overflow);
    CheckBooks(outstanding, Sum(CarriesOf(s, i)), s.sides.At(i))
  }

  ghost function Audit(s: Ledger, i: FeeSide): Fallible<(Ledger, FeeAudit)> {
    var settled :- SettleAll(s);
    var figures :- AuditSide(settled, i);
    Ok((settled, figures))
  }

  /** Everything a caller can ask of the model that may change it; reads settle the account they ask about. */
  datatype Op =
    | OpMint(caller: Account, account: Account, amount: int)
    | OpBurn(caller: Account, account: Account, amount: int)
    | OpTransfer(sender: Account, recipient: Account, amount: int)
    | OpTransferFrom(spender: Account, owner: Account, recipient: Account, amount: int)
    | OpApprove(owner: Account, spender: Account, amount: int)
    | OpLock(caller: Account, id: LockId, owner: Account, amount: int, unlockAt: int, permanent: bool)
    | OpUnlock(caller: Account, id: LockId, now: int)
    | OpCreditPrincipal(caller: Account, side: FeeSide, amount: int)
    | OpRecordSwapFees(caller: Account, side: FeeSide, netInput: int, protocolFee: int, lpFee: int)
    | OpConsumeClaim(caller: Account, owner: Account, side: FeeSide)
    | OpClaimableOf(account: Account, side: FeeSide)
    | OpCarryOf(account: Account, side: FeeSide)
    | OpAudit(side: FeeSide)

  function WithReply(r: Fallible<Ledger>, reply: int): Fallible<(Ledger, int)> {
    var next :- r;
    Ok((next, reply))
  }

  function ReadPosition(s: Ledger, account: Account, i: FeeSide, carry: bool): Fallible<(Ledger, int)> {
    var settled :- Settle(s, account);
    var p := settled.holders[account].positions.At(i);
    Ok((settled, if carry then p.carry else p.claimable))
  }

  predicate NeedsPool(op: Op) {
    op.OpMint? || op.OpBurn? || op.OpLock? || op.OpUnlock? || op.OpCreditPrincipal? || op.OpRecordSwapFees?
      || op.OpConsumeClaim?
  }

  /** One operation that may fail: the next ledger and the value returned to the caller (0 for none). */
  ghost function Attempt(pool: Account, s: Ledger, op: Op): Fallible<(Ledger, int)> {
    if NeedsPool(op) && op.caller != pool then Err(PoolAuthorityRequired)
    else
      match op
      case OpMint(_, account, amount) => WithReply(Mint(s, account, amount), 0)
      case OpBurn(_, account, amount) => WithReply(Burn(s, account, amount), 0)
      case OpTransfer(sender, recipient, amount) => WithReply(Move(s, sender, recipient, amount), 0)
      case OpTransferFrom(spender, owner, recipient, amount) =>
        WithReply(TransferFrom(s, spender, owner, recipient, amount), 0)
      case OpApprove(owner, spender, amount) => WithReply(Approve(s, owner, spender, amount), 0)
      case OpLock(_, id, owner, amount, unlockAt, permanent) =>
        WithReply(AddLock(s, id, owner, amount, unlockAt, permanent), 0)
      case OpUnlock(_, id, now) => WithReply(Unlock(s, id, now), 0)
      case OpCreditPrincipal(_, i, amount) => WithReply(CreditPrincipal(s, i, amount), 0)
      case OpRecordSwapFees(_, i, netInput, protocolFee, lpFee) =>
        WithReply(RecordSwapFees(s, i, netInput, protocolFee, lpFee), 0)
      case OpConsumeClaim(_, owner, i) => ConsumeClaim(s, owner, i)
      case OpClaimableOf(account, i) => ReadPosition(s, account, i, false)
      case OpCarryOf(account, i) => ReadPosition(s, account, i, true)
      case OpAudit(i) => if Audit(s, i).Ok? then Ok((Audit(s, i).value.0, 0)) else Err(Audit(s, i).error)
  }

  datatype Reply = Done(value: int) | Failed(error: Failure)

  /** A failed operation rolls the whole ledger back. */
  ghost function Step(pool: Account, s: Ledger, op: Op): (Ledger, Reply) {
    match Attempt(pool, s, op)
    case Ok((next, value)) => (next, Done(value))
    case Err(error) => (s, Failed(error))
  }

  /** A run from the empty ledger: the final ledger and every reply, in order. */
  ghost function Run(pool: Account, ops: seq<Op>): (Ledger, seq<Reply>) {
    if ops == [] then (EMPTY, [])
    else
      var (s, replies) := Run(pool, ops[..|ops| - 1]);
      var (next, reply) := Step(pool, s, ops[|ops| - 1]);
      (next, replies + [reply])
  }
}
