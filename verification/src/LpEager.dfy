/**
 * The eager ledger: every accrual and every recycled carry is credited to all holders at once, in units of 1/SCALE.
 * It has no checkpoints, no carries, no liability or custody fields, and reading it changes nothing. It says what the
 * lazily settled ledger means; `LpRefinement` proves that the two cannot be told apart.
 */
module LpEager {
  import opened Outcomes
  import opened FeeGrowth
  import MapSums
  import opened LpLedger

  datatype Book = Book(
    growth: int, remainder: int, accrued: int, paid: int, reserve: int, protocolFees: int, credit: Account -> int)

  datatype Eager = Eager(
    total: int, generation: int, balance: Account -> int,
    allowances: Allowances, locks: map<LockId, Lock>, books: PerSide<Book>)

  const NEW_BOOK := Book(0, 0, 0, 0, 0, 0, (a: Account) => 0)
  const NO_SHARES := Eager(0, 0, (a: Account) => 0, map[], map[], PerSide(NEW_BOOK, NEW_BOOK))

  function Custody(b: Book): int {
    b.reserve + b.protocolFees + b.accrued - b.paid
  }

  function SetBook(e: Eager, i: FeeSide, b: Book): Eager {
    e.(books := e.books.With(i, b))
  }

  function WithBalance(e: Eager, account: Account, amount: int): Eager {
    e.(balance := a => e.balance(a) + if a == account then amount else 0)
  }

  function WithCredit(b: Book, account: Account, amount: int): Book {
    b.(credit := a => b.credit(a) + if a == account then amount else 0)
  }

  /** Every share earns `q` fractional units. */
  function Earn(b: Book, balance: Account -> int, q: int): Book {
    b.(growth := b.growth + q, credit := a => b.credit(a) + balance(a) * q)
  }

  function SpreadRemainder(b: Book, total: int, balance: Account -> int): Fallible<Book>
    requires total > 0
  {
    var q := b.remainder / total;
    :- Need((b.growth + q) / SCALE <= UINT256_MAX, Overflow);
    :- Need((b.growth + q) / SCALE <= b.accrued, RecycledGrowthExceedsLifetimeFees);
    Ok(Earn(b.(remainder := b.remainder % total), balance, q))
  }

  /** A holder without shares gives up the fraction of its credit, to the other shares or to whole units. */
  function RecycleBook(b: Book, total: int, balance: Account -> int, account: Account): Fallible<Book> {
    var carry := b.credit(account) % SCALE;
    var r := WithCredit(b, account, -carry).(remainder := b.remainder + carry);
    if 0 < total then SpreadRemainder(r, total, balance)
    else if account == "" then Ok(r)
    else Ok(WithCredit(r, account, r.remainder).(remainder := 0))
  }

  function Recycle(e: Eager, account: Account): Fallible<Eager> {
    if e.balance(account) != 0 then Ok(e)
    else
      var zero :- RecycleBook(e.books.zero, e.total, e.balance, account);
      var one :- RecycleBook(e.books.one, e.total, e.balance, account);
      Ok(e.(books := PerSide(zero, one)))
  }

  ghost function Unlocked(e: Eager, account: Account, amount: int): Check<Failure> {
    Need(amount <= e.balance(account) - MapSums.Sum(LockAmounts(e.locks, account)), LockedPrincipal)
  }

  function MintShares(e: Eager, account: Account, amount: int): Fallible<Eager> {
    var minted := WithBalance(e, account, amount).(total := e.total + amount);
    :- RequireRange(amount, 1, MAX_TOTAL_SHARES);
    :- Need(minted.total <= MAX_TOTAL_SHARES, TotalSharesCap);
    if e.total != 0 || minted.total <= 0 then Ok(minted)
    else
      var zero :- SpreadRemainder(minted.books.zero, minted.total, minted.balance);
      var one :- SpreadRemainder(minted.books.one, minted.total, minted.balance);
      Ok(minted.(books := PerSide(zero, one)))
  }

  ghost function BurnShares(e: Eager, account: Account, amount: int): Fallible<Eager> {
    var burnt := WithBalance(e, account, -amount).(total := e.total - amount);
    :- RequireRange(amount, 1, MAX_TOTAL_SHARES);
    :- Unlocked(e, account, amount);
    var recycled :- Recycle(burnt, account);
    Ok(if burnt.total == 0 then recycled.(generation := recycled.generation + 1) else recycled)
  }

  ghost function MoveShares(e: Eager, sender: Account, recipient: Account, amount: int): Fallible<Eager> {
    var moved := WithBalance(WithBalance(e, sender, -amount), recipient, amount);
    :- RequireRange(amount, 1, MAX_TOTAL_SHARES);
    :- Need(sender != recipient, SelfTransfer);
    :- Unlocked(e, sender, amount);
    Recycle(moved, sender)
  }

  function ApproveShares(e: Eager, owner: Account, spender: Account, amount: int): Eager {
    e.(allowances := WithAllowance(e.allowances, owner, spender, amount))
  }

  ghost function MoveApproved(e: Eager, spender: Account, owner: Account, recipient: Account, amount: int)
    : Fallible<Eager> {
    var current := Allowance(e.allowances, owner, spender);
    :- RequireRange(amount, 1, MAX_TOTAL_SHARES);
    :- Need(amount <= current, InsufficientAllowance);
    MoveShares(ApproveShares(e, owner, spender, current - amount), owner, recipient, amount)
  }

  ghost function LockShares(e: Eager, id: LockId, lock: Lock): Fallible<Eager> {
    var next := e.(locks := e.locks[id := lock]);
    :- RequireRange(lock.amount, 1, MAX_TOTAL_SHARES);
    :- RequireRange(lock.unlockAt, 0, UINT64_MAX);
    :- Need(id !in e.locks, LockExists);
    :- Unlocked(e, lock.owner, lock.amount);
    Ok(next)
  }

  function UnlockShares(e: Eager, id: LockId, now: int): Fallible<Eager> {
    var known := id in e.locks && e.locks[id].active;
    :- RequireRange(now, 0, UINT256_MAX);
    :- Need(known, UnknownLock);
    :- Need(!e.locks[id].permanent, PermanentLock);
    :- Need(e.locks[id].unlockAt <= now, LockNotMatured);
    Ok(e.(locks := e.locks[id := e.locks[id].(active := false)]))
  }

  function AddPrincipal(b: Book, amount: int): Fallible<Book> {
    var next := b.(reserve := b.reserve + amount);
    :- RequireRange(amount, 0, MAX_RESERVE_OPERAND);
    :- Need(next.reserve <= MAX_RESERVE_OPERAND, ReserveCap);
    :- Need(Custody(next) <= UINT256_MAX, Overflow);
    Ok(next)
  }

  function AddSwapFees(b: Book, total: int, balance: Account -> int, netInput: int, protocolFee: int, lpFee: int)
    : Fallible<Book> {
    var next := b.(reserve := b.reserve + netInput, protocolFees := b.protocolFees + protocolFee);
    :- RequireRange(netInput, 0, MAX_RESERVE_OPERAND);
    :- RequireRange(protocolFee, 0, MAX_LP_FEE_OPERAND);
    :- RequireRange(lpFee, 0, MAX_LP_FEE_OPERAND);
    :- Need(lpFee == 0 || total != 0, ZeroShares);
    :- Need(next.reserve <= MAX_RESERVE_OPERAND, ReserveCap);
    :- Need(Custody(next) + lpFee <= UINT256_MAX, Overflow);
    if lpFee == 0 || total <= 0 then Ok(next)
    else
      var dealt := lpFee * SCALE + b.remainder;
      var q := dealt / total;
      :- Need((b.growth + q) / SCALE <= UINT256_MAX, Overflow);
      :- Need(b.accrued + lpFee <= UINT256_MAX, Overflow);
      :- Need((b.growth + q) / SCALE <= b.accrued + lpFee, GrowthExceedsLifetimeFees);
      Ok(Earn(next.(remainder := dealt % total, accrued := b.accrued + lpFee), balance, q))
  }

  function OnBook(e: Eager, i: FeeSide, r: Fallible<Book>): Fallible<(Eager, int)> {
    var b :- r;
    Ok((SetBook(e, i, b), 0))
  }

  function Quiet(r: Fallible<Eager>): Fallible<(Eager, int)> {
    var e :- r;
    Ok((e, 0))
  }

  /** Claims, reads and audits never fail; claims and reads look at nothing but the credit. */
  ghost function TryEager(pool: Account, e: Eager, op: Op): Fallible<(Eager, int)> {
    if NeedsPool(op) && op.caller != pool then Err(PoolAuthorityRequired)
    else
      match op
      case OpMint(_, account, amount) => Quiet(MintShares(e, account, amount))
      case OpBurn(_, account, amount) => Quiet(BurnShares(e, account, amount))
      case OpTransfer(sender, recipient, amount) => Quiet(MoveShares(e, sender, recipient, amount))
      case OpTransferFrom(spender, owner, recipient, amount) =>
        Quiet(MoveApproved(e, spender, owner, recipient, amount))
      case OpApprove(owner, spender, amount) =>
        if 0 <= amount <= UINT256_MAX then Ok((ApproveShares(e, owner, spender, amount), 0)) else Err(OutOfRange)
      case OpLock(_, id, owner, amount, unlockAt, permanent) =>
        Quiet(LockShares(e, id, Lock(owner, amount, unlockAt, permanent, true)))
      case OpUnlock(_, id, now) => Quiet(UnlockShares(e, id, now))
      case OpCreditPrincipal(_, i, amount) => OnBook(e, i, AddPrincipal(e.books.At(i), amount))
      case OpRecordSwapFees(_, i, netInput, protocolFee, lpFee) =>
        OnBook(e, i, AddSwapFees(e.books.At(i), e.total, e.balance, netInput, protocolFee, lpFee))
      case OpConsumeClaim(_, owner, i) =>
        var b := e.books.At(i);
        var amount := b.credit(owner) / SCALE;
        Ok((SetBook(e, i, WithCredit(b, owner, -amount * SCALE).(paid := b.paid + amount)), amount))
      case OpClaimableOf(account, i) => Ok((e, e.books.At(i).credit(account) / SCALE))
      case OpCarryOf(account, i) => Ok((e, e.books.At(i).credit(account) % SCALE))
      case OpAudit(_) => Ok((e, 0))
  }

  ghost function EagerStep(pool: Account, e: Eager, op: Op): (Eager, Reply) {
    match TryEager(pool, e, op)
    case Ok((next, value)) => (next, Done(value))
    case Err(error) => (e, Failed(error))
  }

  ghost function EagerRun(pool: Account, ops: seq<Op>): (Eager, seq<Reply>) {
    if ops == [] then (NO_SHARES, [])
    else
      var (e, replies) := EagerRun(pool, ops[..|ops| - 1]);
      var (next, reply) := EagerStep(pool, e, ops[|ops| - 1]);
      (next, replies + [reply])
  }

  // ---- Audits ----

  /** The whole units the accounts could claim. */
  ghost function WholeUnitsOf(b: Book, accounts: set<Account>): map<Account, int> {
    map a | a in accounts :: b.credit(a) / SCALE
  }

  /** The fractions the accounts carry beyond them. */
  ghost function FractionsOf(b: Book, accounts: set<Account>): map<Account, int> {
    map a | a in accounts :: b.credit(a) % SCALE
  }

  /** The figures an audit of one side reports, in terms of what everybody is credited. */
  ghost function EagerAudit(b: Book, accounts: set<Account>): FeeAudit {
    var outstanding := MapSums.Sum(WholeUnitsOf(b, accounts));
    var liability := b.accrued - b.paid;
    FeeAudit(b.accrued, b.accrued, b.paid, outstanding, liability, b.reserve, b.protocolFees, Custody(b),
             MapSums.Sum(FractionsOf(b, accounts)), b.remainder, (liability - outstanding) * SCALE)
  }
}
