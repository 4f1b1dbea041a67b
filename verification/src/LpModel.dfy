/**
 * The mutable fee model. Its methods change fields step by step and may fail half way; every public method takes a
 * snapshot first and restores it on failure, and is proved to be exactly one step of the ledger in `LpLedger`.
 */
module LpModel {
  import opened Outcomes
  import opened MapSums
  import opened FeeGrowth
  import opened LpLedger
  import opened LpInvariant
  import opened LpEager
  import opened LpRefinement
  import opened LpOperations

  /** The eager ledger that a ledger stands for. */
  ghost function Meaning(s: Ledger): Eager {
    Eager(s.total, s.generation, (a: Account) => BalanceOf(s, a), s.allowances, s.locks,
          PerSide(MeaningOfSide(s, Side0), MeaningOfSide(s, Side1)))
  }

  ghost function MeaningOfSide(s: Ledger, i: FeeSide): Book {
    var st := s.sides.At(i);
    Book(st.growth.Scaled(), st.remainder, st.accrued, st.paid, st.reserve, st.protocolFees,
      (a: Account) => Credit(s, a, i))
  }

  /** The invariant is inductive: no operation, failed or not, leaves it. */
  lemma StepKeepsInv(pool: Account, s: Ledger, op: Op)
    requires Inv(s)
    ensures Inv(Step(pool, s, op).0)
  {
    hide Inv, Attempt, TryEager;
    MeaningIsRefined(s);
    AttemptAgrees(pool, s, Meaning(s), op);
  }

  lemma MeaningIsRefined(s: Ledger)
    ensures Refines(s, Meaning(s))
  {
    hide HolderCredit;
  }

  type Done = Fallible<()>

  function ReplyOf(r: Done): Reply {
    if r.Ok? then LpLedger.Reply.Done(0) else Failed(r.error)
  }

  function ReplyWith(r: Fallible<int>): Reply {
    if r.Ok? then LpLedger.Reply.Done(r.value) else Failed(r.error)
  }

  /** A private step either reaches the next ledger, or fails half way with the ledger's error. */
  ghost predicate Performs(r: Done, now: Ledger, next: Fallible<Ledger>) {
    match next
    case Ok(t) => r.Ok? && now == t
    case Err(error) => r == Err(error)
  }

  class FungibleLpFeeModel {
    const poolAuthority: Account
    var total: int
    var generation: int
    var holders: map<Account, Holder>
    var allowances: Allowances
    var locks: map<LockId, Lock>
    var sides: PerSide<SideState>

    function State(): Ledger
      reads this
    {
      Ledger(total, generation, holders, allowances, locks, sides)
    }

    ghost predicate Valid()
      reads this
    {
      Inv(State())
    }

    constructor (pool: Account)
      ensures poolAuthority == pool && State() == EMPTY && Valid()
    {
      poolAuthority := pool;
      total, generation := 0, 0;
      holders, allowances, locks := map[], map[], map[];
      sides := PerSide(NEW_SIDE, NEW_SIDE);
      new;
      hide Inv;
      assert State() == EMPTY;
      EmptyLedger();
    }

    method Restore(snapshot: Ledger)
      modifies this
      ensures State() == snapshot
    {
      total := snapshot.total;
      generation := snapshot.generation;
      holders := snapshot.holders;
      allowances := snapshot.allowances;
      locks := snapshot.locks;
      sides := snapshot.sides;
    }

    method Locked(account: Account) returns (locked: int)
      ensures locked == LockedOf(State(), account)
    {
      locked := 0;
      var remaining := locks.Keys;
      ghost var counted: map<LockId, int> := map[];
      while remaining != {}
        invariant remaining <= locks.Keys
        invariant counted == map id | id in locks && id !in remaining && locks[id].active && locks[id].owner == account
                             :: locks[id].amount
        invariant locked == Sum(counted)
        decreases remaining
      {
        var id :| id in remaining;
        remaining := remaining - {id};
        var record := locks[id];
        if record.active && record.owner == account {
          locked := locked + record.amount;
          SumUpdate(counted, id, record.amount);
          counted := counted[id := record.amount];
        }
      }
      assert counted == LockAmounts(locks, account);
    }

    method Ensure(account: Account)
      modifies this`holders
      ensures State() == EnsureHolder(old(State()), account)
    {
      if account !in holders {
        var zero := Position(sides.zero.growth, 0, 0);
        var one := Position(sides.one.growth, 0, 0);
        holders := holders[account := Holder(0, PerSide(zero, one))];
      }
    }

    method SettleSide(account: Account, i: FeeSide) returns (r: Done)
      requires account in holders
      modifies this`holders
      ensures var h := old(holders[account]);
        match SettlePosition(h.balance, h.positions.At(i), sides.At(i).growth)
        case Ok(p) => r.Ok? && State() == SetPosition(old(State()), account, i, p)
        case Err(error) => r == Err(error)
    {
      var h := holders[account];
      var p := h.positions.At(i);
      var settled :- SettleFeeGrowth(h.balance, p.checkpoint, p.carry, sides.At(i).growth);
      p := p.(checkpoint := settled.checkpoint, carry := settled.carry);
      holders := holders[account := h.(positions := h.positions.With(i, p))];
      var claimable :- CheckedAdd(p.claimable, settled.newClaim);
      p := p.(claimable := claimable);
      holders := holders[account := h.(positions := h.positions.With(i, p))];
      return Ok(());
    }

    method SettleAccount(account: Account) returns (r: Done)
      modifies this`holders
      ensures Performs(r, State(), Settle(old(State()), account))
    {
      hide SettlePosition;
      Ensure(account);
      ghost var h := holders[account];
      var _ :- SettleSide(account, Side0);
      assert holders[account].positions.one == h.positions.one && holders[account].balance == h.balance;
      var _ :- SettleSide(account, Side1);
      return Ok(());
    }

    method ChangeBalance(account: Account, amount: int)
      requires account in holders
      modifies this`holders
      ensures State() == AddBalance(old(State()), account, amount)
    {
      var h := holders[account];
      holders := holders[account := h.(balance := h.balance + amount)];
    }

    method RedistributeGlobalRemainder(i: FeeSide, beneficiary: Account) returns (r: Done)
      modifies this
      ensures Performs(r, State(), Redistribute(old(State()), i, beneficiary))
    {
      var st := sides.At(i);
      var unallocated := st.remainder;
      if unallocated == 0 {
        return Ok(());
      }
      if total == 0 {
        if beneficiary == "" {
          return Ok(());
        }
        sides := sides.With(i, st.(remainder := unallocated % SCALE));
        Ensure(beneficiary);
        var h := holders[beneficiary];
        var p := h.positions.At(i);
        var claimable :- CheckedAdd(p.claimable, unallocated / SCALE);
        holders := holders[beneficiary := h.(positions := h.positions.With(i, p.(claimable := claimable)))];
        return Ok(());
      }
      var increment := unallocated / total;
      st := st.(remainder := unallocated % total);
      sides := sides.With(i, st);
      if increment == 0 {
        return Ok(());
      }
      var combined :- CheckedAdd(st.growth.fraction, increment);
      var whole :- CheckedAdd(st.growth.whole, combined / SCALE);
      st := st.(growth := Growth(whole, combined % SCALE));
      sides := sides.With(i, st);
      if st.growth.whole > st.lifetime {
        return Err(RecycledGrowthExceedsLifetimeFees);
      }
      return Ok(());
    }

    method RecycleCarry(account: Account, i: FeeSide) returns (r: Done)
      requires account in holders
      modifies this
      ensures Performs(r, State(), RecycleSide(old(State()), i, account))
    {
      hide Redistribute;
      var h := holders[account];
      var p := h.positions.At(i);
      var st := sides.At(i);
      holders := holders[account := h.(positions := h.positions.With(i, p.(carry := 0)))];
      var remainder :- CheckedAdd(st.remainder, p.carry);
      sides := sides.With(i, st.(remainder := remainder));
      r := RedistributeGlobalRemainder(i, account);
    }

    method RecycleCarryIfEmpty(account: Account) returns (r: Done)
      requires account in holders
      modifies this
      ensures Performs(r, State(), RecycleIfEmpty(old(State()), account))
    {
      hide RecycleSide;
      if holders[account].balance != 0 {
        return Ok(());
      }
      var _ :- RecycleCarry(account, Side0);
      Ensure(account);
      r := RecycleCarry(account, Side1);
    }

    method RequireSpendable(account: Account, amount: int) returns (r: Done)
      ensures r == match RequireUnlocked(State(), account, amount) case Pass => Ok(()) case Fail(error) => Err(error)
    {
      var locked := Locked(account);
      if amount > BalanceOf(State(), account) - locked {
        return Err(LockedPrincipal);
      }
      return Ok(());
    }

    method TryMint(account: Account, amount: int) returns (r: Done)
      modifies this
      ensures Performs(r, State(), LpLedger.Mint(old(State()), account, amount))
    {
      hide LpLedger.Settle, Redistribute;
      :- RequireRange(amount, 1, MAX_TOTAL_SHARES);
      var _ :- SettleAccount(account);
      SettleShape(old(State()), account);
      :- Need(total + amount <= MAX_TOTAL_SHARES, TotalSharesCap);
      var wasEmpty := total == 0;
      ChangeBalance(account, amount);
      total := total + amount;
      if wasEmpty {
        var _ :- RedistributeGlobalRemainder(Side0, "");
        var _ :- RedistributeGlobalRemainder(Side1, "");
      }
      return Ok(());
    }

    method TryBurn(account: Account, amount: int) returns (r: Done)
      modifies this
      ensures Performs(r, State(), LpLedger.Burn(old(State()), account, amount))
    {
      hide LpLedger.Settle, RecycleIfEmpty;
      :- RequireRange(amount, 1, MAX_TOTAL_SHARES);
      var _ :- SettleAccount(account);
      SettleShape(old(State()), account);
      var _ :- RequireSpendable(account, amount);
      ChangeBalance(account, -amount);
      total := total - amount;
      RecycleShape(State(), account);
      var _ :- RecycleCarryIfEmpty(account);
      if total == 0 {
        generation := generation + 1;
      }
      return Ok(());
    }

    method SettlePair(sender: Account, recipient: Account) returns (r: Done)
      modifies this`holders
      ensures Performs(r, State(), SettleBoth(old(State()), sender, recipient))
      ensures r.Ok? ==> sender in holders && recipient in holders
    {
      hide LpLedger.Settle;
      var _ :- SettleAccount(sender);
      SettleShape(old(State()), sender);
      ghost var first := State();
      var _ :- SettleAccount(recipient);
      SettleShape(first, recipient);
      return Ok(());
    }

    method TryMove(sender: Account, recipient: Account, amount: int) returns (r: Done)
      modifies this
      ensures Performs(r, State(), Move(old(State()), sender, recipient, amount))
    {
      hide LpLedger.Settle, RecycleIfEmpty;
      :- RequireRange(amount, 1, MAX_TOTAL_SHARES);
      :- Need(sender != recipient, SelfTransfer);
      var _ :- SettlePair(sender, recipient);
      var _ :- RequireSpendable(sender, amount);
      ChangeBalance(sender, -amount);
      ChangeBalance(recipient, amount);
      r := RecycleCarryIfEmpty(sender);
    }

    // ---- Public operations: each is one step of the ledger, rolled back on failure ----

    method Mint(caller: Account, account: Account, amount: int) returns (r: Done)
      requires Valid()
      modifies this
      ensures Valid() && (State(), ReplyOf(r)) == Step(poolAuthority, old(State()), OpMint(caller, account, amount))
    {
      hide Inv, LpLedger.Mint;
      StepKeepsInv(poolAuthority, State(), OpMint(caller, account, amount));
      var snapshot := State();
      r := if caller == poolAuthority then Ok(()) else Err(PoolAuthorityRequired);
      if r.Ok? {
        r := TryMint(account, amount);
      }
      if r.Err? {
        Restore(snapshot);
      }
    }

    method Burn(caller: Account, account: Account, amount: int) returns (r: Done)
      requires Valid()
      modifies this
      ensures Valid() && (State(), ReplyOf(r)) == Step(poolAuthority, old(State()), OpBurn(caller, account, amount))
    {
      hide Inv, LpLedger.Burn;
      StepKeepsInv(poolAuthority, State(), OpBurn(caller, account, amount));
      var snapshot := State();
      r := if caller == poolAuthority then Ok(()) else Err(PoolAuthorityRequired);
      if r.Ok? {
        r := TryBurn(account, amount);
      }
      if r.Err? {
        Restore(snapshot);
      }
    }

    method Transfer(sender: Account, recipient: Account, amount: int) returns (r: Done)
      requires Valid()
      modifies this
      ensures Valid()
        && (State(), ReplyOf(r)) == Step(poolAuthority, old(State()), OpTransfer(sender, recipient, amount))
    {
      hide Inv, Move;
      StepKeepsInv(poolAuthority, State(), OpTransfer(sender, recipient, amount));
      var snapshot := State();
      r := TryMove(sender, recipient, amount);
      if r.Err? {
        Restore(snapshot);
      }
    }

    method TryTransferFrom(spender: Account, owner: Account, recipient: Account, amount: int) returns (r: Done)
      modifies this
      ensures Performs(r, State(), LpLedger.TransferFrom(old(State()), spender, owner, recipient, amount))
    {
      hide Move;
      :- RequireRange(amount, 1, MAX_TOTAL_SHARES);
      var current := Allowance(allowances, owner, spender);
      :- Need(amount <= current, InsufficientAllowance);
      allowances := WithAllowance(allowances, owner, spender, current - amount);
      r := TryMove(owner, recipient, amount);
    }

    method TransferFrom(spender: Account, owner: Account, recipient: Account, amount: int) returns (r: Done)
      requires Valid()
      modifies this
      ensures Valid()
      ensures (State(), ReplyOf(r))
        == Step(poolAuthority, old(State()), OpTransferFrom(spender, owner, recipient, amount))
    {
      hide Inv, LpLedger.TransferFrom;
      StepKeepsInv(poolAuthority, State(), OpTransferFrom(spender, owner, recipient, amount));
      var snapshot := State();
      r := TryTransferFrom(spender, owner, recipient, amount);
      if r.Err? {
        Restore(snapshot);
      }
    }

    method Approve(owner: Account, spender: Account, amount: int) returns (r: Done)
      requires Valid()
      modifies this
      ensures Valid() && (State(), ReplyOf(r)) == Step(poolAuthority, old(State()), OpApprove(owner, spender, amount))
    {
      hide Inv, WithAllowance;
      StepKeepsInv(poolAuthority, State(), OpApprove(owner, spender, amount));
      if !(0 <= amount <= UINT256_MAX) {
        return Err(OutOfRange);
      }
      allowances := WithAllowance(allowances, owner, spender, amount);
      return Ok(());
    }

    method TryLock(id: LockId, owner: Account, amount: int, unlockAt: int, permanent: bool) returns (r: Done)
      modifies this
      ensures Performs(r, State(), AddLock(old(State()), id, owner, amount, unlockAt, permanent))
    {
      hide LpLedger.Settle;
      :- RequireRange(amount, 1, MAX_TOTAL_SHARES);
      :- RequireRange(unlockAt, 0, UINT64_MAX);
      :- Need(id !in locks, LockExists);
      var _ :- SettleAccount(owner);
      SettleShape(old(State()), owner);
      var _ :- RequireSpendable(owner, amount);
      locks := locks[id := LpLedger.Lock(owner, amount, unlockAt, permanent, true)];
      return Ok(());
    }

    method Lock(caller: Account, id: LockId, owner: Account, amount: int, unlockAt: int, permanent: bool)
      returns (r: Done)
      requires Valid()
      modifies this
      ensures Valid()
      ensures (State(), ReplyOf(r))
           == Step(poolAuthority, old(State()), OpLock(caller, id, owner, amount, unlockAt, permanent))
    {
      hide Inv, AddLock;
      StepKeepsInv(poolAuthority, State(), OpLock(caller, id, owner, amount, unlockAt, permanent));
      var snapshot := State();
      r := if caller == poolAuthority then Ok(()) else Err(PoolAuthorityRequired);
      if r.Ok? {
        r := TryLock(id, owner, amount, unlockAt, permanent);
      }
      if r.Err? {
        Restore(snapshot);
      }
    }

    method TryUnlock(id: LockId, now: int) returns (r: Done)
      modifies this
      ensures Performs(r, State(), LpLedger.Unlock(old(State()), id, now))
    {
      var known := id in locks && locks[id].active;
      :- RequireRange(now, 0, UINT256_MAX);
      :- Need(known, UnknownLock);
      var record := locks[id];
      :- Need(!record.permanent, PermanentLock);
      :- Need(record.unlockAt <= now, LockNotMatured);
      locks := locks[id := record.(active := false)];
      return Ok(());
    }

    method Unlock(caller: Account, id: LockId, now: int) returns (r: Done)
      requires Valid()
      modifies this
      ensures Valid() && (State(), ReplyOf(r)) == Step(poolAuthority, old(State()), OpUnlock(caller, id, now))
    {
      hide Inv, LpLedger.Unlock;
      StepKeepsInv(poolAuthority, State(), OpUnlock(caller, id, now));
      var snapshot := State();
      r := if caller == poolAuthority then Ok(()) else Err(PoolAuthorityRequired);
      if r.Ok? {
        r := TryUnlock(id, now);
      }
      if r.Err? {
        Restore(snapshot);
      }
    }

    method TryCreditPrincipal(i: FeeSide, amount: int) returns (r: Done)
      modifies this
      ensures Performs(r, State(), LpLedger.CreditPrincipal(old(State()), i, amount))
    {
      var st := sides.At(i);
      :- RequireRange(amount, 0, MAX_RESERVE_OPERAND);
      :- Need(st.reserve + amount <= MAX_RESERVE_OPERAND, ReserveCap);
      st := st.(reserve := st.reserve + amount);
      sides := sides.With(i, st);
      var custody :- CheckedAdd(st.custody, amount);
      sides := sides.With(i, st.(custody := custody));
      return Ok(());
    }

    method CreditPrincipal(caller: Account, i: FeeSide, amount: int) returns (r: Done)
      requires Valid()
      modifies this
      ensures Valid()
        && (State(), ReplyOf(r)) == Step(poolAuthority, old(State()), OpCreditPrincipal(caller, i, amount))
    {
      hide Inv, LpLedger.CreditPrincipal;
      StepKeepsInv(poolAuthority, State(), OpCreditPrincipal(caller, i, amount));
      var snapshot := State();
      r := if caller == poolAuthority then Ok(()) else Err(PoolAuthorityRequired);
      if r.Ok? {
        r := TryCreditPrincipal(i, amount);
      }
      if r.Err? {
        Restore(snapshot);
      }
    }

    /** Reserve, protocol fees and custody; a failed check leaves the earlier assignments behind. */
    method CreditSwapInput(i: FeeSide, netInput: int, protocolFee: int, lpFee: int) returns (r: Done)
      modifies this`sides
      ensures match CreditSwap(old(sides.At(i)), netInput, protocolFee, lpFee)
        case Ok(st) => r.Ok? && State() == SetSide(old(State()), i, st)
        case Err(error) => r == Err(error)
    {
      var st := sides.At(i);
      :- Need(st.reserve + netInput <= MAX_RESERVE_OPERAND, ReserveCap);
      st := st.(reserve := st.reserve + netInput);
      sides := sides.With(i, st);
      var protocolFees :- CheckedAdd(st.protocolFees, protocolFee);
      st := st.(protocolFees := protocolFees);
      sides := sides.With(i, st);
      var principal :- CheckedAdd(netInput, protocolFee);
      var credit :- CheckedAdd(principal, lpFee);
      var custody :- CheckedAdd(st.custody, credit);
      sides := sides.With(i, st.(custody := custody));
      return Ok(());
    }

    method AccrueFee(i: FeeSide, lpFee: int) returns (r: Done)
      modifies this`sides
      ensures match Accrue(old(sides.At(i)), lpFee, total)
        case Ok(st) => r.Ok? && State() == SetSide(old(State()), i, st)
        case Err(error) => r == Err(error)
    {
      hide AdvanceFeeGrowth;
      var st := sides.At(i);
      var next :- AdvanceFeeGrowth(GrowthState(st.growth, st.remainder, st.lifetime), lpFee, total);
      st := st.(growth := next.growth, remainder := next.remainder, lifetime := next.lifetime);
      sides := sides.With(i, st);
      var accrued :- CheckedAdd(st.accrued, lpFee);
      st := st.(accrued := accrued);
      sides := sides.With(i, st);
      var liability :- CheckedAdd(st.liability, lpFee);
      sides := sides.With(i, st.(liability := liability));
      return Ok(());
    }

    method TryRecordSwapFees(i: FeeSide, netInput: int, protocolFee: int, lpFee: int) returns (r: Done)
      modifies this
      ensures Performs(r, State(), LpLedger.RecordSwapFees(old(State()), i, netInput, protocolFee, lpFee))
    {
      hide Accrue, CreditSwap;
      :- RequireRange(netInput, 0, MAX_RESERVE_OPERAND);
      :- RequireRange(protocolFee, 0, MAX_LP_FEE_OPERAND);
      :- RequireRange(lpFee, 0, MAX_LP_FEE_OPERAND);
      :- Need(!(lpFee > 0 && total == 0), ZeroShares);
      var _ :- CreditSwapInput(i, netInput, protocolFee, lpFee);
      if lpFee == 0 {
        return Ok(());
      }
      r := AccrueFee(i, lpFee);
    }

    method RecordSwapFees(caller: Account, i: FeeSide, netInput: int, protocolFee: int, lpFee: int) returns (r: Done)
      requires Valid()
      modifies this
      ensures Valid()
      ensures (State(), ReplyOf(r))
           == Step(poolAuthority, old(State()), OpRecordSwapFees(caller, i, netInput, protocolFee, lpFee))
    {
      hide Inv, LpLedger.RecordSwapFees;
      StepKeepsInv(poolAuthority, State(), OpRecordSwapFees(caller, i, netInput, protocolFee, lpFee));
      var snapshot := State();
      r := if caller == poolAuthority then Ok(()) else Err(PoolAuthorityRequired);
      if r.Ok? {
        r := TryRecordSwapFees(i, netInput, protocolFee, lpFee);
      }
      if r.Err? {
        Restore(snapshot);
      }
    }

    method TryConsumeClaim(owner: Account, i: FeeSide) returns (r: Fallible<int>)
      modifies this
      ensures match LpLedger.ConsumeClaim(old(State()), owner, i)
        case Ok((next, amount)) => r == Ok(amount) && State() == next
        case Err(error) => r == Err(error)
    {
      hide LpLedger.Settle;
      var _ :- SettleAccount(owner);
      SettleShape(old(State()), owner);
      var h := holders[owner];
      var p := h.positions.At(i);
      var amount := p.claimable;
      var st := sides.At(i);
      :- Need(amount <= st.liability, ClaimExceedsLiability);
      holders := holders[owner := h.(positions := h.positions.With(i, p.(claimable := 0)))];
      st := st.(liability := st.liability - amount);
      sides := sides.With(i, st);
      var paid :- CheckedAdd(st.paid, amount);
      sides := sides.With(i, st.(paid := paid, custody := st.custody - amount));
      return Ok(amount);
    }

    method ConsumeClaim(caller: Account, owner: Account, i: FeeSide) returns (r: Fallible<int>)
      requires Valid()
      modifies this
      ensures Valid() && (State(), ReplyWith(r)) == Step(poolAuthority, old(State()), OpConsumeClaim(caller, owner, i))
    {
      hide Inv, LpLedger.ConsumeClaim;
      StepKeepsInv(poolAuthority, State(), OpConsumeClaim(caller, owner, i));
      var snapshot := State();
      if caller == poolAuthority {
        r := TryConsumeClaim(owner, i);
      } else {
        r := Err(PoolAuthorityRequired);
      }
      if r.Err? {
        Restore(snapshot);
      }
    }

    /** `claimableOf` and `carryOf`: reads that settle the account they are asked about. */
    method Read(account: Account, i: FeeSide, carry: bool) returns (r: Fallible<int>)
      requires Valid()
      modifies this
      ensures Valid()
      ensures var op := if carry then OpCarryOf(account, i) else OpClaimableOf(account, i);
        (State(), ReplyWith(r)) == Step(poolAuthority, old(State()), op)
    {
      hide Inv, LpLedger.Settle;
      StepKeepsInv(poolAuthority, State(), if carry then OpCarryOf(account, i) else OpClaimableOf(account, i));
      var snapshot := State();
      var settled := SettleAccount(account);
      SettleShape(old(State()), account);
      if settled.Err? {
        Restore(snapshot);
        return Err(settled.error);
      }
      var p := holders[account].positions.At(i);
      return Ok(if carry then p.carry else p.claimable);
    }

    method SettleEveryone() returns (r: Done)
      requires Valid()
      modifies this`holders
      ensures r.Ok? && Ok(State()) == SettleAll(old(State()))
    {
      hide Core, Settle, SettledHolder, SameWorth, SettleAll;
      ghost var s := State();
      SameWorthAtStart(s);
      var remaining := holders.Keys;
      while remaining != {}
        invariant remaining <= s.holders.Keys
        invariant State() == s.(holders := holders) && Core(State()) && SameWorth(s, State())
        invariant holders == map a | a in s.holders ::
                    if a in s.holders.Keys - remaining then SettledHolder(s, a) else s.holders[a]
        decreases remaining
      {
        var account :| account in remaining;
        AuditSettles(s, State(), s.holders.Keys - remaining, account);
        assert s.holders.Keys - (remaining - {account}) == s.holders.Keys - remaining + {account};
        remaining := remaining - {account};
        var settled := SettleAccount(account);
        if settled.Err? {
          return settled;
        }
      }
      SettleAllExact(s);
      assert State() == s.(holders := map a | a in s.holders :: SettledHolder(s, a));
      return Ok(());
    }

    method TotalClaims(i: FeeSide) returns (outstanding: Fallible<int>, ownerCarry: int)
      requires forall a :: a in holders ==> 0 <= ClaimsOf(State(), i)[a]
      requires Sum(ClaimsOf(State(), i)) <= UINT256_MAX
      ensures outstanding == Ok(Sum(ClaimsOf(State(), i))) && ownerCarry == Sum(CarriesOf(State(), i))
    {
      hide Sum, TwoToThe, ScaleBits;
      var claimed := 0;
      ownerCarry := 0;
      NothingYet();
      var remaining := holders.Keys;
      ghost var claims, carries := ClaimsOf(State(), i), CarriesOf(State(), i);
      assert claims - remaining == map[] && carries - remaining == map[];
      SumDominates(claims);
      while remaining != {}
        invariant remaining <= holders.Keys
        invariant claimed == Sum(claims - remaining) && ownerCarry == Sum(carries - remaining)
        decreases remaining
      {
        var account :| account in remaining;
        var p := holders[account].positions.At(i);
        OneMoreTotal(claims, remaining, account);
        OneMoreTotal(carries, remaining, account);
        SumDominates(claims - remaining);
        remaining := remaining - {account};
        SumOfPart(claims, remaining);
        var sum := CheckedAdd(claimed, p.claimable);
        if sum.Err? {
          return sum, ownerCarry;
        }
        claimed := sum.value;
        ownerCarry := ownerCarry + p.carry;
      }
      assert claims - remaining == claims && carries - remaining == carries;
      outstanding := Ok(claimed);
    }

    /** Settles everyone and checks the books of one side. Every check passes, so there is nothing to roll back. */
    method Audit(i: FeeSide) returns (r: Fallible<FeeAudit>)
      requires Valid()
      modifies this
      ensures Valid() && r.Ok? && LpLedger.Audit(old(State()), i) == Ok((State(), r.value))
      ensures State() == Step(poolAuthority, old(State()), OpAudit(i)).0
    {
      hide Inv, SettleAll, ClaimsOf, CarriesOf;
      StepKeepsInv(poolAuthority, State(), OpAudit(i));
      AuditFigures(State(), i);
      var _ := SettleEveryone();
      var outstanding, ownerCarry := TotalClaims(i);
      r := CheckBooks(outstanding.value, ownerCarry, sides.At(i));
    }
  }

  lemma NothingYet()
    ensures Sum<Account>(map[]) == 0
  {
  }

  /** The total after one more key was visited. */
  lemma OneMoreTotal(m: map<Account, int>, remaining: set<Account>, account: Account)
    requires account in m && account in remaining
    ensures Sum(m - (remaining - {account})) == Sum(m - remaining) + m[account]
  {
    assert m - (remaining - {account}) == (m - remaining)[account := m[account]];
    SumUpdate(m - remaining, account, m[account]);
  }

  lemma SameWorthAtStart(s: Ledger)
    ensures SameWorth(s, s)
  {
  }

  /** One more holder of an audit settled. */
  lemma AuditSettles(s: Ledger, now: Ledger, done: set<Account>, account: Account)
    requires Core(now) && SameWorth(s, now) && account in s.holders && account !in done && done <= s.holders.Keys
    requires now.holders == map a | a in s.holders :: if a in done then SettledHolder(s, a) else s.holders[a]
    ensures var r := Settle(now, account);
      && r.Ok? && Core(r.value) && SameWorth(s, r.value)
      && r.value.holders
         == map a | a in s.holders :: if a in done + {account} then SettledHolder(s, a) else s.holders[a]
  {
    hide Core, Settle, HolderCredit;
    SettleEffect(now, account);
    assert Credit(now, account, Side0) == Credit(s, account, Side0)
      && Credit(now, account, Side1) == Credit(s, account, Side1);
    assert BalanceOf(now, account) == BalanceOf(s, account);
    assert SettledHolder(now, account) == SettledHolder(s, account);
    SameWorthChains(s, now, Settle(now, account).value);
  }

  lemma SameWorthChains(s: Ledger, t: Ledger, u: Ledger)
    requires SameWorth(s, t) && SameWorth(t, u)
    ensures SameWorth(s, u)
  {
    hide HolderCredit;
    forall a, i: FeeSide
      ensures Credit(u, a, i) == Credit(s, a, i)
    {
      assert Credit(u, a, i) == Credit(t, a, i) == Credit(s, a, i);
    }
  }

  lemma AuditFigures(s: Ledger, i: FeeSide)
    requires Inv(s)
    ensures SettleAll(s) == Ok(s.(holders := map a | a in s.holders :: SettledHolder(s, a)))
    ensures LpLedger.Audit(s, i).Ok? && LpLedger.Audit(s, i).value.0 == SettleAll(s).value
    ensures forall a :: a in s.holders ==> 0 <= ClaimsOf(SettleAll(s).value, i)[a]
    ensures Sum(ClaimsOf(SettleAll(s).value, i)) <= UINT256_MAX
  {
    hide SettleAll, SettledHolder, HolderCredit, Core, HolderOk, SideOk;
    MeaningIsRefined(s);
    SettleAllExact(s);
    AuditStep(s, Meaning(s), i);
    SettleAllEffect(s, Meaning(s));
    var t := SettleAll(s).value;
    ClaimsNonnegative(t, i);
  }

  lemma ClaimsNonnegative(t: Ledger, i: FeeSide)
    requires Core(t)
    ensures forall a :: a in t.holders ==> 0 <= ClaimsOf(t, i)[a]
  {
    forall a | a in t.holders
      ensures 0 <= ClaimsOf(t, i)[a]
    {
      assert HolderOk(t.holders[a], t.sides);
    }
  }

  ghost function SettleBoth(s: Ledger, sender: Account, recipient: Account): Fallible<Ledger> {
    var first :- Settle(s, sender);
    Settle(first, recipient)
  }

  /** Settling keeps the total and every holder, and leaves the settled one present. */
  lemma SettleShape(s: Ledger, account: Account)
    ensures var r := Settle(s, account);
      r.Ok? ==>
        && r.value == s.(holders := r.value.holders)
        && account in r.value.holders && (forall a :: a in s.holders ==> a in r.value.holders)
  {
  }

  lemma RedistributeShape(s: Ledger, i: FeeSide, beneficiary: Account)
    ensures Redistribute(s, i, beneficiary).Ok? ==> Redistribute(s, i, beneficiary).value.total == s.total
  {
  }

  lemma RecycleShape(s: Ledger, account: Account)
    requires account in s.holders
    ensures RecycleIfEmpty(s, account).Ok? ==> RecycleIfEmpty(s, account).value.total == s.total
  {
    if s.holders[account].balance == 0 {
      RecycleSideTotal(s, Side0, account);
      var first := RecycleSide(s, Side0, account);
      if first.Ok? {
        RecycleSideTotal(EnsureHolder(first.value, account), Side1, account);
      }
    }
  }

  lemma RecycleSideTotal(s: Ledger, i: FeeSide, account: Account)
    requires account in s.holders
    ensures RecycleSide(s, i, account).Ok? ==> RecycleSide(s, i, account).value.total == s.total
  {
    hide Redistribute;
    var p := s.holders[account].positions.At(i);
    var st := s.sides.At(i);
    var emptied := SetPosition(s, account, i, p.(carry := 0));
    RedistributeShape(SetSide(emptied, i, st.(remainder := st.remainder + p.carry)), i, account);
  }
}
