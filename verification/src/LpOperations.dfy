/** Every public operation keeps the invariant and agrees with the eager ledger, and so does every run. */
module LpOperations {
  import opened Outcomes
  import opened Division
  import opened MapSums
  import opened FeeGrowth
  import opened LpLedger
  import opened LpInvariant
  import opened LpRecycling
  import opened LpEager
  import opened LpRefinement

  lemma LockedNonnegative(s: Ledger, account: Account)
    requires LocksOk(s)
    ensures 0 <= LockedOf(s, account) <= BalanceOf(s, account)
  {
    SumDominates(LockAmounts(s.locks, account));
  }

  /** The books after shares joined or left settled holders, up to the new total. */
  lemma CoreAfterShift(t: Ledger, u: Ledger)
    requires Core(t) && u == t.(holders := u.holders, total := u.total)
    requires forall i :: Sum(Credits(u, i)) == Sum(Credits(t, i))
    requires Sum(Balances(u)) == u.total <= MAX_TOTAL_SHARES
    requires forall a :: a in u.holders ==> HolderOk(u.holders[a], u.sides)
    requires 0 < u.total ==> t.sides.zero.remainder < SCALE && t.sides.one.remainder < SCALE
    ensures Core(u)
  {
    hide HolderCredit;
    forall a | a in Balances(u)
      ensures 0 <= Balances(u)[a]
    {
      assert HolderOk(u.holders[a], u.sides);
    }
    SumDominates(Balances(u));
  }

  lemma RefinesAfterShift(t: Ledger, e: Eager, u: Ledger, f: Eager)
    requires Refines(t, e) && u == t.(holders := u.holders, total := u.total)
    requires f == e.(balance := f.balance, total := u.total)
    requires forall a, i :: Credit(u, a, i) == Credit(t, a, i)
    requires forall a :: f.balance(a) - e.balance(a) == BalanceOf(u, a) - BalanceOf(t, a)
    ensures Refines(u, f)
  {
    hide HolderCredit, BookMatches;
    forall a
      ensures f.balance(a) == BalanceOf(u, a)
    {
      assert e.balance(a) == BalanceOf(t, a);
    }
    forall i: FeeSide, a
      ensures f.books.At(i).credit(a) == Credit(u, a, i)
    {
      assert e.books.At(i).credit(a) == Credit(t, a, i);
    }
  }

  lemma LocksAfterGain(s: Ledger, u: Ledger, account: Account, amount: int)
    requires LocksOk(s) && u.locks == s.locks && 0 <= amount
    requires forall a :: BalanceOf(u, a) == BalanceOf(s, a) + if a == account then amount else 0
    ensures LocksOk(u)
  {
    forall a
      ensures LockedOf(u, a) <= BalanceOf(u, a)
    {
      assert LockedOf(s, a) <= BalanceOf(s, a);
    }
  }

  lemma LocksAfterLoss(s: Ledger, u: Ledger, account: Account, amount: int)
    requires LocksOk(s) && u.locks == s.locks && amount <= BalanceOf(s, account) - LockedOf(s, account)
    requires forall a :: BalanceOf(u, a) >= BalanceOf(s, a) - if a == account then amount else 0
    ensures LocksOk(u)
  {
    forall a
      ensures LockedOf(u, a) <= BalanceOf(u, a)
    {
      assert LockedOf(s, a) <= BalanceOf(s, a);
    }
  }

  lemma BurnStep(s: Ledger, e: Eager, account: Account, amount: int)
    requires Inv(s) && Refines(s, e)
    ensures Agree(Burn(s, account, amount), BurnShares(e, account, amount)) && Good(Burn(s, account, amount))
  {
    hide Core, Settle, RecycleIfEmpty, Recycle, HolderCredit, HolderOk, BookMatches, LocksOk, Clean;
    if 1 <= amount <= MAX_TOTAL_SHARES {
      SettleStep(s, e, account);
      SettleStepInv(s, e, account);
      var t := Settle(s, account).value;
      assert e.balance(account) == BalanceOf(s, account);
      LockedNonnegative(s, account);
      if amount <= BalanceOf(s, account) - LockedOf(s, account) {
        var u := AddBalance(t, account, -amount).(total := s.total - amount);
        var f := WithBalance(e, account, -amount).(total := e.total - amount);
        BurnShift(s, e, t, account, amount);
        RecycleStep(u, f, account);
        var r, q := RecycleIfEmpty(u, account), Recycle(f, account);
        if r.Ok? && q.Ok? {
          NextGeneration(r.value, q.value);
        }
      }
    }
  }

  lemma NextGeneration(t: Ledger, f: Eager)
    requires Inv(t) && Refines(t, f)
    ensures Inv(t.(generation := t.generation + 1))
    ensures Refines(t.(generation := t.generation + 1), f.(generation := f.generation + 1))
  {
    hide HolderCredit, BookMatches;
    var u := t.(generation := t.generation + 1);
    SameHoldersAndSides(t, u, t.total);
    RefinesAfterScalars(t, f, u, f.(generation := f.generation + 1));
  }

  lemma RefinesAfterScalars(t: Ledger, e: Eager, u: Ledger, f: Eager)
    requires Refines(t, e) && u.holders == t.holders && u.sides == t.sides && u.total == t.total
    requires f.books == e.books && f.balance == e.balance && f.total == e.total
    requires f.generation == u.generation && f.allowances == u.allowances && f.locks == u.locks
    ensures Refines(u, f)
  {
    hide HolderCredit, BookMatches;
    forall a
      ensures f.balance(a) == BalanceOf(u, a)
    {
      assert e.balance(a) == BalanceOf(t, a);
    }
    forall i: FeeSide, a
      ensures f.books.At(i).credit(a) == Credit(u, a, i)
    {
      assert e.books.At(i).credit(a) == Credit(t, a, i);
    }
  }

  /** The books depend on holders, sides and the total only. */
  lemma SameHoldersAndSides(t: Ledger, u: Ledger, total: int)
    requires Core(t) && u.holders == t.holders && u.sides == t.sides && u.total == t.total == total
    ensures Core(u) && (forall a :: BalanceOf(u, a) == BalanceOf(t, a))
    ensures u.locks == t.locks && LocksOk(t) ==> LocksOk(u)
  {
    hide HolderCredit;
    assert Balances(u) == Balances(t) && Credits(u, Side0) == Credits(t, Side0)
      && Credits(u, Side1) == Credits(t, Side1);
    if u.locks == t.locks && LocksOk(t) {
      forall a
        ensures LockedOf(u, a) <= BalanceOf(u, a)
      {
        assert LockedOf(t, a) <= BalanceOf(t, a);
      }
    }
  }

  lemma BurnShift(s: Ledger, e: Eager, t: Ledger, account: Account, amount: int)
    requires Core(t) && Refines(t, e) && Settled(t, account) && LocksOk(t) && t.total == s.total
    requires 1 <= amount <= BalanceOf(t, account) - LockedOf(t, account) && amount <= BalanceOf(t, account)
    ensures var u := AddBalance(t, account, -amount).(total := s.total - amount);
      Core(u) && LocksOk(u) && Refines(u, WithBalance(e, account, -amount).(total := e.total - amount))
  {
    hide HolderCredit, BookMatches, Conserved, SideOk, Sum;
    var u := AddBalance(t, account, -amount).(total := s.total - amount);
    assert HolderOk(t.holders[account], t.sides);
    LockedNonnegative(t, account);
    RemaindersBelowScale(t, account);
    AddBalanceEffect(t, account, -amount);
    var m := AddBalance(t, account, -amount);
    assert Balances(u) == Balances(m) && Credits(u, Side0) == Credits(m, Side0)
      && Credits(u, Side1) == Credits(m, Side1);
    CoreAfterShift(t, u);
    LocksAfterLoss(t, u, account, amount);
    RefinesAfterShift(t, e, u, WithBalance(e, account, -amount).(total := e.total - amount));
  }

  lemma MoveStep(s: Ledger, e: Eager, sender: Account, recipient: Account, amount: int)
    requires Inv(s) && Refines(s, e)
    ensures Agree(Move(s, sender, recipient, amount), MoveShares(e, sender, recipient, amount))
    ensures Good(Move(s, sender, recipient, amount))
  {
    hide Core, Settle, RecycleIfEmpty, Recycle, HolderCredit, HolderOk, BookMatches, LocksOk, Clean;
    if 1 <= amount <= MAX_TOTAL_SHARES && sender != recipient {
      SettleStep(s, e, sender);
      SettleStepInv(s, e, sender);
      var r := Settle(s, sender).value;
      SettleStep(r, e, recipient);
      SettleStepInv(r, e, recipient);
      var t := Settle(r, recipient).value;
      assert e.balance(sender) == BalanceOf(s, sender);
      LockedNonnegative(s, sender);
      if amount <= BalanceOf(s, sender) - LockedOf(s, sender) {
        var u := AddBalance(AddBalance(t, sender, -amount), recipient, amount);
        var f := WithBalance(WithBalance(e, sender, -amount), recipient, amount);
        MoveShift(t, e, sender, recipient, amount);
        RecycleStep(u, f, sender);
      }
    }
  }

  lemma MoveShift(t: Ledger, e: Eager, sender: Account, recipient: Account, amount: int)
    requires Inv(t) && Refines(t, e) && Settled(t, sender) && Settled(t, recipient) && sender != recipient
    requires 1 <= amount <= BalanceOf(t, sender) - LockedOf(t, sender) && amount <= BalanceOf(t, sender)
    ensures var u := AddBalance(AddBalance(t, sender, -amount), recipient, amount);
      && Core(u) && LocksOk(u)
      && Refines(u, WithBalance(WithBalance(e, sender, -amount), recipient, amount))
      && (forall a :: a in u.holders && a != sender ==> Clean(u.holders[a]))
  {
    hide HolderCredit, BookMatches, Conserved, SideOk, Sum;
    var m := AddBalance(t, sender, -amount);
    var u := AddBalance(m, recipient, amount);
    assert HolderOk(t.holders[sender], t.sides) && HolderOk(t.holders[recipient], t.sides);
    AddBalanceEffect(t, sender, -amount);
    AddBalanceEffect(m, recipient, amount);
    RemaindersBelowScale(t, sender);
    assert Balances(u) == Balances(u.(total := t.total));
    CoreAfterShift(t, u);
    LocksAfterLoss(t, u, sender, amount);
    RefinesAfterShift(t, e, u, WithBalance(WithBalance(e, sender, -amount), recipient, amount));
    assert u.holders[recipient].balance > 0;
  }

  /** While anyone holds shares, both remainders are below one whole unit. */
  lemma RemaindersBelowScale(t: Ledger, holder: Account)
    requires Core(t) && 0 < BalanceOf(t, holder)
    ensures 0 < t.total && t.sides.zero.remainder < SCALE && t.sides.one.remainder < SCALE
  {
    HolderBounds(t, holder);
  }

  // ---- Allowances and locks ----

  lemma AllowanceStep(s: Ledger, e: Eager, allowances: Allowances)
    requires Inv(s) && Refines(s, e)
    ensures Inv(s.(allowances := allowances)) && Refines(s.(allowances := allowances), e.(allowances := allowances))
  {
    hide HolderCredit, BookMatches, LocksOk, Core;
    SameHoldersAndSides(s, s.(allowances := allowances), s.total);
    RefinesAfterScalars(s, e, s.(allowances := allowances), e.(allowances := allowances));
  }

  lemma TransferFromStep(s: Ledger, e: Eager, spender: Account, owner: Account, recipient: Account, amount: int)
    requires Inv(s) && Refines(s, e)
    ensures Agree(TransferFrom(s, spender, owner, recipient, amount),
      MoveApproved(e, spender, owner, recipient, amount))
    ensures Good(TransferFrom(s, spender, owner, recipient, amount))
  {
    hide Inv, Move, MoveShares, HolderCredit, BookMatches;
    var current := Allowance(s.allowances, owner, spender);
    if 1 <= amount <= MAX_TOTAL_SHARES && amount <= current {
      var next := WithAllowance(s.allowances, owner, spender, current - amount);
      AllowanceStep(s, e, next);
      MoveStep(s.(allowances := next), e.(allowances := next), owner, recipient, amount);
    }
  }

  lemma LockStep(s: Ledger, e: Eager, id: LockId, lock: Lock)
    requires Inv(s) && Refines(s, e) && lock.active
    ensures Agree(AddLock(s, id, lock.owner, lock.amount, lock.unlockAt, lock.permanent), LockShares(e, id, lock))
    ensures Good(AddLock(s, id, lock.owner, lock.amount, lock.unlockAt, lock.permanent))
  {
    hide Core, Settle, HolderCredit, BookMatches, LocksOk, Clean, Settled;
    var owner := lock.owner;
    if 1 <= lock.amount <= MAX_TOTAL_SHARES && 0 <= lock.unlockAt <= UINT64_MAX && id !in s.locks {
      SettleStep(s, e, owner);
      SettleStepInv(s, e, owner);
      var t := Settle(s, owner).value;
      assert e.balance(owner) == BalanceOf(s, owner);
      if lock.amount <= BalanceOf(s, owner) - LockedOf(s, owner) {
        var u := t.(locks := t.locks[id := lock]);
        SameHoldersAndSides(t, u, t.total);
        RefinesAfterScalars(t, e, u, e.(locks := e.locks[id := lock]));
        LocksAfterLock(t, id, lock);
      }
    }
  }

  lemma LocksAfterLock(t: Ledger, id: LockId, lock: Lock)
    requires LocksOk(t) && id !in t.locks && lock.active && 0 < lock.amount
    requires lock.amount <= BalanceOf(t, lock.owner) - LockedOf(t, lock.owner)
    ensures LocksOk(t.(locks := t.locks[id := lock]))
  {
    hide Sum;
    var u := t.(locks := t.locks[id := lock]);
    forall a
      ensures LockedOf(u, a) <= BalanceOf(u, a)
    {
      var m := LockAmounts(t.locks, a);
      if a == lock.owner {
        assert LockAmounts(u.locks, a) == m[id := lock.amount];
        SumUpdate(m, id, lock.amount);
      } else {
        assert LockAmounts(u.locks, a) == m;
      }
      assert LockedOf(t, a) <= BalanceOf(t, a);
    }
  }

  lemma UnlockStep(s: Ledger, e: Eager, id: LockId, now: int)
    requires Inv(s) && Refines(s, e)
    ensures Agree(Unlock(s, id, now), UnlockShares(e, id, now)) && Good(Unlock(s, id, now))
  {
    hide Core, HolderCredit, BookMatches, LocksOk, Clean;
    if Unlock(s, id, now).Ok? {
      var u := Unlock(s, id, now).value;
      SameHoldersAndSides(s, u, s.total);
      LocksAfterUnlock(s, u, id);
      RefinesAfterScalars(s, e, u, UnlockShares(e, id, now).value);
    }
  }

  lemma LocksAfterUnlock(s: Ledger, u: Ledger, id: LockId)
    requires LocksOk(s) && id in s.locks && u == s.(locks := s.locks[id := s.locks[id].(active := false)])
    ensures LocksOk(u)
  {
    forall a
      ensures LockedOf(u, a) <= BalanceOf(u, a)
    {
      var m := LockAmounts(s.locks, a);
      assert LockAmounts(u.locks, a) == m - {id};
      if id in m {
        SumSplit(m, id);
      } else {
        assert m - {id} == m;
      }
      assert LockedOf(s, a) <= BalanceOf(s, a);
    }
  }

  // ---- Swap fees, principal and claims ----

  /** A side whose growth, sums and positions did not move keeps the books. */
  lemma SideStep(s: Ledger, e: Eager, i: FeeSide, st: SideState, b: Book)
    requires Inv(s) && Refines(s, e) && SideOk(st, s.total) && BookMatches(st, b)
    requires st.growth == s.sides.At(i).growth && b.credit == e.books.At(i).credit
    requires st.remainder == s.sides.At(i).remainder && st.paid == s.sides.At(i).paid
      && st.accrued == s.sides.At(i).accrued
    ensures Inv(SetSide(s, i, st)) && Refines(SetSide(s, i, st), SetBook(e, i, b))
  {
    hide SideOk, Clean, Sum;
    var t := SetSide(s, i, st);
    assert forall a, j :: Credit(t, a, j) == Credit(s, a, j);
    assert Balances(t) == Balances(s) && Credits(t, Side0) == Credits(s, Side0)
      && Credits(t, Side1) == Credits(s, Side1);
    forall a
      ensures Credit(t, a, i) == b.credit(a)
    {
      assert e.books.At(i).credit(a) == Credit(s, a, i);
    }
    RefinesOneSide(s, e, i, t, b);
    SameLocks(s, t);
  }

  lemma SameLocks(s: Ledger, t: Ledger)
    requires LocksOk(s) && t.locks == s.locks && forall a :: BalanceOf(t, a) >= BalanceOf(s, a)
    ensures LocksOk(t)
  {
    forall a
      ensures LockedOf(t, a) <= BalanceOf(t, a)
    {
      assert LockedOf(s, a) <= BalanceOf(s, a);
    }
  }

  ghost predicate AgreeSide(s: Ledger, e: Eager, i: FeeSide, r: Fallible<Ledger>, q: Fallible<Book>) {
    AgreeBook(s, e, i, r, q) && Good(r)
  }

  lemma PrincipalStep(s: Ledger, e: Eager, i: FeeSide, amount: int)
    requires Inv(s) && Refines(s, e)
    ensures AgreeSide(s, e, i, CreditPrincipal(s, i, amount), AddPrincipal(e.books.At(i), amount))
  {
    hide Inv, HolderCredit, Refines, Conserved, TwoToThe, ScaleBits;
    BooksOf(s, e, i);
    ScaleFits();
    if CreditPrincipal(s, i, amount).Ok? {
      var st := CreditPrincipal(s, i, amount).value.sides.At(i);
      SideStep(s, e, i, st, AddPrincipal(e.books.At(i), amount).value);
    }
  }

  lemma BooksOf(s: Ledger, e: Eager, i: FeeSide)
    requires Inv(s) && Refines(s, e)
    ensures BookMatches(s.sides.At(i), e.books.At(i)) && SideOk(s.sides.At(i), s.total) && Conserved(s, i)
    ensures 0 <= s.total <= MAX_TOTAL_SHARES
  {
  }

  lemma CreditSwapExact(st: SideState, total: int, netInput: int, protocolFee: int, lpFee: int)
    requires SideOk(st, total) && 0 <= netInput < SCALE && 0 <= protocolFee < SCALE && 0 <= lpFee < SCALE
    ensures CreditSwap(st, netInput, protocolFee, lpFee) ==
      if MAX_RESERVE_OPERAND < st.reserve + netInput then Err(ReserveCap)
      else if UINT256_MAX < st.custody + netInput + protocolFee + lpFee then Err(Overflow)
      else Ok(st.(reserve := st.reserve + netInput, protocolFees := st.protocolFees + protocolFee,
                  custody := st.custody + netInput + protocolFee + lpFee))
  {
    ScaleFits();
  }

  lemma AccrueExact(st: SideState, lpFee: int, total: int)
    requires 0 < total <= MAX_TOTAL_SHARES && 0 < lpFee < SCALE
    requires st.growth.Normal() && 0 <= st.remainder < SCALE && 0 <= st.lifetime == st.accrued <= UINT256_MAX
    requires 0 <= st.liability <= st.accrued
    ensures var dealt := lpFee * SCALE + st.remainder;
      var x := (st.growth.Scaled() + dealt / total) / SCALE;
      Accrue(st, lpFee, total) ==
      if UINT256_MAX < x || UINT256_MAX < st.accrued + lpFee then Err(Overflow)
      else if st.accrued + lpFee < x then Err(GrowthExceedsLifetimeFees)
      else Ok(st.(growth := Raise(st.growth, dealt / total), remainder := dealt % total,
                  lifetime := st.lifetime + lpFee, accrued := st.accrued + lpFee, liability := st.liability + lpFee))
  {
    hide Accrue, TwoToThe, ScaleBits;
    AccrueGuards(st, lpFee, total);
  }

  lemma AccrueGuards(st: SideState, lpFee: int, total: int)
    requires 0 < total <= MAX_TOTAL_SHARES && 0 < lpFee < SCALE
    requires st.growth.Normal() && 0 <= st.remainder < SCALE && 0 <= st.lifetime == st.accrued <= UINT256_MAX
    requires 0 <= st.liability <= st.accrued
    ensures var scaled := AccruedScaled(GrowthState(st.growth, st.remainder, st.lifetime), lpFee, total);
      Accrue(st, lpFee, total) ==
      if UINT256_MAX < scaled / SCALE || UINT256_MAX < st.accrued + lpFee then Err(Overflow)
      else if st.accrued + lpFee < scaled / SCALE then Err(GrowthExceedsLifetimeFees)
      else Ok(st.(growth := Growth(scaled / SCALE, scaled % SCALE), remainder := (lpFee * SCALE + st.remainder) % total,
                  lifetime := st.lifetime + lpFee, accrued := st.accrued + lpFee, liability := st.liability + lpFee))
  {
    hide AdvanceFeeGrowth, AccruedScaled;
    FeeFits(lpFee);
    AdvanceGuards(GrowthState(st.growth, st.remainder, st.lifetime), lpFee, total);
  }

  lemma FeeFits(lpFee: int)
    requires 0 < lpFee < SCALE
    ensures lpFee <= UINT256_MAX
  {
    ScaleFits();
  }

  /** The side after a successful accrual. */
  function AccruedSide(st: SideState, netInput: int, protocolFee: int, lpFee: int, total: int): SideState
    requires total > 0
  {
    var dealt := lpFee * SCALE + st.remainder;
    st.(growth := Raise(st.growth, dealt / total), remainder := dealt % total, lifetime := st.lifetime + lpFee,
        accrued := st.accrued + lpFee, liability := st.liability + lpFee, reserve := st.reserve + netInput,
        protocolFees := st.protocolFees + protocolFee, custody := st.custody + netInput + protocolFee + lpFee)
  }

  lemma AccruedSideOk(st: SideState, netInput: int, protocolFee: int, lpFee: int, total: int)
    requires 0 < total <= MAX_TOTAL_SHARES && SideOk(st, total) && 0 <= netInput && 0 <= protocolFee && 0 < lpFee
    requires st.reserve + netInput <= MAX_RESERVE_OPERAND
    requires st.custody + netInput + protocolFee + lpFee <= UINT256_MAX && st.accrued + lpFee <= UINT256_MAX
    requires (st.growth.Scaled() + (lpFee * SCALE + st.remainder) / total) / SCALE <= st.accrued + lpFee
    ensures SideOk(AccruedSide(st, netInput, protocolFee, lpFee, total), total)
    ensures 0 <= (lpFee * SCALE + st.remainder) / total
    ensures AccruedSide(st, netInput, protocolFee, lpFee, total).growth.Scaled()
         == st.growth.Scaled() + (lpFee * SCALE + st.remainder) / total
  {
    var dealt := lpFee * SCALE + st.remainder;
    MulMono(0, lpFee, SCALE);
    DivAtLeast(dealt, total, 0);
    Euclid(dealt, total);
    RaiseExact(st.growth, dealt / total);
    MulMono(0, st.growth.whole, SCALE);
    DivAtLeast(st.growth.Scaled() + dealt / total, SCALE, 0);
  }

  /** Accruing a fee pays every share the same and keeps the books balanced. */
  lemma AccrualKeepsBooks(s: Ledger, i: FeeSide, st: SideState, lpFee: int)
    requires Inv(s) && 0 < s.total && SideOk(st, s.total)
    requires var prior := s.sides.At(i); var dealt := lpFee * SCALE + prior.remainder; var q := dealt / s.total;
      && 0 <= q && st.growth.Scaled() == prior.growth.Scaled() + q && st.remainder == dealt % s.total
      && st.accrued == prior.accrued + lpFee && st.paid == prior.paid
    ensures var t := SetSide(s, i, st); var q := (lpFee * SCALE + s.sides.At(i).remainder) / s.total;
      && Inv(t)
      && (forall a, j :: Credit(t, a, j) == Credit(s, a, j) + if j == i then BalanceOf(s, a) * q else 0)
  {
    hide HolderCredit, SideOk, HolderOk, Clean;
    var prior := s.sides.At(i);
    var dealt := lpFee * SCALE + prior.remainder;
    var t := SetSide(s, i, st);
    RaiseEffect(s, i, st, dealt / s.total);
    Euclid(dealt, s.total);
    Distribute(prior.accrued, lpFee, SCALE);
    assert Conserved(s, i);
    assert Balances(t) == Balances(s);
    SameLocks(s, t);
  }

  /** What the eager accrual computes, once the checks have passed. */
  lemma SwapBook(b: Book, total: int, balance: Account -> int, netInput: int, protocolFee: int, lpFee: int)
    requires 0 < total && 0 <= netInput < SCALE && 0 <= protocolFee < SCALE && 0 < lpFee < SCALE
    ensures var r := AddSwapFees(b, total, balance, netInput, protocolFee, lpFee);
      var dealt := lpFee * SCALE + b.remainder;
      r.Ok? ==>
        && r.value == b.(growth := b.growth + dealt / total, remainder := dealt % total, accrued := b.accrued + lpFee,
                         reserve := b.reserve + netInput, protocolFees := b.protocolFees + protocolFee,
                         credit := r.value.credit)
        && forall a :: r.value.credit(a) == b.credit(a) + balance(a) * (dealt / total)
  {
  }

  lemma SwapVerdict(s: Ledger, e: Eager, i: FeeSide, netInput: int, protocolFee: int, lpFee: int)
    requires Inv(s) && Refines(s, e) && 0 < s.total
    requires 0 <= netInput < SCALE && 0 <= protocolFee < SCALE && 0 < lpFee < SCALE
    ensures var r := RecordSwapFees(s, i, netInput, protocolFee, lpFee);
      var q := AddSwapFees(e.books.At(i), e.total, e.balance, netInput, protocolFee, lpFee);
      && (r.Err? <==> q.Err?) && (r.Err? ==> r.error == q.error)
      && (r.Ok? ==>
          && r.value == SetSide(s, i, AccruedSide(s.sides.At(i), netInput, protocolFee, lpFee, s.total))
          && SideOk(r.value.sides.At(i), s.total))
  {
    hide Inv, HolderCredit, CreditSwap, Accrue, Raise, SideOk, Conserved, TwoToThe, ScaleBits;
    var st := s.sides.At(i);
    BooksOf(s, e, i);
    SideNumbers(st, s.total);
    CreditSwapExact(st, s.total, netInput, protocolFee, lpFee);
    if CreditSwap(st, netInput, protocolFee, lpFee).Ok? {
      AccrueExact(CreditSwap(st, netInput, protocolFee, lpFee).value, lpFee, s.total);
      if RecordSwapFees(s, i, netInput, protocolFee, lpFee).Ok? {
        AccruedSideOk(st, netInput, protocolFee, lpFee, s.total);
      }
    }
  }

  lemma SideNumbers(st: SideState, total: int)
    requires SideOk(st, total) && 0 < total
    ensures st.growth.Normal() && 0 <= st.remainder < SCALE && 0 <= st.lifetime == st.accrued <= UINT256_MAX
    ensures 0 <= st.liability == st.accrued - st.paid <= st.accrued
    ensures st.custody == st.reserve + st.protocolFees + st.liability
  {
  }

  lemma AccrualStep(s: Ledger, e: Eager, i: FeeSide, netInput: int, protocolFee: int, lpFee: int)
    requires Inv(s) && Refines(s, e) && 0 < s.total
    requires 0 <= netInput < SCALE && 0 <= protocolFee < SCALE && 0 < lpFee < SCALE
    ensures AgreeSide(s, e, i, RecordSwapFees(s, i, netInput, protocolFee, lpFee),
                      AddSwapFees(e.books.At(i), e.total, e.balance, netInput, protocolFee, lpFee))
  {
    hide Inv, RecordSwapFees, AddSwapFees, HolderCredit, SideOk, Raise;
    SwapVerdict(s, e, i, netInput, protocolFee, lpFee);
    if RecordSwapFees(s, i, netInput, protocolFee, lpFee).Ok? {
      var st := s.sides.At(i);
      var next := AccruedSide(st, netInput, protocolFee, lpFee, s.total);
      var t := SetSide(s, i, next);
      var b := AddSwapFees(e.books.At(i), e.total, e.balance, netInput, protocolFee, lpFee).value;
      BooksOf(s, e, i);
      SwapBook(e.books.At(i), e.total, e.balance, netInput, protocolFee, lpFee);
      AccruedGrowth(st, netInput, protocolFee, lpFee, s.total);
      AccrualKeepsBooks(s, i, next, lpFee);
      forall a
        ensures Credit(t, a, i) == b.credit(a)
      {
        assert e.books.At(i).credit(a) == Credit(s, a, i) && e.balance(a) == BalanceOf(s, a);
      }
      RefinesOneSide(s, e, i, t, b);
    }
  }

  lemma AccruedGrowth(st: SideState, netInput: int, protocolFee: int, lpFee: int, total: int)
    requires 0 < total && SideOk(st, total) && 0 < lpFee
    ensures 0 <= (lpFee * SCALE + st.remainder) / total
    ensures AccruedSide(st, netInput, protocolFee, lpFee, total).growth.Scaled()
         == st.growth.Scaled() + (lpFee * SCALE + st.remainder) / total
  {
    var dealt := lpFee * SCALE + st.remainder;
    MulMono(0, lpFee, SCALE);
    DivAtLeast(dealt, total, 0);
    RaiseExact(st.growth, dealt / total);
  }

  lemma SwapFeesStep(s: Ledger, e: Eager, i: FeeSide, netInput: int, protocolFee: int, lpFee: int)
    requires Inv(s) && Refines(s, e)
    ensures AgreeSide(s, e, i, RecordSwapFees(s, i, netInput, protocolFee, lpFee),
                      AddSwapFees(e.books.At(i), e.total, e.balance, netInput, protocolFee, lpFee))
  {
    hide Inv, HolderCredit, Accrue, CreditSwap, SideOk;
    BooksOf(s, e, i);
    if 0 <= netInput < SCALE && 0 <= protocolFee < SCALE && 0 <= lpFee < SCALE {
      if 0 < lpFee && 0 < s.total {
        AccrualStep(s, e, i, netInput, protocolFee, lpFee);
      } else if lpFee == 0 {
        CreditSwapExact(s.sides.At(i), s.total, netInput, protocolFee, 0);
        PlainSwap(s, e, i, netInput, protocolFee);
      }
    }
  }

  lemma PlainSwap(s: Ledger, e: Eager, i: FeeSide, netInput: int, protocolFee: int)
    requires Inv(s) && Refines(s, e) && 0 <= netInput < SCALE && 0 <= protocolFee < SCALE
    ensures AgreeSide(s, e, i, RecordSwapFees(s, i, netInput, protocolFee, 0),
                      AddSwapFees(e.books.At(i), e.total, e.balance, netInput, protocolFee, 0))
  {
    hide Inv, HolderCredit, CreditSwap;
    BooksOf(s, e, i);
    CreditSwapExact(s.sides.At(i), s.total, netInput, protocolFee, 0);
    if RecordSwapFees(s, i, netInput, protocolFee, 0).Ok? {
      SideStep(s, e, i, RecordSwapFees(s, i, netInput, protocolFee, 0).value.sides.At(i),
               AddSwapFees(e.books.At(i), e.total, e.balance, netInput, protocolFee, 0).value);
    }
  }

  lemma WithinLiability(st: SideState, total: int, credit: int, credits: int)
    requires SideOk(st, total) && 0 <= credit <= credits
    requires credits + st.remainder + st.paid * SCALE == st.accrued * SCALE
    ensures 0 <= credit / SCALE <= st.liability && st.paid + credit / SCALE <= UINT256_MAX
  {
    hide TwoToThe, ScaleBits;
    Distribute(st.accrued, -st.paid, SCALE);
    DivAtLeast(credit, SCALE, 0);
    DivAtLeast(credit, SCALE, st.liability + 1);
    Distribute(st.liability, 1, SCALE);
  }

  /** No claim can exceed what the side still owes. */
  lemma CreditWithinLiability(s: Ledger, account: Account, i: FeeSide)
    requires Core(s)
    ensures 0 <= Credit(s, account, i) / SCALE <= s.sides.At(i).liability
    ensures s.sides.At(i).paid + Credit(s, account, i) / SCALE <= UINT256_MAX
  {
    hide HolderCredit, SideOk;
    var st := s.sides.At(i);
    assert SideOk(st, s.total) && Conserved(s, i);
    CreditsNonnegative(s, i);
    SumDominates(Credits(s, i));
    if account in s.holders {
      assert Credits(s, i)[account] == Credit(s, account, i);
    }
    WithinLiability(st, s.total, Credit(s, account, i), Sum(Credits(s, i)));
  }

  /** The ledger after the claim of a settled owner is paid. */
  function PaidOut(t: Ledger, owner: Account, i: FeeSide): Ledger
    requires owner in t.holders
  {
    var p := t.holders[owner].positions.At(i);
    var st := t.sides.At(i);
    SetSide(SetPosition(t, owner, i, p.(claimable := 0)), i,
            st.(liability := st.liability - p.claimable, paid := st.paid + p.claimable,
                custody := st.custody - p.claimable))
  }

  lemma ClaimCleared(t: Ledger, i: FeeSide, owner: Account)
    requires owner in t.holders && HolderOk(t.holders[owner], t.sides)
    ensures var p := t.holders[owner].positions.At(i);
      var h := SetPosition(t, owner, i, p.(claimable := 0)).holders[owner];
      && HolderOk(h, t.sides) && h.balance == t.holders[owner].balance && (Clean(t.holders[owner]) ==> Clean(h))
      && forall j :: HolderCredit(h, t.sides, j) == Credit(t, owner, j) - if j == i then p.claimable * SCALE else 0
  {
  }

  lemma PaidOutWorth(t: Ledger, owner: Account, i: FeeSide)
    requires forall a :: a in t.holders ==> HolderOk(t.holders[a], t.sides)
    requires owner in t.holders
    ensures var u := PaidOut(t, owner, i); var loss := t.holders[owner].positions.At(i).claimable * SCALE;
      && (forall a :: a in u.holders ==> HolderOk(u.holders[a], u.sides))
      && (forall a, j :: Credit(u, a, j) == Credit(t, a, j) - if a == owner && j == i then loss else 0)
      && (forall j :: Sum(Credits(u, j)) == Sum(Credits(t, j)) - if j == i then loss else 0)
      && Balances(u) == Balances(t)
      && (Clean(t.holders[owner]) ==> Clean(u.holders[owner]))
  {
    hide Entitlement, PositionOk, Clean, HolderOk;
    var u := PaidOut(t, owner, i);
    var p := t.holders[owner].positions.At(i);
    var m := SetPosition(t, owner, i, p.(claimable := 0));
    ClaimCleared(t, i, owner);
    PositionWorth(t, m, i, owner, p.claimable * SCALE);
    SameGrowth(m, u);
  }

  /** Worth depends on holders and growth only. */
  lemma SameGrowth(m: Ledger, u: Ledger)
    requires u.holders == m.holders
    requires u.sides.zero.growth == m.sides.zero.growth && u.sides.one.growth == m.sides.one.growth
    ensures Credits(u, Side0) == Credits(m, Side0) && Credits(u, Side1) == Credits(m, Side1)
    ensures (forall a, j :: Credit(u, a, j) == Credit(m, a, j)) && Balances(u) == Balances(m)
    ensures forall a :: a in u.holders ==> (HolderOk(u.holders[a], u.sides) <==> HolderOk(m.holders[a], m.sides))
  {
  }

  lemma PaidOutKeepsBooks(t: Ledger, owner: Account, i: FeeSide)
    requires Inv(t) && owner in t.holders
    requires t.holders[owner].positions.At(i).claimable == Credit(t, owner, i) / SCALE
    ensures var u := PaidOut(t, owner, i); var amount := t.holders[owner].positions.At(i).claimable;
      && Inv(u)
      && (forall a, j :: Credit(u, a, j) == Credit(t, a, j) - if a == owner && j == i then amount * SCALE else 0)
      && (forall a :: BalanceOf(u, a) == BalanceOf(t, a))
  {
    hide HolderCredit, HolderOk, Clean, SideOk, Credits;
    var u := PaidOut(t, owner, i);
    var amount := t.holders[owner].positions.At(i).claimable;
    CreditWithinLiability(t, owner, i);
    PaidOutWorth(t, owner, i);
    SidePaidOut(t.sides.At(i), t.total, amount);
    Distribute(t.sides.At(i).paid, amount, SCALE);
    assert Conserved(t, Side0) && Conserved(t, Side1);
    assert Conserved(u, Side0) && Conserved(u, Side1);
    assert forall a :: BalanceOf(u, a) == BalanceOf(t, a);
    SameLocks(t, u);
  }

  lemma SidePaidOut(st: SideState, total: int, amount: int)
    requires SideOk(st, total) && 0 <= amount <= st.liability
    ensures var liability, paid, custody := st.liability - amount, st.paid + amount, st.custody - amount;
      SideOk(st.(liability := liability, paid := paid, custody := custody), total)
  {
  }

  ghost predicate AgreeReply(s: Ledger, r: Fallible<(Ledger, int)>, q: Fallible<(Eager, int)>) {
    match (r, q)
    case (Ok((t, x)), Ok((f, y))) => Inv(t) && Refines(t, f) && x == y
    case (Err(x), Err(y)) => x == y
    case _ => false
  }

  /** Claims never fail: "claim exceeds LP liability" and the paid overflow cannot happen. */
  lemma ClaimStep(s: Ledger, e: Eager, owner: Account, i: FeeSide)
    requires Inv(s) && Refines(s, e)
    ensures var b := e.books.At(i); var amount := b.credit(owner) / SCALE;
      AgreeReply(s, ConsumeClaim(s, owner, i),
                 Ok((SetBook(e, i, WithCredit(b, owner, -amount * SCALE).(paid := b.paid + amount)), amount)))
  {
    hide Inv, Settle, HolderCredit, Refines, WithCredit;
    SettleFully(s, e, owner);
    var t := Settle(s, owner).value;
    ClaimPasses(t, owner, i);
    PaidOutKeepsBooks(t, owner, i);
    PaidOutRefines(t, e, owner, i);
  }

  lemma PaidOutRefines(t: Ledger, e: Eager, owner: Account, i: FeeSide)
    requires Inv(t) && Refines(t, e) && owner in t.holders
    requires t.holders[owner].positions.At(i).claimable == Credit(t, owner, i) / SCALE
    ensures var b := e.books.At(i); var amount := b.credit(owner) / SCALE;
      && amount == t.holders[owner].positions.At(i).claimable
      && Refines(PaidOut(t, owner, i), SetBook(e, i, WithCredit(b, owner, -amount * SCALE).(paid := b.paid + amount)))
  {
    hide Inv, HolderCredit;
    PaidOutKeepsBooks(t, owner, i);
    var u := PaidOut(t, owner, i);
    var b := e.books.At(i);
    assert b.credit(owner) == Credit(t, owner, i);
    var amount := b.credit(owner) / SCALE;
    var c := WithCredit(b, owner, -amount * SCALE).(paid := b.paid + amount);
    assert BookMatches(t.sides.At(i), b);
    forall a
      ensures Credit(u, a, i) == c.credit(a)
    {
      assert e.books.At(i).credit(a) == Credit(t, a, i);
    }
    RefinesOneSide(t, e, i, u, c);
  }

  lemma SettleFully(s: Ledger, e: Eager, account: Account)
    requires Inv(s) && Refines(s, e)
    ensures Settle(s, account).Ok?
    ensures var t := Settle(s, account).value;
      && Inv(t) && Refines(t, e) && account in t.holders
      && (forall i :: t.holders[account].positions.At(i).carry == e.books.At(i).credit(account) % SCALE)
      && (forall i :: t.holders[account].positions.At(i).claimable == e.books.At(i).credit(account) / SCALE)
      && (forall i :: Credit(t, account, i) == e.books.At(i).credit(account))
  {
    hide Settle, HolderCredit, BookMatches, Core, LocksOk, Clean, HolderOk;
    SettleStep(s, e, account);
    SettleStepInv(s, e, account);
    var t := Settle(s, account).value;
    assert e.books.At(Side0).credit(account) == Credit(s, account, Side0);
    assert e.books.At(Side1).credit(account) == Credit(s, account, Side1);
    forall i: FeeSide
      ensures t.holders[account].positions.At(i).carry == e.books.At(i).credit(account) % SCALE
      ensures t.holders[account].positions.At(i).claimable == e.books.At(i).credit(account) / SCALE
    {
    }
  }

  lemma ClaimPasses(t: Ledger, owner: Account, i: FeeSide)
    requires Inv(t) && owner in t.holders
    requires t.holders[owner].positions.At(i).claimable == Credit(t, owner, i) / SCALE
    ensures var p := t.holders[owner].positions.At(i); var st := t.sides.At(i);
      && p.claimable <= st.liability && CheckedAdd(st.paid, p.claimable) == Ok(st.paid + p.claimable)
  {
    CreditWithinLiability(t, owner, i);
  }

  lemma ReadStep(s: Ledger, e: Eager, account: Account, i: FeeSide, carry: bool)
    requires Inv(s) && Refines(s, e)
    ensures var credit := e.books.At(i).credit(account);
      AgreeReply(s, ReadPosition(s, account, i, carry), Ok((e, if carry then credit % SCALE else credit / SCALE)))
  {
    hide Inv, Settle, Refines;
    SettleFully(s, e, account);
  }

  // ---- Audits ----

  lemma SettleAllExact(s: Ledger)
    requires Core(s)
    ensures SettleAll(s) == Ok(s.(holders := map a | a in s.holders :: SettledHolder(s, a)))
  {
    hide Core, SettleHolder, SettledHolder;
    forall a | a in s.holders
      ensures SettleHolder(s.holders[a], s.sides) == Ok(SettledHolder(s, a))
    {
      SettleHolderExact(s, a);
    }
    assert (map a | a in s.holders :: SettleHolder(s.holders[a], s.sides).value)
        == (map a | a in s.holders :: SettledHolder(s, a));
  }

  lemma SettleAllEffect(s: Ledger, e: Eager)
    requires Inv(s) && Refines(s, e)
    ensures SettleAll(s).Ok? && Inv(SettleAll(s).value) && Refines(SettleAll(s).value, e)
    ensures var t := SettleAll(s).value;
      forall i :: Sum(Credits(t, i)) == Sum(CarriesOf(t, i)) + Sum(ClaimsOf(t, i)) * SCALE
    ensures forall i :: 0 <= Sum(ClaimsOf(SettleAll(s).value, i)) && 0 <= Sum(CarriesOf(SettleAll(s).value, i))
  {
    hide SettleAll, SettledHolder, HolderCredit, HolderOk, Clean, Settled, Core, LocksOk, Refines;
    SettleAllExact(s);
    var t := SettleAll(s).value;
    forall a | a in s.holders
      ensures Settled(t, a) && HolderOk(t.holders[a], t.sides) && Clean(t.holders[a])
      ensures BalanceOf(t, a) == BalanceOf(s, a)
      ensures Credit(t, a, Side0) == Credit(s, a, Side0) && Credit(t, a, Side1) == Credit(s, a, Side1)
    {
      SettleOne(s, t, a);
    }
    SameWorthKeeps(s, e, t);
    forall i: FeeSide
      ensures Sum(Credits(t, i)) == Sum(CarriesOf(t, i)) + Sum(ClaimsOf(t, i)) * SCALE
      ensures 0 <= Sum(ClaimsOf(t, i)) && 0 <= Sum(CarriesOf(t, i))
    {
      SettledSums(t, i);
    }
  }

  lemma SameWorthKeeps(s: Ledger, e: Eager, t: Ledger)
    requires Inv(s) && Refines(s, e) && t == s.(holders := t.holders) && t.holders.Keys == s.holders.Keys
    requires forall a :: a in t.holders ==> HolderOk(t.holders[a], t.sides) && Clean(t.holders[a])
    requires forall a :: a in s.holders ==> BalanceOf(t, a) == BalanceOf(s, a)
    requires forall a :: a in s.holders ==>
      Credit(t, a, Side0) == Credit(s, a, Side0) && Credit(t, a, Side1) == Credit(s, a, Side1)
    ensures Inv(t) && Refines(t, e)
  {
    hide HolderCredit, HolderOk, Clean, SideOk, BookMatches, Conserved;
    SameWorthSums(s, t);
    assert Conserved(s, Side0) && Conserved(s, Side1);
    assert Conserved(t, Side0) && Conserved(t, Side1) by {
      SameSumsConserve(s, t, Side0);
      SameSumsConserve(s, t, Side1);
    }
    SameLocks(s, t);
    RefinesSameWorth(s, e, t);
  }

  lemma SameSumsConserve(s: Ledger, t: Ledger, i: FeeSide)
    requires Conserved(s, i) && t.sides == s.sides && Credits(t, i) == Credits(s, i)
    ensures Conserved(t, i)
  {
  }

  lemma SameWorthSums(s: Ledger, t: Ledger)
    requires t == s.(holders := t.holders) && t.holders.Keys == s.holders.Keys
    requires forall a :: a in s.holders ==> BalanceOf(t, a) == BalanceOf(s, a)
    requires forall a :: a in s.holders ==>
      Credit(t, a, Side0) == Credit(s, a, Side0) && Credit(t, a, Side1) == Credit(s, a, Side1)
    ensures Balances(t) == Balances(s) && Credits(t, Side0) == Credits(s, Side0)
      && Credits(t, Side1) == Credits(s, Side1)
    ensures forall a :: BalanceOf(t, a) == BalanceOf(s, a)
    ensures forall a, i :: Credit(t, a, i) == Credit(s, a, i)
  {
    hide HolderCredit;
    forall a | a in s.holders
      ensures Credits(t, Side0)[a] == Credits(s, Side0)[a] && Credits(t, Side1)[a] == Credits(s, Side1)[a]
      ensures Balances(t)[a] == Balances(s)[a]
    {
      assert BalanceOf(t, a) == BalanceOf(s, a);
      assert Credit(t, a, Side0) == Credit(s, a, Side0) && Credit(t, a, Side1) == Credit(s, a, Side1);
    }
    forall a, i: FeeSide
      ensures Credit(t, a, i) == Credit(s, a, i)
    {
      assert a in t.holders.Keys <==> a in s.holders.Keys;
      match i
      case Side0 =>
      case Side1 =>
    }
  }

  lemma SettleOne(s: Ledger, t: Ledger, a: Account)
    requires Inv(s) && a in s.holders && a in t.holders && t.holders[a] == SettledHolder(s, a) && t.sides == s.sides
    ensures t.holders[a].balance == s.holders[a].balance && HolderOk(t.holders[a], s.sides) && Clean(t.holders[a])
    ensures forall i :: Credit(t, a, i) == Credit(s, a, i)
    ensures Settled(t, a)
  {
    hide HolderCredit, HolderOk;
    SettleHolderExact(s, a);
    if s.holders[a].balance == 0 {
      SettleKeepsClean(s, a);
    }
  }

  lemma RefinesSameWorth(s: Ledger, e: Eager, t: Ledger)
    requires Refines(s, e) && t == s.(holders := t.holders)
    requires forall a :: BalanceOf(t, a) == BalanceOf(s, a)
    requires forall a, i :: Credit(t, a, i) == Credit(s, a, i)
    ensures Refines(t, e)
  {
    hide HolderCredit;
  }

  lemma SettledSums(t: Ledger, i: FeeSide)
    requires forall a :: a in t.holders ==> Settled(t, a) && HolderOk(t.holders[a], t.sides)
    ensures Sum(Credits(t, i)) == Sum(CarriesOf(t, i)) + Sum(ClaimsOf(t, i)) * SCALE
    ensures 0 <= Sum(ClaimsOf(t, i)) && 0 <= Sum(CarriesOf(t, i))
  {
    hide Entitlement;
    forall a | a in t.holders
      ensures Credits(t, i)[a] == CarriesOf(t, i)[a] + Multiplied(ClaimsOf(t, i), SCALE)[a]
      ensures 0 <= ClaimsOf(t, i)[a] && 0 <= CarriesOf(t, i)[a]
    {
      assert Settled(t, a) && HolderOk(t.holders[a], t.sides);
      SettledEntitlement(t.holders[a].balance, t.holders[a].positions.At(i), t.sides.At(i).growth);
    }
    SumAdd(Credits(t, i), CarriesOf(t, i), Multiplied(ClaimsOf(t, i), SCALE));
    SumScale(ClaimsOf(t, i), SCALE);
    SumDominates(ClaimsOf(t, i));
    SumDominates(CarriesOf(t, i));
  }

  /** The audit passes every one of its checks on every ledger that satisfies the invariant. */
  lemma AuditStep(s: Ledger, e: Eager, i: FeeSide)
    requires Inv(s) && Refines(s, e)
    ensures Audit(s, i).Ok? && Inv(Audit(s, i).value.0) && Refines(Audit(s, i).value.0, e)
    ensures var figures := Audit(s, i).value.1;
      && figures.paid + figures.outstanding <= figures.accrued == figures.paid + figures.liability
      && figures.ownerCarry + figures.remainder == (figures.liability - figures.outstanding) * SCALE
      && figures.custody == figures.reserve + figures.protocolFees + figures.liability
      && figures.accrued == figures.lifetime == e.books.At(i).accrued && figures.paid == e.books.At(i).paid
    ensures Audit(s, i).value.1 == EagerAudit(e.books.At(i), s.holders.Keys)
  {
    hide Inv, SettleAll, Refines, ClaimsOf, CarriesOf, WholeUnitsOf, FractionsOf;
    SettleAllEffect(s, e);
    var t := SettleAll(s).value;
    BooksOf(t, e, i);
    AuditArithmetic(t.sides.At(i), t.total, Sum(CarriesOf(t, i)), Sum(ClaimsOf(t, i)));
    SettledFigures(s, e, i);
  }

  /** Once everybody is settled, claims and carries are the whole units and fractions of the eager credits. */
  lemma SettledFigures(s: Ledger, e: Eager, i: FeeSide)
    requires Inv(s) && Refines(s, e) && SettleAll(s).Ok?
    ensures ClaimsOf(SettleAll(s).value, i) == WholeUnitsOf(e.books.At(i), s.holders.Keys)
    ensures CarriesOf(SettleAll(s).value, i) == FractionsOf(e.books.At(i), s.holders.Keys)
  {
    hide Core, SettleAll, Credit;
    SettleAllExact(s);
    var t := SettleAll(s).value;
    forall a | a in s.holders
      ensures t.holders[a].positions.At(i).claimable == e.books.At(i).credit(a) / SCALE
      ensures t.holders[a].positions.At(i).carry == e.books.At(i).credit(a) % SCALE
    {
      assert e.books.At(i).credit(a) == Credit(s, a, i);
    }
  }

  lemma AuditArithmetic(st: SideState, total: int, carries: int, claims: int)
    requires SideOk(st, total) && 0 <= carries && 0 <= claims
    requires carries + claims * SCALE + st.remainder + st.paid * SCALE == st.accrued * SCALE
    ensures st.paid + claims <= st.accrued && claims <= UINT256_MAX
    ensures carries + st.remainder == (st.liability - claims) * SCALE
  {
    Distribute(st.accrued, -st.paid, SCALE);
    Distribute(st.accrued - st.paid, -claims, SCALE);
    if st.liability < claims {
      MulMono(st.liability - claims, -1, SCALE);
    }
  }

  // ---- Minting ----

  /** The core with remainders that may still hold one whole stranded unit, as on the way out of zero supply. */
  ghost predicate Books(r: Ledger) {
    && Sum(Balances(r)) == r.total && 0 < r.total <= MAX_TOTAL_SHARES
    && (forall a :: a in r.holders ==> HolderOk(r.holders[a], r.sides))
    && (forall i :: 0 <= r.sides.At(i).remainder <= SCALE && SideOk(r.sides.At(i).(remainder := 0), r.total))
    && (forall i :: Conserved(r, i))
  }

  lemma BooksAreCore(r: Ledger)
    requires Books(r) && r.sides.zero.remainder < SCALE && r.sides.one.remainder < SCALE
    ensures Core(r)
  {
    hide HolderOk, Conserved;
    assert SideOk(r.sides.At(Side0).(remainder := 0), r.total) && SideOk(r.sides.At(Side1).(remainder := 0), r.total);
    assert 0 <= r.sides.At(Side0).remainder && 0 <= r.sides.At(Side1).remainder;
    assert Conserved(r, Side0) && Conserved(r, Side1);
  }

  lemma SpreadBook(b: Book, total: int, balance: Account -> int)
    requires total > 0
    ensures var x := (b.growth + b.remainder / total) / SCALE;
      var r := SpreadRemainder(b, total, balance);
      && (UINT256_MAX < x ==> r == Err(Overflow))
      && (b.accrued < x <= UINT256_MAX ==> r == Err(RecycledGrowthExceedsLifetimeFees))
      && (x <= UINT256_MAX && x <= b.accrued ==>
          && r.Ok?
          && r.value == b.(growth := b.growth + b.remainder / total, remainder := b.remainder % total,
                           credit := r.value.credit)
          && forall a :: r.value.credit(a) == b.credit(a) + balance(a) * (b.remainder / total))
  {
  }

  lemma SpreadVerdict(st: SideState, b: Book, total: int, balance: Account -> int)
    requires 0 < total <= MAX_TOTAL_SHARES && 0 <= st.remainder && SideOk(st.(remainder := 0), total)
      && BookMatches(st, b)
    ensures var q := SpreadRemainder(b, total, balance);
      match GrowthGuard(Spread(st, total).growth, st.lifetime)
      case Pass => q.Ok? && BookMatches(Spread(st, total), q.value) && Spread(st, total).remainder < total
      case Fail(error) => q == Err(error)
  {
    hide SpreadRemainder, GrowthGuard, Raise;
    GuardAgrees(st, total);
    SpreadBook(b, total, balance);
    if GrowthGuard(Spread(st, total).growth, st.lifetime).Pass? {
      SideAfterSpread(st, total);
    }
  }

  /** Handing out a remainder while shares exist, in the lazy ledger as in the eager one. */
  lemma SpreadStep(r: Ledger, e: Eager, i: FeeSide)
    requires Books(r) && Refines(r, e)
    ensures AgreeBook(r, e, i, Redistribute(r, i, ""), SpreadRemainder(e.books.At(i), e.total, e.balance))
    ensures Redistribute(r, i, "").Ok? ==>
      var t := Redistribute(r, i, "").value;
      && Books(t) && t.sides.At(i).remainder < SCALE && t == SetSide(r, i, t.sides.At(i))
  {
    hide Redistribute, SpreadRemainder, HolderCredit, HolderOk, GrowthGuard, Spread, SideOk;
    var st := r.sides.At(i);
    assert BookMatches(st, e.books.At(i)) && SideOk(st.(remainder := 0), r.total) && 0 <= st.remainder <= SCALE;
    SideWithoutRemainder(st, r.total);
    RedistributeExact(r, i, "");
    SpreadKeepsLifetime(st, r.total);
    SpreadVerdict(st, e.books.At(i), r.total, e.balance);
    if Redistribute(r, i, "").Ok? {
      SpreadEffect(r, i);
      SpreadRefines(r, e, i);
      SpreadBooks(r, i);
    }
  }

  lemma SideWithoutRemainder(st: SideState, total: int)
    requires SideOk(st.(remainder := 0), total)
    ensures st.growth.Normal() && st.growth.whole <= st.lifetime == st.accrued <= UINT256_MAX
  {
  }

  lemma SpreadRefines(r: Ledger, e: Eager, i: FeeSide)
    requires Books(r) && Refines(r, e) && SpreadRemainder(e.books.At(i), e.total, e.balance).Ok?
    requires GrowthGuard(Spread(r.sides.At(i), r.total).growth, r.sides.At(i).lifetime).Pass?
    requires BookMatches(Spread(r.sides.At(i), r.total), SpreadRemainder(e.books.At(i), e.total, e.balance).value)
    ensures Refines(SetSide(r, i, Spread(r.sides.At(i), r.total)),
                    SetBook(e, i, SpreadRemainder(e.books.At(i), e.total, e.balance).value))
  {
    hide SpreadRemainder, HolderCredit, HolderOk, Spread, SideOk, BookMatches, GrowthGuard;
    var t := SetSide(r, i, Spread(r.sides.At(i), r.total));
    var b := SpreadRemainder(e.books.At(i), e.total, e.balance).value;
    assert 0 <= r.sides.At(i).remainder && SideOk(r.sides.At(i).(remainder := 0), r.total) && Conserved(r, i);
    assert BookMatches(r.sides.At(i), e.books.At(i));
    SpreadEffect(r, i);
    SpreadBook(e.books.At(i), e.total, e.balance);
    MatchingRemainder(r.sides.At(i), e.books.At(i));
    forall a
      ensures Credit(t, a, i) == b.credit(a)
    {
      assert e.books.At(i).credit(a) == Credit(r, a, i) && e.balance(a) == BalanceOf(r, a);
    }
    RefinesOneSide(r, e, i, t, b);
  }

  lemma MatchingRemainder(st: SideState, b: Book)
    requires BookMatches(st, b)
    ensures b.remainder == st.remainder
  {
  }

  lemma SpreadBooks(r: Ledger, i: FeeSide)
    requires Books(r) && GrowthGuard(Spread(r.sides.At(i), r.total).growth, r.sides.At(i).lifetime).Pass?
    ensures var t := SetSide(r, i, Spread(r.sides.At(i), r.total));
      Books(t) && t.sides.At(i).remainder < SCALE
  {
    hide HolderCredit, HolderOk, Spread, GrowthGuard, SideOk;
    var t := SetSide(r, i, Spread(r.sides.At(i), r.total));
    assert 0 <= r.sides.At(i).remainder && SideOk(r.sides.At(i).(remainder := 0), r.total) && Conserved(r, i);
    SpreadEffect(r, i);
    SideAfterSpread(r.sides.At(i), r.total);
    assert Balances(t) == Balances(r);
    SpreadSide(t.sides.At(i), t.total);
    forall k: FeeSide
      ensures 0 <= t.sides.At(k).remainder <= SCALE && SideOk(t.sides.At(k).(remainder := 0), t.total)
        && Conserved(t, k)
    {
      if k != i {
        assert t.sides.At(k) == r.sides.At(k) && Conserved(r, k);
      }
    }
  }

  lemma SpreadSide(st: SideState, total: int)
    requires SideOk(st, total)
    ensures SideOk(st.(remainder := 0), total)
  {
  }

  /** Shares appear on a settled holder. */
  lemma MintShift(t: Ledger, e: Eager, account: Account, amount: int)
    requires Inv(t) && Refines(t, e) && Settled(t, account) && 1 <= amount && t.total + amount <= MAX_TOTAL_SHARES
    ensures var u := AddBalance(t, account, amount).(total := t.total + amount);
      && Books(u) && LocksOk(u) && Refines(u, WithBalance(e, account, amount).(total := e.total + amount))
      && (forall a :: a in u.holders ==> Clean(u.holders[a])) && u.sides == t.sides
  {
    hide HolderCredit, BookMatches, Conserved, SideOk, Sum, TwoToThe, ScaleBits;
    var m := AddBalance(t, account, amount);
    var u := m.(total := t.total + amount);
    assert HolderOk(t.holders[account], t.sides);
    AddBalanceEffect(t, account, amount);
    SameGrowth(m, u);
    LocksAfterGain(t, u, account, amount);
    RefinesAfterShift(t, e, u, WithBalance(e, account, amount).(total := e.total + amount));
    MintedBooks(t, u, account);
  }

  lemma MintedBooks(t: Ledger, u: Ledger, account: Account)
    requires Core(t) && u == t.(holders := u.holders, total := u.total) && t.total < u.total <= MAX_TOTAL_SHARES
    requires forall i :: Sum(Credits(u, i)) == Sum(Credits(t, i))
    requires Sum(Balances(u)) == u.total
    requires forall a :: a in u.holders ==> HolderOk(u.holders[a], u.sides)
    ensures Books(u)
  {
    hide HolderOk, Credits;
    assert Conserved(t, Side0) && Conserved(t, Side1);
    assert Conserved(u, Side0) && Conserved(u, Side1);
  }

  lemma MintStep(s: Ledger, e: Eager, account: Account, amount: int)
    requires Inv(s) && Refines(s, e)
    ensures Agree(Mint(s, account, amount), MintShares(e, account, amount)) && Good(Mint(s, account, amount))
  {
    hide Core, Settle, Redistribute, SpreadRemainder, HolderCredit, HolderOk, BookMatches, LocksOk, Clean, Books;
    if 1 <= amount <= MAX_TOTAL_SHARES {
      SettleStep(s, e, account);
      SettleStepInv(s, e, account);
      TotalNonnegative(s);
      var t := Settle(s, account).value;
      if s.total + amount <= MAX_TOTAL_SHARES {
        var u := AddBalance(t, account, amount).(total := s.total + amount);
        var f := WithBalance(e, account, amount).(total := e.total + amount);
        MintShift(t, e, account, amount);
        if s.total != 0 {
          SmallRemainders(t);
          BooksAreCore(u);
        } else {
          SpreadBoth(u, f);
        }
      }
    }
  }

  lemma SmallRemainders(t: Ledger)
    requires Core(t) && t.total > 0
    ensures t.sides.zero.remainder < SCALE && t.sides.one.remainder < SCALE
  {
  }

  /** The first mint after zero supply hands out whatever remainder is left. */
  lemma SpreadBoth(u: Ledger, f: Eager)
    requires Books(u) && Refines(u, f) && LocksOk(u) && forall a :: a in u.holders ==> Clean(u.holders[a])
    ensures var zero := SpreadRemainder(f.books.zero, f.total, f.balance);
      var one := SpreadRemainder(f.books.one, f.total, f.balance);
      match Redistribute(u, Side0, "")
      case Err(x) => zero == Err(x)
      case Ok(t) =>
        && zero.Ok?
        && match Redistribute(t, Side1, "")
           case Err(x) => one == Err(x)
           case Ok(v) => one.Ok? && Inv(v) && Refines(v, f.(books := PerSide(zero.value, one.value)))
  {
    hide Redistribute, SpreadRemainder, HolderCredit, Core, BookMatches, Clean, Books;
    PositiveTotal(u);
    SpreadStep(u, f, Side0);
    var r0 := Redistribute(u, Side0, "");
    if r0.Ok? {
      var g := SetBook(f, Side0, SpreadRemainder(f.books.zero, f.total, f.balance).value);
      SpreadStep(r0.value, g, Side1);
      var r1 := Redistribute(r0.value, Side1, "");
      if r1.Ok? {
        BooksAreCore(r1.value);
        SameLocks(u, r1.value);
      }
    }
  }

  lemma PositiveTotal(u: Ledger)
    requires Books(u)
    ensures u.total > 0
  {
  }

  // ---- Every operation, every run ----

  lemma SideOpAgrees(s: Ledger, e: Eager, i: FeeSide, r: Fallible<Ledger>, q: Fallible<Book>)
    requires AgreeSide(s, e, i, r, q)
    ensures AgreeReply(s, WithReply(r, 0), OnBook(e, i, q))
  {
  }

  lemma LedgerOpAgrees(s: Ledger, r: Fallible<Ledger>, q: Fallible<Eager>)
    requires Agree(r, q) && Good(r)
    ensures AgreeReply(s, WithReply(r, 0), Quiet(q))
  {
  }

  /** One operation: the same verdict, the same value, related ledgers, and the invariant kept. */
  lemma AttemptAgrees(pool: Account, s: Ledger, e: Eager, op: Op)
    requires Inv(s) && Refines(s, e)
    ensures AgreeReply(s, Attempt(pool, s, op), TryEager(pool, e, op))
  {
    hide Inv, Refines, Mint, MintShares, Burn, BurnShares, Move, MoveShares, TransferFrom, MoveApproved, AddLock;
    hide LockShares, Unlock, UnlockShares, CreditPrincipal, AddPrincipal, RecordSwapFees, AddSwapFees, ConsumeClaim;
    hide ReadPosition, Settle, Audit;
    if !(NeedsPool(op) && op.caller != pool) {
      match op
      case OpMint(_, account, amount) =>
        MintStep(s, e, account, amount);
        LedgerOpAgrees(s, Mint(s, account, amount), MintShares(e, account, amount));
      case OpBurn(_, account, amount) =>
        BurnStep(s, e, account, amount);
        LedgerOpAgrees(s, Burn(s, account, amount), BurnShares(e, account, amount));
      case OpTransfer(sender, recipient, amount) =>
        MoveStep(s, e, sender, recipient, amount);
        LedgerOpAgrees(s, Move(s, sender, recipient, amount), MoveShares(e, sender, recipient, amount));
      case OpTransferFrom(spender, owner, recipient, amount) =>
        TransferFromStep(s, e, spender, owner, recipient, amount);
        LedgerOpAgrees(s, TransferFrom(s, spender, owner, recipient, amount),
          MoveApproved(e, spender, owner, recipient, amount));
      case OpApprove(owner, spender, amount) =>
        ApproveStep(s, e, owner, spender, amount);
      case OpLock(_, id, owner, amount, unlockAt, permanent) =>
        var lock := Lock(owner, amount, unlockAt, permanent, true);
        LockStep(s, e, id, lock);
        LedgerOpAgrees(s, AddLock(s, id, owner, amount, unlockAt, permanent), LockShares(e, id, lock));
      case OpUnlock(_, id, now) =>
        UnlockStep(s, e, id, now);
        LedgerOpAgrees(s, Unlock(s, id, now), UnlockShares(e, id, now));
      case OpCreditPrincipal(_, i, amount) =>
        PrincipalStep(s, e, i, amount);
        SideOpAgrees(s, e, i, CreditPrincipal(s, i, amount), AddPrincipal(e.books.At(i), amount));
      case OpRecordSwapFees(_, i, netInput, protocolFee, lpFee) =>
        SwapFeesStep(s, e, i, netInput, protocolFee, lpFee);
        SideOpAgrees(s, e, i, RecordSwapFees(s, i, netInput, protocolFee, lpFee),
                     AddSwapFees(e.books.At(i), e.total, e.balance, netInput, protocolFee, lpFee));
      case OpConsumeClaim(_, owner, i) => ClaimStep(s, e, owner, i);
      case OpClaimableOf(account, i) => ReadStep(s, e, account, i, false);
      case OpCarryOf(account, i) => ReadStep(s, e, account, i, true);
      case OpAudit(i) => AuditStep(s, e, i);
    }
  }

  lemma ApproveStep(s: Ledger, e: Eager, owner: Account, spender: Account, amount: int)
    requires Inv(s) && Refines(s, e)
    ensures AgreeReply(s, WithReply(Approve(s, owner, spender, amount), 0),
      if 0 <= amount <= UINT256_MAX then Ok((ApproveShares(e, owner, spender, amount), 0)) else Err(OutOfRange))
  {
    hide Inv, Refines, WithAllowance;
    AllowanceStep(s, e, WithAllowance(s.allowances, owner, spender, amount));
    SameAllowances(s, e);
  }

  lemma SameAllowances(s: Ledger, e: Eager)
    requires Refines(s, e)
    ensures e.allowances == s.allowances
  {
  }

  lemma EmptyLedger()
    ensures Inv(EMPTY) && Refines(EMPTY, NO_SHARES)
  {
    hide SideOk, BookMatches;
    assert Balances(EMPTY) == map[] && Credits(EMPTY, Side0) == map[] && Credits(EMPTY, Side1) == map[];
    assert forall a :: LockAmounts(EMPTY.locks, a) == map[];
    EmptySide();
  }

  lemma EmptySide()
    ensures SideOk(NEW_SIDE, 0) && BookMatches(NEW_SIDE, NEW_BOOK)
  {
    FeeFits(1);
    assert 0 * SCALE == 0;
    assert Growth(0, 0).Scaled() == 0 && Growth(0, 0).Normal();
  }

  /**
   * Over every run of operations, failed ones included, the lazily settled ledger and the eager ledger return the
   * same replies in the same order, and the lazy ledger satisfies the invariant.
   */
  lemma {:induction false} RunRefinesEager(pool: Account, ops: seq<Op>)
    ensures Run(pool, ops).1 == EagerRun(pool, ops).1
    ensures Inv(Run(pool, ops).0) && Refines(Run(pool, ops).0, EagerRun(pool, ops).0)
  {
    hide Inv, Refines, Attempt, TryEager;
    if ops == [] {
      EmptyLedger();
    } else {
      var before := ops[..|ops| - 1];
      RunRefinesEager(pool, before);
      AttemptAgrees(pool, Run(pool, before).0, EagerRun(pool, before).0, ops[|ops| - 1]);
    }
  }
}
