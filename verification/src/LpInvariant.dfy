/** What every reachable ledger satisfies, and what settling and re-basing positions do to it. */
module LpInvariant {
  import opened Outcomes
  import opened Division
  import opened MapSums
  import opened FeeGrowth
  import opened LpLedger

  /** Everything a position is worth, in units of 1/SCALE: unsettled growth, carry and whole claims. */
  ghost function Entitlement(balance: int, p: Position, growth: Growth): int {
    balance * (growth.Scaled() - p.checkpoint.Scaled()) + p.carry + p.claimable * SCALE
  }

  ghost function HolderCredit(h: Holder, sides: PerSide<SideState>, i: FeeSide): int {
    Entitlement(h.balance, h.positions.At(i), sides.At(i).growth)
  }

  ghost function Credit(s: Ledger, account: Account, i: FeeSide): int {
    if account in s.holders then HolderCredit(s.holders[account], s.sides, i) else 0
  }

  ghost function Credits(s: Ledger, i: FeeSide): map<Account, int> {
    map a | a in s.holders :: HolderCredit(s.holders[a], s.sides, i)
  }

  ghost function Balances(s: Ledger): map<Account, int> {
    map a | a in s.holders :: s.holders[a].balance
  }

  ghost predicate PositionOk(p: Position, growth: Growth) {
    && p.checkpoint.Normal() && p.checkpoint.Scaled() <= growth.Scaled()
    && 0 <= p.carry < SCALE && 0 <= p.claimable
  }

  ghost predicate HolderOk(h: Holder, sides: PerSide<SideState>) {
    0 <= h.balance && PositionOk(h.positions.zero, sides.zero.growth) && PositionOk(h.positions.one, sides.one.growth)
  }

  ghost predicate SideOk(st: SideState, total: int) {
    && st.growth.Normal() && st.growth.whole <= st.lifetime
    && st.lifetime == st.accrued <= UINT256_MAX
    && 0 <= st.paid <= st.accrued && st.liability == st.accrued - st.paid
    && 0 <= st.remainder <= SCALE && (0 < total ==> st.remainder < SCALE)
    && 0 <= st.reserve <= MAX_RESERVE_OPERAND && 0 <= st.protocolFees
    && st.custody == st.reserve + st.protocolFees + st.liability <= UINT256_MAX
  }

  /** Every fractional unit ever accrued is owed to a holder, waiting in the remainder, or paid out. */
  ghost predicate Conserved(s: Ledger, i: FeeSide) {
    var st := s.sides.At(i);
    Sum(Credits(s, i)) + st.remainder + st.paid * SCALE == st.accrued * SCALE
  }

  ghost predicate Core(s: Ledger) {
    && Sum(Balances(s)) == s.total && 0 <= s.total <= MAX_TOTAL_SHARES
    && (forall a :: a in s.holders ==> HolderOk(s.holders[a], s.sides))
    && SideOk(s.sides.zero, s.total) && SideOk(s.sides.one, s.total)
    && Conserved(s, Side0) && Conserved(s, Side1)
  }

  /** A holder without shares keeps no fractional carry. */
  ghost predicate Clean(h: Holder) {
    h.balance == 0 ==> h.positions.zero.carry == 0 && h.positions.one.carry == 0
  }

  ghost predicate LocksOk(s: Ledger) {
    && (forall id :: id in s.locks ==> 0 < s.locks[id].amount)
    && (forall a :: LockedOf(s, a) <= BalanceOf(s, a))
  }

  ghost predicate Inv(s: Ledger) {
    Core(s) && LocksOk(s) && forall a :: a in s.holders ==> Clean(s.holders[a])
  }

  /** Two ledgers that differ only in how far positions are settled and in holders worth nothing. */
  ghost predicate SameWorth(s: Ledger, t: Ledger) {
    && t == s.(holders := t.holders)
    && (forall a :: BalanceOf(t, a) == BalanceOf(s, a))
    && (forall a, i :: Credit(t, a, i) == Credit(s, a, i))
  }

  ghost predicate Settled(s: Ledger, account: Account) {
    && account in s.holders
    && s.holders[account].positions.zero.checkpoint == s.sides.zero.growth
    && s.holders[account].positions.one.checkpoint == s.sides.one.growth
  }

  lemma EntitlementNonnegative(balance: int, p: Position, growth: Growth)
    requires 0 <= balance && PositionOk(p, growth)
    ensures 0 <= Entitlement(balance, p, growth)
  {
    MulMono(0, balance, growth.Scaled() - p.checkpoint.Scaled());
    MulMono(0, p.claimable, SCALE);
  }

  /** A settled position is worth its carry and claims, whatever its balance. */
  lemma SettledEntitlement(balance: int, p: Position, growth: Growth)
    requires p.checkpoint == growth
    ensures Entitlement(balance, p, growth) == p.carry + p.claimable * SCALE
    ensures 0 <= p.carry < SCALE ==> p.claimable == Entitlement(balance, p, growth) / SCALE
    ensures 0 <= p.carry < SCALE ==> p.carry == Entitlement(balance, p, growth) % SCALE
  {
    if 0 <= p.carry < SCALE {
      DivUnique(p.carry + p.claimable * SCALE, SCALE, p.claimable, p.carry);
    }
  }

  /** Settling never fails when the entitlement fits, and splits it exactly into whole claims and carry. */
  lemma SettlePositionExact(balance: int, p: Position, growth: Growth)
    requires 0 <= balance <= MAX_TOTAL_SHARES && PositionOk(p, growth) && growth.Normal()
    requires Entitlement(balance, p, growth) / SCALE <= UINT256_MAX
    ensures SettlePosition(balance, p, growth)
         == Ok(Position(growth, Entitlement(balance, p, growth) % SCALE, Entitlement(balance, p, growth) / SCALE))
    ensures var q := Position(growth, Entitlement(balance, p, growth) % SCALE, Entitlement(balance, p, growth) / SCALE);
      PositionOk(q, growth) && Entitlement(balance, q, growth) == Entitlement(balance, p, growth)
  {
    var delta := growth.Scaled() - p.checkpoint.Scaled();
    var gained := balance * delta + p.carry;
    MulMono(0, balance, delta);
    DivAtLeast(gained, SCALE, 0);
    DivShift(gained, SCALE, p.claimable);
    SettleParts(balance, p, growth, gained);
    var e := Entitlement(balance, p, growth);
    Euclid(e, SCALE);
    EntitlementNonnegative(balance, p, growth);
    DivAtLeast(e, SCALE, 0);
    SettledEntitlement(balance, Position(growth, e % SCALE, e / SCALE), growth);
  }

  lemma SettleParts(balance: int, p: Position, growth: Growth, gained: int)
    requires 0 <= balance <= MAX_TOTAL_SHARES && PositionOk(p, growth) && growth.Normal()
    requires gained == balance * (growth.Scaled() - p.checkpoint.Scaled()) + p.carry
    requires 0 <= gained / SCALE && gained / SCALE + p.claimable <= UINT256_MAX
    ensures SettlePosition(balance, p, growth) == Ok(Position(growth, gained % SCALE, gained / SCALE + p.claimable))
  {
    hide SettleFeeGrowth;
    SettleIsExact(balance, p.checkpoint, p.carry, growth);
  }

  lemma HolderChange(s: Ledger, account: Account, h: Holder)
    ensures var t := s.(holders := s.holders[account := h]);
      && (forall i :: Sum(Credits(t, i)) == Sum(Credits(s, i)) - Credit(s, account, i) + HolderCredit(h, s.sides, i))
      && Sum(Balances(t)) == Sum(Balances(s)) - BalanceOf(s, account) + h.balance
  {
    hide HolderCredit;
    var t := s.(holders := s.holders[account := h]);
    forall i: FeeSide
      ensures Sum(Credits(t, i)) == Sum(Credits(s, i)) - Credit(s, account, i) + HolderCredit(h, s.sides, i)
    {
      assert Credits(t, i) == Credits(s, i)[account := HolderCredit(h, s.sides, i)];
      SumUpdate(Credits(s, i), account, HolderCredit(h, s.sides, i));
    }
    assert Balances(t) == Balances(s)[account := h.balance];
    SumUpdate(Balances(s), account, h.balance);
  }

  /** No single holder is owed more than was accrued, or holds more than the supply. */
  lemma HolderBounds(s: Ledger, account: Account)
    requires Core(s) && account in s.holders
    ensures 0 <= s.holders[account].balance <= s.total
    ensures forall i :: 0 <= Credit(s, account, i) <= s.sides.At(i).accrued * SCALE
    ensures forall i :: Credit(s, account, i) / SCALE <= s.sides.At(i).accrued
  {
    SumDominates(Balances(s));
    assert Balances(s)[account] <= s.total;
    forall i: FeeSide
      ensures 0 <= Credit(s, account, i) <= s.sides.At(i).accrued * SCALE
      ensures Credit(s, account, i) / SCALE <= s.sides.At(i).accrued
    {
      CreditBounds(s, account, i);
    }
  }

  lemma CreditsNonnegative(s: Ledger, i: FeeSide)
    requires Core(s)
    ensures forall a :: a in Credits(s, i) ==> 0 <= Credits(s, i)[a]
  {
    forall a | a in s.holders
      ensures 0 <= HolderCredit(s.holders[a], s.sides, i)
    {
      var h := s.holders[a];
      assert HolderOk(h, s.sides);
      EntitlementNonnegative(h.balance, h.positions.At(i), s.sides.At(i).growth);
    }
  }

  lemma CreditBounds(s: Ledger, account: Account, i: FeeSide)
    requires Core(s) && account in s.holders
    ensures 0 <= Credit(s, account, i) <= s.sides.At(i).accrued * SCALE
    ensures Credit(s, account, i) / SCALE <= s.sides.At(i).accrued
  {
    hide HolderCredit, HolderOk, Sum;
    CreditsNonnegative(s, i);
    SumDominates(Credits(s, i));
    assert Credits(s, i)[account] == Credit(s, account, i);
    assert SideOk(s.sides.At(i), s.total) && Conserved(s, i);
    hide Core, Credits, Credit, Conserved;
    CreditWithinAccrued(Credit(s, account, i), Sum(Credits(s, i)), s.sides.At(i));
  }

  lemma CreditWithinAccrued(credit: int, credits: int, st: SideState)
    requires credit <= credits && 0 <= st.remainder && 0 <= st.paid
    requires credits + st.remainder + st.paid * SCALE == st.accrued * SCALE
    ensures credit <= st.accrued * SCALE && credit / SCALE <= st.accrued
  {
    MulMono(0, st.paid, SCALE);
    DivAtLeast(credit, SCALE, st.accrued + 1);
    Distribute(st.accrued, 1, SCALE);
  }

  lemma GrowthsNormal(s: Ledger)
    requires Core(s)
    ensures s.sides.zero.growth.Normal() && s.sides.one.growth.Normal()
  {
  }

  /** A holder just added is worth nothing. */
  lemma FreshHolder(sides: PerSide<SideState>)
    requires sides.zero.growth.Normal() && sides.one.growth.Normal()
    ensures var h := Holder(0, PerSide(Position(sides.zero.growth, 0, 0), Position(sides.one.growth, 0, 0)));
      HolderOk(h, sides) && Clean(h) && forall i :: HolderCredit(h, sides, i) == 0
  {
  }

  lemma EnsureHolderEffect(s: Ledger, account: Account)
    requires Core(s)
    ensures var t := EnsureHolder(s, account);
      && Core(t) && SameWorth(s, t) && account in t.holders
      && (forall a :: a != account ==> (a in t.holders <==> a in s.holders))
      && (forall a :: a in s.holders ==> t.holders[a] == s.holders[a])
      && (account !in s.holders ==> Clean(t.holders[account]))
  {
    hide HolderCredit, HolderOk, Clean, SideOk, Credits, Balances, Sum;
    if account !in s.holders {
      var t := EnsureHolder(s, account);
      GrowthsNormal(s);
      FreshHolder(s.sides);
      HolderChange(s, account, t.holders[account]);
    }
  }

  /** The holder that `Settle` leaves behind. */
  ghost function SettledHolder(s: Ledger, account: Account): Holder {
    var zero := Credit(s, account, Side0);
    var one := Credit(s, account, Side1);
    Holder(BalanceOf(s, account),
           PerSide(Position(s.sides.zero.growth, zero % SCALE, zero / SCALE),
                   Position(s.sides.one.growth, one % SCALE, one / SCALE)))
  }

  lemma SettleHolderExact(s: Ledger, account: Account)
    requires Core(s) && account in s.holders
    ensures SettleHolder(s.holders[account], s.sides) == Ok(SettledHolder(s, account))
    ensures HolderOk(SettledHolder(s, account), s.sides)
    ensures forall i :: HolderCredit(SettledHolder(s, account), s.sides, i) == Credit(s, account, i)
  {
    hide Entitlement, SettlePosition;
    var h := s.holders[account];
    assert HolderOk(h, s.sides);
    HolderBounds(s, account);
    assert Credit(s, account, Side0) == Entitlement(h.balance, h.positions.zero, s.sides.zero.growth);
    assert Credit(s, account, Side1) == Entitlement(h.balance, h.positions.one, s.sides.one.growth);
    SettlePositionExact(h.balance, h.positions.zero, s.sides.zero.growth);
    SettlePositionExact(h.balance, h.positions.one, s.sides.one.growth);
  }

  /**
   * Settlement is total: on a ledger that satisfies the invariant none of its range, borrow or overflow checks can
   * fire. It changes no balance and nobody's worth.
   */
  lemma SettleEffect(s: Ledger, account: Account)
    requires Core(s)
    ensures Settle(s, account) == Ok(s.(holders := s.holders[account := SettledHolder(s, account)]))
    ensures var t := s.(holders := s.holders[account := SettledHolder(s, account)]);
      Core(t) && SameWorth(s, t) && Settled(t, account) && HolderOk(t.holders[account], t.sides)
  {
    hide HolderCredit, Core, SettleHolder, HolderOk;
    var e := EnsureHolder(s, account);
    EnsureHolderEffect(s, account);
    assert SettledHolder(e, account) == SettledHolder(s, account);
    SettleHolderExact(e, account);
    SettledIsWorthTheSame(e, account, SettledHolder(s, account));
    assert s.holders[account := SettledHolder(s, account)] == e.holders[account := SettledHolder(s, account)];
  }

  lemma SettledIsWorthTheSame(s: Ledger, account: Account, h: Holder)
    requires Core(s) && account in s.holders && HolderOk(h, s.sides) && h.balance == s.holders[account].balance
    requires forall i :: HolderCredit(h, s.sides, i) == Credit(s, account, i)
    ensures var t := s.(holders := s.holders[account := h]); Core(t) && SameWorth(s, t)
  {
    hide HolderCredit;
    HolderChange(s, account, h);
  }

  /** Shares may move to or from a settled holder without changing what it is owed. */
  lemma AddBalanceEffect(s: Ledger, account: Account, amount: int)
    requires Settled(s, account) && HolderOk(s.holders[account], s.sides)
    requires 0 <= s.holders[account].balance + amount
    ensures var t := AddBalance(s, account, amount);
      && Settled(t, account) && HolderOk(t.holders[account], t.sides)
      && (forall a, i :: Credit(t, a, i) == Credit(s, a, i))
      && (forall a :: BalanceOf(t, a) == BalanceOf(s, a) + if a == account then amount else 0)
      && (forall i :: Sum(Credits(t, i)) == Sum(Credits(s, i)))
      && Sum(Balances(t)) == Sum(Balances(s)) + amount
  {
    var h := s.holders[account];
    var t := AddBalance(s, account, amount);
    SettledEntitlement(h.balance, h.positions.zero, s.sides.zero.growth);
    SettledEntitlement(h.balance, h.positions.one, s.sides.one.growth);
    SettledEntitlement(h.balance + amount, h.positions.zero, s.sides.zero.growth);
    SettledEntitlement(h.balance + amount, h.positions.one, s.sides.one.growth);
    HolderChange(s, account, t.holders[account]);
  }
}
