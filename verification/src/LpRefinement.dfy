/** Lazy settlement refines eager crediting, operation by operation and over whole runs. */
module LpRefinement {
  import opened Outcomes
  import opened Division
  import opened MapSums
  import opened FeeGrowth
  import opened LpLedger
  import opened LpInvariant
  import opened LpRecycling
  import opened LpEager

  ghost predicate BookMatches(st: SideState, b: Book) {
    && b.growth == st.growth.Scaled() && b.remainder == st.remainder && b.accrued == st.accrued
    && b.paid == st.paid && b.reserve == st.reserve && b.protocolFees == st.protocolFees
  }

  /** The eager ledger that a lazy ledger stands for. */
  ghost predicate Refines(s: Ledger, e: Eager) {
    && e.total == s.total && e.generation == s.generation && e.allowances == s.allowances && e.locks == s.locks
    && (forall a :: e.balance(a) == BalanceOf(s, a))
    && (forall i :: BookMatches(s.sides.At(i), e.books.At(i)))
    && (forall i, a :: e.books.At(i).credit(a) == Credit(s, a, i))
  }

  /** Both fail alike, or both succeed with related results. */
  ghost predicate Agree(r: Fallible<Ledger>, q: Fallible<Eager>) {
    match (r, q)
    case (Ok(t), Ok(f)) => Refines(t, f)
    case (Err(x), Err(y)) => x == y
    case _ => false
  }

  ghost predicate Good(r: Fallible<Ledger>) {
    r.Ok? ==> Inv(r.value)
  }

  /** Holders other than `account` are untouched; totals and locks too. */
  ghost predicate OnlyHolder(s: Ledger, t: Ledger, account: Account) {
    && t.total == s.total && t.locks == s.locks
    && account in t.holders
    && (forall a :: a != account ==> (a in t.holders <==> a in s.holders))
    && (forall a :: a != account && a in s.holders ==> t.holders[a] == s.holders[a])
  }

  lemma SettleStep(s: Ledger, e: Eager, account: Account)
    requires Core(s) && Refines(s, e)
    ensures Settle(s, account).Ok?
    ensures var t := Settle(s, account).value;
      && Core(t) && Refines(t, e) && Settled(t, account) && OnlyHolder(s, t, account)
      && HolderOk(t.holders[account], t.sides)
      && t.holders[account].balance == BalanceOf(s, account)
      && t.holders[account].positions.zero.carry == Credit(s, account, Side0) % SCALE
      && t.holders[account].positions.one.carry == Credit(s, account, Side1) % SCALE
      && t.holders[account].positions.zero.claimable == Credit(s, account, Side0) / SCALE
      && t.holders[account].positions.one.claimable == Credit(s, account, Side1) / SCALE
      && (forall a :: BalanceOf(t, a) == BalanceOf(s, a))
      && t.sides == s.sides
  {
    hide HolderCredit, Core, HolderOk, Settle, BookMatches;
    SettleEffect(s, account);
  }

  /** Settling a holder that has no shares and no carry leaves it without carry. */
  lemma SettleKeepsClean(s: Ledger, account: Account)
    requires Core(s) && (account in s.holders ==> Clean(s.holders[account])) && BalanceOf(s, account) == 0
    ensures forall i :: Credit(s, account, i) % SCALE == 0
  {
    forall i: FeeSide
      ensures Credit(s, account, i) % SCALE == 0
    {
      if account in s.holders {
        ZeroBalanceCredit(s.holders[account], s.sides, i);
        DivUnique(Credit(s, account, i), SCALE, s.holders[account].positions.At(i).claimable, 0);
      } else {
        DivUnique(0, SCALE, 0, 0);
      }
    }
  }

  /** The settled ledger satisfies the whole invariant. */
  lemma SettleStepInv(s: Ledger, e: Eager, account: Account)
    requires Inv(s) && Refines(s, e)
    ensures Settle(s, account).Ok? && Inv(Settle(s, account).value) && Refines(Settle(s, account).value, e)
  {
    hide Settle, Core, HolderCredit, Refines;
    SettleStep(s, e, account);
    if BalanceOf(s, account) == 0 {
      SettleKeepsClean(s, account);
    }
  }

  // ---- Recycling ----

  lemma ZeroBalanceCarry(s: Ledger, i: FeeSide, account: Account)
    requires Core(s) && account in s.holders && s.holders[account].balance == 0
    ensures Credit(s, account, i) % SCALE == s.holders[account].positions.At(i).carry
  {
    var p := s.holders[account].positions.At(i);
    SideFacts(s, i, account);
    ZeroBalanceCredit(s.holders[account], s.sides, i);
    DivUnique(Credit(s, account, i), SCALE, p.claimable, p.carry);
  }

  ghost predicate AgreeBook(s: Ledger, e: Eager, i: FeeSide, r: Fallible<Ledger>, q: Fallible<Book>) {
    match (r, q)
    case (Ok(t), Ok(b)) => Refines(t, SetBook(e, i, b))
    case (Err(x), Err(y)) => x == y
    case _ => false
  }

  /** The guard of the two-limb growth is the guard of the scaled one. */
  lemma GuardAgrees(st: SideState, total: int)
    requires 0 < total && 0 <= st.remainder && st.growth.Normal() && st.lifetime == st.accrued <= UINT256_MAX
    ensures GrowthGuard(Spread(st, total).growth, st.lifetime) ==
      var x := (st.growth.Scaled() + st.remainder / total) / SCALE;
      if UINT256_MAX < x then Fail(Overflow) else Need(x <= st.accrued, RecycledGrowthExceedsLifetimeFees)
  {
  }

  /** What an eager recycling does while others hold shares. */
  lemma RecycleBookShared(b: Book, total: int, balance: Account -> int, account: Account)
    requires total > 0
    ensures var carry := b.credit(account) % SCALE;
      var u := b.remainder + carry;
      var x := (b.growth + u / total) / SCALE;
      var r := RecycleBook(b, total, balance, account);
      && (UINT256_MAX < x ==> r == Err(Overflow))
      && (b.accrued < x <= UINT256_MAX ==> r == Err(RecycledGrowthExceedsLifetimeFees))
      && (x <= UINT256_MAX && x <= b.accrued ==>
          && r.Ok?
          && r.value == b.(growth := b.growth + u / total, remainder := u % total, credit := r.value.credit)
          && forall a :: r.value.credit(a)
               == b.credit(a) + (if a == account then -carry else 0) + balance(a) * (u / total))
  {
  }

  /** Only side `i` changed, and its book with it. */
  lemma RefinesOneSide(s: Ledger, e: Eager, i: FeeSide, t: Ledger, b: Book)
    requires Refines(s, e) && BookMatches(t.sides.At(i), b)
    requires t == s.(holders := t.holders, sides := s.sides.With(i, t.sides.At(i)))
    requires forall a :: BalanceOf(t, a) == BalanceOf(s, a)
    requires forall a, j :: j != i ==> Credit(t, a, j) == Credit(s, a, j)
    requires forall a :: Credit(t, a, i) == b.credit(a)
    ensures Refines(t, SetBook(e, i, b))
  {
    hide HolderCredit, BookMatches;
    var f := SetBook(e, i, b);
    forall a
      ensures f.balance(a) == BalanceOf(t, a)
    {
      assert e.balance(a) == BalanceOf(s, a);
    }
    forall j: FeeSide, a
      ensures f.books.At(j).credit(a) == Credit(t, a, j)
    {
      assert e.books.At(j).credit(a) == Credit(s, a, j);
    }
    forall j: FeeSide
      ensures BookMatches(t.sides.At(j), f.books.At(j))
    {
      assert BookMatches(s.sides.At(j), e.books.At(j));
    }
  }

  lemma RecycleSharedStep(s: Ledger, e: Eager, i: FeeSide, account: Account)
    requires Core(s) && Refines(s, e) && s.total > 0 && account in s.holders && s.holders[account].balance == 0
    ensures AgreeBook(s, e, i, RecycleSide(s, i, account), RecycleBook(e.books.At(i), e.total, e.balance, account))
    ensures RecycleSide(s, i, account).Ok? ==> Core(RecycleSide(s, i, account).value)
  {
    RecycleSharedVerdict(s, e, i, account);
    if RecycleSide(s, i, account).Ok? {
      RecycleSharedEffect(s, i, account);
      RecycleSharedRefines(s, e, i, account);
    }
  }

  lemma RecycleSharedVerdict(s: Ledger, e: Eager, i: FeeSide, account: Account)
    requires Core(s) && Refines(s, e) && s.total > 0 && account in s.holders && s.holders[account].balance == 0
    ensures var r := RecycleSide(s, i, account); var q := RecycleBook(e.books.At(i), e.total, e.balance, account);
      && (r.Ok? <==> q.Ok?) && (r.Err? ==> q.Err? && q.error == r.error)
      && var back := Returned(s, i, account);
         (r.Ok? ==> r.value == SetSide(back, i, Spread(back.sides.At(i), s.total)))
    ensures e.books.At(i).credit(account) % SCALE == s.holders[account].positions.At(i).carry
  {
    hide RecycleSide, HolderCredit, Core, Spread, RecycleBook, GrowthGuard, Returned, BookMatches;
    SideFacts(s, i, account);
    ZeroBalanceCarry(s, i, account);
    assert e.books.At(i).credit(account) == Credit(s, account, i);
    assert BookMatches(s.sides.At(i), e.books.At(i));
    RecycleSharedExact(s, i, account);
    ReturnedSide(s, i, account);
    SpreadKeepsLifetime(Returned(s, i, account).sides.At(i), s.total);
    ReturnedMatches(s.sides.At(i), e.books.At(i), account, s.holders[account].positions.At(i).carry, s.total);
    SharedVerdict(Returned(s, i, account).sides.At(i), e.books.At(i), s.total, e.balance, account);
  }

  lemma SpreadKeepsLifetime(st: SideState, total: int)
    requires total > 0
    ensures Spread(st, total).lifetime == st.lifetime
  {
  }

  lemma ReturnedMatches(st: SideState, b: Book, account: Account, carry: int, total: int)
    requires BookMatches(st, b) && SideOk(st, total) && carry == b.credit(account) % SCALE && 0 <= carry
    ensures var r := st.(remainder := st.remainder + carry);
      && 0 <= r.remainder && SideOk(r.(remainder := 0), total)
      && BookMatches(r, b.(remainder := b.remainder + b.credit(account) % SCALE))
  {
  }

  lemma ReturnedSide(s: Ledger, i: FeeSide, account: Account)
    requires Core(s) && account in s.holders
    ensures var p := s.holders[account].positions.At(i);
      Returned(s, i, account).sides.At(i) == s.sides.At(i).(remainder := s.sides.At(i).remainder + p.carry)
  {
  }

  lemma SharedVerdict(st: SideState, b: Book, total: int, balance: Account -> int, account: Account)
    requires 0 < total && 0 <= st.remainder && SideOk(st.(remainder := 0), total)
    requires BookMatches(st, b.(remainder := b.remainder + b.credit(account) % SCALE))
    ensures var q := RecycleBook(b, total, balance, account);
      match GrowthGuard(Spread(st, total).growth, st.lifetime)
      case Pass => q.Ok?
      case Fail(error) => q == Err(error)
  {
    hide RecycleBook, GrowthGuard, Spread;
    GuardAgrees(st, total);
    RecycleBookShared(b, total, balance, account);
  }

  lemma RecycleSharedRefines(s: Ledger, e: Eager, i: FeeSide, account: Account)
    requires Core(s) && Refines(s, e) && s.total > 0 && account in s.holders && s.holders[account].balance == 0
    requires RecycleSide(s, i, account).Ok? && RecycleBook(e.books.At(i), e.total, e.balance, account).Ok?
    ensures Refines(RecycleSide(s, i, account).value,
      SetBook(e, i, RecycleBook(e.books.At(i), e.total, e.balance, account).value))
  {
    hide RecycleSide, HolderCredit, Core, Spread, RecycleBook;
    var t := RecycleSide(s, i, account).value;
    var b := RecycleBook(e.books.At(i), e.total, e.balance, account).value;
    RecycleSharedVerdict(s, e, i, account);
    RecycleBookShared(e.books.At(i), e.total, e.balance, account);
    RecycleSharedEffect(s, i, account);
    SpreadBookMatches(s, e, i, account);
    assert BookMatches(s.sides.At(i), e.books.At(i));
    forall a
      ensures Credit(t, a, i) == b.credit(a)
    {
      assert e.books.At(i).credit(a) == Credit(s, a, i) && e.balance(a) == BalanceOf(s, a);
    }
    RefinesOneSide(s, e, i, t, b);
  }

  lemma SpreadBookMatches(s: Ledger, e: Eager, i: FeeSide, account: Account)
    requires Core(s) && Refines(s, e) && s.total > 0 && account in s.holders
    ensures var st := Returned(s, i, account).sides.At(i);
      var next := Spread(st, s.total);
      && next.growth.Scaled() == e.books.At(i).growth + st.remainder / s.total
      && next == s.sides.At(i).(growth := next.growth, remainder := st.remainder % s.total)
  {
    hide Raise, HolderCredit;
    var st := Returned(s, i, account).sides.At(i);
    SideFacts(s, i, account);
    DivAtLeast(st.remainder, s.total, 0);
    RaiseExact(st.growth, st.remainder / s.total);
    assert BookMatches(s.sides.At(i), e.books.At(i));
  }

  /** What an eager recycling does when the last shares are gone. */
  lemma RecycleBookLast(b: Book, balance: Account -> int, account: Account)
    ensures var carry := b.credit(account) % SCALE;
      var r := RecycleBook(b, 0, balance, account);
      && r.Ok?
      && r.value == b.(remainder := (if account == "" then b.remainder + carry else 0), credit := r.value.credit)
      && forall a :: r.value.credit(a) == b.credit(a)
           + if a == account then (if account == "" then 0 else b.remainder + carry) - carry else 0
  {
  }

  lemma RecycleLastStep(s: Ledger, e: Eager, i: FeeSide, account: Account)
    requires Core(s) && Refines(s, e) && s.total == 0 && account in s.holders && s.holders[account].balance == 0
    requires forall a :: a in s.holders && a != account ==> Clean(s.holders[a])
    ensures AgreeBook(s, e, i, RecycleSide(s, i, account), RecycleBook(e.books.At(i), e.total, e.balance, account))
    ensures RecycleSide(s, i, account).Ok? && Core(RecycleSide(s, i, account).value)
  {
    hide RecycleSide, HolderCredit, Core, Clean, LastOut, RecycleBook;
    var t := LastOut(s, i, account);
    RecycleBookLast(e.books.At(i), e.balance, account);
    var b := RecycleBook(e.books.At(i), 0, e.balance, account).value;
    ZeroBalanceCarry(s, i, account);
    RecycleLastExact(s, i, account);
    LastOutEffect(s, i, account);
    LastOutSide(s, e, i, account);
    forall a
      ensures Credit(t, a, i) == b.credit(a)
    {
      assert e.books.At(i).credit(a) == Credit(s, a, i);
      assert e.books.At(i).credit(account) == Credit(s, account, i);
      assert BookMatches(s.sides.At(i), e.books.At(i));
    }
    RefinesOneSide(s, e, i, t, b);
  }

  lemma LastOutSide(s: Ledger, e: Eager, i: FeeSide, account: Account)
    requires Core(s) && Refines(s, e) && s.total == 0 && account in s.holders && s.holders[account].balance == 0
    requires forall a :: a in s.holders && a != account ==> Clean(s.holders[a])
    ensures var t := LastOut(s, i, account);
      var b := RecycleBook(e.books.At(i), 0, e.balance, account).value;
      && t == s.(holders := t.holders, sides := s.sides.With(i, t.sides.At(i)))
      && BookMatches(t.sides.At(i), b)
  {
    hide HolderCredit, Core, Clean, RecycleBook;
    ZeroBalanceCarry(s, i, account);
    RecycleBookLast(e.books.At(i), e.balance, account);
    LastOutWorth(s, i, account);
    assert BookMatches(s.sides.At(i), e.books.At(i));
    assert e.books.At(i).credit(account) == Credit(s, account, i);
  }

  /** Structural facts of one recycling: only the leaver's own position on that side changes. */
  lemma RecycleSideShape(s: Ledger, i: FeeSide, account: Account)
    requires Core(s) && account in s.holders
    requires s.total == 0 ==> forall a :: a in s.holders && a != account ==> Clean(s.holders[a])
    ensures RecycleSide(s, i, account).Ok? ==>
      var t := RecycleSide(s, i, account).value; var j := if i.Side0? then Side1 else Side0;
      && OnlyHolder(s, t, account)
      && t.holders[account].balance == s.holders[account].balance
      && t.holders[account].positions.At(i).carry == 0
      && t.holders[account].positions.At(j) == s.holders[account].positions.At(j)
      && t.generation == s.generation
  {
    hide RecycleSide, Core, Clean, Spread, GrowthGuard;
    if s.total > 0 {
      RecycleSharedExact(s, i, account);
    } else {
      TotalNonnegative(s);
      RecycleLastExact(s, i, account);
    }
  }

  lemma TotalNonnegative(s: Ledger)
    requires Core(s)
    ensures 0 <= s.total
  {
  }

  lemma RecycleSideStep(s: Ledger, e: Eager, i: FeeSide, account: Account)
    requires Core(s) && Refines(s, e) && account in s.holders && s.holders[account].balance == 0
    requires forall a :: a in s.holders && a != account ==> Clean(s.holders[a])
    ensures AgreeBook(s, e, i, RecycleSide(s, i, account), RecycleBook(e.books.At(i), e.total, e.balance, account))
    ensures RecycleSide(s, i, account).Ok? ==>
      var t := RecycleSide(s, i, account).value; var j := if i.Side0? then Side1 else Side0;
      && Core(t) && OnlyHolder(s, t, account)
      && t.holders[account].balance == 0
      && t.holders[account].positions.At(i).carry == 0
      && t.holders[account].positions.At(j) == s.holders[account].positions.At(j)
  {
    hide RecycleSide, Core, Clean, RecycleBook, Refines;
    TotalNonnegative(s);
    RecycleSideShape(s, i, account);
    if s.total > 0 {
      RecycleSharedStep(s, e, i, account);
    } else {
      RecycleLastStep(s, e, i, account);
    }
  }

  /** A leaver's carry goes back to the pool on both sides, in the lazy ledger as in the eager one. */
  lemma RecycleStep(s: Ledger, e: Eager, account: Account)
    requires Core(s) && Refines(s, e) && account in s.holders && LocksOk(s)
    requires forall a :: a in s.holders && a != account ==> Clean(s.holders[a])
    ensures Agree(RecycleIfEmpty(s, account), Recycle(e, account))
    ensures Good(RecycleIfEmpty(s, account))
  {
    hide RecycleSide, Core, RecycleBook, BookMatches, HolderCredit;
    assert e.balance(account) == s.holders[account].balance;
    if s.holders[account].balance == 0 {
      RecycleSideStep(s, e, Side0, account);
      var r0 := RecycleSide(s, Side0, account);
      if r0.Ok? {
        var f := SetBook(e, Side0, RecycleBook(e.books.zero, e.total, e.balance, account).value);
        RecycleSideStep(r0.value, f, Side1, account);
        var r1 := RecycleSide(r0.value, Side1, account);
        if r1.Ok? {
          LocksKept(s, r1.value, account);
        }
      }
    }
  }

  lemma LocksKept(s: Ledger, t: Ledger, account: Account)
    requires LocksOk(s) && account in s.holders && account in t.holders && t.locks == s.locks
    requires forall a :: a != account ==> BalanceOf(t, a) == BalanceOf(s, a)
    requires t.holders[account].balance == s.holders[account].balance
    ensures LocksOk(t)
  {
    forall a
      ensures LockedOf(t, a) <= BalanceOf(t, a)
    {
      assert LockedOf(s, a) <= BalanceOf(s, a);
    }
  }
}
