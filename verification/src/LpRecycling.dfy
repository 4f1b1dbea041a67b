/** What raising growth, recycling a leaver's carry and handing out the remainder do to everybody's worth. */
module LpRecycling {
  import opened Outcomes
  import opened Division
  import opened MapSums
  import opened FeeGrowth
  import opened LpLedger
  import opened LpInvariant

  /** Growth raised by `q` scaled units, in normal form. */
  function Raise(g: Growth, q: int): Growth {
    Growth((g.Scaled() + q) / SCALE, (g.Scaled() + q) % SCALE)
  }

  lemma RaiseExact(g: Growth, q: int)
    requires g.Normal() && 0 <= q
    ensures Raise(g, q).Scaled() == g.Scaled() + q
    ensures Raise(g, q) == Growth(g.whole + (g.fraction + q) / SCALE, (g.fraction + q) % SCALE)
    ensures 0 <= (g.fraction + q) / SCALE && 0 <= Raise(g, q).fraction < SCALE
    ensures Raise(g, 0) == g
  {
    DivShift(g.fraction + q, SCALE, g.whole);
    DivShift(g.fraction, SCALE, g.whole);
    DivUnique(g.fraction, SCALE, 0, g.fraction);
    Euclid(g.Scaled() + q, SCALE);
    DivAtLeast(g.fraction + q, SCALE, 0);
  }

  /** One side of the ledger after its growth rises by `q`: every share earns `q`. */
  lemma RaiseEffect(s: Ledger, i: FeeSide, st: SideState, q: int)
    requires forall a :: a in s.holders ==> HolderOk(s.holders[a], s.sides)
    requires 0 <= q && st.growth.Scaled() == s.sides.At(i).growth.Scaled() + q
    ensures var t := SetSide(s, i, st);
      && (forall a :: a in t.holders ==> HolderOk(t.holders[a], t.sides))
      && (forall a, j :: Credit(t, a, j) == Credit(s, a, j) + if j == i then BalanceOf(s, a) * q else 0)
      && (forall j :: Sum(Credits(t, j)) == Sum(Credits(s, j)) + if j == i then Sum(Balances(s)) * q else 0)
  {
    var t := SetSide(s, i, st);
    forall a, j: FeeSide
      ensures Credit(t, a, j) == Credit(s, a, j) + if j == i then BalanceOf(s, a) * q else 0
    {
      if a in s.holders && j == i {
        var h := s.holders[a];
        EntitlementRises(h.balance, h.positions.At(i), s.sides.At(i).growth, st.growth, q);
      }
    }
    forall j: FeeSide
      ensures Sum(Credits(t, j)) == Sum(Credits(s, j)) + if j == i then Sum(Balances(s)) * q else 0
    {
      if j == i {
        CreditsRise(s, t, i, q);
      } else {
        assert Credits(t, j) == Credits(s, j);
      }
    }
  }

  lemma EntitlementRises(balance: int, p: Position, before: Growth, after: Growth, q: int)
    requires after.Scaled() == before.Scaled() + q
    ensures Entitlement(balance, p, after) == Entitlement(balance, p, before) + balance * q
  {
    Distribute(before.Scaled() - p.checkpoint.Scaled(), q, balance);
  }

  lemma CreditsRise(s: Ledger, t: Ledger, i: FeeSide, q: int)
    requires t.holders == s.holders
    requires forall a :: Credit(t, a, i) == Credit(s, a, i) + BalanceOf(s, a) * q
    ensures Sum(Credits(t, i)) == Sum(Credits(s, i)) + Sum(Balances(s)) * q
  {
    hide HolderCredit;
    SumScale(Balances(s), q);
    forall a | a in s.holders
      ensures Credits(t, i)[a] == Credits(s, i)[a] + Multiplied(Balances(s), q)[a]
    {
      assert Credit(t, a, i) == Credit(s, a, i) + BalanceOf(s, a) * q;
    }
    SumAdd(Credits(t, i), Credits(s, i), Multiplied(Balances(s), q));
  }

  /** Whether growth raised to `g` may stand: it fits in uint256 and has not outrun lifetime fees. */
  function GrowthGuard(g: Growth, lifetime: int): Check<Failure> {
    if UINT256_MAX < g.whole then Fail(Overflow)
    else Need(g.whole <= lifetime, RecycledGrowthExceedsLifetimeFees)
  }

  /** The side after its remainder was handed out over `total` shares. */
  function Spread(st: SideState, total: int): SideState
    requires total > 0
  {
    st.(remainder := st.remainder % total, growth := Raise(st.growth, st.remainder / total))
  }

  /** Handing out a remainder to existing shares fails only when the raised growth outruns lifetime fees. */
  lemma RedistributeExact(s: Ledger, i: FeeSide, beneficiary: Account)
    requires 0 < s.total && s.sides.At(i).growth.Normal() && 0 <= s.sides.At(i).remainder <= 2 * SCALE
    requires s.sides.At(i).growth.whole <= s.sides.At(i).lifetime <= UINT256_MAX
    ensures var next := Spread(s.sides.At(i), s.total);
      Redistribute(s, i, beneficiary) ==
      match GrowthGuard(next.growth, next.lifetime)
      case Pass => Ok(SetSide(s, i, next))
      case Fail(error) => Err(error)
  {
    hide Raise, TwoToThe, ScaleBits;
    var st := s.sides.At(i);
    var q := st.remainder / s.total;
    DivAtLeast(st.remainder, s.total, 0);
    assert q <= 2 * SCALE by {
      Euclid(st.remainder, s.total);
      MulMono(1, s.total, q);
    }
    RaiseExact(st.growth, q);
    DivAtLeast(st.growth.fraction + q, SCALE, 3);
    ScaleFits();
    if st.remainder == 0 {
      DivUnique(0, s.total, 0, 0);
    }
  }

  /** The leaver's carry returned to the pool's remainder, before it is handed out. */
  function Returned(s: Ledger, i: FeeSide, account: Account): Ledger
    requires account in s.holders
  {
    var p := s.holders[account].positions.At(i);
    var st := s.sides.At(i);
    SetSide(SetPosition(s, account, i, p.(carry := 0)), i, st.(remainder := st.remainder + p.carry))
  }

  lemma CarryReturned(s: Ledger, i: FeeSide, account: Account, p: Position)
    requires account in s.holders && HolderOk(s.holders[account], s.sides)
    requires p == s.holders[account].positions.At(i)
    ensures var h := SetPosition(s, account, i, p.(carry := 0)).holders[account];
      && HolderOk(h, s.sides) && h.balance == s.holders[account].balance
      && forall j :: HolderCredit(h, s.sides, j) == Credit(s, account, j) - if j == i then p.carry else 0
  {
  }

  lemma RecycleIsReturnThenRedistribute(s: Ledger, i: FeeSide, account: Account)
    requires account in s.holders
    requires 0 <= s.holders[account].positions.At(i).carry < SCALE && 0 <= s.sides.At(i).remainder <= SCALE
    ensures RecycleSide(s, i, account) == Redistribute(Returned(s, i, account), i, account)
  {
    hide Redistribute;
    ScaleFits();
  }

  /** The state a recycling starts from, on one side. */
  lemma SideFacts(s: Ledger, i: FeeSide, account: Account)
    requires Core(s) && account in s.holders
    ensures SideOk(s.sides.At(i), s.total) && Conserved(s, i) && HolderOk(s.holders[account], s.sides)
    ensures 0 <= s.holders[account].positions.At(i).carry < SCALE && 0 <= s.holders[account].positions.At(i).claimable
  {
  }

  lemma ReturnedEffect(s: Ledger, i: FeeSide, account: Account)
    requires Core(s) && account in s.holders
    ensures var t := Returned(s, i, account); var carry := s.holders[account].positions.At(i).carry;
      && (forall a :: a in t.holders ==> HolderOk(t.holders[a], t.sides))
      && (forall a, j :: Credit(t, a, j) == Credit(s, a, j) - if a == account && j == i then carry else 0)
      && (forall j :: Sum(Credits(t, j)) == Sum(Credits(s, j)) - if j == i then carry else 0)
      && Balances(t) == Balances(s)
  {
    hide Entitlement, SideOk, Sum, TwoToThe, ScaleBits;
    SideFacts(s, i, account);
    hide Core, PositionOk;
    var p := s.holders[account].positions.At(i);
    CarryReturned(s, i, account, p);
    var t := SetPosition(s, account, i, p.(carry := 0));
    PositionWorth(s, t, i, account, p.carry);
    var u := Returned(s, i, account);
    assert Credits(u, Side0) == Credits(t, Side0) && Credits(u, Side1) == Credits(t, Side1);
  }

  /** Only one position changed, by `loss`, and so did the sums. */
  lemma PositionWorth(s: Ledger, t: Ledger, i: FeeSide, account: Account, loss: int)
    requires account in s.holders && account in t.holders
      && t == s.(holders := s.holders[account := t.holders[account]])
    requires t.holders[account].balance == s.holders[account].balance
    requires forall j ::
      HolderCredit(t.holders[account], s.sides, j) == Credit(s, account, j) - if j == i then loss else 0
    ensures forall a, j :: Credit(t, a, j) == Credit(s, a, j) - if a == account && j == i then loss else 0
    ensures forall j :: Sum(Credits(t, j)) == Sum(Credits(s, j)) - if j == i then loss else 0
    ensures Balances(t) == Balances(s)
  {
    hide HolderCredit;
    HolderChange(s, account, t.holders[account]);
  }

  /** A holder without shares is worth its carry and claims. */
  lemma ZeroBalanceCredit(h: Holder, sides: PerSide<SideState>, i: FeeSide)
    requires h.balance == 0
    ensures HolderCredit(h, sides, i) == h.positions.At(i).carry + h.positions.At(i).claimable * SCALE
  {
  }

  lemma CreditAtZeroSupply(s: Ledger, i: FeeSide, a: Account)
    requires Core(s) && s.total == 0 && a in s.holders
    ensures Credits(s, i)[a] == ClaimsOf(s, i)[a] * SCALE + s.holders[a].positions.At(i).carry
    ensures Clean(s.holders[a]) ==> s.holders[a].positions.At(i).carry == 0
  {
    HolderBounds(s, a);
    ZeroBalanceCredit(s.holders[a], s.sides, i);
  }

  lemma CreditsAtZeroSupply(s: Ledger, i: FeeSide, account: Account)
    requires Core(s) && s.total == 0 && account in s.holders
    requires forall a :: a in s.holders && a != account ==> Clean(s.holders[a])
    ensures Sum(Credits(s, i)) == Sum(ClaimsOf(s, i)) * SCALE + s.holders[account].positions.At(i).carry
  {
    hide Core, Clean, HolderCredit;
    var carry := s.holders[account].positions.At(i).carry;
    var whole := Multiplied(ClaimsOf(s, i), SCALE);
    forall a | a in s.holders
      ensures Credits(s, i)[a] == whole[account := whole[account] + carry][a]
    {
      CreditAtZeroSupply(s, i, a);
    }
    SumOneMore(Credits(s, i), whole, account, carry);
    SumScale(ClaimsOf(s, i), SCALE);
  }

  lemma SumOneMore(m: map<Account, int>, n: map<Account, int>, account: Account, v: int)
    requires account in n && m.Keys == n.Keys
    requires forall a :: a in m ==> m[a] == n[account := n[account] + v][a]
    ensures Sum(m) == Sum(n) + v
  {
    assert m == n[account := n[account] + v];
    SumUpdate(n, account, n[account] + v);
  }

  /** At zero supply only the leaver can hold carry, so carry and remainder together are whole units. */
  lemma WholeAtZeroSupply(s: Ledger, i: FeeSide, account: Account)
    requires Core(s) && s.total == 0 && account in s.holders
    requires forall a :: a in s.holders && a != account ==> Clean(s.holders[a])
    ensures var u := s.sides.At(i).remainder + s.holders[account].positions.At(i).carry; u == 0 || u == SCALE
  {
    hide Credits, ClaimsOf, Core;
    CreditsAtZeroSupply(s, i, account);
    SideFacts(s, i, account);
    WholeUnits(s.sides.At(i), Sum(ClaimsOf(s, i)), s.holders[account].positions.At(i).carry);
  }

  lemma WholeUnits(st: SideState, claims: int, carry: int)
    requires claims * SCALE + carry + st.remainder + st.paid * SCALE == st.accrued * SCALE
    requires 0 <= st.remainder + carry < 2 * SCALE
    ensures st.remainder + carry == 0 || st.remainder + carry == SCALE
  {
    Distribute(st.accrued, -st.paid, SCALE);
    Distribute(st.accrued - st.paid, -claims, SCALE);
    WholeBelowTwo(st.remainder + carry, st.accrued - st.paid - claims);
  }

  lemma WholeBelowTwo(u: int, k: int)
    requires u == k * SCALE && 0 <= u < 2 * SCALE
    ensures u == 0 || u == SCALE
  {
    if k < 0 {
      MulMono(k, -1, SCALE);
    } else if 2 <= k {
      MulMono(2, k, SCALE);
    }
  }

  /** What a leaver with no shares left hands back on one side while others still hold shares. */
  lemma RecycleSharedExact(s: Ledger, i: FeeSide, account: Account)
    requires Core(s) && account in s.holders && s.total > 0
    ensures var next := Spread(Returned(s, i, account).sides.At(i), s.total);
      RecycleSide(s, i, account) ==
      match GrowthGuard(next.growth, next.lifetime)
      case Pass => Ok(SetSide(Returned(s, i, account), i, next))
      case Fail(error) => Err(error)
  {
    hide Spread, GrowthGuard, RecycleSide;
    SideFacts(s, i, account);
    RecycleIsReturnThenRedistribute(s, i, account);
    RedistributeExact(Returned(s, i, account), i, account);
  }

  lemma RecycleSharedEffect(s: Ledger, i: FeeSide, account: Account)
    requires Core(s) && account in s.holders && s.total > 0
    requires RecycleSide(s, i, account).Ok?
    ensures var t := RecycleSide(s, i, account).value;
      var carry := s.holders[account].positions.At(i).carry;
      var q := (s.sides.At(i).remainder + carry) / s.total;
      && Core(t) && 0 <= q
      && (forall a, j :: Credit(t, a, j) == Credit(s, a, j)
            + if j == i then BalanceOf(s, a) * q - (if a == account then carry else 0) else 0)
      && (forall a :: BalanceOf(t, a) == BalanceOf(s, a))
  {
    hide RecycleSide, HolderCredit, HolderOk, Raise, SideOk, Core, Conserved, GrowthGuard, Credits;
    var r := Returned(s, i, account);
    RecycleSharedExact(s, i, account);
    ReturnedEffect(s, i, account);
    ReturnedReady(s, i, account);
    SpreadEffect(r, i);
    SpreadKeepsCore(s, i, account);
  }

  lemma ReturnedReady(s: Ledger, i: FeeSide, account: Account)
    requires Core(s) && account in s.holders
    ensures var r := Returned(s, i, account);
      && r.total == s.total && Sum(Balances(r)) == r.total && 0 <= r.total <= MAX_TOTAL_SHARES
      && r.sides.At(i).remainder == s.sides.At(i).remainder + s.holders[account].positions.At(i).carry
      && 0 <= r.sides.At(i).remainder && SideOk(r.sides.At(i).(remainder := 0), r.total) && Conserved(r, i)
      && (forall a :: BalanceOf(r, a) == BalanceOf(s, a))
  {
    hide HolderCredit;
    ReturnedEffect(s, i, account);
    SideFacts(s, i, account);
  }

  /** Sound books on one side, and the other side as it was, make a sound ledger. */
  lemma OneSideChanged(s: Ledger, t: Ledger, i: FeeSide)
    requires Core(s) && t.total == s.total && Sum(Balances(t)) == s.total
    requires forall a :: a in t.holders ==> HolderOk(t.holders[a], t.sides)
    requires SideOk(t.sides.At(i), t.total) && Conserved(t, i)
    requires forall j :: j != i ==> t.sides.At(j) == s.sides.At(j) && Sum(Credits(t, j)) == Sum(Credits(s, j))
    ensures Core(t)
  {
    hide HolderOk, SideOk, Credits, Balances, Sum;
    assert forall j :: SideOk(s.sides.At(j), s.total) && Conserved(s, j);
    forall j: FeeSide
      ensures SideOk(t.sides.At(j), t.total) && Conserved(t, j)
    {
    }
    assert SideOk(t.sides.At(Side0), t.total) && SideOk(t.sides.At(Side1), t.total);
    assert Conserved(t, Side0) && Conserved(t, Side1);
  }

  /** Returning and spreading on one side leaves the other side's books alone. */
  lemma SpreadKeepsCore(s: Ledger, i: FeeSide, account: Account)
    requires Core(s) && account in s.holders && s.total > 0
    requires GrowthGuard(Spread(Returned(s, i, account).sides.At(i), s.total).growth, s.sides.At(i).lifetime).Pass?
    ensures var r := Returned(s, i, account); Core(SetSide(r, i, Spread(r.sides.At(i), s.total)))
  {
    hide HolderCredit, HolderOk, Spread, SideOk, Sum, Credits, Conserved, Core;
    var r := Returned(s, i, account);
    ReturnedEffect(s, i, account);
    ReturnedReady(s, i, account);
    SpreadEffect(r, i);
    var t := SetSide(r, i, Spread(r.sides.At(i), s.total));
    assert Balances(t) == Balances(r);
    OneSideChanged(s, t, i);
  }

  /** Spreading a remainder keeps the books balanced and pays every share the same. */
  lemma SpreadEffect(r: Ledger, i: FeeSide)
    requires 0 < r.total <= MAX_TOTAL_SHARES && Sum(Balances(r)) == r.total
    requires forall a :: a in r.holders ==> HolderOk(r.holders[a], r.sides)
    requires 0 <= r.sides.At(i).remainder && SideOk(r.sides.At(i).(remainder := 0), r.total) && Conserved(r, i)
    requires GrowthGuard(Spread(r.sides.At(i), r.total).growth, r.sides.At(i).lifetime).Pass?
    ensures var t := SetSide(r, i, Spread(r.sides.At(i), r.total)); var q := r.sides.At(i).remainder / r.total;
      && 0 <= q && SideOk(t.sides.At(i), t.total) && Conserved(t, i)
      && (forall a :: a in t.holders ==> HolderOk(t.holders[a], t.sides))
      && (forall a, j :: Credit(t, a, j) == Credit(r, a, j) + if j == i then BalanceOf(r, a) * q else 0)
      && (forall j :: j != i ==> Sum(Credits(t, j)) == Sum(Credits(r, j)))
  {
    hide HolderCredit, Raise, SideOk, HolderOk;
    var st := r.sides.At(i);
    var q := st.remainder / r.total;
    SideAfterSpread(st, r.total);
    DivAtLeast(st.remainder, r.total, 0);
    RaiseEffect(r, i, Spread(st, r.total), q);
    Euclid(st.remainder, r.total);
  }

  lemma SideAfterSpread(st: SideState, total: int)
    requires 0 < total <= MAX_TOTAL_SHARES && 0 <= st.remainder
    requires SideOk(st.(remainder := 0), total)
    requires GrowthGuard(Spread(st, total).growth, st.lifetime).Pass?
    ensures SideOk(Spread(st, total), total) && 0 <= Spread(st, total).remainder < total
    ensures Spread(st, total).growth.Scaled() == st.growth.Scaled() + st.remainder / total
  {
    DivAtLeast(st.remainder, total, 0);
    RaiseExact(st.growth, st.remainder / total);
    Euclid(st.remainder, total);
  }

  /** The ledger after the last holder hands back its carry: whole units become its claim, unless it is nameless. */
  function LastOut(s: Ledger, i: FeeSide, account: Account): Ledger
    requires account in s.holders
  {
    var r := Returned(s, i, account);
    var p := r.holders[account].positions.At(i);
    var st := r.sides.At(i);
    if account == "" then r
    else
      var claimable := p.claimable + st.remainder / SCALE;
      SetPosition(SetSide(r, i, st.(remainder := 0)), account, i, p.(claimable := claimable))
  }

  lemma RecycleLastExact(s: Ledger, i: FeeSide, account: Account)
    requires Core(s) && s.total == 0 && account in s.holders
    requires forall a :: a in s.holders && a != account ==> Clean(s.holders[a])
    ensures RecycleSide(s, i, account) == Ok(LastOut(s, i, account))
  {
    hide RecycleSide, Core, Clean;
    SideFacts(s, i, account);
    RecycleIsReturnThenRedistribute(s, i, account);
    WholeAtZeroSupply(s, i, account);
    LastClaimFits(s, i, account);
    RedistributeToLast(Returned(s, i, account), i, account);
  }

  lemma RedistributeToLast(r: Ledger, i: FeeSide, account: Account)
    requires r.total == 0 && account in r.holders
    requires var u := r.sides.At(i).remainder; var claimable := r.holders[account].positions.At(i).claimable;
      u == 0 || (u == SCALE && 0 <= claimable && claimable + 1 <= UINT256_MAX)
    ensures Redistribute(r, i, account) == Ok(
      var p := r.holders[account].positions.At(i);
      var st := r.sides.At(i);
      if account == "" then r
      else
        var claimable := p.claimable + st.remainder / SCALE;
        SetPosition(SetSide(r, i, st.(remainder := 0)), account, i, p.(claimable := claimable)))
  {
    UnitOfScale();
    var st := r.sides.At(i);
    var h := r.holders[account];
    assert h.positions.With(i, h.positions.At(i)) == h.positions;
    assert r.holders[account := h] == r.holders;
    ScaleFits();
  }

  lemma UnitOfScale()
    ensures 0 / SCALE == 0 && 0 % SCALE == 0 && SCALE / SCALE == 1 && SCALE % SCALE == 0
  {
    DivUnique(0, SCALE, 0, 0);
    DivUnique(SCALE, SCALE, 1, 0);
  }

  lemma LastClaimFits(s: Ledger, i: FeeSide, account: Account)
    requires Core(s) && account in s.holders
    ensures s.holders[account].positions.At(i).claimable + 1 <= UINT256_MAX || s.sides.At(i).remainder
          + s.holders[account].positions.At(i).carry < SCALE
  {
    var u := s.sides.At(i).remainder + s.holders[account].positions.At(i).carry;
    var claimable := s.holders[account].positions.At(i).claimable;
    SideFacts(s, i, account);
    LastClaimBound(s, i, account);
    if SCALE <= u {
      Distribute(claimable, 1, SCALE);
      assert (claimable + 1) * SCALE <= s.sides.At(i).accrued * SCALE;
      if s.sides.At(i).accrued < claimable + 1 {
        MulMono(s.sides.At(i).accrued + 1, claimable + 1, SCALE);
        Distribute(s.sides.At(i).accrued, 1, SCALE);
      }
    }
  }

  lemma LastClaimBound(s: Ledger, i: FeeSide, account: Account)
    requires Core(s) && account in s.holders
    ensures var p := s.holders[account].positions.At(i);
      p.claimable * SCALE + p.carry + s.sides.At(i).remainder <= s.sides.At(i).accrued * SCALE
  {
    SideFacts(s, i, account);
    CreditsNonnegative(s, i);
    SumDominates(Credits(s, i));
    var h := s.holders[account];
    var p := h.positions.At(i);
    assert Credits(s, i)[account] == HolderCredit(h, s.sides, i);
    MulMono(0, h.balance, s.sides.At(i).growth.Scaled() - p.checkpoint.Scaled());
    MulMono(0, s.sides.At(i).paid, SCALE);
  }

  lemma LastOutWorth(s: Ledger, i: FeeSide, account: Account)
    requires Core(s) && s.total == 0 && account in s.holders
    requires forall a :: a in s.holders && a != account ==> Clean(s.holders[a])
    ensures var t := LastOut(s, i, account);
      var carry := s.holders[account].positions.At(i).carry;
      var u := s.sides.At(i).remainder + carry;
      var gain := (if account == "" then 0 else u) - carry;
      && (u == 0 || u == SCALE)
      && (forall a :: a in t.holders ==> HolderOk(t.holders[a], t.sides))
      && (forall a, j :: Credit(t, a, j) == Credit(s, a, j) + if j == i && a == account then gain else 0)
      && (forall j :: Sum(Credits(t, j)) == Sum(Credits(s, j)) + if j == i then gain else 0)
      && Balances(t) == Balances(s)
      && t.sides.At(i) == s.sides.At(i).(remainder := if account == "" then u else 0)
  {
    hide HolderCredit, HolderOk, Core, Clean, Sum, TwoToThe, ScaleBits;
    var r := Returned(s, i, account);
    ReturnedEffect(s, i, account);
    WholeAtZeroSupply(s, i, account);
    UnitOfScale();
    if account != "" {
      ClaimAdded(r, LastOut(s, i, account), i, account);
      assert Balances(LastOut(s, i, account)) == Balances(r);
    }
  }

  lemma LastOutEffect(s: Ledger, i: FeeSide, account: Account)
    requires Core(s) && s.total == 0 && account in s.holders
    requires forall a :: a in s.holders && a != account ==> Clean(s.holders[a])
    ensures var t := LastOut(s, i, account);
      var carry := s.holders[account].positions.At(i).carry;
      var u := s.sides.At(i).remainder + carry;
      && Core(t) && (u == 0 || u == SCALE)
      && (forall a, j :: Credit(t, a, j) == Credit(s, a, j)
            + if j == i && a == account then (if account == "" then 0 else u) - carry else 0)
      && (forall a :: BalanceOf(t, a) == BalanceOf(s, a))
  {
    hide HolderCredit, HolderOk, SideOk, Credits;
    var t := LastOut(s, i, account);
    LastOutWorth(s, i, account);
    LastSides(s, t, i, account);
    var j := if i.Side0? then Side1 else Side0;
    assert t.sides.At(j) == s.sides.At(j);
    assert Conserved(s, i) && Conserved(s, j);
    assert Conserved(t, i) && Conserved(t, j);
    assert forall a :: BalanceOf(t, a) == BalanceOf(s, a);
  }

  lemma LastSides(s: Ledger, t: Ledger, i: FeeSide, account: Account)
    requires Core(s) && s.total == 0 && account in s.holders && t == LastOut(s, i, account)
    requires 0 <= s.sides.At(i).remainder + s.holders[account].positions.At(i).carry <= SCALE
    ensures SideOk(t.sides.zero, t.total) && SideOk(t.sides.one, t.total)
  {
  }

  lemma ClaimRaised(r: Ledger, i: FeeSide, account: Account, units: int)
    requires account in r.holders && HolderOk(r.holders[account], r.sides) && 0 <= units
    ensures var p := r.holders[account].positions.At(i);
      var h := SetPosition(r, account, i, p.(claimable := p.claimable + units)).holders[account];
      && HolderOk(h, r.sides) && h.balance == r.holders[account].balance
      && forall j :: HolderCredit(h, r.sides, j) == Credit(r, account, j) + if j == i then units * SCALE else 0
  {
    Distribute(r.holders[account].positions.At(i).claimable, units, SCALE);
  }

  lemma ClaimAdded(r: Ledger, t: Ledger, i: FeeSide, account: Account)
    requires forall a :: a in r.holders ==> HolderOk(r.holders[a], r.sides)
    requires account in r.holders
    requires var p := r.holders[account].positions.At(i); var st := r.sides.At(i);
      && st.remainder / SCALE * SCALE == st.remainder && 0 <= st.remainder / SCALE
      && var claimable := p.claimable + st.remainder / SCALE;
         t == SetPosition(SetSide(r, i, st.(remainder := 0)), account, i, p.(claimable := claimable))
    ensures forall a :: a in t.holders ==> HolderOk(t.holders[a], t.sides)
    ensures forall a, j ::
      Credit(t, a, j) == Credit(r, a, j) + if j == i && a == account then r.sides.At(i).remainder else 0
    ensures forall j :: Sum(Credits(t, j)) == Sum(Credits(r, j)) + if j == i then r.sides.At(i).remainder else 0
  {
    hide Entitlement, PositionOk, Sum, TwoToThe, ScaleBits;
    var st := r.sides.At(i);
    ClaimRaised(r, i, account, st.remainder / SCALE);
    var m := r.(holders := r.holders[account := t.holders[account]]);
    assert m.holders == t.holders;
    PositionWorth(r, m, i, account, -st.remainder);
    assert Credits(t, Side0) == Credits(m, Side0) && Credits(t, Side1) == Credits(m, Side1);
  }
}
