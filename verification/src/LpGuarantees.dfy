/** What holders and auditors can rely on over every run of the fee ledger, and where its guarantees stop. */
module LpGuarantees {
  import opened Outcomes
  import opened Division
  import opened MapSums
  import opened FeeGrowth
  import opened LpLedger
  import opened LpInvariant
  import opened LpRecycling
  import opened LpEager
  import opened LpRefinement
  import opened LpOperations

  // ---- Claims ----

  /** What `claimableOf` answers in a given state. */
  ghost function Reported(pool: Account, s: Ledger, account: Account, i: FeeSide): Reply {
    Step(pool, s, OpClaimableOf(account, i)).1
  }

  /** Balances, remainders and the supply of an eager ledger that some reachable ledger refines. */
  ghost predicate Sane(e: Eager) {
    0 <= e.total && (forall a :: 0 <= e.balance(a)) && (forall i :: 0 <= e.books.At(i).remainder)
  }

  lemma SaneWhenRefined(s: Ledger, e: Eager)
    requires Inv(s) && Refines(s, e)
    ensures Sane(e)
  {
    forall a
      ensures 0 <= e.balance(a)
    {
      assert e.balance(a) == BalanceOf(s, a);
      if a in s.holders {
        assert HolderOk(s.holders[a], s.sides);
      }
    }
    forall i: FeeSide
      ensures 0 <= e.books.At(i).remainder
    {
      BooksOf(s, e, i);
    }
  }

  lemma WholePartKept(credit: int, gain: int)
    requires 0 <= gain
    ensures (credit + gain) / SCALE >= credit / SCALE
    ensures (credit - credit % SCALE + gain) / SCALE >= credit / SCALE
  {
    DivMono(credit, credit + gain, SCALE);
    Euclid(credit, SCALE);
    DivAtLeast(credit - credit % SCALE + gain, SCALE, credit / SCALE);
  }

  ghost predicate CreditsKept(b: Book, c: Book, account: Account) {
    c.credit(account) / SCALE >= b.credit(account) / SCALE
  }

  lemma RecycleKeepsCredits(b: Book, total: int, balance: Account -> int, leaver: Account, account: Account)
    requires 0 <= total && balance(leaver) == 0 && 0 <= balance(account) && 0 <= b.remainder
    ensures var r := RecycleBook(b, total, balance, leaver); r.Ok? ==> CreditsKept(b, r.value, account)
  {
    hide RecycleBook;
    var carry := b.credit(leaver) % SCALE;
    var r := RecycleBook(b, total, balance, leaver);
    if 0 < total {
      RecycleBookShared(b, total, balance, leaver);
      var q := (b.remainder + carry) / total;
      DivAtLeast(b.remainder + carry, total, 0);
      MulMono(0, balance(account), q);
      if r.Ok? {
        WholePartKept(b.credit(account), balance(account) * q);
      }
    } else {
      RecycleBookLast(b, balance, leaver);
      WholePartKept(b.credit(account), 0);
      WholePartKept(b.credit(account), b.remainder + carry);
    }
  }

  lemma RecycleBothKeepsCredits(e: Eager, leaver: Account, account: Account, i: FeeSide)
    requires Sane(e)
    ensures Recycle(e, leaver).Ok? ==> CreditsKept(e.books.At(i), Recycle(e, leaver).value.books.At(i), account)
  {
    hide RecycleBook;
    assert 0 <= e.balance(account) && 0 <= e.books.At(Side0).remainder && 0 <= e.books.At(Side1).remainder;
    if e.balance(leaver) == 0 {
      RecycleKeepsCredits(e.books.zero, e.total, e.balance, leaver, account);
      RecycleKeepsCredits(e.books.one, e.total, e.balance, leaver, account);
    }
  }

  lemma SpreadKeepsCredits(b: Book, total: int, balance: Account -> int, account: Account)
    requires 0 < total && 0 <= balance(account) && 0 <= b.remainder
    ensures var r := SpreadRemainder(b, total, balance); r.Ok? ==> CreditsKept(b, r.value, account)
  {
    hide SpreadRemainder;
    SpreadBook(b, total, balance);
    DivAtLeast(b.remainder, total, 0);
    MulMono(0, balance(account), b.remainder / total);
    WholePartKept(b.credit(account), balance(account) * (b.remainder / total));
  }

  lemma MintKeepsCredits(e: Eager, minter: Account, amount: int, account: Account, i: FeeSide)
    requires Sane(e)
    ensures var r := MintShares(e, minter, amount); r.Ok? ==> CreditsKept(e.books.At(i), r.value.books.At(i), account)
  {
    hide SpreadRemainder;
    var f := WithBalance(e, minter, amount).(total := e.total + amount);
    assert 0 <= e.balance(account) && 0 <= e.books.At(Side0).remainder && 0 <= e.books.At(Side1).remainder;
    if 1 <= amount && e.total == 0 {
      SpreadKeepsCredits(e.books.zero, f.total, f.balance, account);
      SpreadKeepsCredits(e.books.one, f.total, f.balance, account);
    }
  }

  lemma BurnKeepsCredits(e: Eager, burner: Account, amount: int, account: Account, i: FeeSide)
    requires Sane(e) && (BurnShares(e, burner, amount).Ok? ==> amount <= e.balance(burner) && amount <= e.total)
    ensures var r := BurnShares(e, burner, amount); r.Ok? ==> CreditsKept(e.books.At(i), r.value.books.At(i), account)
  {
    hide RecycleBook;
    if BurnShares(e, burner, amount).Ok? {
      RecycleBothKeepsCredits(WithBalance(e, burner, -amount).(total := e.total - amount), burner, account, i);
    }
  }

  lemma MoveKeepsCredits(e: Eager, sender: Account, recipient: Account, amount: int, account: Account, i: FeeSide)
    requires Sane(e) && (MoveShares(e, sender, recipient, amount).Ok? ==> amount <= e.balance(sender))
    ensures var r := MoveShares(e, sender, recipient, amount);
      r.Ok? ==> CreditsKept(e.books.At(i), r.value.books.At(i), account)
  {
    hide RecycleBook;
    if MoveShares(e, sender, recipient, amount).Ok? {
      var f := WithBalance(WithBalance(e, sender, -amount), recipient, amount);
      assert Sane(f) by {
        assert forall a :: 0 <= e.balance(a);
      }
      RecycleBothKeepsCredits(f, sender, account, i);
    }
  }

  lemma SwapKeepsCredits(
    b: Book, total: int, balance: Account -> int, netInput: int, protocolFee: int, lpFee: int, account: Account)
    requires 0 <= total && 0 <= balance(account) && 0 <= b.remainder
    ensures var r := AddSwapFees(b, total, balance, netInput, protocolFee, lpFee);
      r.Ok? ==> CreditsKept(b, r.value, account)
  {
    hide AddSwapFees;
    var r := AddSwapFees(b, total, balance, netInput, protocolFee, lpFee);
    if r.Ok? {
      SwapRanges(b, total, balance, netInput, protocolFee, lpFee);
    }
    if r.Ok? && lpFee != 0 {
      SwapBook(b, total, balance, netInput, protocolFee, lpFee);
      var q := (lpFee * SCALE + b.remainder) / total;
      MulMono(0, lpFee, SCALE);
      DivAtLeast(lpFee * SCALE + b.remainder, total, 0);
      MulMono(0, balance(account), q);
      WholePartKept(b.credit(account), balance(account) * q);
    }
  }

  lemma SwapRanges(b: Book, total: int, balance: Account -> int, netInput: int, protocolFee: int, lpFee: int)
    requires AddSwapFees(b, total, balance, netInput, protocolFee, lpFee).Ok? && 0 <= total
    ensures 0 <= netInput < SCALE && 0 <= protocolFee < SCALE && 0 <= lpFee < SCALE
    ensures lpFee == 0 ==> AddSwapFees(b, total, balance, netInput, protocolFee, lpFee).value.credit == b.credit
    ensures lpFee != 0 ==> 0 < total
  {
  }

  /** Locked shares cannot leave, so what leaves is at most what is held. */
  lemma SpendableIsHeld(s: Ledger, e: Eager, account: Account, amount: int)
    requires Inv(s) && Refines(s, e) && Unlocked(e, account, amount).Pass? && 1 <= amount
    ensures amount <= e.balance(account) <= e.total
  {
    hide HolderCredit, BookMatches;
    assert e.balance(account) == BalanceOf(s, account);
    LockedNonnegative(s, account);
    HolderBounds(s, account);
  }

  lemma EagerKeepsCredits(pool: Account, s: Ledger, e: Eager, op: Op, account: Account, i: FeeSide)
    requires Inv(s) && Refines(s, e)
    requires !(op.OpConsumeClaim? && op.owner == account && op.side == i)
    ensures var r := TryEager(pool, e, op); r.Ok? ==> CreditsKept(e.books.At(i), r.value.0.books.At(i), account)
  {
    hide Inv, Refines, Recycle, SpreadRemainder, AddSwapFees, MintShares, LockedOf, LockAmounts, TwoToThe, ScaleBits;
    SaneWhenRefined(s, e);
    assert 0 <= e.balance(account);
    if TryEager(pool, e, op).Ok? {
      match op
      case OpMint(_, minter, amount) => MintKeepsCredits(e, minter, amount, account, i);
      case OpBurn(_, burner, amount) =>
        SpendableIsHeld(s, e, burner, amount);
        BurnKeepsCredits(e, burner, amount, account, i);
      case OpTransfer(sender, recipient, amount) =>
        SpendableIsHeld(s, e, sender, amount);
        MoveKeepsCredits(e, sender, recipient, amount, account, i);
      case OpTransferFrom(spender, owner, recipient, amount) =>
        SpendableIsHeld(s, e, owner, amount);
        var f := ApproveShares(e, owner, spender, Allowance(e.allowances, owner, spender) - amount);
        MoveKeepsCredits(f, owner, recipient, amount, account, i);
      case OpRecordSwapFees(_, j, netInput, protocolFee, lpFee) =>
        assert 0 <= e.books.At(j).remainder;
        SwapKeepsCredits(e.books.At(j), e.total, e.balance, netInput, protocolFee, lpFee, account);
      case _ =>
    }
  }

  /**
   * Nobody loses accrued whole units: after any operation by anyone, `claimableOf` reports at least what it reported
   * before, unless that owner's own claim on that side was just consumed.
   */
  lemma ClaimsNeverShrink(pool: Account, ops: seq<Op>, op: Op, account: Account, i: FeeSide)
    requires !(op.OpConsumeClaim? && op.owner == account && op.side == i)
    ensures var s := Run(pool, ops).0;
      var before := Reported(pool, s, account, i);
      var after := Reported(pool, Step(pool, s, op).0, account, i);
      before.Done? && after.Done? && before.value <= after.value
  {
    hide Inv, Refines, Attempt, TryEager;
    var s, e := Run(pool, ops).0, EagerRun(pool, ops).0;
    RunRefinesEager(pool, ops);
    AttemptAgrees(pool, s, e, op);
    EagerKeepsCredits(pool, s, e, op, account, i);
    ReportIsCredit(pool, s, e, account, i);
    ReportIsCredit(pool, Step(pool, s, op).0, EagerStep(pool, e, op).0, account, i);
  }

  lemma ReportIsCredit(pool: Account, s: Ledger, e: Eager, account: Account, i: FeeSide)
    requires Inv(s) && Refines(s, e)
    ensures Reported(pool, s, account, i) == Done(e.books.At(i).credit(account) / SCALE)
  {
    hide Inv, Refines, ReadPosition;
    ReadStep(s, e, account, i, false);
  }

  lemma WholePartTaken(credit: int)
    ensures (credit + -(credit / SCALE) * SCALE) / SCALE == 0
  {
    Euclid(credit, SCALE);
    Distribute(credit / SCALE, -(credit / SCALE), SCALE);
    DivUnique(credit % SCALE, SCALE, 0, credit % SCALE);
  }

  lemma EagerClaim(pool: Account, e: Eager, owner: Account, i: FeeSide)
    ensures var (f, reply) := EagerStep(pool, e, OpConsumeClaim(pool, owner, i));
      && reply == Done(e.books.At(i).credit(owner) / SCALE)
      && f.books.At(i).credit(owner) / SCALE == 0
  {
    WholePartTaken(e.books.At(i).credit(owner));
  }

  /** Consuming a claim returns exactly what was reported, and leaves nothing whole to report. */
  lemma ConsumeReturnsReported(pool: Account, ops: seq<Op>, owner: Account, i: FeeSide)
    ensures var s := Run(pool, ops).0;
      var (t, reply) := Step(pool, s, OpConsumeClaim(pool, owner, i));
      reply == Reported(pool, s, owner, i) && Reported(pool, t, owner, i) == Done(0)
  {
    hide Inv, Refines, Attempt, TryEager, Reported;
    var s, e := Run(pool, ops).0, EagerRun(pool, ops).0;
    var op := OpConsumeClaim(pool, owner, i);
    RunRefinesEager(pool, ops);
    AttemptAgrees(pool, s, e, op);
    ReportIsCredit(pool, s, e, owner, i);
    EagerClaim(pool, e, owner, i);
    ReportIsCredit(pool, Step(pool, s, op).0, EagerStep(pool, e, op).0, owner, i);
  }

  // ---- Audits and reads ----

  /** In every run, every audit passes all of its checks. */
  lemma AuditsAlwaysPass(pool: Account, ops: seq<Op>, i: FeeSide)
    ensures var s := Run(pool, ops).0; var r := Audit(s, i);
      && r.Ok?
      && r.value.1.accrued == r.value.1.paid + r.value.1.liability
      && r.value.1.ownerCarry + r.value.1.remainder == (r.value.1.liability - r.value.1.outstanding) * SCALE
      && r.value.1.custody == r.value.1.reserve + r.value.1.protocolFees + r.value.1.liability
  {
    hide Inv, Refines, Audit;
    RunRefinesEager(pool, ops);
    AuditStep(Run(pool, ops).0, EagerRun(pool, ops).0, i);
  }

  predicate IsRead(op: Op) {
    op.OpClaimableOf? || op.OpCarryOf? || op.OpAudit?
  }

  function WithoutReads(ops: seq<Op>): seq<Op> {
    if ops == [] then []
    else
      var last := ops[|ops| - 1];
      WithoutReads(ops[..|ops| - 1]) + if IsRead(last) then [] else [last]
  }

  /** The replies that are not answers to reads. */
  function WriteReplies(ops: seq<Op>, replies: seq<Reply>): seq<Reply>
    requires |ops| == |replies|
  {
    if ops == [] then []
    else
      var n := |ops| - 1;
      WriteReplies(ops[..n], replies[..n]) + if IsRead(ops[n]) then [] else [replies[n]]
  }

  lemma EagerReadStep(pool: Account, e: Eager, op: Op)
    requires IsRead(op)
    ensures EagerStep(pool, e, op).0 == e
  {
  }

  lemma {:induction false} EagerIgnoresReads(pool: Account, ops: seq<Op>)
    ensures |EagerRun(pool, ops).1| == |ops|
    ensures EagerRun(pool, WithoutReads(ops)).0 == EagerRun(pool, ops).0
    ensures EagerRun(pool, WithoutReads(ops)).1 == WriteReplies(ops, EagerRun(pool, ops).1)
  {
    hide EagerStep;
    if ops != [] {
      var n := |ops| - 1;
      EagerIgnoresReads(pool, ops[..n]);
      var replies := EagerRun(pool, ops).1;
      assert replies[..n] == EagerRun(pool, ops[..n]).1;
      var kept := WithoutReads(ops[..n]);
      if IsRead(ops[n]) {
        EagerReadStep(pool, EagerRun(pool, ops[..n]).0, ops[n]);
        assert WithoutReads(ops) == kept;
      } else {
        assert (kept + [ops[n]])[..|kept|] == kept;
      }
    }
  }

  /** Reads and audits settle accounts as they go, yet leaving them out changes no other reply of any run. */
  lemma ReadsAreInvisible(pool: Account, ops: seq<Op>)
    ensures |Run(pool, ops).1| == |ops|
    ensures Run(pool, WithoutReads(ops)).1 == WriteReplies(ops, Run(pool, ops).1)
  {
    RunRefinesEager(pool, ops);
    RunRefinesEager(pool, WithoutReads(ops));
    EagerIgnoresReads(pool, ops);
  }

  /** The figures of an audit depend on nothing but what everybody is credited. */
  lemma FiguresIgnoreBystanders(b: Book, x: set<Account>, y: set<Account>)
    requires forall a :: a !in x || a !in y ==> b.credit(a) == 0
    ensures EagerAudit(b, x) == EagerAudit(b, y)
  {
    var both := x * y;
    DivUnique(0, SCALE, 0, 0);
    SumIgnoresZeros(WholeUnitsOf(b, x), both);
    SumIgnoresZeros(WholeUnitsOf(b, y), both);
    assert (map a | a in WholeUnitsOf(b, x) && a in both :: WholeUnitsOf(b, x)[a])
        == (map a | a in WholeUnitsOf(b, y) && a in both :: WholeUnitsOf(b, y)[a]);
    SumIgnoresZeros(FractionsOf(b, x), both);
    SumIgnoresZeros(FractionsOf(b, y), both);
    assert (map a | a in FractionsOf(b, x) && a in both :: FractionsOf(b, x)[a])
        == (map a | a in FractionsOf(b, y) && a in both :: FractionsOf(b, y)[a]);
  }

  lemma NoCreditOutside(s: Ledger, e: Eager, i: FeeSide)
    requires Refines(s, e)
    ensures forall a :: a !in s.holders ==> e.books.At(i).credit(a) == 0
  {
    assert forall a :: e.books.At(i).credit(a) == Credit(s, a, i);
  }

  /** An audit reports the same figures whether or not the run before it read and audited. */
  lemma AuditIgnoresReads(pool: Account, ops: seq<Op>, i: FeeSide)
    ensures var r, q := Audit(Run(pool, ops).0, i), Audit(Run(pool, WithoutReads(ops)).0, i);
      r.Ok? && q.Ok?
        && r.value.1 == q.value.1 == EagerAudit(EagerRun(pool, ops).0.books.At(i), Run(pool, ops).0.holders.Keys)
  {
    hide Inv, Refines, Audit, Run, EagerRun, EagerAudit;
    RunRefinesEager(pool, ops);
    RunRefinesEager(pool, WithoutReads(ops));
    EagerIgnoresReads(pool, ops);
    var e := EagerRun(pool, ops).0;
    var s, t := Run(pool, ops).0, Run(pool, WithoutReads(ops)).0;
    AuditStep(s, e, i);
    AuditStep(t, e, i);
    NoCreditOutside(s, e, i);
    NoCreditOutside(t, e, i);
    FiguresIgnoreBystanders(e.books.At(i), s.holders.Keys, t.holders.Keys);
  }

  // ---- Zero supply ----

  /** With no shares left, carries are gone, and what remains besides whole claims is at most one stranded unit. */
  lemma NothingFractionalAtZeroSupply(s: Ledger, i: FeeSide)
    requires Inv(s) && s.total == 0
    ensures forall a :: a in s.holders ==> s.holders[a].balance == 0 && s.holders[a].positions.At(i).carry == 0
    ensures s.sides.At(i).remainder == 0 || s.sides.At(i).remainder == SCALE
    ensures s.sides.At(i).liability * SCALE == Sum(ClaimsOf(s, i)) * SCALE + s.sides.At(i).remainder
  {
    hide HolderCredit, HolderOk, SideOk;
    forall a | a in s.holders
      ensures s.holders[a].balance == 0 && s.holders[a].positions.At(i).carry == 0
    {
      HolderBounds(s, a);
    }
    var claims := Sum(ClaimsOf(s, i));
    assert Sum(Credits(s, i)) == claims * SCALE by {
      WholeCredits(s, i);
    }
    StrandedUnit(s, i, claims);
  }

  lemma StrandedUnit(s: Ledger, i: FeeSide, claims: int)
    requires Core(s) && Sum(Credits(s, i)) == claims * SCALE
    ensures s.sides.At(i).liability * SCALE == claims * SCALE + s.sides.At(i).remainder
    ensures s.sides.At(i).remainder == 0 || s.sides.At(i).remainder == SCALE
  {
    hide Credits;
    assert Conserved(s, i) && SideOk(s.sides.At(i), s.total);
    StrandedNumbers(s.sides.At(i), s.total, claims);
  }

  lemma StrandedNumbers(st: SideState, total: int, claims: int)
    requires SideOk(st, total) && claims * SCALE + st.remainder + st.paid * SCALE == st.accrued * SCALE
    ensures st.liability * SCALE == claims * SCALE + st.remainder
    ensures st.remainder == 0 || st.remainder == SCALE
  {
    Distribute(st.accrued, -st.paid, SCALE);
    Distribute(st.liability, -claims, SCALE);
    WholeBelowTwo(st.remainder, st.liability - claims);
  }

  lemma WholeCredits(s: Ledger, i: FeeSide)
    requires Core(s)
    requires forall a :: a in s.holders ==> s.holders[a].balance == 0 && s.holders[a].positions.At(i).carry == 0
    ensures Sum(Credits(s, i)) == Sum(ClaimsOf(s, i)) * SCALE
  {
    hide HolderCredit, Core;
    SumScale(ClaimsOf(s, i), SCALE);
    forall a | a in s.holders
      ensures Credits(s, i)[a] == Multiplied(ClaimsOf(s, i), SCALE)[a]
    {
      ZeroBalanceCredit(s.holders[a], s.sides, i);
    }
    assert Credits(s, i) == Multiplied(ClaimsOf(s, i), SCALE);
  }

  /**
   * The burn that empties the pool leaves nothing unallocated exactly when its account has a name, or nothing
   * fractional was left to hand back.
   */
  lemma FullExitStrandsNothing(pool: Account, ops: seq<Op>, account: Account, amount: int, i: FeeSide)
    requires Step(pool, Run(pool, ops).0, OpBurn(pool, account, amount)).0.total == 0
    requires Step(pool, Run(pool, ops).0, OpBurn(pool, account, amount)).1.Done?
    ensures var s := Run(pool, ops).0;
      var t := Step(pool, s, OpBurn(pool, account, amount)).0;
      t.sides.At(i).remainder == 0 <==> account != "" || s.sides.At(i).remainder + Credit(s, account, i) % SCALE == 0
  {
    hide Inv, Refines, Attempt, TryEager;
    var s, e := Run(pool, ops).0, EagerRun(pool, ops).0;
    var op := OpBurn(pool, account, amount);
    RunRefinesEager(pool, ops);
    AttemptAgrees(pool, s, e, op);
    var t, f := Step(pool, s, op).0, EagerStep(pool, e, op).0;
    SameTotals(t, f);
    LastBurn(pool, s, e, account, amount, i);
    SameRemainder(s, e, i);
    SameRemainder(t, f, i);
    CreditOf(s, e, account, i);
  }

  lemma SameRemainder(s: Ledger, e: Eager, i: FeeSide)
    requires Refines(s, e)
    ensures e.books.At(i).remainder == s.sides.At(i).remainder
  {
    assert BookMatches(s.sides.At(i), e.books.At(i));
  }

  lemma SameTotals(s: Ledger, e: Eager)
    requires Refines(s, e)
    ensures e.total == s.total
  {
  }

  lemma CreditOf(s: Ledger, e: Eager, account: Account, i: FeeSide)
    requires Refines(s, e)
    ensures e.books.At(i).credit(account) == Credit(s, account, i)
  {
  }

  lemma LastBurn(pool: Account, s: Ledger, e: Eager, account: Account, amount: int, i: FeeSide)
    requires Inv(s) && Refines(s, e)
    ensures var r := TryEager(pool, e, OpBurn(pool, account, amount));
      r.Ok? && r.value.0.total == 0 ==>
        r.value.0.books.At(i).remainder
          == if account == "" then e.books.At(i).remainder + e.books.At(i).credit(account) % SCALE else 0
  {
    hide Inv, Refines, RecycleBook;
    if BurnShares(e, account, amount).Ok? {
      SpendableIsHeld(s, e, account, amount);
      var f := WithBalance(e, account, -amount).(total := e.total - amount);
      RecycleKeepsTotal(f, account);
      if f.total == 0 {
        RecycleBookLast(f.books.zero, f.balance, account);
        RecycleBookLast(f.books.one, f.balance, account);
      }
    }
  }

  lemma RecycleKeepsTotal(e: Eager, account: Account)
    ensures Recycle(e, account).Ok? ==> Recycle(e, account).value.total == e.total
  {
    hide RecycleBook;
  }

  predicate NamelessBurn(op: Op) {
    op.OpBurn? && op.account == ""
  }

  ghost predicate Emptied(e: Eager) {
    e.total == 0 ==> e.books.zero.remainder == 0 && e.books.one.remainder == 0
  }

  lemma StepKeepsEmptied(pool: Account, s: Ledger, e: Eager, op: Op)
    requires Inv(s) && Refines(s, e) && Emptied(e) && !NamelessBurn(op)
    ensures Emptied(EagerStep(pool, e, op).0)
  {
    hide Inv, Refines, Recycle, SpreadRemainder, RecycleBook, MintShares, LockedOf, LockAmounts;
    hide TwoToThe, ScaleBits;
    SaneWhenRefined(s, e);
    if TryEager(pool, e, op).Ok? {
      match op
      case OpMint(_, account, amount) => MintedTotal(e, account, amount);
      case OpBurn(_, account, amount) =>
        LastBurn(pool, s, e, account, amount, Side0);
        LastBurn(pool, s, e, account, amount, Side1);
      case OpTransfer(sender, recipient, amount) =>
        SpendableIsHeld(s, e, sender, amount);
        RecycleKeepsTotal(WithBalance(WithBalance(e, sender, -amount), recipient, amount), sender);
      case OpTransferFrom(spender, owner, recipient, amount) =>
        SpendableIsHeld(s, e, owner, amount);
        var f := ApproveShares(e, owner, spender, Allowance(e.allowances, owner, spender) - amount);
        RecycleKeepsTotal(WithBalance(WithBalance(f, owner, -amount), recipient, amount), owner);
      case _ =>
    }
  }

  lemma MintedTotal(e: Eager, account: Account, amount: int)
    requires MintShares(e, account, amount).Ok? && 0 <= e.total
    ensures 0 < MintShares(e, account, amount).value.total
  {
    hide SpreadRemainder;
  }

  /** In a run where the nameless account never burns, zero supply means no remainder on either side. */
  lemma {:induction false} NamedExitsLeaveNothing(pool: Account, ops: seq<Op>)
    requires forall op :: op in ops ==> !NamelessBurn(op)
    ensures var s := Run(pool, ops).0;
      s.total == 0 ==> s.sides.zero.remainder == 0 && s.sides.one.remainder == 0
    ensures Emptied(EagerRun(pool, ops).0)
  {
    hide Inv, Refines, EagerStep;
    RunRefinesEager(pool, ops);
    if ops != [] {
      var before := ops[..|ops| - 1];
      NamedExitsLeaveNothing(pool, before);
      RunRefinesEager(pool, before);
      StepKeepsEmptied(pool, Run(pool, before).0, EagerRun(pool, before).0, ops[|ops| - 1]);
    }
    SameTotals(Run(pool, ops).0, EagerRun(pool, ops).0);
    SameRemainder(Run(pool, ops).0, EagerRun(pool, ops).0, Side0);
    SameRemainder(Run(pool, ops).0, EagerRun(pool, ops).0, Side1);
  }

  /** So the redistribution at the next mint from empty has nothing to hand out: it touches neither side. */
  lemma MintFromEmptyMovesNothing(pool: Account, ops: seq<Op>, account: Account, amount: int)
    requires forall op :: op in ops ==> !NamelessBurn(op)
    requires Run(pool, ops).0.total == 0
    ensures var s := Run(pool, ops).0; Step(pool, s, OpMint(pool, account, amount)).0.sides == s.sides
  {
    hide Inv, Run, Refines, Settle, SettledHolder, Core;
    RunRefinesEager(pool, ops);
    NamedExitsLeaveNothing(pool, ops);
    InvGivesCore(Run(pool, ops).0);
    SettleEffect(Run(pool, ops).0, account);
  }

  lemma InvGivesCore(s: Ledger)
    requires Inv(s)
    ensures Core(s)
  {
  }

  lemma {:induction false} PowerNotDivisibleByThree(bits: seq<()>)
    ensures TwoToThe(bits) % 3 != 0
  {
    if bits != [] {
      PowerNotDivisibleByThree(bits[1..]);
      DoubleModThree(TwoToThe(bits[1..]));
    }
  }

  lemma DoubleModThree(p: int)
    requires p % 3 != 0
    ensures 2 * p % 3 != 0
  {
  }

  lemma EagerRunStep(pool: Account, ops: seq<Op>, op: Op)
    ensures EagerRun(pool, ops + [op]).0 == EagerStep(pool, EagerRun(pool, ops).0, op).0
    ensures |EagerRun(pool, ops + [op]).1| > 0
    ensures EagerRun(pool, ops + [op]).1[|EagerRun(pool, ops + [op]).1| - 1]
      == EagerStep(pool, EagerRun(pool, ops).0, op).1
  {
    assert (ops + [op])[..|ops|] == ops;
  }

  const NAMELESS_EXIT: seq<Op> :=
    [OpMint("pool", "", 3), OpRecordSwapFees("pool", Side0, 0, 0, 1), OpBurn("pool", "", 3)]

  /** The nameless account can strand a whole unit: three shares earn one unit of fee and are burnt. */
  lemma NamelessExitStrandsAUnit()
    ensures var s := Run("pool", NAMELESS_EXIT).0;
      s.total == 0 && s.sides.zero.remainder == SCALE && s.sides.zero.liability == 1
  {
    hide Inv, Refines, EagerStep, BurnShares, AddSwapFees;
    var ops := NAMELESS_EXIT;
    RunRefinesEager("pool", ops);
    EagerRunStep("pool", [], ops[0]);
    EagerRunStep("pool", ops[..1], ops[1]);
    EagerRunStep("pool", ops[..2], ops[2]);
    assert ops[..1] == [] + [ops[0]] && ops[..2] == ops[..1] + [ops[1]] && ops == ops[..2] + [ops[2]];
    ThreeShares();
    var e := EagerStep("pool", NO_SHARES, ops[0]).0;
    FeeOnThree(e);
    var f := EagerStep("pool", e, ops[1]).0;
    BurnThree(f);
    var g := EagerStep("pool", f, ops[2]).0;
    SameTotals(Run("pool", ops).0, g);
    SameRemainder(Run("pool", ops).0, g, Side0);
    BooksOf(Run("pool", ops).0, g, Side0);
  }

  lemma ThreeShares()
    ensures var e := EagerStep("pool", NO_SHARES, OpMint("pool", "", 3)).0;
      && e.total == 3 && e.balance("") == 3 && e.locks == map[]
      && e.books.zero.growth == e.books.zero.remainder == e.books.zero.accrued == e.books.zero.paid == 0
      && e.books.zero.reserve == e.books.zero.protocolFees == e.books.zero.credit("") == 0
  {
    ScaleFits();
    DivUnique(0, SCALE, 0, 0);
  }

  lemma FeeOnThree(e: Eager)
    requires e.total == 3 && e.balance("") == 3 && e.locks == map[]
    requires e.books.zero.growth == e.books.zero.remainder == e.books.zero.accrued == e.books.zero.paid == 0
    requires e.books.zero.reserve == e.books.zero.protocolFees == e.books.zero.credit("") == 0
    ensures var f := EagerStep("pool", e, OpRecordSwapFees("pool", Side0, 0, 0, 1)).0;
      && f.total == 3 && f.balance("") == 3 && f.locks == map[]
      && f.books.zero.remainder == SCALE % 3 && f.books.zero.credit("") == SCALE / 3 * 3
      && f.books.zero.accrued == 1 && f.books.zero.paid == 0
  {
    ScaleFits();
    DivUnique(SCALE / 3, SCALE, 0, SCALE / 3);
  }

  lemma BurnThree(f: Eager)
    requires f.total == 3 && f.balance("") == 3 && f.locks == map[]
    requires f.books.zero.remainder == SCALE % 3 && f.books.zero.credit("") == SCALE / 3 * 3
    ensures var g := EagerStep("pool", f, OpBurn("pool", "", 3)).0;
      && g.total == 0 && g.books.zero.remainder == SCALE
      && g.books.zero.accrued == f.books.zero.accrued && g.books.zero.paid == f.books.zero.paid
  {
    hide RecycleBook;
    ScaleFits();
    PowerNotDivisibleByThree(ScaleBits());
    DivUnique(SCALE / 3 * 3, SCALE, 0, SCALE / 3 * 3);
    assert LockAmounts(f.locks, "") == map[];
    var burnt := WithBalance(f, "", -3).(total := 0);
    RecycleBookLast(burnt.books.zero, burnt.balance, "");
    RecycleBookLast(burnt.books.one, burnt.balance, "");
    RecycleKeepsTotal(burnt, "");
  }

  // ---- The recycled-growth guard ----

  /** Two one-share holders and one unit of fee: the smallest ledger on which recycling compounds. */
  ghost predicate Duo(e: Eager, x: Account, y: Account, used: set<Account>, growth: int, creditX: int, creditY: int) {
    && e.total == 2 && e.locks == map[] && x != y && x in used && y in used
    && (forall a :: e.balance(a) == if a == x || a == y then 1 else 0)
    && e.books.zero.growth == growth && e.books.zero.remainder == 0 && e.books.zero.accrued == 1
    && e.books.zero.credit(x) == creditX && e.books.zero.credit(y) == creditY
    && (forall a :: a !in used ==> e.books.zero.credit(a) == 0)
    && e.books.one.growth == 0 && e.books.one.remainder == 0 && e.books.one.accrued == 0
    && (forall a :: e.books.one.credit(a) == 0)
  }

  lemma DuoRecycles(e: Eager, x: Account, y: Account, z: Account, used: set<Account>, growth: int, cx: int, cy: int)
    requires Duo(e, x, y, used, growth, cx, cy) && z !in used && 0 <= cx < SCALE && 0 <= growth
    ensures var moved := WithBalance(WithBalance(e, x, -1), z, 1);
      var u := RecycleBook(e.books.zero, 2, moved.balance, x);
      && ((growth + cx / 2) / SCALE <= 1 ==>
          && u.Ok?
          && u.value == e.books.zero.(growth := growth + cx / 2, remainder := cx % 2, credit := u.value.credit)
          && u.value.credit(x) == 0 && u.value.credit(y) == cy + cx / 2 && u.value.credit(z) == cx / 2
          && (forall a :: a !in used && a != z ==> u.value.credit(a) == 0))
      && ((growth + cx / 2) / SCALE == 2 ==> u == Err(RecycledGrowthExceedsLifetimeFees))
  {
    hide RecycleBook;
    ScaleFits();
    var moved := WithBalance(WithBalance(e, x, -1), z, 1);
    RecycleBookShared(e.books.zero, 2, moved.balance, x);
    DivUnique(cx, SCALE, 0, cx);
    assert moved.balance(x) == 0 && moved.balance(y) == 1 && moved.balance(z) == 1;
  }

  lemma QuietSide(b: Book, balance: Account -> int, x: Account)
    requires b.growth == 0 && b.remainder == 0 && b.accrued == 0 && forall a :: b.credit(a) == 0
    ensures var r := RecycleBook(b, 2, balance, x);
      r.Ok? && r.value == b.(credit := r.value.credit) && forall a :: r.value.credit(a) == 0
  {
    hide RecycleBook;
    RecycleBookShared(b, 2, balance, x);
    DivUnique(0, SCALE, 0, 0);
    ScaleFits();
  }

  /** A full transfer to a fresh account recycles the sender's carry into everybody's growth. */
  lemma DuoMoves(e: Eager, x: Account, y: Account, z: Account, used: set<Account>, growth: int, cx: int, cy: int)
    requires Duo(e, x, y, used, growth, cx, cy) && z !in used && 0 <= cx < SCALE && 0 <= growth && cx % 2 == 0
    ensures var (f, reply) := EagerStep("pool", e, OpTransfer(x, z, 1));
      && ((growth + cx / 2) / SCALE <= 1 ==> Duo(f, y, z, used + {z}, growth + cx / 2, cy + cx / 2, cx / 2))
      && ((growth + cx / 2) / SCALE == 2 ==> reply == Failed(RecycledGrowthExceedsLifetimeFees))
  {
    hide RecycleBook;
    ScaleFits();
    assert LockAmounts(e.locks, x) == map[];
    DuoRecycles(e, x, y, z, used, growth, cx, cy);
    var moved := WithBalance(WithBalance(e, x, -1), z, 1);
    QuietSide(e.books.one, moved.balance, x);
    assert moved.balance(x) == 0;
  }

  lemma DuoStart(e: Eager)
    requires e == EagerRun("pool", COMPOUNDING[..3]).0
    ensures Duo(e, "a", "b", TWO, SCALE / 2, SCALE / 2, SCALE / 2)
  {
    hide EagerStep;
    EagerRunStep("pool", [], COMPOUNDING[0]);
    EagerRunStep("pool", COMPOUNDING[..1], COMPOUNDING[1]);
    EagerRunStep("pool", COMPOUNDING[..2], COMPOUNDING[2]);
    assert COMPOUNDING[..1] == [] + [COMPOUNDING[0]];
    assert COMPOUNDING[..2] == COMPOUNDING[..1] + [COMPOUNDING[1]];
    assert COMPOUNDING[..3] == COMPOUNDING[..2] + [COMPOUNDING[2]];
    FirstDuoShares();
    FirstDuoFee(EagerRun("pool", COMPOUNDING[..2]).0);
  }

  lemma FirstDuoShares()
    ensures var e :=
      EagerStep("pool", EagerStep("pool", NO_SHARES, OpMint("pool", "a", 1)).0, OpMint("pool", "b", 1)).0;
      && e.total == 2 && e.locks == map[] && (forall a :: e.balance(a) == if a == "a" || a == "b" then 1 else 0)
      && e.books.zero.(credit := NEW_BOOK.credit) == NEW_BOOK && e.books.one.(credit := NEW_BOOK.credit) == NEW_BOOK
      && forall a :: e.books.zero.credit(a) == 0 && e.books.one.credit(a) == 0
  {
    ScaleFits();
    DivUnique(0, SCALE, 0, 0);
    var e := EagerStep("pool", NO_SHARES, OpMint("pool", "a", 1)).0;
    assert e.total == 1;
  }

  lemma FirstDuoFee(e: Eager)
    requires e.total == 2 && e.locks == map[] && (forall a :: e.balance(a) == if a == "a" || a == "b" then 1 else 0)
    requires e.books.zero.(credit := NEW_BOOK.credit) == NEW_BOOK && e.books.one.(credit := NEW_BOOK.credit) == NEW_BOOK
    requires forall a :: e.books.zero.credit(a) == 0 && e.books.one.credit(a) == 0
    ensures var f := EagerStep("pool", e, OpRecordSwapFees("pool", Side0, 0, 0, 1)).0;
      Duo(f, "a", "b", TWO, SCALE / 2, SCALE / 2, SCALE / 2)
  {
    hide TwoToThe, ScaleBits;
    ScaleFits();
    ScaleIsMultiple();
    DivUnique(SCALE / 2, SCALE, 0, SCALE / 2);
  }

  lemma Halve(bits: seq<()>, halvings: nat)
    requires halvings < |bits|
    ensures TwoToThe(bits[halvings..]) == 2 * TwoToThe(bits[halvings + 1..])
  {
    assert bits[halvings..][1..] == bits[halvings + 1..];
  }

  lemma ScaleIsMultiple()
    ensures SCALE % 64 == 0 && SCALE / 64 * 64 == SCALE
  {
    var bits := ScaleBits();
    hide TwoToThe, ScaleBits;
    assert bits[0..] == bits;
    Halve(bits, 0);
    Halve(bits, 1);
    Halve(bits, 2);
    Halve(bits, 3);
    Halve(bits, 4);
    Halve(bits, 5);
    DivUnique(SCALE, 64, TwoToThe(bits[6..]), 0);
  }

  const COMPOUNDING: seq<Op> := [
    OpMint("pool", "a", 1), OpMint("pool", "b", 1), OpRecordSwapFees("pool", Side0, 0, 0, 1),
    OpTransfer("a", "c", 1), OpTransfer("b", "d", 1), OpTransfer("c", "e", 1), OpTransfer("d", "f", 1),
    OpTransfer("e", "g", 1)]

  lemma CompoundingMove(n: nat, x: Account, y: Account, z: Account, used: set<Account>, growth: int, cx: int, cy: int)
    requires 3 <= n < 7 && COMPOUNDING[n] == OpTransfer(x, z, 1) && z !in used
    requires Duo(EagerRun("pool", COMPOUNDING[..n]).0, x, y, used, growth, cx, cy)
    requires 0 <= cx < SCALE && 0 <= growth && cx % 2 == 0 && (growth + cx / 2) / SCALE <= 1
    ensures Duo(EagerRun("pool", COMPOUNDING[..n + 1]).0, y, z, used + {z}, growth + cx / 2, cy + cx / 2, cx / 2)
  {
    hide EagerStep, Duo;
    assert COMPOUNDING[..n + 1] == COMPOUNDING[..n] + [COMPOUNDING[n]];
    EagerRunStep("pool", COMPOUNDING[..n], COMPOUNDING[n]);
    DuoMoves(EagerRun("pool", COMPOUNDING[..n]).0, x, y, z, used, growth, cx, cy);
  }

  const TWO: set<Account> := {"a", "b"}
  const FOUR: set<Account> := {"a", "b", "c", "d"}
  const SIX: set<Account> := {"a", "b", "c", "d", "e", "f"}

  /** Multiples of k, measured in d = 64 k. */
  lemma Multiples(k: int, d: int, n: int, whole: int)
    requires d == 64 * k && 0 < k && 0 <= n && 64 * whole <= n < 64 * (whole + 1)
    ensures 0 <= n * k && n * k / d == whole
    ensures whole == 0 ==> n * k < d
  {
    var rest := n - 64 * whole;
    Distribute(64 * whole, rest, k);
    assert 64 * whole * k == whole * d;
    MulMono(0, rest, k);
    MulMono(rest + 1, 64, k);
    Distribute(rest, 1, k);
    MulMono(0, n, k);
    DivUnique(n * k, d, whole, rest * k);
  }

  lemma EvenMultiple(k: int, cx: int)
    requires 0 <= cx && cx % 2 == 0
    ensures cx * k % 2 == 0 && cx * k / 2 == cx / 2 * k
  {
    assert cx * k == cx / 2 * k * 2;
    DivUnique(cx * k, 2, cx / 2 * k, 0);
  }

  /** The numbers of one compounding step, where SCALE is 64 k. */
  lemma CompoundingNumbers(k: int, growth: int, cx: int, whole: int)
    requires SCALE == 64 * k && 0 < k && 0 <= cx < 64 && cx % 2 == 0 && 0 <= growth && 0 <= whole
    requires 64 * whole <= growth + cx / 2 < 64 * (whole + 1)
    ensures 0 <= cx * k < SCALE && 0 <= growth * k && cx * k % 2 == 0 && cx * k / 2 == cx / 2 * k
    ensures (growth * k + cx * k / 2) / SCALE == whole
  {
    hide TwoToThe, ScaleBits;
    EvenMultiple(k, cx);
    Multiples(k, SCALE, cx, 0);
    Multiples(k, SCALE, growth + cx / 2, whole);
    Distribute(growth, cx / 2, k);
    MulMono(0, growth, k);
  }

  lemma Compounded(
    n: nat, x: Account, y: Account, z: Account, used: set<Account>, k: int, growth: int, cx: int, cy: int)
    requires SCALE == 64 * k && 0 < k && 0 <= cx < 64 && cx % 2 == 0 && 0 <= growth && growth + cx / 2 < 128
    requires 3 <= n < 7 && COMPOUNDING[n] == OpTransfer(x, z, 1) && z !in used
    requires Duo(EagerRun("pool", COMPOUNDING[..n]).0, x, y, used, growth * k, cx * k, cy * k)
    ensures Duo(EagerRun("pool", COMPOUNDING[..n + 1]).0, y, z, used + {z},
                (growth + cx / 2) * k, (cy + cx / 2) * k, cx / 2 * k)
  {
    hide EagerStep, Duo, EagerRun, TwoToThe, ScaleBits;
    CompoundingNumbers(k, growth, cx, if growth + cx / 2 < 64 then 0 else 1);
    Distribute(growth, cx / 2, k);
    Distribute(cy, cx / 2, k);
    CompoundingMove(n, x, y, z, used, growth * k, cx * k, cy * k);
  }

  lemma CompoundedTwice(k: int)
    requires SCALE == 64 * k && 0 < k
    ensures Duo(EagerRun("pool", COMPOUNDING[..5]).0, "c", "d", FOUR, 72 * k, 40 * k, 24 * k)
  {
    hide EagerStep, Duo, EagerRun, TwoToThe, ScaleBits;
    DuoStart(EagerRun("pool", COMPOUNDING[..3]).0);
    assert SCALE / 2 == 32 * k;
    Compounded(3, "a", "b", "c", TWO, k, 32, 32, 32);
    Compounded(4, "b", "c", "d", TWO + {"c"}, k, 48, 48, 16);
    assert TWO + {"c"} + {"d"} == FOUR;
  }

  lemma CompoundedFourTimes(k: int)
    requires SCALE == 64 * k && 0 < k
    ensures Duo(EagerRun("pool", COMPOUNDING[..7]).0, "e", "f", SIX, 114 * k, 42 * k, 22 * k)
  {
    hide EagerStep, Duo, EagerRun, TwoToThe, ScaleBits;
    CompoundedTwice(k);
    Compounded(5, "c", "d", "e", FOUR, k, 72, 40, 24);
    Compounded(6, "d", "e", "f", FOUR + {"e"}, k, 92, 44, 20);
    assert FOUR + {"e"} + {"f"} == SIX;
  }

  /** The fifth transfer finds whole growth at its bound. */
  lemma FifthTransferFails(k: int)
    requires SCALE == 64 * k && 0 < k
    ensures EagerStep("pool", EagerRun("pool", COMPOUNDING[..7]).0, OpTransfer("e", "g", 1)).1
         == Failed(RecycledGrowthExceedsLifetimeFees)
  {
    hide EagerStep, Duo, EagerRun, TwoToThe, ScaleBits;
    CompoundedFourTimes(k);
    CompoundingNumbers(k, 114, 42, 2);
    DuoMoves(EagerRun("pool", COMPOUNDING[..7]).0, "e", "f", "g", SIX, 114 * k, 42 * k, 22 * k);
  }

  /**
   * The guard on recycled growth is reachable: after one unit of fee and four full transfers between fresh accounts,
   * an unlocked holder can no longer move its whole balance.
   */
  lemma RecycledGrowthGuardIsReachable()
    ensures |Run("pool", COMPOUNDING).1| == 8
    ensures Run("pool", COMPOUNDING).1[7] == Failed(RecycledGrowthExceedsLifetimeFees)
  {
    hide Inv, Refines, EagerStep, Duo, Run, EagerRun, TwoToThe, ScaleBits;
    ScaleIsMultiple();
    FifthTransferFails(SCALE / 64);
    assert COMPOUNDING == COMPOUNDING[..7] + [COMPOUNDING[7]];
    EagerRunStep("pool", COMPOUNDING[..7], COMPOUNDING[7]);
    EagerIgnoresReads("pool", COMPOUNDING);
    RunRefinesEager("pool", COMPOUNDING);
  }

  /** Whether recycling `account`'s carry over `total` shares keeps growth within lifetime fees on both sides. */
  ghost predicate CarryFits(s: Ledger, account: Account, total: int)
    requires total != 0
  {
    forall i: FeeSide :: var st := s.sides.At(i);
      (st.growth.Scaled() + (st.remainder + Credit(s, account, i) % SCALE) / total) / SCALE <= st.lifetime
  }

  lemma RecycleSucceedsExactly(s: Ledger, e: Eager, f: Eager, account: Account)
    requires Inv(s) && Refines(s, e) && f.books == e.books && f.balance(account) == 0 && 0 <= f.total
    ensures Recycle(f, account).Ok? <==> f.total == 0 || CarryFits(s, account, f.total)
  {
    hide Inv, RecycleBook, Refines, TwoToThe, ScaleBits;
    forall i: FeeSide
      ensures var st := s.sides.At(i); var b := f.books.At(i);
        && b.growth == st.growth.Scaled() && b.remainder == st.remainder && b.accrued == st.lifetime <= UINT256_MAX
        && b.credit(account) == Credit(s, account, i)
    {
      BooksOf(s, e, i);
      CreditOf(s, e, account, i);
    }
    if f.total > 0 {
      RecycleBookShared(f.books.At(Side0), f.total, f.balance, account);
      RecycleBookShared(f.books.At(Side1), f.total, f.balance, account);
    } else {
      RecycleBookLast(f.books.At(Side0), f.balance, account);
      RecycleBookLast(f.books.At(Side1), f.balance, account);
    }
  }

  ghost predicate TransferFits(s: Ledger, sender: Account, recipient: Account, amount: int) {
    && 1 <= amount <= BalanceOf(s, sender) - LockedOf(s, sender) && sender != recipient
    && (amount == BalanceOf(s, sender) && s.total != 0 ==> CarryFits(s, sender, s.total))
  }

  ghost predicate BurnFits(s: Ledger, account: Account, amount: int) {
    && 1 <= amount <= BalanceOf(s, account) - LockedOf(s, account)
    && (amount == BalanceOf(s, account) && amount != s.total ==> CarryFits(s, account, s.total - amount))
  }

  lemma MoveVerdict(s: Ledger, e: Eager, sender: Account, recipient: Account, amount: int)
    requires Inv(s) && Refines(s, e)
    ensures MoveShares(e, sender, recipient, amount).Ok? <==> TransferFits(s, sender, recipient, amount)
  {
    hide Inv, Refines, Recycle, CarryFits, LockedOf, LockAmounts, Unlocked;
    SpendableAgrees(s, e, sender, amount);
    SupplyCap(s);
    if 1 <= amount && Unlocked(e, sender, amount).Pass? && sender != recipient {
      SpendableIsHeld(s, e, sender, amount);
      var f := WithBalance(WithBalance(e, sender, -amount), recipient, amount);
      assert f.balance(sender) == e.balance(sender) - amount;
      if amount == e.balance(sender) {
        RecycleSucceedsExactly(s, e, f, sender);
      } else {
        PartialNeverRecycles(f, sender);
      }
    }
  }

  lemma PartialNeverRecycles(f: Eager, account: Account)
    requires f.balance(account) != 0
    ensures Recycle(f, account).Ok?
  {
  }

  lemma BurnVerdict(s: Ledger, e: Eager, account: Account, amount: int)
    requires Inv(s) && Refines(s, e)
    ensures BurnShares(e, account, amount).Ok? <==> BurnFits(s, account, amount)
  {
    hide Inv, Refines, Recycle, CarryFits, LockedOf, LockAmounts, Unlocked;
    SpendableAgrees(s, e, account, amount);
    SupplyCap(s);
    if 1 <= amount && Unlocked(e, account, amount).Pass? {
      SpendableIsHeld(s, e, account, amount);
      var f := WithBalance(e, account, -amount).(total := e.total - amount);
      if amount == e.balance(account) {
        RecycleSucceedsExactly(s, e, f, account);
      } else {
        PartialNeverRecycles(f, account);
      }
    }
  }

  /** A transfer succeeds exactly on spendable shares whose recycled carry, if the sender empties, still fits. */
  lemma TransferSucceedsExactly(pool: Account, ops: seq<Op>, sender: Account, recipient: Account, amount: int)
    ensures var s := Run(pool, ops).0;
      Step(pool, s, OpTransfer(sender, recipient, amount)).1.Done? <==> TransferFits(s, sender, recipient, amount)
  {
    hide Inv, Refines, MoveShares, Move, TransferFits;
    RunRefinesEager(pool, ops);
    AttemptAgrees(pool, Run(pool, ops).0, EagerRun(pool, ops).0, OpTransfer(sender, recipient, amount));
    MoveVerdict(Run(pool, ops).0, EagerRun(pool, ops).0, sender, recipient, amount);
  }

  /** A burn succeeds exactly on spendable shares; emptying a holder must fit unless it empties the pool. */
  lemma BurnSucceedsExactly(pool: Account, ops: seq<Op>, account: Account, amount: int)
    ensures var s := Run(pool, ops).0;
      Step(pool, s, OpBurn(pool, account, amount)).1.Done? <==> BurnFits(s, account, amount)
  {
    hide Inv, Refines, BurnShares, Burn, BurnFits;
    RunRefinesEager(pool, ops);
    AttemptAgrees(pool, Run(pool, ops).0, EagerRun(pool, ops).0, OpBurn(pool, account, amount));
    BurnVerdict(Run(pool, ops).0, EagerRun(pool, ops).0, account, amount);
  }

  lemma SpendableAgrees(s: Ledger, e: Eager, account: Account, amount: int)
    requires Refines(s, e)
    ensures Unlocked(e, account, amount).Pass? <==> amount <= BalanceOf(s, account) - LockedOf(s, account)
    ensures e.total == s.total && e.balance(account) == BalanceOf(s, account)
  {
    assert e.balance(account) == BalanceOf(s, account);
  }

  lemma SupplyCap(s: Ledger)
    requires Inv(s)
    ensures 0 <= s.total <= MAX_TOTAL_SHARES
  {
  }

  // ---- Locks ----

  /** A permanent lock is never changed by any operation. */
  lemma PermanentLockStays(pool: Account, s: Ledger, e: Eager, op: Op, id: LockId)
    requires Inv(s) && Refines(s, e) && id in s.locks && s.locks[id].permanent && s.locks[id].active
    ensures var t := Step(pool, s, op).0; id in t.locks && t.locks[id] == s.locks[id]
  {
    hide Inv, Refines, Attempt, Recycle, SpreadRemainder, AddSwapFees, LockedOf, LockAmounts, TwoToThe, ScaleBits;
    AttemptAgrees(pool, s, e, op);
    SameLocksRefined(s, e);
    SameLocksRefined(Step(pool, s, op).0, EagerStep(pool, e, op).0);
    match op
    case OpBurn(_, account, amount) =>
      RecycleKeepsLocks(WithBalance(e, account, -amount).(total := e.total - amount), account);
    case OpTransfer(sender, recipient, amount) =>
      RecycleKeepsLocks(WithBalance(WithBalance(e, sender, -amount), recipient, amount), sender);
    case OpTransferFrom(spender, owner, recipient, amount) =>
      var f := ApproveShares(e, owner, spender, Allowance(e.allowances, owner, spender) - amount);
      RecycleKeepsLocks(WithBalance(WithBalance(f, owner, -amount), recipient, amount), owner);
    case _ =>
  }

  lemma SameLocksRefined(s: Ledger, e: Eager)
    requires Refines(s, e)
    ensures e.locks == s.locks
  {
  }

  lemma RecycleKeepsLocks(e: Eager, account: Account)
    ensures Recycle(e, account).Ok? ==> Recycle(e, account).value.locks == e.locks
  {
    hide RecycleBook;
  }

  /** Every active lock is covered by shares: total supply is at least its amount. */
  lemma LockIsCovered(s: Ledger, id: LockId)
    requires Inv(s) && id in s.locks && s.locks[id].active
    ensures s.locks[id].amount <= BalanceOf(s, s.locks[id].owner) <= s.total
  {
    var owner := s.locks[id].owner;
    var m := LockAmounts(s.locks, owner);
    SumDominates(m);
    assert m[id] == s.locks[id].amount;
    assert LockedOf(s, owner) <= BalanceOf(s, owner);
    if owner in s.holders {
      HolderBounds(s, owner);
    }
  }

  /**
   * Once a permanent lock exists, the supply never drops below its amount again, however the run goes on: the pool
   * can never be emptied.
   */
  lemma {:induction false} PermanentLockPinsSupply(pool: Account, ops: seq<Op>, n: nat, id: LockId)
    requires n <= |ops|
    requires var s := Run(pool, ops[..n]).0; id in s.locks && s.locks[id].permanent && s.locks[id].active
    ensures var s, t := Run(pool, ops[..n]).0, Run(pool, ops).0;
      && id in t.locks && t.locks[id] == s.locks[id]
      && 0 < s.locks[id].amount <= t.total
    decreases |ops|
  {
    hide Inv, Refines, Step;
    RunRefinesEager(pool, ops);
    if n == |ops| {
      assert ops[..n] == ops;
    } else {
      var before := ops[..|ops| - 1];
      assert before[..n] == ops[..n];
      PermanentLockPinsSupply(pool, before, n, id);
      RunRefinesEager(pool, before);
      PermanentLockStays(pool, Run(pool, before).0, EagerRun(pool, before).0, ops[|ops| - 1], id);
    }
    LockIsCovered(Run(pool, ops).0, id);
    LockIsPositive(Run(pool, ops).0, id);
  }

  lemma LockIsPositive(s: Ledger, id: LockId)
    requires Inv(s) && id in s.locks
    ensures 0 < s.locks[id].amount
  {
  }
}
