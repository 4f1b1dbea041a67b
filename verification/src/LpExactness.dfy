/**
 * Who may call the operations of the fee ledger, and what locks hold back, in every reachable state and over whole
 * runs, by the requests and replies alone.
 */
module LpExactness {
  import opened Outcomes
  import opened Division
  import opened MapSums
  import opened FeeGrowth
  import opened LpLedger
  import opened LpInvariant
  import opened LpRecycling
  import opened LpEager
  import opened LpRefinement
  import opened LpOperations
  import opened LpGuarantees

  // ---- From the eager ledger to the lazy one ----

  /** A reachable ledger and the eager one it stands for, before and after one operation, with one reply. */
  ghost predicate Pair(pool: Account, s: Ledger, e: Eager, op: Op) {
    && Inv(s) && Refines(s, e)
    && var (t, f) := (Step(pool, s, op).0, EagerStep(pool, e, op).0);
       Inv(t) && Refines(t, f) && Step(pool, s, op).1 == EagerStep(pool, e, op).1
  }

  lemma ReachablePair(pool: Account, ops: seq<Op>, op: Op)
    ensures Pair(pool, Run(pool, ops).0, EagerRun(pool, ops).0, op)
  {
    hide Inv, Refines, Attempt, TryEager;
    RunRefinesEager(pool, ops);
    AttemptAgrees(pool, Run(pool, ops).0, EagerRun(pool, ops).0, op);
  }

  // ---- Who may call ----

  /** The operations of the pool itself. */
  predicate ByPoolOnly(op: Op) {
    match op
    case OpTransfer(_, _, _) => false
    case OpTransferFrom(_, _, _, _) => false
    case OpApprove(_, _, _) => false
    case OpClaimableOf(_, _) => false
    case OpCarryOf(_, _) => false
    case OpAudit(_) => false
    case _ => true
  }

  /** Anybody else is refused, and changes nothing; all other operations are open to everybody. */
  lemma PoolOnly(pool: Account, s: Ledger, op: Op)
    ensures ByPoolOnly(op) && op.caller != pool ==> Step(pool, s, op) == (s, Failed(PoolAuthorityRequired))
  {
  }

  lemma OpenToAll(pool: Account, ops: seq<Op>, op: Op)
    requires !ByPoolOnly(op)
    ensures Step(pool, Run(pool, ops).0, op).1 != Failed(PoolAuthorityRequired)
  {
    hide Run, EagerRun, Step, Inv, Refines;
    ReachablePair(pool, ops, op);
    EagerOpenToAll(pool, EagerRun(pool, ops).0, op);
  }

  lemma EagerOpenToAll(pool: Account, e: Eager, op: Op)
    requires !ByPoolOnly(op)
    ensures EagerStep(pool, e, op).1 != Failed(PoolAuthorityRequired)
  {
    hide LockAmounts, Sum, TwoToThe, ScaleBits;
  }

  // ---- What recycling leaves alone ----

  lemma RecycleLeaves(e: Eager, account: Account)
    ensures var r := Recycle(e, account); r.Ok? ==> r.value == e.(books := r.value.books)
  {
    hide RecycleBook;
  }

  // ---- Locks ----

  lemma NothingLockedAtFirst(account: Account)
    ensures LockedOf(EMPTY, account) == 0
  {
    assert LockAmounts(EMPTY.locks, account) == map[];
  }

  lemma EagerLock(e: Eager, id: LockId, lock: Lock)
    ensures var r := LockShares(e, id, lock);
      var free := e.balance(lock.owner) - Sum(LockAmounts(e.locks, lock.owner));
      && (r.Ok? <==> 1 <= lock.amount <= MAX_TOTAL_SHARES && 0 <= lock.unlockAt <= UINT64_MAX
                     && id !in e.locks && lock.amount <= free)
      && (r.Ok? ==> r.value == e.(locks := e.locks[id := lock]))
  {
    hide Sum, LockAmounts;
  }

  lemma EagerUnlock(e: Eager, id: LockId, now: int)
    ensures var r := UnlockShares(e, id, now);
      && (r.Ok? <==> 0 <= now <= UINT256_MAX && id in e.locks && e.locks[id].active
                     && !e.locks[id].permanent && e.locks[id].unlockAt <= now)
      && (r.Ok? ==> r.value == e.(locks := e.locks[id := e.locks[id].(active := false)]))
  {
  }

  /** An active lock more adds its amount to what its owner has locked, and to nobody else's. */
  lemma LockAdds(locks: map<LockId, Lock>, id: LockId, lock: Lock, account: Account)
    requires id !in locks && lock.active
    ensures Sum(LockAmounts(locks[id := lock], account))
         == Sum(LockAmounts(locks, account)) + if account == lock.owner then lock.amount else 0
  {
    hide Sum;
    var m := LockAmounts(locks, account);
    if account == lock.owner {
      assert LockAmounts(locks[id := lock], account) == m[id := lock.amount];
      SumUpdate(m, id, lock.amount);
    } else {
      assert LockAmounts(locks[id := lock], account) == m;
    }
  }

  /** Ending one takes exactly that amount off again. */
  lemma UnlockTakes(locks: map<LockId, Lock>, id: LockId, account: Account)
    requires id in locks && locks[id].active
    ensures Sum(LockAmounts(locks[id := locks[id].(active := false)], account))
         == Sum(LockAmounts(locks, account)) - if account == locks[id].owner then locks[id].amount else 0
  {
    hide Sum;
    var lock := locks[id];
    var m := LockAmounts(locks[id := lock.(active := false)], account);
    if account == lock.owner {
      assert LockAmounts(locks, account) == m[id := lock.amount];
      SumUpdate(m, id, lock.amount);
    } else {
      assert LockAmounts(locks, account) == m;
    }
  }

  /**
   * A lock is granted exactly to the pool, for a new id and unlocked shares; it is then on record as asked for, its
   * owner has that much more locked, and nobody else.
   */
  lemma LockExactly(
    pool: Account, ops: seq<Op>, caller: Account, id: LockId, owner: Account, amount: int, unlockAt: int,
    permanent: bool, account: Account)
    ensures var s := Run(pool, ops).0;
      var (t, reply) := Step(pool, s, OpLock(caller, id, owner, amount, unlockAt, permanent));
      && (reply.Done? <==> caller == pool && 1 <= amount <= BalanceOf(s, owner) - LockedOf(s, owner)
                           && 0 <= unlockAt <= 0xFFFF_FFFF_FFFF_FFFF && id !in s.locks)
      && (reply.Done? ==>
        && t.locks == s.locks[id := Lock(owner, amount, unlockAt, permanent, true)]
        && LockedOf(t, account) == LockedOf(s, account) + if account == owner then amount else 0)
  {
    hide Inv, Refines, Run, EagerRun, LockAmounts, Sum, Attempt;
    var op := OpLock(caller, id, owner, amount, unlockAt, permanent);
    var s, e := Run(pool, ops).0, EagerRun(pool, ops).0;
    ReachablePair(pool, ops, op);
    SameLocksRefined(s, e);
    SameLocksRefined(Step(pool, s, op).0, EagerStep(pool, e, op).0);
    SpendableAgrees(s, e, owner, amount);
    SupplyCap(s);
    BalanceWithinTotal(s, owner);
    LockedIsNonnegative(s, owner);
    EagerLock(e, id, Lock(owner, amount, unlockAt, permanent, true));
    if id !in s.locks {
      LockAdds(s.locks, id, Lock(owner, amount, unlockAt, permanent, true), account);
    }
  }

  lemma BalanceWithinTotal(s: Ledger, account: Account)
    requires Inv(s)
    ensures 0 <= BalanceOf(s, account) <= s.total
  {
    if account in s.holders {
      HolderBounds(s, account);
    }
  }

  lemma LockedIsNonnegative(s: Ledger, account: Account)
    requires Inv(s)
    ensures 0 <= LockedOf(s, account) <= BalanceOf(s, account)
  {
    LockedNonnegative(s, account);
  }

  /**
   * An unlock is granted exactly to the pool, for a known, temporary lock that is active and has matured; its shares
   * are then free again, to the last one, and nobody else's change.
   */
  lemma UnlockExactly(pool: Account, ops: seq<Op>, caller: Account, id: LockId, now: int, account: Account)
    ensures var s := Run(pool, ops).0; var (t, reply) := Step(pool, s, OpUnlock(caller, id, now));
      && (reply.Done? <==> caller == pool && 0 <= now <= UINT256_MAX && id in s.locks && s.locks[id].active
                           && !s.locks[id].permanent && s.locks[id].unlockAt <= now)
      && (reply.Done? ==>
        && t.locks == s.locks[id := s.locks[id].(active := false)]
        && LockedOf(t, account)
           == LockedOf(s, account) - if account == s.locks[id].owner then s.locks[id].amount else 0)
  {
    hide Inv, Refines, Run, EagerRun, LockAmounts, Sum, Attempt;
    var op := OpUnlock(caller, id, now);
    var s, e := Run(pool, ops).0, EagerRun(pool, ops).0;
    ReachablePair(pool, ops, op);
    SameLocksRefined(s, e);
    SameLocksRefined(Step(pool, s, op).0, EagerStep(pool, e, op).0);
    EagerUnlock(e, id, now);
    if id in s.locks && s.locks[id].active {
      UnlockTakes(s.locks, id, account);
    }
  }

  /** No other operation, and no failed one, touches a lock. */
  lemma OthersKeepLocks(pool: Account, ops: seq<Op>, op: Op, account: Account)
    ensures var s := Run(pool, ops).0; var (t, reply) := Step(pool, s, op);
      reply.Failed? || !(op.OpLock? || op.OpUnlock?) ==>
        t.locks == s.locks && LockedOf(t, account) == LockedOf(s, account)
  {
    hide Inv, Refines, Run, EagerRun, LockAmounts, Sum, Attempt;
    var s, e := Run(pool, ops).0, EagerRun(pool, ops).0;
    ReachablePair(pool, ops, op);
    SameLocksRefined(s, e);
    SameLocksRefined(Step(pool, s, op).0, EagerStep(pool, e, op).0);
    EagerKeepsLocks(pool, e, op);
  }

  lemma EagerKeepsLocks(pool: Account, e: Eager, op: Op)
    ensures EagerStep(pool, e, op).1.Failed? || !(op.OpLock? || op.OpUnlock?) ==>
      EagerStep(pool, e, op).0.locks == e.locks
  {
    hide LockAmounts, Sum, Recycle, SpreadRemainder, AddSwapFees, TwoToThe, ScaleBits;
    match op
    case OpBurn(_, account, amount) =>
      RecycleLeaves(WithBalance(e, account, -amount).(total := e.total - amount), account);
    case OpTransfer(sender, recipient, amount) =>
      RecycleLeaves(WithBalance(WithBalance(e, sender, -amount), recipient, amount), sender);
    case OpTransferFrom(spender, owner, recipient, amount) =>
      var f := ApproveShares(e, owner, spender, Allowance(e.allowances, owner, spender) - amount);
      RecycleLeaves(WithBalance(WithBalance(f, owner, -amount), recipient, amount), owner);
    case _ =>
  }

  // ---- Locks over a whole run ----

  /** Whether the last operation of the run was a lock that was granted. */
  predicate Granted(op: Op, reply: Reply) {
    op.OpLock? && reply.Done?
  }

  predicate Freed(op: Op, reply: Reply) {
    op.OpUnlock? && reply.Done?
  }

  /** The owner and the amount of the last lock granted under an id, if any. */
  function AskedFor(ops: seq<Op>, replies: seq<Reply>, id: LockId): Option<(Account, int)>
    requires |ops| == |replies|
  {
    if ops == [] then None
    else
      var n := |ops| - 1;
      if Granted(ops[n], replies[n]) && ops[n].id == id then Some((ops[n].owner, ops[n].amount))
      else AskedFor(ops[..n], replies[..n], id)
  }

  /** What an account has locked, by the requests and replies alone: granted locks less those freed again. */
  function HeldBack(ops: seq<Op>, replies: seq<Reply>, account: Account): int
    requires |ops| == |replies|
  {
    if ops == [] then 0
    else
      var n := |ops| - 1;
      var asked := if ops[n].OpUnlock? then AskedFor(ops[..n], replies[..n], ops[n].id) else None;
      HeldBack(ops[..n], replies[..n], account)
        + (if Granted(ops[n], replies[n]) && ops[n].owner == account then ops[n].amount else 0)
        - (if Freed(ops[n], replies[n]) && asked.Some? && asked.value.0 == account then asked.value.1 else 0)
  }

  lemma {:induction false} RunReplies(pool: Account, ops: seq<Op>)
    ensures |Run(pool, ops).1| == |ops|
  {
    if ops != [] {
      RunReplies(pool, ops[..|ops| - 1]);
    }
  }

  /** The record of a lock is what was asked for, whether it is still active or not. */
  lemma {:induction false} RecordIsAsked(pool: Account, ops: seq<Op>, id: LockId)
    ensures |Run(pool, ops).1| == |ops|
    ensures var (s, replies) := Run(pool, ops);
      AskedFor(ops, replies, id) == if id in s.locks then Some((s.locks[id].owner, s.locks[id].amount)) else None
  {
    hide Step;
    RunReplies(pool, ops);
    if ops != [] {
      var n := |ops| - 1;
      var op := ops[n];
      RecordIsAsked(pool, ops[..n], id);
      assert Run(pool, ops).1[..n] == Run(pool, ops[..n]).1;
      OthersKeepLocks(pool, ops[..n], op, "");
      match op
      case OpLock(caller, x, owner, amount, unlockAt, permanent) =>
        LockExactly(pool, ops[..n], caller, x, owner, amount, unlockAt, permanent, "");
      case OpUnlock(caller, x, now) => UnlockExactly(pool, ops[..n], caller, x, now, "");
      case _ =>
    }
  }

  /** In every run the locked shares of an account are those the requests and replies leave held back. */
  lemma {:induction false} LockedIsHeldBack(pool: Account, ops: seq<Op>, account: Account)
    ensures |Run(pool, ops).1| == |ops|
    ensures LockedOf(Run(pool, ops).0, account) == HeldBack(ops, Run(pool, ops).1, account)
  {
    hide Step, LockedOf;
    RunReplies(pool, ops);
    if ops == [] {
      NothingLockedAtFirst(account);
    } else {
      var n := |ops| - 1;
      LockedIsHeldBack(pool, ops[..n], account);
      assert Run(pool, ops).1[..n] == Run(pool, ops[..n]).1;
      OneMoreHeldBack(pool, ops[..n], ops[n], account);
    }
  }

  lemma OneMoreHeldBack(pool: Account, ops: seq<Op>, op: Op, account: Account)
    requires |Run(pool, ops).1| == |ops|
    ensures var (s, replies) := Run(pool, ops); var (t, reply) := Step(pool, s, op);
      var asked := if op.OpUnlock? then AskedFor(ops, replies, op.id) else None;
      LockedOf(t, account) == LockedOf(s, account)
        + (if Granted(op, reply) && op.owner == account then op.amount else 0)
        - (if Freed(op, reply) && asked.Some? && asked.value.0 == account then asked.value.1 else 0)
  {
    hide Step, LockedOf, Run, AskedFor;
    var (s, replies) := Run(pool, ops);
    var (t, reply) := Step(pool, s, op);
    OthersKeepLocks(pool, ops, op, account);
    assert reply.Done? || reply.Failed?;
    if op.OpLock? {
      var OpLock(caller, id, owner, amount, unlockAt, permanent) := op;
      LockExactly(pool, ops, caller, id, owner, amount, unlockAt, permanent, account);
      assert reply.Done? ==> LockedOf(t, account) == LockedOf(s, account) + if account == owner then amount else 0;
    } else if op.OpUnlock? {
      var OpUnlock(caller, id, now) := op;
      UnlockExactly(pool, ops, caller, id, now, account);
      RecordIsAsked(pool, ops, id);
      assert reply.Done? ==> AskedFor(ops, replies, id) == Some((s.locks[id].owner, s.locks[id].amount));
    }
  }

  // ---- A lock and its unlock ----

  /** Ledgers that stand for eager ledgers with the same shares and books let the same be transferred and burnt. */
  lemma SameBooksSameCarry(s: Ledger, t: Ledger, e: Eager, f: Eager, account: Account, total: int)
    requires Inv(s) && Inv(t) && Refines(s, e) && Refines(t, f) && f.books == e.books && total != 0
    ensures CarryFits(s, account, total) <==> CarryFits(t, account, total)
  {
    hide Inv, Refines;
    forall i: FeeSide
      ensures s.sides.At(i).growth.Scaled() == t.sides.At(i).growth.Scaled()
      ensures s.sides.At(i).remainder == t.sides.At(i).remainder && s.sides.At(i).lifetime == t.sides.At(i).lifetime
      ensures Credit(s, account, i) == Credit(t, account, i)
    {
      BooksOf(s, e, i);
      BooksOf(t, f, i);
      CreditOf(s, e, account, i);
      CreditOf(t, f, account, i);
    }
  }

  lemma SameFreedom(s: Ledger, t: Ledger, e: Eager, f: Eager, sender: Account, recipient: Account, amount: int)
    requires Inv(s) && Inv(t) && Refines(s, e) && Refines(t, f) && LockedOf(s, sender) == LockedOf(t, sender)
    requires f.books == e.books && f.balance == e.balance && f.total == e.total
    ensures TransferFits(s, sender, recipient, amount) <==> TransferFits(t, sender, recipient, amount)
    ensures BurnFits(s, sender, amount) <==> BurnFits(t, sender, amount)
  {
    hide Inv, Refines, CarryFits, LockedOf;
    SpendableAgrees(s, e, sender, amount);
    SpendableAgrees(t, f, sender, amount);
    if s.total != 0 {
      SameBooksSameCarry(s, t, e, f, sender, s.total);
    }
    if s.total - amount != 0 {
      SameBooksSameCarry(s, t, e, f, sender, s.total - amount);
    }
  }

  /**
   * After a lock and its matured unlock, the same transfers and burns succeed as before the lock, by anybody and of any
   * amount; and while it lasts its owner has exactly that much more locked.
   */
  lemma LockThenUnlock(
    pool: Account, ops: seq<Op>, id: LockId, owner: Account, amount: int, unlockAt: int, now: int,
    sender: Account, recipient: Account, x: int)
    requires var s := Run(pool, ops).0; Step(pool, s, OpLock(pool, id, owner, amount, unlockAt, false)).1.Done?
    requires unlockAt <= now <= UINT256_MAX
    ensures var s := Run(pool, ops).0;
      var t := Step(pool, s, OpLock(pool, id, owner, amount, unlockAt, false)).0;
      var (u, reply) := Step(pool, t, OpUnlock(pool, id, now));
      && reply.Done? && LockedOf(u, sender) == LockedOf(s, sender)
      && LockedOf(t, sender) == LockedOf(s, sender) + (if sender == owner then amount else 0)
      && (Step(pool, u, OpTransfer(sender, recipient, x)).1.Done?
          <==> Step(pool, s, OpTransfer(sender, recipient, x)).1.Done?)
      && (Step(pool, u, OpBurn(pool, sender, x)).1.Done? <==> Step(pool, s, OpBurn(pool, sender, x)).1.Done?)
  {
    hide Step, Inv, Refines, LockedOf, TransferFits, BurnFits;
    var lock, unlock := OpLock(pool, id, owner, amount, unlockAt, false), OpUnlock(pool, id, now);
    var more := ops + [lock];
    var last := more + [unlock];
    assert more[..|ops|] == ops && last[..|more|] == more;
    LockExactly(pool, ops, pool, id, owner, amount, unlockAt, false, sender);
    UnlockExactly(pool, more, pool, id, now, sender);
    TransferSucceedsExactly(pool, ops, sender, recipient, x);
    TransferSucceedsExactly(pool, last, sender, recipient, x);
    BurnSucceedsExactly(pool, ops, sender, x);
    BurnSucceedsExactly(pool, last, sender, x);
    var e, g := EagerRun(pool, ops).0, EagerRun(pool, last).0;
    RunRefinesEager(pool, ops);
    RunRefinesEager(pool, last);
    EagerLocksOnly(pool, ops, lock, unlock);
    SameFreedom(Run(pool, ops).0, Run(pool, last).0, e, g, sender, recipient, x);
  }

  lemma EagerLocksOnly(pool: Account, ops: seq<Op>, lock: Op, unlock: Op)
    requires lock.OpLock? && unlock.OpUnlock?
    ensures var e, g := EagerRun(pool, ops).0, EagerRun(pool, ops + [lock] + [unlock]).0;
      g.books == e.books && g.balance == e.balance && g.total == e.total
  {
    hide Sum, LockAmounts;
    EagerRunStep(pool, ops, lock);
    EagerRunStep(pool, ops + [lock], unlock);
  }
}
