/**
 * What a transaction, an allowance obligation and a resource go through in the journal, across its transitions: which
 * entry each transition is about, what it leaves alone, and what it refuses from then on.
 */
module JournalLives {
  import opened Outcomes
  import opened RecoveryJournal

  lemma {:induction false} FirstAtEnd<T(!new)>(s: seq<T>, t: T, p: T -> bool)
    requires FindIndex(s, p).None? && p(t)
    ensures FindIndex(s + [t], p) == Some(|s|)
  {
    if s != [] {
      assert (s + [t])[1..] == s[1..] + [t];
      FirstAtEnd(s[1..], t, p);
    }
  }

  /** Only the entry at `n` is new or changed. */
  predicate OnlyEntry<T(==)>(s: seq<T>, u: seq<T>, n: nat) {
    && n < |u| && |s| <= |u| <= |s| + 1 && (|u| == |s| + 1 ==> n == |s|)
    && forall i :: 0 <= i < |s| && i != n ==> u[i] == s[i]
  }

  // ---- Transactions ----

  /** Whether a signed payload may be recorded: it is the same open submission again, or label and payload are new. */
  predicate MayPrepare(j: Journal, name: Label, signed: Payload) {
    && name != "" && !(j.runStatus in {Passed, Failed, RecoveryFailed} && NothingActive(j))
    && match FindHash(j, Keccak(signed))
       case Some(i) => j.transactions[i].name == name && j.transactions[i].signed == Some(signed)
       case None => !LabelTaken(j, name)
  }

  /**
   * Recording a payload succeeds exactly there, and then the journal has it under its label and is as before elsewhere.
   */
  lemma PreparedExactly(j: Journal, name: Label, signed: Payload)
    ensures var r := RecordPrepared(j, name, Keccak(signed), signed);
      && (r.Ok? <==> MayPrepare(j, name, signed))
      && (r.Ok? ==>
        var k := r.value;
        && k == j.(transactions := k.transactions) && FindHash(k, Keccak(signed)).Some?
        && var n := FindHash(k, Keccak(signed)).value;
        && OnlyEntry(j.transactions, k.transactions, n)
        && k.transactions[n].name == name && k.transactions[n].signed == Some(signed)
        && (FindHash(j, Keccak(signed)).Some? ==> k == j)
        && (FindHash(j, Keccak(signed)).None? ==> k.transactions[n].status == Prepared)
        && (FindHash(j, Keccak(signed)).None? ==> k.transactions[n].block.None?))
  {
    if FindHash(j, Keccak(signed)).None? {
      FirstAtEnd(j.transactions, Transaction(name, Keccak(signed), Prepared, Some(signed), None),
                 (t: Transaction) => t.hash == Keccak(signed));
    }
  }

  /** A label that is journaled belongs to its one payload for good: no other payload is ever prepared under it. */
  lemma LabelIsSpent(j: Journal, i: nat, other: Payload)
    requires i < |j.transactions| && j.transactions[i].hash != Keccak(other)
    ensures Unique(j) ==> RecordPrepared(j, j.transactions[i].name, Keccak(other), other).Err?
  {
    assert LabelTaken(j, j.transactions[i].name);
  }

  /** And a payload belongs to its one label: under any other it is refused. */
  lemma PayloadIsBound(j: Journal, signed: Payload, name: Label)
    requires FindHash(j, Keccak(signed)).Some? && j.transactions[FindHash(j, Keccak(signed)).value].name != name
    ensures RecordPrepared(j, name, Keccak(signed), signed).Err?
  {
  }

  /**
   * A prepared submission, whatever journal it is in, is broadcast once and then mined once: each transition changes
   * its own entry only, and the mined payload is never accepted again under any label.
   */
  lemma LifeOfATransaction(j: Journal, i: nat, success: bool, block: int, other: Label)
    requires Unique(j) && i < |j.transactions| && j.transactions[i].status == Prepared && j.transactions[i].name != ""
    ensures var t := j.transactions[i]; var status := if success then MinedSuccess else MinedFailure;
      var sent := RecordBroadcast(j, t.name, t.hash);
      && sent == Ok(SetTransaction(j, i, t.(status := Broadcast)))
      && RecordBroadcast(sent.value, t.name, t.hash) == Err(BadTransition)
      && (other != t.name && other != "" ==> RecordBroadcast(j, other, t.hash) == Err(NotJournaled))
      && var mined := RecordTransaction(sent.value, t.hash, status, Some(block));
      && mined == Ok(SetTransaction(j, i, t.(status := status, signed := None, block := Some(block))))
      && MinedSuccessfully(mined.value, t.hash) == success
      && RecordPrepared(mined.value, other, t.hash, t.hash.payload).Err?
  {
    var t := j.transactions[i];
    FoundAt(j, i);
    var sent := SetTransaction(j, i, t.(status := Broadcast));
    FoundAt(sent, i);
    var status := if success then MinedSuccess else MinedFailure;
    var mined := SetTransaction(sent, i, WithOutcome(sent.transactions[i], status, Some(block)));
    FoundAt(mined, i);
    assert mined.transactions == j.transactions[i := mined.transactions[i]];
  }

  /** A broadcast is recorded exactly for a prepared entry of that label and hash; only its status changes. */
  lemma BroadcastExactly(j: Journal, name: Label, hash: Hash)
    ensures var r := RecordBroadcast(j, name, hash); var found := FindHash(j, hash);
      && (r.Ok? <==> name != "" && found.Some? && j.transactions[found.value].name == name
                     && j.transactions[found.value].status == Prepared)
      && (r.Ok? ==> r.value == j.(transactions :=
            j.transactions[found.value := j.transactions[found.value].(status := Broadcast)]))
  {
  }

  /** Any outcome is recorded for any journaled hash: status, block if given, and the payload dropped once mined. */
  lemma OutcomeExactly(j: Journal, hash: Hash, status: Status, block: Option<int>)
    ensures var r := RecordTransaction(j, hash, status, block); var found := FindHash(j, hash);
      && (r.Ok? <==> found.Some?)
      && (r.Ok? ==>
        var t, u := j.transactions[found.value], r.value.transactions[found.value];
        && r.value == j.(transactions := j.transactions[found.value := u])
        && u.status == status && u.name == t.name && u.hash == t.hash
        && (block.Some? ==> u.block == block) && (block.None? ==> u.block == t.block)
        && (status in {MinedSuccess, MinedFailure} ==> u.signed == None)
        && (status !in {MinedSuccess, MinedFailure} ==> u.signed == t.signed))
  {
  }

  /** A mined transaction is recorded as observed exactly when hash and label are new, or it is recorded so already. */
  lemma ObservedExactly(j: Journal, name: Label, hash: Hash, block: int)
    ensures var r := RecordObserved(j, name, hash, block); var found := FindHash(j, hash);
      var known := found.Some? && j.transactions[found.value].name == name
        && j.transactions[found.value].status == MinedSuccess && j.transactions[found.value].block == Some(block);
      && (r.Ok? <==> name != "" && 0 <= block && (known || (found.None? && !LabelTaken(j, name))))
      && (r.Ok? && known ==> r.value == j)
      && var mined := Transaction(name, hash, MinedSuccess, None, Some(block));
         (r.Ok? && !known ==> r.value == j.(transactions := j.transactions + [mined]))
  {
  }

  /**
   * In every journal: a rebroadcast is for an entry that is prepared or unknown, with its payload and of the journal's
   * own signer. It sends the recorded bytes exactly when the chain does not know them; then the matching response makes
   * the entry broadcast. A confirmed one gets its outcome and block; one that is under way is left alone.
   */
  lemma RebroadcastExactly(j: Journal, hash: Hash, answer: Inspection, response: Option<Hash>)
    ensures var r := Rebroadcast(j, hash, answer, response); var found := FindHash(j, hash);
      if !(found.Some? && j.transactions[found.value].status in {Prepared, OutcomeUnknown}
           && Identified(j, j.transactions[found.value])) then r.recorded.Err? && r.sent == None
      else
        var t := j.transactions[found.value];
        match answer
        case Absent =>
          && r.sent == t.signed
          && (response == Some(hash) ==> r.recorded == Ok(SetTransaction(j, found.value, t.(status := Broadcast))))
          && (response != Some(hash) ==> r.recorded == Err(WrongHash))
        case Pending => r == Resent(Ok(j), None)
        case MinedUnconfirmed => r == Resent(Ok(j), None)
        case Confirmed(success, block) =>
          var status := if success then MinedSuccess else MinedFailure;
          && r.sent == None
          && r.recorded ==
               Ok(SetTransaction(j, found.value, t.(status := status, block := Some(block), signed := None)))
  {
  }

  // ---- Evidence ----

  /**
   * Evidence is prepared exactly when every resource is recovered, no obligation is active, every transaction is mined,
   * the plan is complete and no other plan was prepared; the plan is then on record and its status pending.
   */
  lemma EvidenceExactly(j: Journal, plan: Plan)
    ensures var r := PrepareEvidence(j, plan);
      && (r.Ok? <==>
        && (forall x :: x in j.resources ==> x.recovered) && (forall o :: o in j.obligations ==> !o.active)
        && (forall t :: t in j.transactions ==> t.status in {MinedSuccess, MinedFailure})
        && ValidPlan(plan) && (j.plan.None? || j.plan == Some(plan)))
      && (r.Ok? ==> r.value == j.(plan := Some(plan), runStatus := EvidencePending))
  {
  }

  // ---- Reloading ----

  /** What is wrong with an entry of a stored journal, if anything. */
  predicate Broken(t: Transaction) {
    || t.name == "" || (t.block.Some? && t.block.value < 0)
    || (t.signed.Some? && Keccak(t.signed.value) != t.hash)
    || (t.status in {Prepared, OutcomeUnknown} && t.signed.None?)
  }

  predicate Unsupported(j: Journal, r: Resource) {
    r.id == "" || r.kind == "" || (r.recovered && r.evidence == []) || !MinedSuccessfully(j, r.creation)
  }

  /** One broken entry, or a run status without its plan, is enough for a stored journal to be refused. */
  lemma BrokenIsRefused(j: Journal)
    ensures (exists t :: t in j.transactions && Broken(t)) ==> Reload(j) == Err(Unreadable)
    ensures (exists r :: r in j.resources && Unsupported(j, r)) ==> Reload(j) == Err(Unreadable)
    ensures (exists o :: o in j.obligations && o.id == "") ==> Reload(j) == Err(Unreadable)
    ensures j.chainId <= 0 || (j.runStatus in {EvidencePending, EvidenceFailed} && j.plan == None) ==>
      Reload(j) == Err(Unreadable)
  {
    forall t | t in j.transactions && Broken(t)
      ensures Reload(j) == Err(Unreadable)
    {
      assert !TransactionOk(t);
    }
    forall r | r in j.resources && Unsupported(j, r)
      ensures Reload(j) == Err(Unreadable)
    {
      assert !ResourceOk(j, r);
    }
    forall o | o in j.obligations && o.id == ""
      ensures Reload(j) == Err(Unreadable)
    {
      assert !ObligationOk(o);
    }
  }

  // ---- Obligations ----

  predicate GoodObligation(id: string, owner: Address, token: Address, spender: Address) {
    id != "" && IsAddress(owner) && IsAddress(token) && IsAddress(spender)
  }

  predicate SameObligation(o: Obligation, owner: Address, token: Address, spender: Address) {
    o.owner == owner && o.token == token && o.spender == spender
  }

  /**
   * In every journal: an obligation is opened exactly when it is well formed and its id is new or names the same
   * allowance; afterwards it is active, with no evidence unless it was active before, and nothing else has changed.
   */
  lemma OpenedExactly(j: Journal, id: string, owner: Address, token: Address, spender: Address)
    ensures var r := RecordObligation(j, id, owner, token, spender); var found := FindObligation(j, id);
      && (r.Ok? <==> GoodObligation(id, owner, token, spender)
                     && (found.Some? ==> SameObligation(j.obligations[found.value], owner, token, spender)))
      && (r.Ok? ==>
        var k := r.value;
        && k == j.(obligations := k.obligations) && FindObligation(k, id).Some?
        && var n := FindObligation(k, id).value;
        && OnlyEntry(j.obligations, k.obligations, n) && (found.Some? ==> n == found.value)
        && SameObligation(k.obligations[n], owner, token, spender) && k.obligations[n].active
        && (found.Some? && j.obligations[n].active ==> k == j)
        && (found.None? || !j.obligations[n].active ==> k.obligations[n].cleanup == []))
  {
    var r := RecordObligation(j, id, owner, token, spender);
    var found := FindObligation(j, id);
    if r.Ok? {
      if found.None? {
        FirstAtEnd(j.obligations, Obligation(id, owner, token, spender, true, []), (o: Obligation) => o.id == id);
      } else {
        StillFirst(j.obligations, found.value, r.value.obligations[found.value], id);
      }
    }
  }

  /** Changing an obligation under its id leaves it the first of that id. */
  lemma {:induction false} StillFirst(s: seq<Obligation>, n: nat, o: Obligation, id: string)
    requires FindIndex(s, (x: Obligation) => x.id == id) == Some(n) && o.id == id
    ensures FindIndex(s[n := o], (x: Obligation) => x.id == id) == Some(n)
  {
    assert s[n := o][n].id == id;
    assert forall m :: 0 <= m < n ==> s[n := o][m] == s[m];
  }

  /**
   * Once open, in every journal: any other identity is refused, the same one changes nothing; clearing needs mined
   * evidence and keeps it without repetitions; and reopening takes that evidence away again.
   */
  lemma LifeOfAnObligation(
    j: Journal, id: string, owner: Address, token: Address, spender: Address, cleanup: seq<Hash>,
    owner2: Address, token2: Address, spender2: Address)
    requires RecordObligation(j, id, owner, token, spender).Ok? && GoodObligation(id, owner2, token2, spender2)
    ensures FindObligation(RecordObligation(j, id, owner, token, spender).value, id).Some?
    ensures var k := RecordObligation(j, id, owner, token, spender).value; var n := FindObligation(k, id).value;
      var again := RecordObligation(k, id, owner2, token2, spender2);
      && !NothingActive(k)
      && again == (if owner2 == owner && token2 == token && spender2 == spender then Ok(k) else Err(ObligationChanged))
      && var cleared := MarkCleared(k, id, cleanup);
      && (cleared.Ok? <==> forall h :: h in cleanup ==> MinedSuccessfully(j, h))
      && (cleared.Ok? ==>
        && cleared.value == k.(obligations :=
             k.obligations[n := k.obligations[n].(active := false, cleanup := Distinct(cleanup))])
        && RecordObligation(cleared.value, id, owner, token, spender)
          == Ok(k.(obligations := k.obligations[n := k.obligations[n].(cleanup := [])])))
  {
    OpenedExactly(j, id, owner, token, spender);
    var k := RecordObligation(j, id, owner, token, spender).value;
    var n := FindObligation(k, id).value;
    assert k.obligations[n] in k.obligations;
    forall h
      ensures MinedSuccessfully(k, h) == MinedSuccessfully(j, h)
    {
      assert FindHash(k, h) == FindHash(j, h);
    }
    var cleared := k.obligations[n].(active := false, cleanup := Distinct(cleanup));
    StillFirst(k.obligations, n, cleared, id);
    assert k.obligations[n := cleared][n := cleared.(active := true, cleanup := [])]
        == k.obligations[n := k.obligations[n].(cleanup := [])];
  }

  /** In every journal a known obligation is cleared exactly on mined evidence, kept once each. */
  lemma ClearedExactly(j: Journal, id: string, cleanup: seq<Hash>)
    ensures var r := MarkCleared(j, id, cleanup); var found := FindObligation(j, id);
      && (r.Ok? <==> found.Some? && forall h :: h in cleanup ==> MinedSuccessfully(j, h))
      && (r.Ok? ==>
        var o := j.obligations[found.value];
        r.value == j.(obligations := j.obligations[found.value := o.(active := false, cleanup := Distinct(cleanup))]))
  {
  }

  // ---- Resources ----

  function FindResource(j: Journal, id: string): Option<nat> {
    FindIndex(j.resources, (r: Resource) => r.id == id)
  }

  predicate GoodResource(id: string, kind: string, address: Address, metadata: map<string, string>) {
    id != "" && kind != "" && IsAddress(address) && ValidMetadata(metadata)
  }

  predicate SameResource(r: Resource, kind: string, address: Address, creation: Hash) {
    r.kind == kind && r.address == address && r.creation == creation
  }

  /**
   * In every journal: a resource is recorded exactly when it is well formed, its creation is mined, and its id is new
   * or names the same resource; a known one is left as it is, a new one appended unrecovered.
   */
  lemma ResourceExactly(
    j: Journal, id: string, kind: string, address: Address, creation: Hash, metadata: map<string, string>)
    ensures var r := RecordResource(j, id, kind, address, creation, metadata); var found := FindResource(j, id);
      && (r.Ok? <==> GoodResource(id, kind, address, metadata) && MinedSuccessfully(j, creation)
                     && (found.Some? ==> SameResource(j.resources[found.value], kind, address, creation)))
      && (r.Ok? && found.Some? ==> r.value == j)
      && (r.Ok? && found.None? ==>
        && r.value == j.(resources := j.resources + [Resource(id, kind, address, creation, false, [], metadata)])
        && FindResource(r.value, id) == Some(|j.resources|))
  {
    if FindResource(j, id).None? {
      FirstAtEnd(j.resources, Resource(id, kind, address, creation, false, [], metadata), (r: Resource) => r.id == id);
    }
  }

  /**
   * A resource that a journal has is the only one under its id for good: any other kind, address or creation is
   * refused; it is recovered exactly on evidence that is not empty and mined; metadata are merged.
   */
  lemma LifeOfAResource(
    j: Journal, id: string, kind: string, address: Address, creation: Hash, metadata: map<string, string>,
    evidence: seq<Hash>)
    requires FindResource(j, id).Some? && GoodResource(id, kind, address, metadata)
    ensures var n := FindResource(j, id).value; var x := j.resources[n];
      && (!SameResource(x, kind, address, creation) ==> RecordResource(j, id, kind, address, creation, metadata).Err?)
      && UpdateMetadata(j, id, metadata) == Ok(j.(resources := j.resources[n := x.(metadata := x.metadata + metadata)]))
      && var r := MarkRecovered(j, id, evidence);
      && (r.Ok? <==> evidence != [] && forall h :: h in evidence ==> MinedSuccessfully(j, h))
      && (r.Ok? ==> r.value == j.(resources := j.resources[n := x.(recovered := true, evidence := Distinct(evidence))]))
  {
  }
}
