/**
 * The mutable journal: its methods change the state in memory and then write the whole state durably. Each is proved
 * to be the transition of `RecoveryJournal`, and what is durable is always what is in memory.
 */
module JournalModel {
  import opened Outcomes
  import opened RecoveryJournal

  type Answer = Result<(), JournalFailure>

  predicate Acceptable(stored: Journal, owner: Address, chainId: int) {
    Parses(stored) && stored.owner == owner && stored.chainId == chainId
  }

  /** An open transaction of the journal's own signer that the chain does not know. */
  predicate IsAbsent(j: Journal, t: Transaction, answer: Inspection) {
    !t.Terminal() && Identified(j, t) && answer.Absent?
  }

  lemma AnsweredAbsent(j: Journal, k: Journal, i: nat, answer: Inspection, response: Option<Hash>)
    requires Inv(j) && Inv(k) && k == j.(transactions := k.transactions) && i < |j.transactions| == |k.transactions|
    requires !j.transactions[i].Terminal() && Identified(j, j.transactions[i]) && answer.Absent?
    requires ReconciledAsAnswered(j, j.transactions[i], k.transactions[i], answer)
    ensures Rebroadcast(k, j.transactions[i].hash, Absent, response).sent == j.transactions[i].signed
  {
    AbsentIsResent(j, k, i, response);
  }

  class FundedRecoveryJournal {
    const owner: Address
    const chainId: int
    var runStatus: RunStatus
    var transactions: seq<Transaction>
    var resources: seq<Resource>
    var obligations: seq<Obligation>
    var plan: Option<Plan>
    var durable: Journal

    function State(): Journal
      reads this
    {
      Journal(owner, chainId, runStatus, transactions, resources, obligations, plan)
    }

    ghost predicate Valid()
      reads this
    {
      Inv(State()) && durable == State()
    }

    /** The stored journal in memory. */
    constructor Holding(stored: Journal)
      ensures durable == State() == stored
    {
      owner, chainId := stored.owner, stored.chainId;
      runStatus, transactions, resources := stored.runStatus, stored.transactions, stored.resources;
      obligations, plan := stored.obligations, stored.plan;
      durable := stored;
    }

    constructor Create(owner: Address, chainId: int)
      requires IsAddress(owner) && 0 < chainId
      ensures Valid() && State() == Journal(owner, chainId, Active, [], [], [], None)
    {
      this.owner, this.chainId := owner, chainId;
      runStatus, transactions, resources, obligations, plan := Active, [], [], [], None;
      durable := Journal(owner, chainId, Active, [], [], [], None);
    }

    /**
     * Opens the stored journal if there is one, accepting exactly a readable one of the same identity; else a new one.
     * A journal that this class wrote under its callers' discipline is valid again.
     */
    static method Open(stored: Option<Journal>, owner: Address, chainId: int)
      returns (r: Result<FundedRecoveryJournal, JournalFailure>)
      ensures r.Ok? <==> 0 < chainId && IsAddress(owner) && (stored.Some? ==> Acceptable(stored.value, owner, chainId))
      ensures r.Ok? ==> fresh(r.value) && r.value.durable == r.value.State()
      ensures r.Ok? && stored.Some? ==> r.value.State() == stored.value
      ensures r.Ok? && stored.None? ==> r.value.State() == Journal(owner, chainId, Active, [], [], [], None)
      ensures r.Ok? ==> (r.value.Valid() <==> stored.Some? ==> Inv(stored.value))
    {
      if chainId <= 0 || !IsAddress(owner) {
        return Err(BadIdentity);
      }
      if stored.None? {
        var created := new FundedRecoveryJournal.Create(owner, chainId);
        return Ok(created);
      }
      if !Parses(stored.value) {
        return Err(Unreadable);
      }
      if stored.value.owner != owner || stored.value.chainId != chainId {
        return Err(BadIdentity);
      }
      var reopened := new FundedRecoveryJournal.Holding(stored.value);
      return Ok(reopened);
    }

    method Persist()
      modifies this`durable
      ensures durable == State()
    {
      durable := State();
    }

    /** A call either performs the transition durably, or fails and changes nothing. */
    twostate predicate Performs(new r: Answer, new next: Recorded)
      reads this
    {
      && durable == State()
      && match next
         case Ok(k) => r.Ok? && State() == k
         case Err(error) => r == Err(error) && State() == old(State())
    }

    method PrepareEvidence(evidence: Plan) returns (r: Answer)
      requires Valid()
      modifies this
      ensures Valid() && Performs(r, RecoveryJournal.PrepareEvidence(old(State()), evidence))
    {
      EvidenceKeepsInv(State(), evidence);
      if !NothingActive(State()) || !AllTerminal(State()) {
        return Err(NotTerminal);
      }
      if !ValidPlan(evidence) {
        return Err(InvalidPlan);
      }
      if plan.Some? && plan.value != evidence {
        return Err(PlanChanged);
      }
      plan := Some(evidence);
      runStatus := EvidencePending;
      Persist();
      return Ok(());
    }

    method RecordPreparedTransaction(name: Label, hash: Hash, signed: Payload) returns (r: Answer)
      requires Valid()
      modifies this
      ensures Valid() && Performs(r, RecordPrepared(old(State()), name, hash, signed))
    {
      PreparedKeepsInv(State(), name, hash, signed);
      if RunOver(runStatus) && NothingActive(State()) {
        return Err(RunIsTerminal);
      }
      if name == "" || Keccak(signed) != hash {
        return Err(InvalidEvidence);
      }
      var existing := FindHash(State(), hash);
      if existing.Some? {
        if transactions[existing.value].name != name {
          return Err(DifferentOperation);
        }
        if transactions[existing.value].signed != Some(signed) {
          return Err(PayloadChanged);
        }
        return Ok(());
      }
      if LabelTaken(State(), name) {
        return Err(LabelUsed);
      }
      transactions := transactions + [Transaction(name, hash, Prepared, Some(signed), None)];
      Persist();
      return Ok(());
    }

    method RecordBroadcastTransaction(name: Label, hash: Hash) returns (r: Answer)
      requires Valid()
      modifies this
      ensures Valid() && Performs(r, RecordBroadcast(old(State()), name, hash))
    {
      BroadcastKeepsInv(State(), name, hash);
      if name == "" {
        return Err(InvalidEvidence);
      }
      var index := FindHash(State(), hash);
      if index.None? || transactions[index.value].name != name {
        return Err(NotJournaled);
      }
      if transactions[index.value].status != Prepared {
        return Err(BadTransition);
      }
      transactions := transactions[index.value := transactions[index.value].(status := Broadcast)];
      Persist();
      return Ok(());
    }

    method RecordObservedMinedTransaction(name: Label, hash: Hash, block: int) returns (r: Answer)
      requires Valid()
      modifies this
      ensures Valid() && Performs(r, RecordObserved(old(State()), name, hash, block))
    {
      ObservedKeepsInv(State(), name, hash, block);
      if name == "" || block < 0 {
        return Err(InvalidEvidence);
      }
      var existing := FindHash(State(), hash);
      if existing.Some? {
        var t := transactions[existing.value];
        var conflict := t.name != name || t.status != MinedSuccess || t.block != Some(block);
        return if conflict then Err(ObservedConflict) else Ok(());
      }
      if LabelTaken(State(), name) {
        return Err(LabelUsed);
      }
      transactions := transactions + [Transaction(name, hash, MinedSuccess, None, Some(block))];
      Persist();
      return Ok(());
    }

    /** It checks no transition; what it durably leaves is valid exactly when the outcome fits. */
    method RecordOutcome(hash: Hash, status: Status, block: Option<int>) returns (r: Answer)
      requires Valid() && status != Broadcast
      modifies this
      ensures Performs(r, RecordTransaction(old(State()), hash, status, block))
      ensures Valid() <==>
        (FindHash(old(State()), hash).Some? ==> OutcomeFits(old(State()), hash, status, block))
    {
      var index := FindHash(State(), hash);
      if index.None? {
        return Err(NotJournaled);
      }
      OutcomeReadableExactly(State(), hash, status, block);
      var t := transactions[index.value];
      var dropped := if status == MinedSuccess || status == MinedFailure then None else t.signed;
      transactions := transactions[index.value :=
        t.(status := status, block := if block.None? then t.block else block, signed := dropped)];
      Persist();
      return Ok(());
    }

    method RecordAllowanceObligation(id: string, tokenOwner: Address, token: Address, spender: Address)
      returns (r: Answer)
      requires Valid()
      modifies this
      ensures Valid() && Performs(r, RecordObligation(old(State()), id, tokenOwner, token, spender))
    {
      ObligationKeepsInv(State(), id, tokenOwner, token, spender);
      if id == "" || !IsAddress(tokenOwner) || !IsAddress(token) || !IsAddress(spender) {
        return Err(InvalidObligation);
      }
      var index := FindIndex(obligations, (o: Obligation) => o.id == id);
      if index.Some? {
        var existing := obligations[index.value];
        if existing.owner != tokenOwner || existing.token != token || existing.spender != spender {
          return Err(ObligationChanged);
        }
        if existing.active {
          return Ok(());
        }
        obligations := obligations[index.value := existing.(active := true, cleanup := [])];
      } else {
        obligations := obligations + [Obligation(id, tokenOwner, token, spender, true, [])];
      }
      Persist();
      return Ok(());
    }

    method MarkAllowanceCleared(id: string, cleanup: seq<Hash>) returns (r: Answer)
      requires Valid()
      modifies this
      ensures Valid() && Performs(r, MarkCleared(old(State()), id, cleanup))
    {
      ClearedKeepsInv(State(), id, cleanup);
      var index := FindIndex(obligations, (o: Obligation) => o.id == id);
      if index.None? {
        return Err(UnknownObligation);
      }
      for k := 0 to |cleanup|
        invariant forall h :: h in cleanup[..k] ==> MinedSuccessfully(State(), h)
      {
        if !MinedSuccessfully(State(), cleanup[k]) {
          return Err(CleanupNotMined);
        }
      }
      assert cleanup[..|cleanup|] == cleanup;
      obligations :=
        obligations[index.value := obligations[index.value].(active := false, cleanup := Distinct(cleanup))];
      Persist();
      return Ok(());
    }

    /** Asks the chain about one transaction and records what it answers; `open` says whether it stays open. */
    method ReconcileOne(i: nat, inspect: Hash -> Inspection) returns (open: bool)
      requires Valid() && i < |transactions|
      modifies this
      ensures Valid()
      ensures State() == SetTransaction(old(State()), i,
        Reconciled(old(State()), old(transactions[i]), inspect(old(transactions[i]).hash)))
      ensures open == !transactions[i].Terminal()
      ensures ReconciledAsAnswered(
        old(State()), old(transactions[i]), transactions[i], inspect(old(transactions[i]).hash))
    {
      var t := transactions[i];
      ReconciledIsAsAnswered(State(), t, inspect(t.hash));
      FoundAt(State(), i);
      if t.Terminal() {
        return false;
      }
      if !Identified(State(), t) {
        if t.status != OutcomeUnknown {
          OpenOutcomesFit(State(), t.hash, OutcomeUnknown, None);
          var _ := RecordOutcome(t.hash, OutcomeUnknown, None);
        }
        return true;
      }
      var inspection := inspect(t.hash);
      if !inspection.Confirmed? {
        if inspection.Absent? && t.status != OutcomeUnknown {
          OpenOutcomesFit(State(), t.hash, OutcomeUnknown, None);
          var _ := RecordOutcome(t.hash, OutcomeUnknown, None);
        }
        return true;
      }
      var outcome := if inspection.success then MinedSuccess else MinedFailure;
      OpenOutcomesFit(State(), t.hash, outcome, Some(inspection.block));
      var _ := RecordOutcome(t.hash, outcome, Some(inspection.block));
      return false;
    }

    /**
     * Asks the chain about every open transaction and records what it answers, one durable write at a time. Terminal
     * transactions are untouched, and the answer lists exactly the hashes that stay open, in order.
     */
    method ReconcileTransactions(inspect: Hash -> Inspection) returns (unresolved: seq<Hash>)
      requires Valid()
      modifies this
      ensures Valid()
      ensures State() == old(State()).(transactions := transactions) && |transactions| == |old(transactions)|
      ensures forall i :: 0 <= i < |transactions| ==>
        transactions[i] == Reconciled(old(State()), old(transactions[i]), inspect(old(transactions[i]).hash))
      ensures forall i :: 0 <= i < |transactions| && old(transactions[i]).Terminal() ==>
        transactions[i] == old(transactions[i])
      ensures unresolved == OpenHashes(transactions)
      ensures forall i :: 0 <= i < |transactions| ==>
        ReconciledAsAnswered(old(State()), old(transactions[i]), transactions[i], inspect(old(transactions[i]).hash))
      ensures forall i, response ::
        0 <= i < |transactions| && IsAbsent(old(State()), old(transactions[i]), inspect(old(transactions[i]).hash)) ==>
        Rebroadcast(State(), old(transactions[i]).hash, Absent, response).sent == old(transactions[i]).signed
    {
      hide Inv, Reconciled, Transaction.Terminal, ReconciledAsAnswered, Rebroadcast;
      unresolved := [];
      ghost var before := State();
      assert transactions[..0] == [];
      for i := 0 to |transactions|
        invariant Valid() && State() == before.(transactions := transactions) && |transactions| == |before.transactions|
        invariant forall k :: 0 <= k < i ==>
          transactions[k] == Reconciled(before, before.transactions[k], inspect(before.transactions[k].hash))
        invariant forall k :: i <= k < |before.transactions| ==> transactions[k] == before.transactions[k]
        invariant unresolved == OpenHashes(transactions[..i])
      {
        ghost var prior := transactions[..i];
        ghost var now := State();
        var hash := transactions[i].hash;
        var open := ReconcileOne(i, inspect);
        ReconciledSame(before, now, before.transactions[i], inspect(hash));
        ReconciledHash(before, before.transactions[i], inspect(hash));
        assert transactions[..i + 1][..i] == prior;
        if open {
          unresolved := unresolved + [hash];
        }
      }
      assert transactions[..|transactions|] == transactions;
      forall i | 0 <= i < |transactions| && before.transactions[i].Terminal()
        ensures transactions[i] == before.transactions[i]
      {
        TerminalStays(before, before.transactions[i], inspect(before.transactions[i].hash));
      }
      forall i | 0 <= i < |transactions|
        ensures var t := before.transactions[i];
          ReconciledAsAnswered(before, t, transactions[i], inspect(t.hash))
      {
        ReconciledIsAsAnswered(before, before.transactions[i], inspect(before.transactions[i].hash));
      }
      forall i, response |
        0 <= i < |transactions| && IsAbsent(before, before.transactions[i], inspect(before.transactions[i].hash))
        ensures var t := before.transactions[i];
          Rebroadcast(State(), t.hash, Absent, response).sent == t.signed
      {
        AnsweredAbsent(before, State(), i, inspect(before.transactions[i].hash), response);
      }
    }

    /** Sends nothing but the recorded bytes, and only for a transaction whose fate is open. */
    method RebroadcastIdenticalTransaction(hash: Hash, answer: Inspection, response: Option<Hash>)
      returns (r: Answer, sent: Option<Payload>)
      requires Valid()
      modifies this
      ensures Valid() && Performs(r, Rebroadcast(old(State()), hash, answer, response).recorded)
      ensures sent == Rebroadcast(old(State()), hash, answer, response).sent
    {
      RebroadcastKeepsInv(State(), hash, answer, response);
      var index := FindHash(State(), hash);
      if index.None? {
        return Err(NotEligible), None;
      }
      var t := transactions[index.value];
      if (t.status != Prepared && t.status != OutcomeUnknown) || t.signed.None? {
        return Err(NotEligible), None;
      }
      if !Identified(State(), t) {
        return Err(BadIdentity), None;
      }
      if answer.Confirmed? {
        var outcome := if answer.success then MinedSuccess else MinedFailure;
        OpenOutcomesFit(State(), hash, outcome, Some(answer.block));
        r := RecordOutcome(hash, outcome, Some(answer.block));
        return r, None;
      }
      if answer.Pending? || answer.MinedUnconfirmed? {
        return Ok(()), None;
      }
      if response != Some(hash) {
        return Err(WrongHash), t.signed;
      }
      transactions := transactions[index.value := t.(status := Broadcast)];
      Persist();
      return Ok(()), t.signed;
    }

    method RecordResource(id: string, kind: string, address: Address, creation: Hash, metadata: map<string, string>)
      returns (r: Answer)
      requires Valid()
      modifies this
      ensures Valid()
        && Performs(r, RecoveryJournal.RecordResource(old(State()), id, kind, address, creation, metadata))
    {
      ResourceKeepsInv(State(), id, kind, address, creation, metadata);
      if id == "" || kind == "" || !IsAddress(address) || !ValidMetadata(metadata) {
        return Err(InvalidResource);
      }
      if !MinedSuccessfully(State(), creation) {
        return Err(CreationNotMined);
      }
      var index := FindIndex(resources, (r: Resource) => r.id == id);
      if index.Some? {
        var existing := resources[index.value];
        if existing.kind != kind || existing.address != address || existing.creation != creation {
          return Err(ResourceChanged);
        }
        return Ok(());
      }
      resources := resources + [Resource(id, kind, address, creation, false, [], metadata)];
      Persist();
      return Ok(());
    }

    method MarkRecovered(id: string, evidence: seq<Hash>) returns (r: Answer)
      requires Valid()
      modifies this
      ensures Valid() && Performs(r, RecoveryJournal.MarkRecovered(old(State()), id, evidence))
    {
      RecoveredKeepsInv(State(), id, evidence);
      var index := FindIndex(resources, (r: Resource) => r.id == id);
      if index.None? {
        return Err(UnknownResource);
      }
      if evidence == [] {
        return Err(RecoveryNotMined);
      }
      for k := 0 to |evidence|
        invariant forall h :: h in evidence[..k] ==> MinedSuccessfully(State(), h)
      {
        if !MinedSuccessfully(State(), evidence[k]) {
          return Err(RecoveryNotMined);
        }
      }
      assert evidence[..|evidence|] == evidence;
      resources := resources[index.value := resources[index.value].(recovered := true, evidence := Distinct(evidence))];
      Persist();
      return Ok(());
    }

    method UpdateResourceMetadata(id: string, metadata: map<string, string>) returns (r: Answer)
      requires Valid()
      modifies this
      ensures Valid() && Performs(r, UpdateMetadata(old(State()), id, metadata))
    {
      MetadataKeepsInv(State(), id, metadata);
      if !ValidMetadata(metadata) {
        return Err(InvalidMetadata);
      }
      var index := FindIndex(resources, (r: Resource) => r.id == id);
      if index.None? {
        return Err(UnknownResource);
      }
      var existing := resources[index.value];
      resources := resources[index.value := existing.(metadata := existing.metadata + metadata)];
      Persist();
      return Ok(());
    }

    /** It checks nothing; what it durably leaves is valid exactly when an evidence status comes with a plan. */
    method MarkRun(status: RunStatus)
      requires Valid()
      modifies this
      ensures durable == State() == old(State()).(runStatus := status)
      ensures State() == RecoveryJournal.MarkRun(old(State()), status)
      ensures Valid() <==> (status == EvidencePending || status == EvidenceFailed ==> old(plan).Some?)
    {
      MarkRunReadableExactly(State(), status);
      runStatus := status;
      Persist();
    }
  }
}
