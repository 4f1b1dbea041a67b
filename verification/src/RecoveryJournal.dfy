/**
 * The durable journal of funded transactions as a value, with every transition it offers. Signed payloads are hashed
 * by a symbolic, collision-free hash; addresses and hashes are taken in normal form.
 */
module RecoveryJournal {
  import opened Outcomes

  type Address = string
  type Label = string

  datatype Call = Approve(token: Address, spender: Address, amount: nat) | Other(data: string)

  datatype Payload = Payload(signer: Address, chainId: int, nonce: int, call: Call)

  datatype Hash = Keccak(payload: Payload)

  datatype Status = Prepared | Broadcast | MinedSuccess | MinedFailure | OutcomeUnknown

  datatype Transaction = Transaction(
    name: Label, hash: Hash, status: Status, signed: Option<Payload>, block: Option<int>)
  {
    predicate Terminal() {
      status == MinedSuccess || status == MinedFailure
    }
  }

  datatype Resource = Resource(
    id: string, kind: string, address: Address, creation: Hash, recovered: bool, evidence: seq<Hash>,
    metadata: map<string, string>)

  datatype Obligation = Obligation(
    id: string, owner: Address, token: Address, spender: Address, active: bool, cleanup: seq<Hash>)

  datatype RunStatus = Active | AwaitingMaturity | EvidencePending | EvidenceFailed | Passed | Failed | RecoveryFailed

  datatype Plan = Plan(artifacts: seq<string>, assertions: seq<string>, participants: seq<Address>)

  datatype Journal = Journal(
    owner: Address, chainId: int, runStatus: RunStatus, transactions: seq<Transaction>, resources: seq<Resource>,
    obligations: seq<Obligation>, plan: Option<Plan>)

  datatype JournalFailure =
    | RunIsTerminal | InvalidEvidence | DifferentOperation | PayloadChanged | LabelUsed | NotJournaled | BadTransition
    | ObservedConflict | InvalidResource | CreationNotMined | ResourceChanged | InvalidObligation | ObligationChanged
    | UnknownObligation | CleanupNotMined | UnknownResource | RecoveryNotMined | InvalidMetadata
    | NotTerminal | InvalidPlan | PlanChanged | NotEligible | BadIdentity | WrongHash | Unreadable

  type Recorded = Result<Journal, JournalFailure>

  predicate IsHexDigit(c: char) {
    '0' <= c <= '9' || 'a' <= c <= 'f'
  }

  predicate IsAddress(a: Address) {
    |a| == 42 && a[0] == '0' && a[1] == 'x' && forall i :: 2 <= i < 42 ==> IsHexDigit(a[i])
  }

  /** The first element that satisfies `p`, as the array searches of the source find it. */
  function FindIndex<T(!new)>(s: seq<T>, p: T -> bool): (r: Option<nat>)
    ensures r.None? ==> forall i :: 0 <= i < |s| ==> !p(s[i])
    ensures r.Some? ==> r.value < |s| && p(s[r.value]) && forall i :: 0 <= i < r.value ==> !p(s[i])
  {
    if s == [] then None
    else if p(s[0]) then Some(0)
    else
      match FindIndex(s[1..], p)
      case None => None
      case Some(i) => Some(i + 1)
  }

  function FindHash(j: Journal, hash: Hash): Option<nat> {
    FindIndex(j.transactions, (t: Transaction) => t.hash == hash)
  }

  function FindObligation(j: Journal, id: string): Option<nat> {
    FindIndex(j.obligations, (o: Obligation) => o.id == id)
  }

  predicate LabelTaken(j: Journal, name: Label) {
    exists i :: 0 <= i < |j.transactions| && j.transactions[i].name == name
  }

  predicate MinedSuccessfully(j: Journal, hash: Hash) {
    FindHash(j, hash).Some? && j.transactions[FindHash(j, hash).value].status == MinedSuccess
  }

  predicate NothingActive(j: Journal) {
    && (forall r :: r in j.resources ==> r.recovered)
    && (forall o :: o in j.obligations ==> !o.active)
  }

  predicate AllTerminal(j: Journal) {
    forall t :: t in j.transactions ==> t.Terminal()
  }

  predicate ValidPlan(p: Plan) {
    && p.artifacts != [] && p.assertions != [] && p.participants != []
    && (forall a :: a in p.assertions ==> a != "")
    && (forall a :: a in p.participants ==> IsAddress(a))
  }

  predicate IsLetter(c: char) {
    'a' <= c <= 'z' || 'A' <= c <= 'Z'
  }

  /** Metadata keys are plain identifiers: a letter, then letters and digits. */
  predicate ValidMetadata(m: map<string, string>) {
    forall k :: k in m ==> k != "" && IsLetter(k[0]) && forall c :: c in k ==> IsLetter(c) || '0' <= c <= '9'
  }

  // ---- Reloading ----

  predicate TransactionOk(t: Transaction) {
    && t.name != ""
    && (t.block.Some? ==> 0 <= t.block.value)
    && (t.signed.Some? ==> Keccak(t.signed.value) == t.hash)
    && (t.status == Prepared || t.status == OutcomeUnknown ==> t.signed.Some?)
  }

  predicate ResourceOk(j: Journal, r: Resource) {
    && r.id != "" && r.kind != "" && IsAddress(r.address) && ValidMetadata(r.metadata)
    && (r.recovered ==> r.evidence != [])
    && MinedSuccessfully(j, r.creation)
  }

  predicate ObligationOk(o: Obligation) {
    o.id != "" && IsAddress(o.owner) && IsAddress(o.token) && IsAddress(o.spender)
  }

  /** The conditions under which a stored journal is accepted when it is opened again. */
  predicate Parses(j: Journal) {
    && 0 < j.chainId && IsAddress(j.owner)
    && (forall t :: t in j.transactions ==> TransactionOk(t))
    && (forall r :: r in j.resources ==> ResourceOk(j, r))
    && (forall o :: o in j.obligations ==> ObligationOk(o))
    && (j.plan.Some? ==> ValidPlan(j.plan.value))
    && (j.runStatus == EvidencePending || j.runStatus == EvidenceFailed ==> j.plan.Some?)
  }

  function Reload(j: Journal): Recorded {
    if Parses(j) then Ok(j) else Err(Unreadable)
  }

  // ---- Transitions ----

  predicate RunOver(status: RunStatus) {
    status == Passed || status == Failed || status == RecoveryFailed
  }

  function PrepareEvidence(j: Journal, plan: Plan): Recorded {
    var idle := NothingActive(j);
    :- Need(idle, NotTerminal);
    :- Need(AllTerminal(j), NotTerminal);
    :- Need(ValidPlan(plan), InvalidPlan);
    :- Need(j.plan.None? || j.plan.value == plan, PlanChanged);
    Ok(j.(plan := Some(plan), runStatus := EvidencePending))
  }

  function RecordPrepared(j: Journal, name: Label, hash: Hash, signed: Payload): Recorded {
    var over := RunOver(j.runStatus) && NothingActive(j);
    :- Need(!over, RunIsTerminal);
    :- Need(name != "" && Keccak(signed) == hash, InvalidEvidence);
    match FindHash(j, hash)
    case Some(i) =>
      if j.transactions[i].name != name then Err(DifferentOperation)
      else if j.transactions[i].signed != Some(signed) then Err(PayloadChanged)
      else Ok(j)
    case None =>
      if LabelTaken(j, name) then Err(LabelUsed)
      else Ok(j.(transactions := j.transactions + [Transaction(name, hash, Prepared, Some(signed), None)]))
  }

  function SetTransaction(j: Journal, i: nat, t: Transaction): Journal
    requires i < |j.transactions|
  {
    j.(transactions := j.transactions[i := t])
  }

  function RecordBroadcast(j: Journal, name: Label, hash: Hash): Recorded {
    var found := FindHash(j, hash);
    :- Need(name != "", InvalidEvidence);
    :- Need(found.Some? && j.transactions[found.value].name == name, NotJournaled);
    :- Need(j.transactions[found.value].status == Prepared, BadTransition);
    Ok(SetTransaction(j, found.value, j.transactions[found.value].(status := Broadcast)))
  }

  function RecordObserved(j: Journal, name: Label, hash: Hash, block: int): Recorded {
    var found := FindHash(j, hash);
    :- Need(name != "" && 0 <= block, InvalidEvidence);
    match found
    case Some(i) =>
      var t := j.transactions[i];
      if t.name != name || t.status != MinedSuccess || t.block != Some(block) then Err(ObservedConflict) else Ok(j)
    case None =>
      if LabelTaken(j, name) then Err(LabelUsed)
      else Ok(j.(transactions := j.transactions + [Transaction(name, hash, MinedSuccess, None, Some(block))]))
  }

  /** The outcome of a transaction; the signed payload is dropped once it is mined. */
  function WithOutcome(t: Transaction, status: Status, block: Option<int>): Transaction {
    t.(status := status,
       block := if block.None? then t.block else block,
       signed := if status == MinedSuccess || status == MinedFailure then None else t.signed)
  }

  function RecordTransaction(j: Journal, hash: Hash, status: Status, block: Option<int>): Recorded {
    var found := FindHash(j, hash);
    :- Need(found.Some?, NotJournaled);
    Ok(SetTransaction(j, found.value, WithOutcome(j.transactions[found.value], status, block)))
  }

  function RecordResource(
    j: Journal, id: string, kind: string, address: Address, creation: Hash, metadata: map<string, string>): Recorded
  {
    var existing := FindIndex(j.resources, (r: Resource) => r.id == id);
    :- Need(id != "" && kind != "" && IsAddress(address) && ValidMetadata(metadata), InvalidResource);
    :- Need(MinedSuccessfully(j, creation), CreationNotMined);
    match existing
    case Some(i) =>
      var r := j.resources[i];
      if r.kind != kind || r.address != address || r.creation != creation then Err(ResourceChanged) else Ok(j)
    case None => Ok(j.(resources := j.resources + [Resource(id, kind, address, creation, false, [], metadata)]))
  }

  function RecordObligation(j: Journal, id: string, owner: Address, token: Address, spender: Address): Recorded {
    var found := FindIndex(j.obligations, (o: Obligation) => o.id == id);
    :- Need(id != "" && IsAddress(owner) && IsAddress(token) && IsAddress(spender), InvalidObligation);
    match found
    case Some(i) =>
      var o := j.obligations[i];
      if o.owner != owner || o.token != token || o.spender != spender then Err(ObligationChanged)
      else if o.active then Ok(j)
      else Ok(j.(obligations := j.obligations[i := o.(active := true, cleanup := [])]))
    case None => Ok(j.(obligations := j.obligations + [Obligation(id, owner, token, spender, true, [])]))
  }

  /** The hashes without repetitions, in order of first appearance. */
  function Distinct(hashes: seq<Hash>): (d: seq<Hash>)
    ensures forall h :: h in d <==> h in hashes
    ensures forall a, b :: 0 <= a < b < |d| ==> d[a] != d[b]
    ensures d == [] <==> hashes == []
  {
    if hashes == [] then []
    else
      var n := |hashes| - 1;
      assert hashes == hashes[..n] + [hashes[n]];
      var prior := Distinct(hashes[..n]);
      if hashes[n] in prior then prior else prior + [hashes[n]]
  }

  /** Hashes that come later never move those before them: each stands where it first appeared. */
  lemma {:induction false} DistinctInOrder(hashes: seq<Hash>, k: nat)
    requires k <= |hashes|
    ensures Distinct(hashes[..k]) <= Distinct(hashes)
    decreases |hashes|
  {
    if k < |hashes| {
      var n := |hashes| - 1;
      assert hashes[..n][..k] == hashes[..k];
      DistinctInOrder(hashes[..n], k);
    } else {
      assert hashes[..k] == hashes;
    }
  }

  function MarkCleared(j: Journal, id: string, cleanup: seq<Hash>): Recorded {
    var found := FindIndex(j.obligations, (o: Obligation) => o.id == id);
    :- Need(found.Some?, UnknownObligation);
    :- Need(forall h :: h in cleanup ==> MinedSuccessfully(j, h), CleanupNotMined);
    Ok(j.(obligations :=
      j.obligations[found.value := j.obligations[found.value].(active := false, cleanup := Distinct(cleanup))]))
  }

  function MarkRecovered(j: Journal, id: string, evidence: seq<Hash>): Recorded {
    var found := FindIndex(j.resources, (r: Resource) => r.id == id);
    :- Need(found.Some?, UnknownResource);
    :- Need(evidence != [], RecoveryNotMined);
    :- Need(forall h :: h in evidence ==> MinedSuccessfully(j, h), RecoveryNotMined);
    Ok(j.(resources :=
      j.resources[found.value := j.resources[found.value].(recovered := true, evidence := Distinct(evidence))]))
  }

  function UpdateMetadata(j: Journal, id: string, metadata: map<string, string>): Recorded {
    var found := FindIndex(j.resources, (r: Resource) => r.id == id);
    :- Need(ValidMetadata(metadata), InvalidMetadata);
    :- Need(found.Some?, UnknownResource);
    var r := j.resources[found.value];
    Ok(j.(resources := j.resources[found.value := r.(metadata := r.metadata + metadata)]))
  }

  function MarkRun(j: Journal, status: RunStatus): Journal {
    j.(runStatus := status)
  }

  // ---- Reconciliation ----

  datatype Inspection = Absent | Pending | MinedUnconfirmed | Confirmed(success: bool, block: nat)

  /** Whether the stored payload identifies a transaction of this journal's signer on its chain. */
  predicate Identified(j: Journal, t: Transaction) {
    && t.signed.Some? && Keccak(t.signed.value) == t.hash
    && t.signed.value.chainId == j.chainId && t.signed.value.signer == j.owner && 0 <= t.signed.value.nonce
  }

  /** What reconciliation makes of one transaction, given what the chain answered. */
  function Reconciled(j: Journal, t: Transaction, answer: Inspection): Transaction {
    if t.Terminal() then t
    else if !Identified(j, t) then (if t.status == OutcomeUnknown then t else WithOutcome(t, OutcomeUnknown, None))
    else
      match answer
      case Confirmed(success, block) => WithOutcome(t, if success then MinedSuccess else MinedFailure, Some(block))
      case Absent => if t.status == OutcomeUnknown then t else WithOutcome(t, OutcomeUnknown, None)
      case _ => t
  }

  /** Only the journal's identity matters to what reconciliation makes of a transaction. */
  lemma ReconciledSame(j: Journal, k: Journal, t: Transaction, answer: Inspection)
    requires k == j.(transactions := k.transactions)
    ensures Reconciled(k, t, answer) == Reconciled(j, t, answer)
  {
  }

  lemma ReconciledHash(j: Journal, t: Transaction, answer: Inspection)
    ensures Reconciled(j, t, answer).hash == t.hash
  {
  }

  lemma TerminalStays(j: Journal, t: Transaction, answer: Inspection)
    requires t.Terminal()
    ensures Reconciled(j, t, answer) == t
  {
  }

  /** A payload identifies itself by hash, chain, signer and nonce, and nothing else. */
  lemma IdentityIsExact(j: Journal, t: Transaction, signer: Address, chainId: int, nonce: int, call: Call)
    requires t.signed == Some(Payload(signer, chainId, nonce, call))
    ensures Identified(j, t) <==>
      t.hash == Keccak(Payload(signer, chainId, nonce, call)) && chainId == j.chainId && signer == j.owner && 0 <= nonce
  {
  }

  /** What the chain's answer makes of an entry, in statuses: `u` is the entry `t` afterwards. */
  predicate ReconciledAsAnswered(j: Journal, t: Transaction, u: Transaction, answer: Inspection) {
    if t.status == MinedSuccess || t.status == MinedFailure then u == t
    else if !Identified(j, t) then u == t.(status := OutcomeUnknown)
    else
      match answer
      case Absent => u == t.(status := OutcomeUnknown)
      case Pending => u == t
      case MinedUnconfirmed => u == t
      case Confirmed(success, block) =>
        && u.status == (if success then MinedSuccess else MinedFailure)
        && u.block == Some(block) && u.signed == None && u.name == t.name && u.hash == t.hash
  }

  lemma ReconciledIsAsAnswered(j: Journal, t: Transaction, answer: Inspection)
    ensures ReconciledAsAnswered(j, t, Reconciled(j, t, answer), answer)
  {
  }

  /** An entry that was reconciled as absent is eligible for the identical rebroadcast, and sent by it. */
  lemma AbsentIsResent(j: Journal, k: Journal, i: nat, response: Option<Hash>)
    requires Inv(j) && i < |j.transactions| && !j.transactions[i].Terminal() && Identified(j, j.transactions[i])
    requires k == j.(transactions := k.transactions) && Unique(k) && i < |k.transactions|
    requires k.transactions[i] == j.transactions[i].(status := OutcomeUnknown)
    ensures var r := Rebroadcast(k, j.transactions[i].hash, Absent, response);
      && r.sent == j.transactions[i].signed && r.sent.Some?
      && (response == Some(j.transactions[i].hash) ==>
           r.recorded == Ok(SetTransaction(k, i, j.transactions[i].(status := Broadcast))))
  {
    FoundAt(k, i);
  }

  /** The hashes of a list of transactions that are still open, in order. */
  function OpenHashes(ts: seq<Transaction>): seq<Hash> {
    if ts == [] then []
    else
      var n := |ts| - 1;
      OpenHashes(ts[..n]) + if ts[n].Terminal() then [] else [ts[n].hash]
  }

  // ---- Rebroadcast ----

  /** What a rebroadcast leaves in the journal, and the bytes it hands to the network, if any. */
  datatype Resent = Resent(recorded: Recorded, sent: Option<Payload>)

  function Rebroadcast(j: Journal, hash: Hash, answer: Inspection, response: Option<Hash>): Resent {
    match FindHash(j, hash)
    case None => Resent(Err(NotEligible), None)
    case Some(i) =>
      var t := j.transactions[i];
      if (t.status != Prepared && t.status != OutcomeUnknown) || t.signed.None? then Resent(Err(NotEligible), None)
      else if !Identified(j, t) then Resent(Err(BadIdentity), None)
      else
        match answer
        case Confirmed(success, block) =>
          Resent(RecordTransaction(j, hash, if success then MinedSuccess else MinedFailure, Some(block)), None)
        case Absent =>
          var noted := Ok(SetTransaction(j, i, t.(status := Broadcast)));
          Resent(if response != Some(hash) then Err(WrongHash) else noted, t.signed)
        case _ => Resent(Ok(j), None)
  }

  // ---- The invariant of every journal built through its own transitions ----

  ghost predicate Unique(j: Journal) {
    forall a, b :: 0 <= a < b < |j.transactions| ==>
      j.transactions[a].hash != j.transactions[b].hash && j.transactions[a].name != j.transactions[b].name
  }

  ghost predicate Inv(j: Journal) {
    && Parses(j) && Unique(j)
    && (forall t :: t in j.transactions && !t.Terminal() ==> t.signed.Some?)
  }

  lemma FoundAt(j: Journal, i: nat)
    requires Unique(j) && i < |j.transactions|
    ensures FindHash(j, j.transactions[i].hash) == Some(i)
  {
  }

  /** A changed transaction list keeps a hash mined where the entry of that hash stays mined. */
  lemma StillMined(j: Journal, k: Journal, hash: Hash)
    requires MinedSuccessfully(j, hash)
    requires |j.transactions| <= |k.transactions|
    requires forall i :: 0 <= i < |j.transactions| ==>
      k.transactions[i].hash == j.transactions[i].hash &&
      (j.transactions[i].hash == hash && j.transactions[i].status == MinedSuccess ==>
        k.transactions[i].status == MinedSuccess)
    ensures MinedSuccessfully(k, hash)
  {
    var i := FindHash(j, hash).value;
    assert k.transactions[i].hash == hash;
    assert FindHash(k, hash) == Some(i);
  }

  predicate IsCreation(j: Journal, hash: Hash) {
    exists r :: r in j.resources && r.creation == hash
  }

  /** A journal that only gained a transaction, or changed one without unmining a creation, keeps its resources. */
  lemma ResourcesKept(j: Journal, k: Journal)
    requires Parses(j) && k == j.(transactions := k.transactions) && |j.transactions| <= |k.transactions|
    requires forall i :: 0 <= i < |j.transactions| ==>
      k.transactions[i].hash == j.transactions[i].hash &&
      (j.transactions[i].status == MinedSuccess && IsCreation(j, j.transactions[i].hash) ==>
        k.transactions[i].status == MinedSuccess)
    ensures forall r :: r in k.resources ==> ResourceOk(k, r)
  {
    forall r | r in k.resources
      ensures ResourceOk(k, r)
    {
      assert ResourceOk(j, r);
      StillMined(j, k, r.creation);
    }
  }

  lemma AppendKeepsInv(j: Journal, t: Transaction)
    requires Inv(j) && TransactionOk(t) && (!t.Terminal() ==> t.signed.Some?)
    requires FindHash(j, t.hash).None? && !LabelTaken(j, t.name)
    ensures Inv(j.(transactions := j.transactions + [t]))
  {
    ResourcesKept(j, j.(transactions := j.transactions + [t]));
  }

  lemma UpdateKeepsInv(j: Journal, i: nat, t: Transaction)
    requires Inv(j) && i < |j.transactions| && TransactionOk(t) && (!t.Terminal() ==> t.signed.Some?)
    requires t.hash == j.transactions[i].hash && t.name == j.transactions[i].name
    requires t.status != MinedSuccess && j.transactions[i].status == MinedSuccess ==>
      !IsCreation(j, t.hash)
    ensures Inv(SetTransaction(j, i, t))
  {
    ResourcesKept(j, SetTransaction(j, i, t));
  }

  lemma ResourceListKeepsInv(j: Journal, resources: seq<Resource>)
    requires Inv(j) && forall r :: r in resources ==> ResourceOk(j, r)
    ensures Inv(j.(resources := resources))
  {
    var k := j.(resources := resources);
    forall r | r in resources
      ensures ResourceOk(k, r)
    {
      assert FindHash(k, r.creation) == FindHash(j, r.creation);
    }
  }

  lemma OtherFieldsKeepInv(j: Journal, k: Journal)
    requires Inv(j) && k == j.(obligations := k.obligations, plan := k.plan, runStatus := k.runStatus)
    requires forall o :: o in k.obligations ==> ObligationOk(o)
    requires k.plan.Some? ==> ValidPlan(k.plan.value)
    requires k.runStatus == EvidencePending || k.runStatus == EvidenceFailed ==> k.plan.Some?
    ensures Inv(k)
  {
    forall r | r in k.resources
      ensures ResourceOk(k, r)
    {
      assert ResourceOk(j, r) && FindHash(k, r.creation) == FindHash(j, r.creation);
    }
  }

  // ---- Which transitions keep it ----

  lemma PreparedKeepsInv(j: Journal, name: Label, hash: Hash, signed: Payload)
    requires Inv(j)
    ensures var r := RecordPrepared(j, name, hash, signed); r.Ok? ==> Inv(r.value)
  {
    if RecordPrepared(j, name, hash, signed).Ok? && FindHash(j, hash).None? {
      AppendKeepsInv(j, Transaction(name, hash, Prepared, Some(signed), None));
    }
  }

  lemma BroadcastKeepsInv(j: Journal, name: Label, hash: Hash)
    requires Inv(j)
    ensures var r := RecordBroadcast(j, name, hash); r.Ok? ==> Inv(r.value)
  {
    if RecordBroadcast(j, name, hash).Ok? {
      var i := FindHash(j, hash).value;
      assert TransactionOk(j.transactions[i]);
      UpdateKeepsInv(j, i, j.transactions[i].(status := Broadcast));
    }
  }

  lemma ObservedKeepsInv(j: Journal, name: Label, hash: Hash, block: int)
    requires Inv(j)
    ensures var r := RecordObserved(j, name, hash, block); r.Ok? ==> Inv(r.value)
  {
    if RecordObserved(j, name, hash, block).Ok? && FindHash(j, hash).None? {
      AppendKeepsInv(j, Transaction(name, hash, MinedSuccess, None, Some(block)));
    }
  }

  lemma ResourceKeepsInv(
    j: Journal, id: string, kind: string, address: Address, creation: Hash, metadata: map<string, string>)
    requires Inv(j)
    ensures var r := RecordResource(j, id, kind, address, creation, metadata); r.Ok? ==> Inv(r.value)
  {
    var r := RecordResource(j, id, kind, address, creation, metadata);
    if r.Ok? {
      ResourceListKeepsInv(j, r.value.resources);
    }
  }

  lemma RecoveredKeepsInv(j: Journal, id: string, evidence: seq<Hash>)
    requires Inv(j)
    ensures var r := MarkRecovered(j, id, evidence); r.Ok? ==> Inv(r.value)
  {
    var r := MarkRecovered(j, id, evidence);
    if r.Ok? {
      assert ResourceOk(j, j.resources[FindIndex(j.resources, (r: Resource) => r.id == id).value]);
      ResourceListKeepsInv(j, r.value.resources);
    }
  }

  lemma MetadataKeepsInv(j: Journal, id: string, metadata: map<string, string>)
    requires Inv(j)
    ensures var r := UpdateMetadata(j, id, metadata); r.Ok? ==> Inv(r.value)
  {
    var r := UpdateMetadata(j, id, metadata);
    if r.Ok? {
      assert ResourceOk(j, j.resources[FindIndex(j.resources, (r: Resource) => r.id == id).value]);
      ResourceListKeepsInv(j, r.value.resources);
    }
  }

  lemma ObligationKeepsInv(j: Journal, id: string, owner: Address, token: Address, spender: Address)
    requires Inv(j)
    ensures var r := RecordObligation(j, id, owner, token, spender); r.Ok? ==> Inv(r.value)
  {
    var found := FindIndex(j.obligations, (o: Obligation) => o.id == id);
    var r := RecordObligation(j, id, owner, token, spender);
    if r.Ok? {
      var k := r.value;
      if found.Some? {
        assert ObligationOk(j.obligations[found.value]);
      }
      OtherFieldsKeepInv(j, k);
    }
  }

  lemma ClearedKeepsInv(j: Journal, id: string, cleanup: seq<Hash>)
    requires Inv(j)
    ensures var r := MarkCleared(j, id, cleanup); r.Ok? ==> Inv(r.value)
  {
    var found := FindIndex(j.obligations, (o: Obligation) => o.id == id);
    var r := MarkCleared(j, id, cleanup);
    if r.Ok? {
      assert ObligationOk(j.obligations[found.value]);
      OtherFieldsKeepInv(j, r.value);
    }
  }

  lemma EvidenceKeepsInv(j: Journal, plan: Plan)
    requires Inv(j)
    ensures var r := PrepareEvidence(j, plan); r.Ok? ==> Inv(r.value)
  {
    var r := PrepareEvidence(j, plan);
    if r.Ok? {
      OtherFieldsKeepInv(j, r.value);
    }
  }

  /** `markRun` checks nothing: the journal stays readable exactly when an evidence status comes with a plan. */
  lemma MarkRunReadableExactly(j: Journal, status: RunStatus)
    requires Inv(j)
    ensures Inv(MarkRun(j, status)) <==> Parses(MarkRun(j, status))
    ensures Parses(MarkRun(j, status)) <==> (status == EvidencePending || status == EvidenceFailed ==> j.plan.Some?)
  {
    if status == EvidencePending || status == EvidenceFailed ==> j.plan.Some? {
      OtherFieldsKeepInv(j, MarkRun(j, status));
    }
  }

  /** Recording an outcome is safe when it neither reopens a dropped payload nor unmines a creation. */
  predicate OutcomeFits(j: Journal, hash: Hash, status: Status, block: Option<int>)
    requires FindHash(j, hash).Some?
  {
    var t := j.transactions[FindHash(j, hash).value];
    && (block.Some? ==> 0 <= block.value)
    && (status == Prepared || status == OutcomeUnknown ==> t.signed.Some?)
    && (status != MinedSuccess && t.status == MinedSuccess ==> !IsCreation(j, hash))
  }

  /**
   * `recordTransaction` checks no transition and accepts negative block numbers: the journal it leaves behind can be
   * reopened exactly when the outcome fits.
   */
  lemma OutcomeReadableExactly(j: Journal, hash: Hash, status: Status, block: Option<int>)
    requires Inv(j) && FindHash(j, hash).Some? && status != Broadcast
    ensures var k := RecordTransaction(j, hash, status, block).value;
      && (Parses(k) <==> OutcomeFits(j, hash, status, block))
      && (Inv(k) <==> OutcomeFits(j, hash, status, block))
  {
    var i := FindHash(j, hash).value;
    var t := j.transactions[i];
    var u := WithOutcome(t, status, block);
    var k := SetTransaction(j, i, u);
    assert TransactionOk(t);
    assert k.transactions[i] == u && u in k.transactions;
    if OutcomeFits(j, hash, status, block) {
      UpdateKeepsInv(j, i, u);
    } else if TransactionOk(u) {
      var r :| r in j.resources && r.creation == hash;
      assert FindHash(k, hash) == Some(i);
      assert !ResourceOk(k, r) && r in k.resources;
    }
  }

  /** Under the callers' discipline, outcomes only for open transactions and real block numbers, it always fits. */
  lemma OpenOutcomesFit(j: Journal, hash: Hash, status: Status, block: Option<int>)
    requires Inv(j) && FindHash(j, hash).Some? && status != Broadcast
    requires !j.transactions[FindHash(j, hash).value].Terminal() && (block.Some? ==> 0 <= block.value)
    ensures OutcomeFits(j, hash, status, block) && Inv(RecordTransaction(j, hash, status, block).value)
  {
    OutcomeReadableExactly(j, hash, status, block);
  }

  lemma ReconciledFits(j: Journal, i: nat, answer: Inspection)
    requires Inv(j) && i < |j.transactions|
    ensures Inv(SetTransaction(j, i, Reconciled(j, j.transactions[i], answer)))
  {
    var t := j.transactions[i];
    assert TransactionOk(t);
    UpdateKeepsInv(j, i, Reconciled(j, t, answer));
  }

  lemma RebroadcastKeepsInv(j: Journal, hash: Hash, answer: Inspection, response: Option<Hash>)
    requires Inv(j)
    ensures var r := Rebroadcast(j, hash, answer, response).recorded; r.Ok? ==> Inv(r.value)
  {
    var r := Rebroadcast(j, hash, answer, response).recorded;
    if r.Ok? {
      var i := FindHash(j, hash).value;
      var t := j.transactions[i];
      assert TransactionOk(t);
      match answer
      case Confirmed(success, block) =>
        OpenOutcomesFit(j, hash, if success then MinedSuccess else MinedFailure, Some(block));
      case Absent =>
        UpdateKeepsInv(j, i, t.(status := Broadcast));
      case _ =>
    }
  }

  /**
   * A rebroadcast only ever sends the recorded bytes of an open transaction whose fate the chain does not know, and
   * records a broadcast only when the network answers with that transaction's own hash.
   */
  lemma RebroadcastIsIdentical(j: Journal, hash: Hash, answer: Inspection, response: Option<Hash>)
    requires Inv(j)
    ensures var r := Rebroadcast(j, hash, answer, response);
      && (r.sent.Some? ==> answer.Absent? && Keccak(r.sent.value) == hash)
      && (r.sent.Some? ==> exists t :: t in j.transactions && t.hash == hash && t.signed == r.sent && !t.Terminal())
      && (r.sent.Some? && r.recorded.Ok? ==> response == Some(hash))
      && (r.sent.None? && r.recorded.Ok? && !answer.Confirmed? ==> r.recorded.value == j)
  {
    var found := FindHash(j, hash);
    if found.Some? {
      assert j.transactions[found.value] in j.transactions;
    }
  }
}
