/**
 * Sending funded transactions with a crash possible between any two steps, as a transition system over the durable
 * journal, what the network was handed, what the chain mined and the private allowances it holds. The chain and the
 * network answer as they please, except that a transaction reported mined is mined with that outcome.
 */
module FundedProtocol {
  import opened Outcomes
  import opened RecoveryJournal

  datatype Key = Key(owner: Address, token: Address, spender: Address)

  type Allowances = map<Key, nat>

  function AllowanceOf(allowances: Allowances, key: Key): nat {
    if key in allowances then allowances[key] else 0
  }

  predicate IsKey(key: Key) {
    IsAddress(key.owner) && IsAddress(key.token) && IsAddress(key.spender)
  }

  function KeyOf(o: Obligation): Key {
    Key(o.owner, o.token, o.spender)
  }

  function ObligationId(key: Key): string {
    "allowance:" + key.owner + ":" + key.token + ":" + key.spender
  }

  /** One call that sets a private allowance. */
  datatype Goal = Goal(key: Key, amount: nat, name: Label)

  datatype Stage =
    | Reading
    | Obliging(current: nat)
    | Resetting(current: nat)
    | Granting(current: nat, hashes: seq<Hash>)
    | Verifying(hashes: seq<Hash>)
    | Clearing(hashes: seq<Hash>)

  /** What the process is doing overall: a run of its own, or the clearing of a list of obligations. */
  datatype Work = Free | Recovering(queue: seq<Obligation>)

  datatype SendStage = Recording | Reserving | Broadcasting | Noting | Waiting | Doubting

  /** What a submission was for: a plain call, the reset of an allowance, or its grant. */
  datatype Purpose =
    | Plain
    | ForReset(work: Work, goal: Goal)
    | ForGrant(work: Work, goal: Goal, hashes: seq<Hash>)

  datatype Phase =
    | Down
    | Reconciling(next: nat, clean: bool)
    | Thrown
    | Ready(work: Work)
    | Setting(work: Work, goal: Goal, stage: Stage)
    | Sending(purpose: Purpose, name: Label, signed: Payload, at: SendStage)

  /** `handling`: a catch handler is at work, after a failure that may have left transactions open. */
  datatype World = World(
    journal: Journal, sent: set<(Label, Payload)>, mined: map<Payload, bool>, allowances: Allowances, phase: Phase,
    handling: bool)

  /** What the program journals besides its submissions and obligations. */
  datatype Entry =
    | Observed(name: Label, payload: Payload, block: int)
    | Created(id: string, kind: string, address: Address, creation: Hash, metadata: map<string, string>)
    | Recovered(id: string, evidence: seq<Hash>)
    | Annotated(id: string, metadata: map<string, string>)

  datatype Event =
    // the process
    | Boot
    | Inspect(answer: Inspection)
    | Submit(name: Label, signed: Payload)
    | Book(entry: Entry)
    | StartSetting(goal: Goal)
    | Advance
    | Sign(chainId: int, nonce: int)
    | Record
    | Reserve(granted: bool)
    | Send(response: Option<Hash>)
    | Note(noted: bool)
    | Receipt(outcome: Option<bool>, block: nat)
    | Overlook
    | Doubt
    | Handle
    | StartRecovery
    | FinishRecovery
    | AbandonRecovery
    | Conclude(status: RunStatus)
    | Evidence(plan: Plan)
    | Resend(hash: Hash, answer: Inspection, response: Option<Hash>)
    | Crash
    // the chain
    | Mine(signed: Payload, success: bool)
    | MineForeign(payload: Payload, success: bool)
    | Spend(key: Key, left: nat)

  // ---- Steps ----

  predicate Running(phase: Phase) {
    phase.Ready? || phase.Setting? || phase.Sending?
  }

  /** The process goes on in another phase; a handler is over when the process leaves it. */
  function To(w: World, phase: Phase): World {
    w.(phase := phase, handling := w.handling && Running(phase))
  }

  /** A transition of the journal and the phase after it, or another phase when it is refused. */
  function Journaled(w: World, r: Recorded, next: Phase, refused: Phase): World {
    match r
    case Ok(j) => To(w.(journal := j), next)
    case Err(_) => To(w, refused)
  }

  predicate Sound(w: World, payload: Payload, answer: Inspection) {
    answer.Confirmed? ==> payload in w.mined && w.mined[payload] == answer.success
  }

  /** One step of reconciliation; once all are inspected the program goes on, or throws if anything stayed open. */
  function InspectStep(w: World, answer: Inspection): Option<World>
    requires w.phase.Reconciling?
  {
    var i, j := w.phase.next, w.journal;
    if i < |j.transactions| then
      var t := j.transactions[i];
      if Sound(w, t.hash.payload, answer) then
        var u := Reconciled(j, t, answer);
        Some(To(w.(journal := SetTransaction(j, i, u)), Reconciling(i + 1, w.phase.clean && u.Terminal())))
      else None
    else Some(To(w, if w.phase.clean then Ready(Free) else Thrown))
  }

  function BookStep(w: World, entry: Entry): Option<World> {
    match entry
    case Observed(name, payload, block) =>
      if payload in w.mined && w.mined[payload] then
        Some(Journaled(w, RecordObserved(w.journal, name, Keccak(payload), block), w.phase, w.phase))
      else None
    case Created(id, kind, address, creation, metadata) =>
      Some(Journaled(w, RecordResource(w.journal, id, kind, address, creation, metadata), w.phase, w.phase))
    case Recovered(id, evidence) => Some(Journaled(w, MarkRecovered(w.journal, id, evidence), w.phase, w.phase))
    case Annotated(id, metadata) => Some(Journaled(w, UpdateMetadata(w.journal, id, metadata), w.phase, w.phase))
  }

  /** A run sets any allowance; a recovery clears the next obligation of its list. */
  function StartStep(w: World, goal: Goal): Option<World>
    requires w.phase.Ready?
  {
    match w.phase.work
    case Free => Some(if IsKey(goal.key) then To(w, Setting(Free, goal, Reading)) else w)
    case Recovering(queue) =>
      if queue != [] && goal == Goal(KeyOf(queue[0]), 0, "recovery " + queue[0].id) then
        Some(To(w, Setting(w.phase.work, goal, Reading)))
      else None
  }

  /** The program goes on after an allowance was set. */
  function After(work: Work): Phase {
    match work
    case Free => Ready(Free)
    case Recovering(queue) => Ready(if queue == [] then Free else Recovering(queue[1..]))
  }

  /** The steps of setting an allowance that send nothing. A failed step ends the call with an exception. */
  function AdvanceStep(w: World): Option<World>
    requires w.phase.Setting?
  {
    var Setting(work, goal, stage) := w.phase;
    var id := ObligationId(goal.key);
    match stage
    case Reading => Some(To(w, Setting(work, goal, Obliging(AllowanceOf(w.allowances, goal.key)))))
    case Obliging(current) =>
      var next := Setting(work, goal, Resetting(current));
      if current > 0 || goal.amount > 0 then
        var r := RecordObligation(w.journal, id, goal.key.owner, goal.key.token, goal.key.spender);
        Some(Journaled(w, r, next, Ready(Free)))
      else Some(To(w, next))
    case Resetting(current) =>
      if current != 0 && current != goal.amount then None else Some(To(w, Setting(work, goal, Granting(current, []))))
    case Granting(current, hashes) =>
      if goal.amount != 0 && current != goal.amount then None else Some(To(w, Setting(work, goal, Verifying(hashes))))
    case Verifying(hashes) =>
      if AllowanceOf(w.allowances, goal.key) != goal.amount then Some(To(w, Ready(Free)))
      else if goal.amount == 0 then Some(To(w, Setting(work, goal, Clearing(hashes))))
      else Some(To(w, After(work)))
    case Clearing(hashes) =>
      var found := FindObligation(w.journal, id);
      if found.Some? && w.journal.obligations[found.value].active then
        Some(Journaled(w, MarkCleared(w.journal, id, hashes), After(work), Ready(Free)))
      else Some(To(w, After(work)))
  }

  /** Signing: the submission of a reset or of a grant, where one is due. */
  function SignStep(w: World, chainId: int, nonce: int): Option<World>
    requires w.phase.Setting?
  {
    var Setting(work, goal, stage) := w.phase;
    var key := goal.key;
    if stage.Resetting? && stage.current != 0 && stage.current != goal.amount then
      var p := Payload(key.owner, chainId, nonce, Approve(key.token, key.spender, 0));
      Some(To(w, SigningDone(w, ForReset(work, goal), goal.name + " reset", p)))
    else if stage.Granting? && goal.amount != 0 && stage.current != goal.amount then
      var p := Payload(key.owner, chainId, nonce, Approve(key.token, key.spender, goal.amount));
      Some(To(w, SigningDone(w, ForGrant(work, goal, stage.hashes), goal.name, p)))
    else None
  }

  /** A payload of another chain ends the run: the submission boundary reports an unknown outcome. */
  function SigningDone(w: World, purpose: Purpose, name: Label, p: Payload): Phase {
    if p.chainId == w.journal.chainId && 0 <= p.nonce then Sending(purpose, name, p, Recording) else Down
  }

  /** The program goes on after a submission was mined successfully. */
  function Mined(purpose: Purpose, hash: Hash): Phase {
    match purpose
    case Plain => Ready(Free)
    case ForReset(work, goal) => Setting(work, goal, Granting(0, [hash]))
    case ForGrant(work, goal, hashes) => Setting(work, goal, Verifying(hashes + [hash]))
  }

  /** A runner may also let a mined failure pass without recording it, and fail. */
  function SendingStep(w: World, e: Event): Option<World>
    requires w.phase.Sending?
  {
    var Sending(purpose, name, p, at) := w.phase;
    var hash := Keccak(p);
    match at
    case Recording =>
      var r := RecordPrepared(w.journal, name, hash, p);
      if e.Record? then
        Some(Journaled(w, r, Sending(purpose, name, p, Reserving), if r == Err(LabelUsed) then Ready(Free) else Down))
      else None
    case Reserving =>
      if e.Reserve? then Some(To(w, if e.granted then Sending(purpose, name, p, Broadcasting) else Down)) else None
    case Broadcasting =>
      if e.Send? then
        var next := Sending(purpose, name, p, if e.response == Some(hash) then Noting else Doubting);
        Some(To(w.(sent := w.sent + {(name, p)}), next))
      else None
    case Noting =>
      if e.Note? then
        var next := Sending(purpose, name, p, if e.noted then Waiting else Doubting);
        Some(Journaled(w, RecordBroadcast(w.journal, name, hash), next, Sending(purpose, name, p, Doubting)))
      else None
    case Doubting =>
      if e.Doubt? then Some(Journaled(w, RecordTransaction(w.journal, hash, OutcomeUnknown, None), Down, Down))
      else None
    case Waiting =>
      if e.Receipt? then ReceiptStep(w, e.outcome, e.block)
      else if e.Overlook? && p in w.mined && !w.mined[p] then Some(To(w, Thrown))
      else None
  }

  /**
   * The receipt of a submission, if one arrives: a success goes on, a failure ends the call, no receipt ends the run.
   */
  function ReceiptStep(w: World, outcome: Option<bool>, block: nat): Option<World>
    requires w.phase.Sending?
  {
    var hash := Keccak(w.phase.signed);
    match outcome
    case None => Some(Journaled(w, RecordTransaction(w.journal, hash, OutcomeUnknown, None), Down, Down))
    case Some(success) =>
      if w.phase.signed !in w.mined || w.mined[w.phase.signed] != success then None
      else if success then
        var r := RecordTransaction(w.journal, hash, MinedSuccess, Some(block));
        Some(Journaled(w, r, Mined(w.phase.purpose, hash), Down))
      else Some(Journaled(w, RecordTransaction(w.journal, hash, MinedFailure, None), Ready(Free), Down))
  }

  /** The bytes of an identical rebroadcast are handed to the network under the label they were journaled with. */
  function ResendStep(w: World, hash: Hash, answer: Inspection, response: Option<Hash>): Option<World> {
    if !Sound(w, hash.payload, answer) then None
    else
      var r := Rebroadcast(w.journal, hash, answer, response);
      var found := FindHash(w.journal, hash);
      var sent :=
        if r.sent.Some? && found.Some? then {(w.journal.transactions[found.value].name, r.sent.value)} else {};
      Some(w.(journal := if r.recorded.Ok? then r.recorded.value else w.journal, sent := w.sent + sent))
  }

  function Approved(allowances: Allowances, p: Payload, success: bool): Allowances {
    if success && p.call.Approve? then allowances[Key(p.signer, p.call.token, p.call.spender) := p.call.amount]
    else allowances
  }

  predicate WasSent(w: World, p: Payload) {
    exists s :: s in w.sent && s.1 == p
  }

  /** What the chain does by itself. */
  function ChainStep(w: World, e: Event): Option<World> {
    match e
    case Mine(p, success) =>
      if WasSent(w, p) && p !in w.mined then
        Some(w.(mined := w.mined[p := success], allowances := Approved(w.allowances, p, success)))
      else None
    case MineForeign(p, success) =>
      if p.call.Other? && p !in w.mined then Some(w.(mined := w.mined[p := success])) else None
    case Spend(key, left) =>
      if left <= AllowanceOf(w.allowances, key) then Some(w.(allowances := w.allowances[key := left])) else None
    case _ => None
  }

  /** What can be recorded about the run as a whole at any time. */
  function RunStep(w: World, e: Event): Option<World> {
    match e
    case Conclude(status) =>
      if status == EvidencePending || status == EvidenceFailed ==> w.journal.plan.Some? then
        Some(w.(journal := MarkRun(w.journal, status)))
      else None
    case Evidence(plan) => Some(Journaled(w, PrepareEvidence(w.journal, plan), w.phase, w.phase))
    case _ => None
  }

  function DownStep(w: World, e: Event): Option<World> {
    match e
    case Boot => Some(To(w, if Reload(w.journal).Ok? then Reconciling(0, true) else Down))
    case Resend(hash, answer, response) => ResendStep(w, hash, answer, response)
    case _ => None
  }

  function ReadyStep(w: World, e: Event): Option<World>
    requires w.phase.Ready?
  {
    match e
    case StartSetting(goal) => StartStep(w, goal)
    case Submit(name, p) =>
      if w.phase.work.Free? && p.call.Other? then Some(To(w, SigningDone(w, Plain, name, p))) else None
    case Book(entry) => BookStep(w, entry)
    case StartRecovery =>
      if w.phase.work.Free? then Some(To(w, Ready(Recovering(ActiveObligations(w.journal))))) else None
    case FinishRecovery => if w.phase.work == Recovering([]) then Some(To(w, Ready(Free))) else None
    case AbandonRecovery => Some(To(w, Ready(Free)))
    case _ => None
  }

  function SettingStep(w: World, e: Event): Option<World>
    requires w.phase.Setting?
  {
    if e.Advance? then AdvanceStep(w) else if e.Sign? then SignStep(w, e.chainId, e.nonce) else None
  }

  /** A failure outside the calls of this model ends the process, or is caught by a handler that goes on. */
  function ThrownStep(w: World, e: Event): Option<World> {
    if e.Handle? then Some(w.(phase := Ready(Free), handling := true)) else None
  }

  /** What each event does; `None` where it cannot happen. */
  function Step(w: World, e: Event): Option<World> {
    if e.Crash? then Some(To(w, Down))
    else if e.Mine? || e.MineForeign? || e.Spend? then ChainStep(w, e)
    else if e.Conclude? || e.Evidence? then RunStep(w, e)
    else
      match w.phase
      case Down => DownStep(w, e)
      case Reconciling(_, _) => if e.Inspect? then InspectStep(w, e.answer) else None
      case Thrown => ThrownStep(w, e)
      case Ready(_) => ReadyStep(w, e)
      case Setting(_, _, _) => SettingStep(w, e)
      case Sending(_, _, _, _) => SendingStep(w, e)
  }

  function OnlyActive(s: seq<Obligation>): (r: seq<Obligation>)
    ensures forall o :: o in r <==> o in s && o.active
  {
    if s == [] then []
    else
      var n := |s| - 1;
      assert s == s[..n] + [s[n]];
      OnlyActive(s[..n]) + if s[n].active then [s[n]] else []
  }

  function ActiveObligations(j: Journal): seq<Obligation> {
    OnlyActive(j.obligations)
  }

  function Run(w: World, events: seq<Event>): Option<World>
    decreases |events|
  {
    if events == [] then Some(w)
    else
      match Step(w, events[0])
      case None => None
      case Some(next) => Run(next, events[1..])
  }

  predicate Initial(w: World) {
    && IsAddress(w.journal.owner) && 0 < w.journal.chainId
    && w.journal == Journal(w.journal.owner, w.journal.chainId, Active, [], [], [], None)
    && w.sent == {} && (forall p :: p in w.mined ==> p.call.Other?)
    && (forall key :: key in w.allowances ==> w.allowances[key] == 0)
    && w.phase == Down && !w.handling
  }
}
