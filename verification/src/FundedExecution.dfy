/**
 * The program that sends funded transactions and sets private allowances, step by step over the mutable journal. Its
 * ghost history shows that whatever it does is a run of the protocol, so all that holds of those runs holds of it.
 */
module FundedExecution {
  import opened Outcomes
  import opened RecoveryJournal
  import opened JournalModel
  import opened FundedProtocol
  import FundedSafety
  import JournalLives
  import FundedCoverage
  import FundedGuarantees

  /** `Paused`: an outcome is unknown and the run ends. `Refused`: an exception after which the run may go on. */
  datatype Interruption = Paused | Refused

  /** What signing, the nonce reservation, the network and the chain answer to one submission. */
  datatype Answers = Answers(
    chainId: int, nonce: int, granted: bool, response: Option<Hash>, noted: bool, outcome: Option<bool>, block: nat)

  type Submitted = Result<Hash, Interruption>

  // ---- Single events, as the program takes them ----

  lemma DoubtIs(w: World, k: Journal)
    requires w.phase.Sending? && w.phase.at.Doubting?
    requires RecordTransaction(w.journal, Keccak(w.phase.signed), OutcomeUnknown, None) == Ok(k)
    ensures Step(w, Doubt) == Some(To(w.(journal := k), Down))
  {
    hide RecordTransaction;
  }

  lemma ReceiptIs(w: World, outcome: Option<bool>, block: nat, k: Journal)
    requires w.phase.Sending? && w.phase.at.Waiting?
    requires outcome.Some? ==> w.phase.signed in w.mined && w.mined[w.phase.signed] == outcome.value
    requires RecordTransaction(w.journal, Keccak(w.phase.signed), StatusOf(outcome), BlockOf(outcome, block)) == Ok(k)
    ensures Step(w, Receipt(outcome, block))
      == Some(To(w.(journal := k), AfterReceipt(w.phase.purpose, w.phase.signed, outcome)))
  {
    hide RecordTransaction;
  }

  lemma ReserveIs(w: World, granted: bool)
    requires w.phase.Sending? && w.phase.at.Reserving?
    ensures Step(w, Reserve(granted)) == Some(To(w, if granted then w.phase.(at := Broadcasting) else Down))
  {
  }

  function StatusOf(outcome: Option<bool>): Status {
    if outcome.None? then OutcomeUnknown else if outcome.value then MinedSuccess else MinedFailure
  }

  /** Only a success is recorded with its block. */
  function BlockOf(outcome: Option<bool>, block: nat): Option<int> {
    if outcome == Some(true) then Some(block) else None
  }

  function AfterReceipt(purpose: Purpose, signed: Payload, outcome: Option<bool>): Phase {
    if outcome.None? then Down else if outcome.value then Mined(purpose, Keccak(signed)) else Ready(Free)
  }

  /** The payload of the hash sets the allowance to this amount. */
  predicate IsApproval(hash: Hash, key: Key, amount: nat) {
    hash.payload.signer == key.owner && hash.payload.call == Call.Approve(key.token, key.spender, amount)
  }

  /** What setting an allowance may send: a reset under its own label, and the grant of a positive amount. */
  predicate SentFor(s: (Label, Payload), goal: Goal) {
    || (s.0 == goal.name + " reset" && IsApproval(Keccak(s.1), goal.key, 0))
    || (s.0 == goal.name && goal.amount > 0 && IsApproval(Keccak(s.1), goal.key, goal.amount))
  }

  /** The journal has the transaction with the outcome of its receipt: a success with its block. */
  predicate RecordedAs(j: Journal, name: Label, hash: Hash, outcome: Option<bool>, block: nat) {
    var found := FindHash(j, hash);
    found.Some? && j.transactions[found.value].name == name &&
    var t := j.transactions[found.value];
    match outcome
    case None => t.status == OutcomeUnknown
    case Some(true) => t.status == MinedSuccess && t.block == Some(block) && t.signed == None
    case Some(false) => t.status == MinedFailure && t.signed == None
  }

  lemma WithOutcomeIsRecorded(j: Journal, i: nat, name: Label, outcome: Option<bool>, block: nat)
    requires Unique(j) && i < |j.transactions| && j.transactions[i].name == name
    ensures var k := SetTransaction(j, i, WithOutcome(j.transactions[i], StatusOf(outcome), BlockOf(outcome, block)));
      RecordedAs(k, name, j.transactions[i].hash, outcome, block)
  {
    FoundAt(SetTransaction(j, i, WithOutcome(j.transactions[i], StatusOf(outcome), BlockOf(outcome, block))), i);
  }

  /** A recovery sends nothing but resets, under the label of their obligation. */
  predicate SentToRecover(s: (Label, Payload), o: Obligation) {
    s.0 == "recovery " + o.id + " reset" && IsApproval(Keccak(s.1), KeyOf(o), 0)
  }

  /** The obligation of the allowance is inactive, and its evidence is these hashes, each once. */
  predicate ClearedWith(j: Journal, key: Key, hashes: seq<Hash>) {
    var found := FindObligation(j, ObligationId(key));
    found.Some? && !j.obligations[found.value].active && j.obligations[found.value].cleanup == Distinct(hashes)
  }

  lemma ClearedLeaves(j: Journal, key: Key, hashes: seq<Hash>)
    ensures var r := MarkCleared(j, ObligationId(key), hashes);
      r.Ok? ==> ClearedWith(r.value, key, hashes)
  {
    var id := ObligationId(key);
    var found := FindObligation(j, id);
    JournalLives.ClearedExactly(j, id, hashes);
    if found.Some? {
      JournalLives.StillFirst(j.obligations, found.value,
        j.obligations[found.value].(active := false, cleanup := Distinct(hashes)), id);
    }
  }

  /** No transition of a transaction touches an obligation. */
  lemma ObligationsKept(j: Journal, name: Label, hash: Hash, signed: Payload)
    ensures var r := RecordPrepared(j, name, hash, signed);
      r.Ok? ==> r.value.obligations == j.obligations
    ensures var r := RecordBroadcast(j, name, hash);
      r.Ok? ==> r.value.obligations == j.obligations
  {
  }

  class FundedRun {
    const journal: FundedRecoveryJournal
    var sent: set<(Label, Payload)>
    var mined: map<Payload, bool>
    var allowances: Allowances
    ghost const start: World
    ghost var events: seq<Event>
    ghost var phase: Phase
    ghost var handling: bool

    ghost function Now(): World
      reads this, journal
    {
      World(journal.State(), sent, mined, allowances, phase, handling)
    }

    /** The state is one that the protocol reaches. */
    ghost predicate Valid()
      reads this, journal
    {
      journal.Valid() && Initial(start) && Run(start, events) == Some(Now())
    }

    constructor (owner: Address, chainId: int)
      requires IsAddress(owner) && 0 < chainId
      ensures Valid() && phase == Down && fresh(journal)
    {
      journal := new FundedRecoveryJournal.Create(owner, chainId);
      sent, mined, allowances := {}, map[], map[];
      events, phase, handling := [], Down, false;
      start := World(Journal(owner, chainId, Active, [], [], [], None), {}, map[], map[], Down, false);
    }

    lemma Safe()
      requires Valid()
      ensures FundedSafety.Consistent(Now())
    {
      FundedSafety.InitialInv(start);
      FundedSafety.RunKeepsInv(start, events);
    }

    /** Goes on in another phase; a handler is over when the process leaves it. */
    ghost method Go(next: Phase)
      modifies this`phase, this`handling
      ensures phase == next && handling == (old(handling) && Running(next))
    {
      phase := next;
      handling := handling && Running(next);
    }

    /** Notes in the history that the step just taken was this event. */
    ghost method Took(e: Event, before: World)
      requires journal.Valid() && Initial(start)
      requires Run(start, events) == Some(before) && Step(before, e) == Some(Now())
      modifies this`events
      ensures Valid() && events == old(events) + [e]
    {
      FundedGuarantees.RunAppend(start, events, [e]);
      assert [e][1..] == [];
      assert Run(before, [e]) == Run(Now(), []);
      events := events + [e];
    }

    /** While the process goes on a handler stays at work; and what was sent or mined stays so. */
    twostate predicate GoesOn()
      reads this
    {
      && (Running(phase) ==> handling == old(handling))
      && old(sent) <= sent
      && forall p :: p in old(mined) ==> p in mined && mined[p] == old(mined)[p]
    }

    /** An approval of this amount was sent under the label and mined successfully. */
    predicate MinedApproval(name: Label, hash: Hash, key: Key, amount: nat)
      reads this
    {
      IsApproval(hash, key, amount) && (name, hash.payload) in sent && hash.payload in mined && mined[hash.payload]
    }

    /** The signed payload becomes durable before anything else. */
    method Record(ghost purpose: Purpose, name: Label, signed: Payload) returns (r: Answer)
      requires Valid() && phase == Sending(purpose, name, signed, Recording)
      modifies this, journal
      ensures Valid() && old(events) <= events && GoesOn() && sent == old(sent)
      ensures journal.obligations == old(journal.obligations)
      ensures r.Ok? ==> phase == Sending(purpose, name, signed, Reserving)
      ensures r.Err? ==> phase == if r.error == LabelUsed then Ready(Free) else Down
    {
      hide RecoveryJournal.Inv, RecordPrepared, Run, Initial;
      ghost var w := Now();
      ObligationsKept(journal.State(), name, Keccak(signed), signed);
      r := journal.RecordPreparedTransaction(name, Keccak(signed), signed);
      Go(if r.Ok? then Sending(purpose, name, signed, Reserving)
         else if r.error == LabelUsed then Ready(Free)
         else Down);
      Took(FundedProtocol.Record, w);
    }

    method Broadcast(ghost purpose: Purpose, name: Label, signed: Payload, response: Option<Hash>)
      requires Valid() && phase == Sending(purpose, name, signed, Broadcasting)
      modifies this
      ensures Valid() && old(events) <= events && GoesOn() && sent == old(sent) + {(name, signed)}
      ensures phase == Sending(purpose, name, signed, if response == Some(Keccak(signed)) then Noting else Doubting)
      ensures mined == old(mined)
    {
      hide RecoveryJournal.Inv, Run, Initial;
      ghost var w := Now();
      sent := sent + {(name, signed)};
      Go(Sending(purpose, name, signed, if response == Some(Keccak(signed)) then Noting else Doubting));
      Took(Send(response), w);
    }

    method NoteBroadcast(ghost purpose: Purpose, name: Label, signed: Payload, noted: bool) returns (ok: bool)
      requires Valid() && phase == Sending(purpose, name, signed, Noting)
      modifies this, journal
      ensures Valid() && old(events) <= events && GoesOn() && sent == old(sent)
      ensures phase == Sending(purpose, name, signed, if ok then Waiting else Doubting)
      ensures journal.obligations == old(journal.obligations)
    {
      hide RecoveryJournal.Inv, RecordBroadcast, Run, Initial;
      ghost var w := Now();
      ObligationsKept(journal.State(), name, Keccak(signed), signed);
      var recorded := journal.RecordBroadcastTransaction(name, Keccak(signed));
      ok := recorded.Ok? && noted;
      Go(Sending(purpose, name, signed, if ok then Waiting else Doubting));
      Took(Note(noted), w);
    }

    method ReserveNonce(ghost purpose: Purpose, name: Label, signed: Payload, granted: bool)
      requires Valid() && phase == Sending(purpose, name, signed, Reserving)
      modifies this
      ensures Valid() && old(events) <= events && GoesOn() && sent == old(sent) && mined == old(mined)
      ensures phase == if granted then Sending(purpose, name, signed, Broadcasting) else Down
    {
      hide RecoveryJournal.Inv, Run, Initial, Step;
      ghost var w := Now();
      ReserveIs(w, granted);
      Go(if granted then Sending(purpose, name, signed, Broadcasting) else Down);
      Took(Reserve(granted), w);
    }

    /** Reserves the nonce after the payload is durable, and hands it to the network after that. */
    method SendPreparedFundedTransaction(ghost purpose: Purpose, name: Label, signed: Payload, a: Answers)
      returns (r: Submitted)
      requires Valid() && phase == Sending(purpose, name, signed, Recording)
      modifies this, journal
      ensures Valid() && old(events) <= events && GoesOn()
      ensures r.Ok? ==>
        r.value == Keccak(signed) && phase == Sending(purpose, name, signed, Waiting) && (name, signed) in sent
      ensures r == Err(Paused) ==> phase == Down
      ensures r == Err(Paused) ==> sent == old(sent) || RecordedAs(journal.State(), name, Keccak(signed), None, 0)
      ensures r == Err(Refused) ==> phase == Ready(Free) && sent == old(sent)
      ensures sent <= old(sent) + {(name, signed)} && journal.obligations == old(journal.obligations)
    {
      hide Valid, RecordedAs;
      var recorded := Record(purpose, name, signed);
      if recorded.Err? {
        return Err(if recorded.error == LabelUsed then Refused else Paused);
      }
      ReserveNonce(purpose, name, signed, a.granted);
      if !a.granted {
        return Err(Paused);
      }
      Broadcast(purpose, name, signed, a.response);
      if a.response == Some(Keccak(signed)) {
        var noted := NoteBroadcast(purpose, name, signed, a.noted);
        if noted {
          return Ok(Keccak(signed));
        }
      }
      RecordUnknownBroadcastOutcome(purpose, name, signed);
      return Err(Paused);
    }

    method RecordUnknownBroadcastOutcome(ghost purpose: Purpose, name: Label, signed: Payload)
      requires Valid() && phase == Sending(purpose, name, signed, Doubting)
      modifies this, journal
      ensures Valid() && phase == Down && old(events) <= events && sent == old(sent)
      ensures var found := FindHash(old(journal.State()), Keccak(signed));
        && found.Some? && old(journal.transactions)[found.value].name == name
        && journal.State() == SetTransaction(old(journal.State()), found.value,
             old(journal.transactions)[found.value].(status := OutcomeUnknown))
      ensures RecordedAs(journal.State(), name, Keccak(signed), None, 0) && mined == old(mined)
    {
      ghost var w := Now();
      OutcomeRecorded(name, signed, OutcomeUnknown, None);
      UniqueJournal();
      WithOutcomeIsRecorded(journal.State(), FindHash(journal.State(), Keccak(signed)).value, name, None, 0);
      hide RecoveryJournal.Inv, Run, Initial, RecordTransaction, OutcomeFits, WithOutcome, FindHash, Step;
      var _ := journal.RecordOutcome(Keccak(signed), OutcomeUnknown, None);
      DoubtIs(w, journal.State());
      Go(Down);
      Took(Doubt, w);
    }

    /** The chain mines something the network was handed. */
    method ChainMines(signed: Payload, success: bool)
      requires Valid() && WasSent(Now(), signed) && signed !in mined
      modifies this
      ensures Valid() && old(events) <= events && GoesOn() && phase == old(phase) && sent == old(sent)
      ensures mined == old(mined)[signed := success] && allowances == Approved(old(allowances), signed, success)
    {
      hide RecoveryJournal.Inv, Run, Initial;
      ghost var w := Now();
      mined, allowances := mined[signed := success], Approved(allowances, signed, success);
      Took(Mine(signed, success), w);
    }

    /** An outcome of the open submission fits, and the journal takes it as the protocol does. */
    lemma OutcomeRecorded(name: Label, signed: Payload, status: Status, block: Option<int>)
      requires Valid() && phase.Sending? && phase.name == name && phase.signed == signed
      requires !phase.at.Recording? && status != Status.Broadcast && (block.Some? ==> 0 <= block.value)
      ensures FindHash(journal.State(), Keccak(signed)).Some?
      ensures OutcomeFits(journal.State(), Keccak(signed), status, block)
      ensures var found := FindHash(journal.State(), Keccak(signed)).value;
        && journal.transactions[found].name == name
        && RecordTransaction(journal.State(), Keccak(signed), status, block)
           == Ok(SetTransaction(journal.State(), found, WithOutcome(journal.transactions[found], status, block)))
        && (status == OutcomeUnknown && block.None? ==>
             WithOutcome(journal.transactions[found], status, block) == journal.transactions[found].(status := status))
    {
      Safe();
      var i := FundedSafety.OpenIndex(journal.State(), name, signed);
      OpenOutcomesFit(journal.State(), Keccak(signed), status, block);
    }

    lemma UniqueJournal()
      requires Valid()
      ensures Unique(journal.State())
    {
    }

    /** Records the outcome of the receipt, or that there is none. */
    method RecordReceipt(ghost purpose: Purpose, name: Label, signed: Payload, outcome: Option<bool>, block: nat)
      requires Valid() && phase == Sending(purpose, name, signed, Waiting)
      requires outcome.Some? ==> signed in mined && mined[signed] == outcome.value
      modifies this, journal
      ensures Valid() && old(events) <= events && GoesOn() && sent == old(sent) && mined == old(mined)
      ensures phase == AfterReceipt(purpose, signed, outcome)
      ensures RecordedAs(journal.State(), name, Keccak(signed), outcome, block)
      ensures journal.obligations == old(journal.obligations)
    {
      ghost var w := Now();
      var status, mined := StatusOf(outcome), BlockOf(outcome, block);
      OutcomeRecorded(name, signed, status, mined);
      UniqueJournal();
      WithOutcomeIsRecorded(journal.State(), FindHash(journal.State(), Keccak(signed)).value, name, outcome, block);
      hide RecoveryJournal.Inv, Run, Initial, RecordTransaction, OutcomeFits, WithOutcome, RecordedAs, Step;
      var _ := journal.RecordOutcome(Keccak(signed), status, mined);
      ReceiptIs(w, outcome, block, journal.State());
      Go(AfterReceipt(purpose, signed, outcome));
      Took(Receipt(outcome, block), w);
    }

    lemma UnknownAnyBlock(name: Label, hash: Hash, block: nat)
      ensures forall j :: RecordedAs(j, name, hash, None, 0) ==> RecordedAs(j, name, hash, None, block)
    {
    }

    /** A submission goes on only when its own payload was mined successfully. */
    method Submit(ghost purpose: Purpose, name: Label, signed: Payload, a: Answers) returns (r: Submitted)
      requires Valid() && phase == Sending(purpose, name, signed, Recording)
      modifies this, journal
      ensures Valid() && old(events) <= events && GoesOn()
      ensures r.Ok? ==>
        r.value == Keccak(signed) && phase == Mined(purpose, r.value) && signed in mined && mined[signed]
      ensures r.Ok? ==> (name, signed) in sent && RecordedAs(journal.State(), name, r.value, Some(true), a.block)
      ensures r.Err? ==> phase == if r.error.Paused? then Down else Ready(Free)
      ensures r.Err? && sent != old(sent) ==>
        RecordedAs(journal.State(), name, Keccak(signed), if r.error.Paused? then None else Some(false), a.block)
      ensures sent <= old(sent) + {(name, signed)} && journal.obligations == old(journal.obligations)
    {
      hide RecoveryJournal.Inv, Run, Initial, RecordedAs;
      UnknownAnyBlock(name, Keccak(signed), a.block);
      r := SendPreparedFundedTransaction(purpose, name, signed, a);
      if r.Err? {
        return;
      }
      var outcome := a.outcome;
      if outcome.Some? {
        if signed !in mined {
          assert WasSent(Now(), (name, signed).1);
          ChainMines(signed, outcome.value);
        }
        outcome := Some(mined[signed]);
      }
      RecordReceipt(purpose, name, signed, outcome, a.block);
      return if outcome.None? then Err(Paused) else if outcome.value then Ok(Keccak(signed)) else Err(Refused);
    }

    // ---- Setting an allowance ----

    /** Records the obligation before anything can raise the allowance. */
    method OpenObligation(ghost work: Work, goal: Goal, current: nat) returns (r: Answer)
      requires Valid() && phase == Setting(work, goal, Obliging(current))
      modifies this, journal
      ensures Valid() && old(events) <= events && GoesOn() && allowances == old(allowances)
      ensures phase == if r.Ok? then Setting(work, goal, Resetting(current)) else Ready(Free)
      ensures sent == old(sent)
      ensures r.Ok? && (current > 0 || goal.amount > 0) ==> FundedSafety.Covered(journal.State(), goal.key)
      ensures current == 0 && goal.amount == 0 ==> journal.obligations == old(journal.obligations)
    {
      Safe();
      FundedSafety.ObligingCovers(journal.State(), goal.key);
      hide RecoveryJournal.Inv, RecordObligation, Run, Initial, FundedSafety.Covered;
      ghost var w := Now();
      r := Ok(());
      if current > 0 || goal.amount > 0 {
        var key := goal.key;
        r := journal.RecordAllowanceObligation(ObligationId(key), key.owner, key.token, key.spender);
      }
      Go(if r.Ok? then Setting(work, goal, Resetting(current)) else Ready(Free));
      Took(Advance, w);
    }

    /** Signs and submits an approval of `amount`. */
    method Approve(ghost purpose: Purpose, goal: Goal, name: Label, amount: nat, a: Answers) returns (r: Submitted)
      requires Valid() && phase.Setting?
      requires SignStep(Now(), a.chainId, a.nonce) == Some(To(Now(), SigningDone(Now(), purpose, name,
        Payload(goal.key.owner, a.chainId, a.nonce, Call.Approve(goal.key.token, goal.key.spender, amount)))))
      modifies this, journal
      ensures Valid() && old(events) <= events && GoesOn()
      ensures r.Ok? ==> phase == Mined(purpose, r.value) && MinedApproval(name, r.value, goal.key, amount)
      ensures r.Err? ==> phase == if r.error.Paused? then Down else Ready(Free)
      ensures forall s :: s in sent && s !in old(sent) ==> s.0 == name && IsApproval(Keccak(s.1), goal.key, amount)
      ensures journal.obligations == old(journal.obligations)
    {
      hide RecoveryJournal.Inv, Run, Initial;
      ghost var w := Now();
      var signed := Payload(goal.key.owner, a.chainId, a.nonce, Call.Approve(goal.key.token, goal.key.spender, amount));
      Go(SigningDone(w, purpose, name, signed));
      Took(Sign(a.chainId, a.nonce), w);
      if a.chainId != journal.chainId || a.nonce < 0 {
        return Err(Paused);
      }
      r := Submit(purpose, name, signed, a);
    }

    /** Clears the obligation of an allowance that was just read as zero. */
    method Clear(ghost work: Work, goal: Goal, hashes: seq<Hash>) returns (r: Answer)
      requires Valid() && phase == Setting(work, goal, Clearing(hashes))
      modifies this, journal
      ensures Valid() && old(events) <= events && GoesOn() && allowances == old(allowances)
      ensures phase == if r.Ok? then After(work) else Ready(Free)
      ensures r.Ok? ==> !FundedSafety.Covered(journal.State(), goal.key)
      ensures r.Ok? && old(FundedSafety.Covered(journal.State(), goal.key)) ==>
        ClearedWith(journal.State(), goal.key, hashes)
      ensures sent == old(sent) && mined == old(mined)
    {
      hide RecoveryJournal.Inv, Run, Initial, MarkCleared, FundedSafety.Covered, ClearedWith;
      ghost var w := Now();
      Safe();
      var id := ObligationId(goal.key);
      var found := FindObligation(journal.State(), id);
      FundedSafety.CoveredExactly(journal.State(), goal.key);
      r := Ok(());
      if found.Some? && journal.obligations[found.value].active {
        FundedSafety.FoundKey(journal.State(), goal.key);
        FundedSafety.ClearingUncovers(journal.State(), goal.key, hashes);
        ClearedLeaves(journal.State(), goal.key, hashes);
        r := journal.MarkAllowanceCleared(id, hashes);
      }
      Go(if r.Ok? then After(work) else Ready(Free));
      Took(Advance, w);
    }

    /** Resets a different non-zero allowance to zero first. */
    method ResetIfDue(ghost work: Work, goal: Goal, current: nat, a: Answers)
      returns (r: Result<seq<Hash>, Interruption>)
      requires Valid() && phase == Setting(work, goal, Resetting(current))
      modifies this, journal
      ensures Valid() && old(events) <= events && GoesOn()
      ensures r.Ok? ==> phase == Setting(work, goal, Granting(if current == goal.amount then current else 0, r.value))
      ensures r.Ok? && (current == 0 || current == goal.amount) ==> r.value == [] && sent == old(sent)
      ensures r.Ok? && current != 0 && current != goal.amount ==>
        |r.value| == 1 && MinedApproval(goal.name + " reset", r.value[0], goal.key, 0)
      ensures forall s :: s in sent && s !in old(sent) ==> SentFor(s, goal)
      ensures journal.obligations == old(journal.obligations)
      ensures r.Err? ==> phase == if r.error.Paused? then Down else Ready(Free)
    {
      hide RecoveryJournal.Inv, Run, Initial, RecordObligation, MarkCleared;
      if current != 0 && current != goal.amount {
        var reset := Approve(ForReset(work, goal), goal, goal.name + " reset", 0, a);
        return if reset.Ok? then Ok([reset.value]) else Err(reset.error);
      }
      ghost var w := Now();
      Go(Setting(work, goal, Granting(current, [])));
      Took(Advance, w);
      return Ok([]);
    }

    method GrantIfDue(ghost work: Work, goal: Goal, current: nat, hashes: seq<Hash>, a: Answers)
      returns (r: Result<seq<Hash>, Interruption>)
      requires Valid() && phase == Setting(work, goal, Granting(current, hashes))
      modifies this, journal
      ensures Valid() && old(events) <= events && GoesOn()
      ensures r.Ok? ==> phase == Setting(work, goal, Verifying(r.value))
      ensures r.Ok? && (goal.amount == 0 || current == goal.amount) ==> r.value == hashes && sent == old(sent)
      ensures r.Ok? && goal.amount != 0 && current != goal.amount ==>
        && |r.value| == |hashes| + 1 && r.value[..|hashes|] == hashes
        && MinedApproval(goal.name, r.value[|hashes|], goal.key, goal.amount)
      ensures forall s :: s in sent && s !in old(sent) ==> SentFor(s, goal)
      ensures journal.obligations == old(journal.obligations)
      ensures r.Err? ==> phase == if r.error.Paused? then Down else Ready(Free)
    {
      hide RecoveryJournal.Inv, Run, Initial, RecordObligation, MarkCleared;
      if goal.amount != 0 && current != goal.amount {
        var grant := Approve(ForGrant(work, goal, hashes), goal, goal.name, goal.amount, a);
        return if grant.Ok? then Ok(hashes + [grant.value]) else Err(grant.error);
      }
      ghost var w := Now();
      Go(Setting(work, goal, Verifying(hashes)));
      Took(Advance, w);
      return Ok(hashes);
    }

    method ReadAllowance(ghost work: Work, goal: Goal) returns (current: nat)
      requires Valid() && phase == Setting(work, goal, Reading)
      modifies this
      ensures Valid() && old(events) <= events && GoesOn() && phase == Setting(work, goal, Obliging(current))
      ensures current == AllowanceOf(allowances, goal.key) && allowances == old(allowances) && sent == old(sent)
    {
      hide RecoveryJournal.Inv, Run, Initial, RecordObligation, MarkCleared;
      ghost var w := Now();
      current := AllowanceOf(allowances, goal.key);
      Go(Setting(work, goal, Obliging(current)));
      Took(Advance, w);
    }

    /**
     * Sets a private allowance: the obligation first, then the reset and the grant that are due, then a read that must
     * show the amount, and only for a zero amount the clearing of the obligation.
     */
    method SetRecoverablePrivateAllowance(ghost work: Work, goal: Goal, network: Label -> Answers)
      returns (r: Result<seq<Hash>, Interruption>)
      requires Valid() && phase == Setting(work, goal, Reading)
      modifies this, journal
      ensures Valid() && old(events) <= events && GoesOn()
      ensures r.Ok? ==> phase == After(work) && AllowanceOf(allowances, goal.key) == goal.amount
      ensures r.Ok? ==> (FundedSafety.Covered(journal.State(), goal.key) <==> goal.amount > 0)
      ensures r.Err? ==> phase == if r.error.Paused? then Down else Ready(Free)
      ensures r.Ok? ==> AsDue(goal, old(AllowanceOf(allowances, goal.key)), r.value)
      ensures r.Ok? ==> (r.value == [] <==> old(AllowanceOf(allowances, goal.key)) == goal.amount)
      ensures r.Ok? && goal.amount == 0 && old(AllowanceOf(allowances, goal.key)) > 0 ==>
        ClearedWith(journal.State(), goal.key, r.value)
      ensures r.Ok? && goal.amount == 0 && old(FundedSafety.Covered(journal.State(), goal.key)) ==>
        ClearedWith(journal.State(), goal.key, r.value)
      ensures forall s :: s in sent && s !in old(sent) ==> SentFor(s, goal)
    {
      hide Valid, FundedSafety.Covered, SentFor, IsApproval, ClearedWith;
      ghost var first := journal.State();
      var current := ReadAllowance(work, goal);
      var obliged := OpenObligation(work, goal, current);
      if obliged.Err? {
        return Err(Refused);
      }
      ghost var before := journal.State();
      if current == 0 && goal.amount == 0 {
        FundedSafety.SameObligationsCover(first, before);
      }
      r := ApproveAsDue(work, goal, current, network);
      if r.Err? {
        return r;
      }
      FundedSafety.SameObligationsCover(before, journal.State());
      r := Verify(work, goal, r.value);
    }

    /** The reset and the grant that are due. */
    method ApproveAsDue(ghost work: Work, goal: Goal, current: nat, network: Label -> Answers)
      returns (r: Result<seq<Hash>, Interruption>)
      requires Valid() && phase == Setting(work, goal, Resetting(current))
      modifies this, journal
      ensures Valid() && old(events) <= events && GoesOn()
      ensures r.Ok? ==> phase == Setting(work, goal, Verifying(r.value)) && AsDue(goal, current, r.value)
      ensures forall s :: s in sent && s !in old(sent) ==> SentFor(s, goal)
      ensures journal.obligations == old(journal.obligations)
      ensures r.Err? ==> phase == if r.error.Paused? then Down else Ready(Free)
    {
      hide Valid, SentFor, IsApproval;
      r := ResetIfDue(work, goal, current, network(goal.name + " reset"));
      if r.Err? {
        return r;
      }
      r := GrantIfDue(work, goal, if current == goal.amount then current else 0, r.value, network(goal.name));
    }

    /**
     * The hashes of a setting: none if the allowance was right; the reset of another non-zero allowance; then the grant
     * of a non-zero amount. Each is an approval that was sent under its own label and mined.
     */
    predicate AsDue(goal: Goal, before: nat, hashes: seq<Hash>)
      reads this
    {
      var resets := if before != 0 && before != goal.amount then 1 else 0;
      var grants := if goal.amount != 0 && before != goal.amount then 1 else 0;
      && |hashes| == resets + grants
      && (resets == 1 ==> MinedApproval(goal.name + " reset", hashes[0], goal.key, 0))
      && (grants == 1 ==> MinedApproval(goal.name, hashes[resets], goal.key, goal.amount))
    }

    method Verify(ghost work: Work, goal: Goal, hashes: seq<Hash>) returns (r: Result<seq<Hash>, Interruption>)
      requires Valid() && phase == Setting(work, goal, Verifying(hashes))
      modifies this, journal
      ensures Valid() && old(events) <= events && GoesOn()
      ensures r.Ok? ==> phase == After(work) && AllowanceOf(allowances, goal.key) == goal.amount
      ensures r.Ok? ==> (FundedSafety.Covered(journal.State(), goal.key) <==> goal.amount > 0)
      ensures r.Err? ==> phase == Ready(Free) && r.error.Refused?
      ensures r.Ok? ==> r.value == hashes
      ensures r.Ok? && goal.amount == 0 && old(FundedSafety.Covered(journal.State(), goal.key)) ==>
        ClearedWith(journal.State(), goal.key, hashes)
      ensures sent == old(sent) && mined == old(mined)
    {
      hide RecoveryJournal.Inv, Run, Initial, MarkCleared, FundedSafety.Covered;
      ghost var w := Now();
      Safe();
      var verified := AllowanceOf(allowances, goal.key);
      Go(if verified != goal.amount then Ready(Free)
        else if goal.amount == 0 then Setting(work, goal, Clearing(hashes))
        else After(work));
      Took(Advance, w);
      if verified != goal.amount {
        return Err(Refused);
      }
      if goal.amount == 0 {
        var cleared := Clear(work, goal, hashes);
        if cleared.Err? {
          return Err(Refused);
        }
      }
      return Ok(hashes);
    }

    // ---- Recovery ----

    /** One obligation of a recovery's list is cleared by setting its allowance to zero. */
    method ClearNext(ghost queue: seq<Obligation>, next: Obligation, network: Label -> Answers)
      returns (r: Result<seq<Hash>, Interruption>)
      requires Valid() && phase == Ready(Recovering(queue)) && queue != [] && queue[0] == next
      modifies this, journal
      ensures Valid() && old(events) <= events && GoesOn()
      ensures r.Ok? ==> phase == Ready(Recovering(queue[1..]))
      ensures forall s :: s in sent && s !in old(sent) ==> SentToRecover(s, next)
      ensures r.Err? ==> phase == if r.error.Paused? then Down else Ready(Free)
    {
      hide RecoveryJournal.Inv, Run, Initial;
      var goal := Goal(KeyOf(next), 0, "recovery " + next.id);
      ghost var w := Now();
      Go(Setting(Recovering(queue), goal, Reading));
      Took(StartSetting(goal), w);
      r := SetRecoverablePrivateAllowance(Recovering(queue), goal, network);
    }

    /**
     * A recovery that completes leaves no active obligation; no allowance, if the clearings of the run fit; and nothing
     * in flight, unless it runs in a catch handler.
     */
    method RecoverPrivateAllowanceObligations(network: Label -> Answers) returns (r: Result<(), Interruption>)
      requires Valid() && phase == Ready(Free)
      modifies this, journal
      ensures Valid() && old(events) <= events && GoesOn()
      ensures r.Ok? ==> phase == Ready(Free)
      ensures r.Ok? ==> forall o :: o in journal.obligations ==> !o.active
      ensures r.Ok? && FundedCoverage.ClearsFit(start, events) ==> FundedGuarantees.NoAllowance(Now())
      ensures r.Ok? && !handling ==> FundedGuarantees.AllMined(Now())
      ensures forall s :: s in sent && s !in old(sent) ==>
        exists o :: o in old(journal.obligations) && o.active && SentToRecover(s, o)
      ensures r.Err? ==> phase == if r.error.Paused? then Down else Ready(Free)
    {
      hide Valid, FundedCoverage.ClearsFit;
      var active := BeginRecovery();
      for i := 0 to |active|
        invariant Valid() && old(events) <= events && phase == Ready(Recovering(active[i..]))
        invariant GoesOn()
        invariant forall s :: s in sent && s !in old(sent) ==>
          exists o :: o in old(journal.obligations) && o.active && SentToRecover(s, o)
      {
        ghost var queue := active[i..];
        var cleared := ClearNext(queue, active[i], network);
        if cleared.Err? {
          return Err(cleared.error);
        }
        assert queue[1..] == active[i + 1..];
      }
      EndRecovery();
      return Ok(());
    }

    method BeginRecovery() returns (active: seq<Obligation>)
      requires Valid() && phase == Ready(Free)
      modifies this
      ensures Valid() && old(events) <= events && phase == Ready(Recovering(active)) && handling == old(handling)
      ensures forall o :: o in active <==> o in journal.obligations && o.active
      ensures sent == old(sent) && mined == old(mined)
    {
      hide RecoveryJournal.Inv, Run, Initial;
      ghost var w := Now();
      active := ActiveObligations(journal.State());
      Go(Ready(Recovering(active)));
      Took(StartRecovery, w);
    }

    method EndRecovery()
      requires Valid() && phase == Ready(Recovering([]))
      modifies this
      ensures Valid() && old(events) <= events && phase == Ready(Free) && handling == old(handling)
      ensures forall o :: o in journal.obligations ==> !o.active
      ensures FundedCoverage.ClearsFit(start, events) ==> FundedGuarantees.NoAllowance(Now())
      ensures !handling ==> FundedGuarantees.AllMined(Now())
      ensures sent == old(sent) && mined == old(mined)
    {
      hide RecoveryJournal.Inv, Run, Initial, FundedCoverage.ClearsFit;
      ghost var w := Now();
      ghost var before := events;
      FundedGuarantees.RecoveryLeavesNothing(start, events);
      Go(Ready(Free));
      Took(FinishRecovery, w);
      if FundedCoverage.ClearsFit(start, events) {
        FundedCoverage.FitPrefix(start, events, |before|);
        assert events[..|before|] == before;
      }
    }

    // ---- Starting ----

    /**
     * Opens the stored journal and asks the chain about every open transaction. The program goes on exactly when
     * nothing is left open; then everything it ever sent is mined.
     */
    method Start(inspect: Hash -> Inspection) returns (ready: bool)
      requires Valid() && phase == Down
      requires forall t :: t in journal.transactions ==> Sound(Now(), t.hash.payload, inspect(t.hash))
      modifies this, journal
      ensures Valid() && old(events) <= events
      ensures ready <==> OpenHashes(journal.transactions) == []
      ensures phase == if ready then Ready(Free) else Thrown
      ensures ready ==> FundedGuarantees.AllMined(Now())
    {
      hide Valid, Sound, OpenHashes, FundedGuarantees.AllMined;
      BeginReconciling();
      ready := true;
      NothingOpenYet();
      for i := 0 to |journal.transactions|
        invariant Valid() && old(events) <= events && phase == Reconciling(i, ready)
        invariant sent == old(sent) && mined == old(mined) && |journal.transactions| == |old(journal.transactions)|
        invariant ready <==> OpenHashes(journal.transactions[..i]) == []
        invariant forall k :: i <= k < |journal.transactions| ==>
          journal.transactions[k] == old(journal.transactions)[k]
      {
        assert old(journal.transactions)[i] in old(journal.transactions);
        assert Sound(old(Now()), journal.transactions[i].hash.payload, inspect(journal.transactions[i].hash));
        SameChain(old(Now()), Now(), journal.transactions[i].hash.payload, inspect(journal.transactions[i].hash));
        ready := Inspect(i, ready, inspect);
      }
      assert journal.transactions[..|journal.transactions|] == journal.transactions;
      EndReconciling(ready);
    }

    lemma NothingOpenYet()
      ensures OpenHashes(journal.transactions[..0]) == []
    {
      assert journal.transactions[..0] == [];
    }

    lemma SameChain(w: World, v: World, payload: Payload, answer: Inspection)
      requires v.mined == w.mined
      ensures Sound(w, payload, answer) == Sound(v, payload, answer)
    {
    }

    method BeginReconciling()
      requires Valid() && phase == Down
      modifies this
      ensures Valid() && old(events) <= events && phase == Reconciling(0, true)
      ensures sent == old(sent) && mined == old(mined)
    {
      hide Run, Initial, RecoveryJournal.Inv;
      ghost var w := Now();
      FundedGuarantees.EveryReloadSucceeds(start, events);
      hide Reload;
      Go(Reconciling(0, true));
      Took(Boot, w);
    }

    method EndReconciling(ready: bool)
      requires Valid() && phase == Reconciling(|journal.transactions|, ready)
      modifies this
      ensures Valid() && old(events) <= events && phase == if ready then Ready(Free) else Thrown
      ensures ready ==> FundedGuarantees.AllMined(Now())
    {
      hide Run, Initial, RecoveryJournal.Inv;
      ghost var w := Now();
      Safe();
      Go(if ready then Ready(Free) else Thrown);
      Took(FundedProtocol.Inspect(Absent), w);
      FundedGuarantees.ReadyMeansSettled(start, events);
    }

    method Inspect(i: nat, clean: bool, inspect: Hash -> Inspection) returns (r: bool)
      requires Valid() && phase == Reconciling(i, clean) && i < |journal.transactions|
      requires Sound(Now(), journal.transactions[i].hash.payload, inspect(journal.transactions[i].hash))
      requires clean <==> OpenHashes(journal.transactions[..i]) == []
      modifies this, journal
      ensures Valid() && old(events) <= events && phase == Reconciling(i + 1, r)
      ensures sent == old(sent) && mined == old(mined) && |journal.transactions| == |old(journal.transactions)|
      ensures forall k :: 0 <= k < |journal.transactions| && k != i ==>
        journal.transactions[k] == old(journal.transactions)[k]
      ensures r <==> OpenHashes(journal.transactions[..i + 1]) == []
    {
      hide Run, Initial, RecoveryJournal.Inv, Reconciled;
      ghost var w := Now();
      ghost var prior := journal.transactions[..i];
      var open := journal.ReconcileOne(i, inspect);
      r := clean && !open;
      Go(Reconciling(i + 1, r));
      Took(FundedProtocol.Inspect(inspect(w.journal.transactions[i].hash)), w);
      assert journal.transactions[..i + 1][..i] == prior;
    }

    /**
     * The catch handler of a run that failed, be it at the gate: it recovers allowances with whatever is open, and
     * marks the run failed, or its recovery.
     */
    method CatchFailure(network: Label -> Answers) returns (r: Result<(), Interruption>)
      requires Valid() && phase == Thrown
      modifies this, journal
      ensures Valid() && old(events) <= events && Handle in events
      ensures journal.runStatus == if r.Ok? then Failed else RecoveryFailed
      ensures r.Ok? ==> forall o :: o in journal.obligations ==> !o.active
      ensures r.Ok? && FundedCoverage.ClearsFit(start, events) ==> FundedGuarantees.NoAllowance(Now())
    {
      hide RecoveryJournal.Inv, Run, Initial;
      ghost var w := Now();
      phase, handling := Ready(Free), true;
      Took(Handle, w);
      ghost var handled := events;
      r := RecoverPrivateAllowanceObligations(network);
      assert handled[|handled| - 1] == Handle && handled <= events;
      Conclude(if r.Ok? then Failed else RecoveryFailed);
    }

    method Conclude(status: RunStatus)
      requires Valid() && status != EvidencePending && status != EvidenceFailed
      modifies this, journal
      ensures Valid() && events == old(events) + [FundedProtocol.Conclude(status)]
      ensures Now() == old(Now()).(journal := MarkRun(old(journal.State()), status))
      ensures FundedCoverage.ClearsFit(start, events) ==> FundedCoverage.ClearsFit(start, old(events))
    {
      hide RecoveryJournal.Inv, Run, Initial, FundedCoverage.ClearsFit;
      ghost var w := Now();
      ghost var before := events;
      journal.MarkRun(status);
      Took(FundedProtocol.Conclude(status), w);
      if FundedCoverage.ClearsFit(start, events) {
        FundedCoverage.FitPrefix(start, events, |before|);
        assert events[..|before|] == before;
      }
    }
  }
}
