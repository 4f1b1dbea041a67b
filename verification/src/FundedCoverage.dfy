/**
 * When private allowances stay covered by active obligations. The code clears an obligation without looking at open
 * transactions, and a catch handler may do so while some are open; so this is not a property of all runs. It holds of
 * exactly those whose clearings fit.
 */
module FundedCoverage {
  import opened Outcomes
  import opened RecoveryJournal
  import opened FundedProtocol
  import opened FundedSafety

  ghost predicate AllowancesCovered(j: Journal, allowances: Allowances) {
    forall key :: AllowanceOf(allowances, key) > 0 ==> Covered(j, key)
  }

  /** An open entry that may still be mined: it is in flight, or a rebroadcast would send it. */
  ghost predicate Threat(w: World, t: Transaction) {
    !t.Terminal() && t.hash.payload !in w.mined && (WasSent(w, t.hash.payload) || Identified(w.journal, t))
  }

  ghost predicate Threatened(w: World, key: Key) {
    exists t :: t in w.journal.transactions && Threat(w, t) && Grants(t.hash.payload, key)
  }

  ghost predicate ThreatsCovered(w: World) {
    forall key :: Threatened(w, key) ==> Covered(w.journal, key)
  }

  ghost predicate Protected(w: World) {
    AllowancesCovered(w.journal, w.allowances) && ThreatsCovered(w)
  }

  /** The allowance is zero, and no open entry can still raise it. */
  ghost predicate ClearFits(w: World, key: Key) {
    AllowanceOf(w.allowances, key) == 0 && !Threatened(w, key)
  }

  // ---- Steps that clear nothing ----

  /** Every threat after the step was one before it, or is covered anyway. */
  ghost predicate NoNewThreat(w: World, v: World) {
    forall t :: t in v.journal.transactions && Threat(v, t) ==>
      (exists u :: u in w.journal.transactions && u.hash == t.hash && Threat(w, u))
      || (forall key :: Grants(t.hash.payload, key) ==> Covered(v.journal, key))
  }

  lemma ProtectedStays(w: World, v: World)
    requires Protected(w) && NoNewThreat(w, v)
    requires forall key :: AllowanceOf(v.allowances, key) > 0 ==>
      AllowanceOf(w.allowances, key) > 0 || Covered(v.journal, key)
    requires forall key :: Covered(w.journal, key) ==> Covered(v.journal, key)
    ensures Protected(v)
  {
    hide Threat, Grants, AllowanceOf, Covered;
    forall key | Threatened(v, key)
      ensures Covered(v.journal, key)
    {
      var t :| t in v.journal.transactions && Threat(v, t) && Grants(t.hash.payload, key);
      if exists u :: u in w.journal.transactions && u.hash == t.hash && Threat(w, u) {
        var u :| u in w.journal.transactions && u.hash == t.hash && Threat(w, u);
        assert Threatened(w, key);
      }
    }
  }

  /** Nothing sent, nothing more mined, and the transactions as they were. */
  lemma QuietStep(w: World, v: World)
    requires Protected(w) && v.sent == w.sent && v.mined == w.mined && v.allowances == w.allowances
    requires v.journal.transactions == w.journal.transactions
    requires v.journal.owner == w.journal.owner && v.journal.chainId == w.journal.chainId
    requires forall key :: Covered(w.journal, key) ==> Covered(v.journal, key)
    ensures Protected(v)
  {
    hide Grants, AllowanceOf, Covered;
    assert forall p :: WasSent(w, p) == WasSent(v, p);
    assert forall t :: Threat(w, t) == Threat(v, t);
    ProtectedStays(w, v);
  }

  /** One entry changed; if it is still open it was open before with the same bytes. */
  lemma EntryStep(w: World, v: World, i: nat, t: Transaction)
    requires Protected(w) && i < |w.journal.transactions| && v.journal == SetTransaction(w.journal, i, t)
    requires v.sent == w.sent && v.mined == w.mined && v.allowances == w.allowances
    requires t.hash == w.journal.transactions[i].hash
    requires !t.Terminal() ==> !w.journal.transactions[i].Terminal() && t.signed == w.journal.transactions[i].signed
    ensures Protected(v)
  {
    hide Grants, AllowanceOf, Covered;
    SameObligationsCover(w.journal, v.journal);
    assert forall p :: WasSent(w, p) == WasSent(v, p);
    forall u | u in v.journal.transactions && Threat(v, u)
      ensures exists x :: x in w.journal.transactions && x.hash == u.hash && Threat(w, x)
    {
      var n :| 0 <= n < |v.journal.transactions| && v.journal.transactions[n] == u;
      var x := w.journal.transactions[n];
      assert x in w.journal.transactions && x.hash == u.hash && Threat(w, x);
    }
    ProtectedStays(w, v);
  }

  /** One entry added, which is terminal or grants only what is covered. */
  lemma AppendStep(w: World, v: World, t: Transaction)
    requires Protected(w) && v.journal == w.journal.(transactions := w.journal.transactions + [t])
    requires v.sent == w.sent && v.mined == w.mined && v.allowances == w.allowances
    requires t.Terminal() || forall key :: Grants(t.hash.payload, key) ==> Covered(w.journal, key)
    ensures Protected(v)
  {
    hide Grants, AllowanceOf, Covered;
    SameObligationsCover(w.journal, v.journal);
    assert forall p :: WasSent(w, p) == WasSent(v, p);
    assert forall u :: Threat(w, u) == Threat(v, u);
    ProtectedStays(w, v);
  }

  /** A payload is sent that grants only what is covered, or that a rebroadcast could have sent. */
  lemma SentStep(w: World, v: World, name: Label, p: Payload)
    requires Protected(w) && v.journal == w.journal && v.sent == w.sent + {(name, p)}
    requires v.mined == w.mined && v.allowances == w.allowances
    requires (forall key :: Grants(p, key) ==> Covered(w.journal, key))
      || (p !in w.mined ==> exists t :: t in w.journal.transactions && t.hash == Keccak(p) && Threat(w, t))
    ensures Protected(v)
  {
    hide Grants, AllowanceOf, Covered;
    assert forall q :: WasSent(v, q) ==> q == p || WasSent(w, q);
    forall t | t in v.journal.transactions && Threat(v, t)
      ensures (exists u :: u in w.journal.transactions && u.hash == t.hash && Threat(w, u))
        || (forall key :: Grants(t.hash.payload, key) ==> Covered(v.journal, key))
    {
      if t.hash.payload != p {
        assert Threat(w, t);
      } else if !(forall key :: Grants(p, key) ==> Covered(w.journal, key)) {
        assert t.hash == Keccak(p);
      }
    }
    ProtectedStays(w, v);
  }

  lemma MineProtects(w: World, p: Payload, success: bool)
    requires Core(w) && Protected(w) && WasSent(w, p) && p !in w.mined
    ensures Protected(w.(mined := w.mined[p := success], allowances := Approved(w.allowances, p, success)))
  {
    hide RecoveryJournal.Inv, Covered, Obligations;
    var v := w.(mined := w.mined[p := success], allowances := Approved(w.allowances, p, success));
    UnminedIsOpen(w, p);
    var t :| t in w.journal.transactions && t.hash == Keccak(p) && !t.Terminal();
    assert Threat(w, t);
    forall key | AllowanceOf(v.allowances, key) > 0 && AllowanceOf(w.allowances, key) == 0
      ensures Covered(v.journal, key)
    {
      assert Grants(t.hash.payload, key) && Threatened(w, key);
    }
    FewerThreats(w, v);
  }

  /** Mining takes threats away. */
  lemma FewerThreats(w: World, v: World)
    requires Protected(w) && v.journal == w.journal && v.sent == w.sent && w.mined.Keys <= v.mined.Keys
    requires forall key ::
      AllowanceOf(v.allowances, key) > 0 ==> AllowanceOf(w.allowances, key) > 0 || Covered(w.journal, key)
    ensures Protected(v)
  {
    hide Grants, AllowanceOf, Covered;
    assert forall p :: WasSent(w, p) == WasSent(v, p);
    assert forall t :: Threat(v, t) ==> Threat(w, t);
    ProtectedStays(w, v);
  }

  lemma ChainProtects(w: World, e: Event)
    requires Consistent(w) && Protected(w)
    ensures var r := ChainStep(w, e); r.Some? ==> Protected(r.value)
  {
    hide Consistent, Protected, Covered, Approved;
    var r := ChainStep(w, e);
    if r.Some? {
      match e
      case Mine(p, success) =>
        ConsistentIsCore(w);
        MineProtects(w, p, success);
      case MineForeign(_, _) => FewerThreats(w, r.value);
      case Spend(_, _) => FewerThreats(w, r.value);
    }
  }

  lemma ConsistentIsCore(w: World)
    requires Consistent(w)
    ensures Core(w) && RecoveryJournal.Inv(w.journal)
  {
  }

  lemma ResendProtects(w: World, hash: Hash, answer: Inspection, response: Option<Hash>)
    requires Core(w) && Protected(w) && Sound(w, hash.payload, answer)
    ensures Protected(ResendStep(w, hash, answer, response).value)
  {
    hide Obligations, Protected, Covered, Grants;
    var j := w.journal;
    var found := FindHash(j, hash);
    var r := Rebroadcast(j, hash, answer, response);
    var next := ResendStep(w, hash, answer, response).value;
    if found.Some? {
      var i := found.value;
      var t := j.transactions[i];
      assert t in j.transactions;
      var v := w.(sent := next.sent);
      if r.sent.Some? {
        assert t.hash.payload !in w.mined ==> Threat(w, t);
        SentStep(w, v, t.name, r.sent.value);
      } else {
        assert v == w;
      }
      if r.recorded.Ok? && r.recorded.value != j {
        EntryStep(v, next, i, r.recorded.value.transactions[i]);
      }
    } else {
      assert next == w.(sent := w.sent + {});
      QuietStep(w, next);
    }
  }

  lemma DownProtects(w: World, e: Event)
    requires Consistent(w) && w.phase.Down? && Protected(w)
    ensures var r := DownStep(w, e); r.Some? ==> Protected(r.value)
  {
    hide Consistent, Protected, ResendStep, Covered;
    var r := DownStep(w, e);
    if r.Some? {
      if e.Resend? {
        ConsistentIsCore(w);
        ResendKnown(w, e);
        ResendProtects(w, e.hash, e.answer, e.response);
      } else {
        QuietStep(w, r.value);
      }
    }
  }

  lemma ResendKnown(w: World, e: Event)
    requires e.Resend? && ResendStep(w, e.hash, e.answer, e.response).Some?
    ensures Sound(w, e.hash.payload, e.answer)
  {
  }

  lemma InspectProtects(w: World, answer: Inspection)
    requires w.phase.Reconciling? && Protected(w)
    ensures var r := InspectStep(w, answer); r.Some? ==> Protected(r.value)
  {
    hide Protected, Covered;
    var i, r := w.phase.next, InspectStep(w, answer);
    if r.Some? {
      if i < |w.journal.transactions| {
        EntryStep(w, r.value, i, Reconciled(w.journal, w.journal.transactions[i], answer));
      } else {
        QuietStep(w, r.value);
      }
    }
  }

  lemma ObservedProtects(w: World, name: Label, payload: Payload, block: int)
    requires Protected(w)
    ensures var r := RecordObserved(w.journal, name, Keccak(payload), block);
      Protected(FundedProtocol.Journaled(w, r, w.phase, w.phase))
  {
    hide Protected, Covered;
    var r := RecordObserved(w.journal, name, Keccak(payload), block);
    var v := FundedProtocol.Journaled(w, r, w.phase, w.phase);
    if v.journal == w.journal {
      QuietStep(w, v);
    } else {
      AppendStep(w, v, Transaction(name, Keccak(payload), MinedSuccess, None, Some(block)));
    }
  }

  /** The books about resources touch neither transactions nor obligations. */
  lemma ResourceBooks(w: World, entry: Entry)
    requires !entry.Observed? && BookStep(w, entry).Some?
    ensures var v := BookStep(w, entry).value;
      && v == To(w.(journal := v.journal), w.phase)
      && v.journal == w.journal.(resources := v.journal.resources)
  {
  }

  lemma BookProtects(w: World, entry: Entry)
    requires Protected(w)
    ensures var r := BookStep(w, entry); r.Some? ==> Protected(r.value)
  {
    hide Protected, Covered, RecordObserved, RecordResource, RecoveryJournal.MarkRecovered, UpdateMetadata;
    var r := BookStep(w, entry);
    if entry.Observed? {
      ObservedProtects(w, entry.name, entry.payload, entry.block);
    } else if r.Some? {
      ResourceBooks(w, entry);
      SameObligationsCover(w.journal, r.value.journal);
      QuietStep(w, r.value);
    }
  }

  lemma ReadyProtects(w: World, e: Event)
    requires w.phase.Ready? && Protected(w)
    ensures var r := ReadyStep(w, e); r.Some? ==> Protected(r.value)
  {
    hide Protected, Covered, BookStep, IsAddress, OnlyActive;
    if e.Book? {
      BookProtects(w, e.entry);
    } else if ReadyStep(w, e).Some? {
      QuietStep(w, ReadyStep(w, e).value);
    }
  }

  lemma RunStepProtects(w: World, e: Event)
    requires Protected(w)
    ensures var r := RunStep(w, e); r.Some? ==> Protected(r.value)
  {
    hide Protected, Covered;
    var r := RunStep(w, e);
    if r.Some? {
      SameObligationsCover(w.journal, r.value.journal);
      QuietStep(w, r.value);
    }
  }

  lemma SendingProtects(w: World, e: Event)
    requires Consistent(w) && w.phase.Sending? && Protected(w)
    ensures var r := SendingStep(w, e); r.Some? ==> Protected(r.value)
  {
    hide Consistent, Protected, Covered, RecordPrepared, RecordBroadcast, RecordTransaction;
    var r := SendingStep(w, e);
    if r.Some? {
      var at := w.phase.at;
      if r.value.journal == w.journal && r.value.sent == w.sent {
        QuietStep(w, r.value);
      } else if at.Recording? {
        PreparedProtects(w, r.value);
      } else if at.Broadcasting? {
        SubmissionCovered(w);
        SentStep(w, To(w, r.value.phase).(sent := r.value.sent), w.phase.name, w.phase.signed);
      } else {
        OutcomeProtects(w, r.value, e);
      }
    }
  }

  lemma SubmissionCovered(w: World)
    requires Consistent(w) && w.phase.Sending?
    ensures forall key :: Grants(w.phase.signed, key) ==> Covered(w.journal, key)
  {
  }

  lemma PreparedProtects(w: World, v: World)
    requires Consistent(w) && w.phase.Sending? && w.phase.at.Recording? && Protected(w) && v.journal != w.journal
    requires SendingStep(w, Record) == Some(v)
    ensures Protected(v)
  {
    SubmissionCovered(w);
    hide Consistent, Protected, Covered, Grants;
    var Sending(_, name, p, _) := w.phase;
    AppendStep(w, v, Transaction(name, Keccak(p), Prepared, Some(p), None));
  }

  /** What the journal records of the current submission changes its open entry and keeps its bytes while open. */
  lemma OutcomeShape(j: Journal, name: Label, i: nat, status: Status, block: Option<int>)
    requires i < |j.transactions| && !j.transactions[i].Terminal() && FindHash(j, j.transactions[i].hash) == Some(i)
    ensures var r := RecordTransaction(j, j.transactions[i].hash, status, block);
      r == Ok(SetTransaction(j, i, WithOutcome(j.transactions[i], status, block)))
    ensures var r := RecordBroadcast(j, name, j.transactions[i].hash);
      r.Ok? ==> r.value == SetTransaction(j, i, j.transactions[i].(status := Broadcast))
  {
  }

  lemma OutcomeProtects(w: World, v: World, e: Event)
    requires Consistent(w) && w.phase.Sending? && !w.phase.at.Recording? && !w.phase.at.Broadcasting? && Protected(w)
    requires SendingStep(w, e) == Some(v) && v.journal != w.journal
    ensures Protected(v)
  {
    ConsistentIsCore(w);
    var i := OpenIndex(w.journal, w.phase.name, w.phase.signed);
    hide Consistent, RecoveryJournal.Inv, Core, Protected, SendingStep;
    SubmissionProtects(w, v, e, i);
  }

  lemma SubmissionProtects(w: World, v: World, e: Event, i: nat)
    requires w.phase.Sending? && !w.phase.at.Recording? && !w.phase.at.Broadcasting? && Protected(w)
    requires SendingStep(w, e) == Some(v) && v.journal != w.journal
    requires i < |w.journal.transactions| && !w.journal.transactions[i].Terminal()
    requires w.journal.transactions[i].hash == Keccak(w.phase.signed)
    requires FindHash(w.journal, Keccak(w.phase.signed)) == Some(i)
    ensures Protected(v)
  {
    hide Protected, RecordTransaction, RecordBroadcast, FindHash;
    var t := w.journal.transactions[i];
    OutcomeShape(w.journal, w.phase.name, i, OutcomeUnknown, None);
    if w.phase.at.Noting? {
      EntryStep(w, v, i, t.(status := Broadcast));
    } else if e.Receipt? && e.outcome.Some? {
      var status := if e.outcome.value then MinedSuccess else MinedFailure;
      var block := if e.outcome.value then Some(e.block as int) else None;
      OutcomeShape(w.journal, w.phase.name, i, status, block);
      EntryStep(w, v, i, WithOutcome(t, status, block));
    } else {
      EntryStep(w, v, i, WithOutcome(t, OutcomeUnknown, None));
    }
  }

  lemma SettingProtects(w: World, e: Event)
    requires Consistent(w) && w.phase.Setting? && Protected(w) && !Clears(w, e)
    ensures var r := SettingStep(w, e); r.Some? ==> Protected(r.value)
  {
    hide Consistent, Protected, Covered, RecordObligation;
    var r := SettingStep(w, e);
    if r.Some? {
      if w.phase.stage.Obliging? && e.Advance? {
        ObligingProtects(w);
      } else {
        NothingCleared(w, e);
        QuietStep(w, r.value);
      }
    }
  }

  lemma NothingCleared(w: World, e: Event)
    requires w.phase.Setting? && !Clears(w, e) && !(w.phase.stage.Obliging? && e.Advance?) && SettingStep(w, e).Some?
    ensures SettingStep(w, e).value == To(w, SettingStep(w, e).value.phase)
  {
    hide MarkCleared, RecordObligation;
  }

  lemma ObligingProtects(w: World)
    requires Consistent(w) && w.phase.Setting? && w.phase.stage.Obliging? && Protected(w)
    ensures Protected(AdvanceStep(w).value)
  {
    ConsistentIsCore(w);
    ObligingCovers(w.journal, w.phase.goal.key);
    hide Consistent, RecoveryJournal.Inv, Obligations, Protected, Covered, RecordObligation;
    QuietStep(w, AdvanceStep(w).value);
  }

  /** A clearing that fits leaves everything covered. */
  lemma ClearingProtects(w: World)
    requires Consistent(w) && Protected(w) && Clears(w, Advance) && ClearFits(w, w.phase.goal.key)
    ensures Protected(AdvanceStep(w).value)
  {
    ClearingStep(w);
    var v := AdvanceStep(w).value;
    hide Consistent, Grants, AllowanceOf, Covered, AdvanceStep, Clears;
    assert forall p :: WasSent(w, p) == WasSent(v, p);
    assert forall t :: Threat(w, t) == Threat(v, t);
    assert forall key :: Threatened(v, key) == Threatened(w, key);
  }

  lemma StepProtects(w: World, e: Event)
    requires Consistent(w) && Protected(w) && (Clears(w, e) ==> ClearFits(w, w.phase.goal.key))
    ensures var r := Step(w, e); r.Some? ==> Protected(r.value)
  {
    hide Consistent, Protected, ClearFits;
    hide ChainStep, RunStep, DownStep, InspectStep, ReadyStep, SettingStep, SendingStep, Covered;
    if e.Crash? {
      QuietStep(w, To(w, Down));
    } else if e.Mine? || e.MineForeign? || e.Spend? {
      ChainProtects(w, e);
    } else if e.Conclude? || e.Evidence? {
      RunStepProtects(w, e);
    } else {
      match w.phase
      case Down => DownProtects(w, e);
      case Reconciling(_, _) => if e.Inspect? { InspectProtects(w, e.answer); }
      case Thrown => if e.Handle? { QuietStep(w, w.(phase := Ready(Free), handling := true)); }
      case Ready(_) => ReadyProtects(w, e);
      case Setting(_, _, _) =>
        if Clears(w, e) {
          ClearingProtects(w);
          assert SettingStep(w, e) == AdvanceStep(w) by { IsAdvance(w, e); }
        } else {
          SettingProtects(w, e);
        }
      case Sending(_, _, _, _) => SendingProtects(w, e);
    }
  }

  lemma IsAdvance(w: World, e: Event)
    requires Clears(w, e)
    ensures e == Advance && SettingStep(w, e) == AdvanceStep(w)
  {
  }

  // ---- Whole runs ----

  /** Every clearing of the run fits the state it happens in. */
  ghost predicate ClearsFit(w: World, events: seq<Event>)
    decreases |events|
  {
    events == [] ||
    ((Clears(w, events[0]) ==> ClearFits(w, w.phase.goal.key))
     && (Step(w, events[0]).Some? ==> ClearsFit(Step(w, events[0]).value, events[1..])))
  }

  /** The run clears no obligation. */
  ghost predicate ClearsNone(w: World, events: seq<Event>)
    decreases |events|
  {
    events == [] ||
    (!Clears(w, events[0]) && (Step(w, events[0]).Some? ==> ClearsNone(Step(w, events[0]).value, events[1..])))
  }

  /** What a caller can check before each clearing: the journal has no open entry that grants the allowance. */
  predicate ClearsGuarded(w: World, events: seq<Event>)
    decreases |events|
  {
    events == [] ||
    ((Clears(w, events[0]) ==> !OpenGrant(w.journal, w.phase.goal.key))
     && (Step(w, events[0]).Some? ==> ClearsGuarded(Step(w, events[0]).value, events[1..])))
  }

  lemma {:induction false} FitRunProtects(w: World, events: seq<Event>)
    requires Consistent(w) && Protected(w) && ClearsFit(w, events)
    ensures var r := Run(w, events); r.Some? ==> Protected(r.value)
    decreases |events|
  {
    hide Consistent, Protected, Step, Clears, ClearFits;
    if events != [] {
      StepKeepsInv(w, events[0]);
      StepProtects(w, events[0]);
      match Step(w, events[0])
      case None =>
      case Some(next) => FitRunProtects(next, events[1..]);
    }
  }

  lemma {:induction false} NoClearingFits(w: World, events: seq<Event>)
    requires ClearsNone(w, events)
    ensures ClearsFit(w, events)
    decreases |events|
  {
    hide Step, Clears, ClearFits;
    if events != [] && Step(w, events[0]).Some? {
      NoClearingFits(Step(w, events[0]).value, events[1..]);
    }
  }

  /** An allowance just read as zero still is, if no open entry grants it; then the clearing fits. */
  lemma GuardedClearFits(w: World)
    requires Consistent(w) && Clears(w, Advance) && !OpenGrant(w.journal, w.phase.goal.key)
    ensures ClearFits(w, w.phase.goal.key)
  {
    hide Core, AllowanceOf, Grants, MarkCleared;
  }

  lemma {:induction false} GuardedRunFits(w: World, events: seq<Event>)
    requires Consistent(w) && ClearsGuarded(w, events)
    ensures ClearsFit(w, events)
    decreases |events|
  {
    hide Consistent, Step, ClearFits, OpenGrant;
    if events != [] {
      if Clears(w, events[0]) {
        GuardedClearFits(w);
      }
      StepKeepsInv(w, events[0]);
      if Step(w, events[0]).Some? {
        GuardedRunFits(Step(w, events[0]).value, events[1..]);
      }
    }
  }

  /** Without a catch handler nothing is open at a clearing, so every clearing is guarded. */
  lemma {:induction false} UnhandledRunIsGuarded(w: World, events: seq<Event>)
    requires Consistent(w) && !w.handling && Handle !in events
    ensures ClearsGuarded(w, events)
    ensures Run(w, events).Some? ==> !Run(w, events).value.handling
    decreases |events|
  {
    hide Consistent, Step;
    if events != [] {
      if Clears(w, events[0]) {
        SettledAtClear(w, events[0]);
      }
      StepKeepsInv(w, events[0]);
      if Step(w, events[0]).Some? {
        StaysUnhandled(w, events[0]);
        assert forall e :: e in events[1..] ==> e in events;
        UnhandledRunIsGuarded(Step(w, events[0]).value, events[1..]);
      }
    }
  }

  lemma SettledAtClear(w: World, e: Event)
    requires Consistent(w) && !w.handling && Clears(w, e)
    ensures !OpenGrant(w.journal, w.phase.goal.key)
  {
    hide Core, MarkCleared;
  }

  lemma StaysUnhandled(w: World, e: Event)
    requires !w.handling && !e.Handle? && Step(w, e).Some?
    ensures !Step(w, e).value.handling
  {
    hide RecordPrepared, RecordBroadcast, RecordTransaction, RecordObserved, RecordResource, RecordObligation;
    hide MarkCleared;
    hide RecoveryJournal.MarkRecovered, UpdateMetadata, PrepareEvidence, Rebroadcast, Reload, Reconciled;
    match w.phase
    case Down =>
    case Reconciling(_, _) =>
    case Thrown =>
    case Ready(_) =>
    case Setting(_, _, _) =>
    case Sending(_, _, _, _) =>
  }

  // ---- The converse ----

  /** The run, which clears nothing, ends with the allowance positive and uncovered. */
  ghost predicate Uncovers(w: World, tail: seq<Event>, key: Key) {
    && ClearsNone(w, tail) && Run(w, tail).Some?
    && AllowanceOf(Run(w, tail).value.allowances, key) > 0 && !Covered(Run(w, tail).value.journal, key)
  }

  lemma UncoversAtOnce(w: World, key: Key)
    requires AllowanceOf(w.allowances, key) > 0 && !Covered(w.journal, key)
    ensures Uncovers(w, [], key)
  {
  }

  lemma UncoversLater(w: World, e: Event, tail: seq<Event>, key: Key)
    requires !e.Advance? && Step(w, e).Some? && Uncovers(Step(w, e).value, tail, key)
    ensures Uncovers(w, [e] + tail, key)
  {
    assert ([e] + tail)[1..] == tail;
  }

  /** A grant in flight whose allowance is not covered uncovers it once it is mined. */
  lemma MinedUncovers(w: World, p: Payload, key: Key)
    requires WasSent(w, p) && p !in w.mined && Grants(p, key) && !Covered(w.journal, key)
    ensures Uncovers(w, [Mine(p, true)] + [], key)
  {
    hide Covered;
    var v := Step(w, Mine(p, true)).value;
    assert v.journal == w.journal && AllowanceOf(v.allowances, key) > 0;
    UncoversAtOnce(v, key);
    UncoversLater(w, Mine(p, true), [], key);
  }

  /** An unsent open entry that identifies itself can be sent by a rebroadcast. */
  lemma ResentUncovers(w: World, t: Transaction, key: Key)
    requires Core(w) && w.phase.Down? && t in w.journal.transactions && Threat(w, t)
    requires !WasSent(w, t.hash.payload) && Grants(t.hash.payload, key) && !Covered(w.journal, key)
    ensures Uncovers(w, [Resend(t.hash, Absent, Some(t.hash))] + ([Mine(t.hash.payload, true)] + []), key)
  {
    hide Covered, Grants, Obligations, Truthful, SentJournaled;
    var i :| 0 <= i < |w.journal.transactions| && w.journal.transactions[i] == t;
    FoundAt(w.journal, i);
    var e := Resend(t.hash, Absent, Some(t.hash));
    var v := Step(w, e).value;
    hide RecoveryJournal.Inv, Core;
    assert t.status != Broadcast;
    assert (t.name, t.hash.payload) in v.sent && (t.name, t.hash.payload).1 == t.hash.payload;
    SameObligationsCover(w.journal, v.journal);
    MinedUncovers(v, t.hash.payload, key);
    UncoversLater(w, e, [Mine(t.hash.payload, true)] + [], key);
  }

  /** After a clearing that does not fit, some run that clears nothing leaves the allowance positive and uncovered. */
  lemma UnfitClearUncovers(w: World) returns (tail: seq<Event>)
    requires Consistent(w) && Clears(w, Advance) && !ClearFits(w, w.phase.goal.key)
    ensures Uncovers(AdvanceStep(w).value, tail, w.phase.goal.key)
  {
    ClearingStep(w);
    var v, key := AdvanceStep(w).value, w.phase.goal.key;
    StepKeepsInv(w, Advance);
    assert Step(w, Advance) == AdvanceStep(w);
    ConsistentIsCore(v);
    hide Covered, Grants, AllowanceOf, Consistent, RecoveryJournal.Inv, AdvanceStep, Clears;
    if AllowanceOf(w.allowances, key) > 0 {
      UncoversAtOnce(v, key);
      return [];
    }
    var t :| t in w.journal.transactions && Threat(w, t) && Grants(t.hash.payload, key);
    assert forall p :: WasSent(w, p) == WasSent(v, p);
    assert Threat(v, t);
    if WasSent(v, t.hash.payload) {
      MinedUncovers(v, t.hash.payload, key);
      return [Mine(t.hash.payload, true)] + [];
    }
    var down := To(v, Down);
    assert forall p :: WasSent(down, p) == WasSent(v, p);
    CoreIgnoresPhase(v, down);
    ResentUncovers(down, t, key);
    tail := [Resend(t.hash, Absent, Some(t.hash))] + ([Mine(t.hash.payload, true)] + []);
    UncoversLater(v, Crash, tail, key);
    tail := [Crash] + tail;
  }

  /** Wherever the run stops, and whatever then happens short of another clearing, allowances are covered. */
  ghost predicate StaysCovered(w: World, events: seq<Event>) {
    forall n, tail :: 0 <= n <= |events| && Run(w, events[..n]).Some? && ClearsNone(Run(w, events[..n]).value, tail) ==>
      var r := Run(Run(w, events[..n]).value, tail);
      r.Some? ==> AllowancesCovered(r.value.journal, r.value.allowances)
  }

  lemma {:induction false} FitPrefix(w: World, events: seq<Event>, n: nat)
    requires ClearsFit(w, events) && n <= |events|
    ensures ClearsFit(w, events[..n])
    decreases n
  {
    hide Step, Clears, ClearFits;
    if n > 0 && Step(w, events[0]).Some? {
      FitPrefix(Step(w, events[0]).value, events[1..], n - 1);
      assert events[..n][1..] == events[1..][..n - 1];
    }
  }

  lemma FitRunStaysCovered(w: World, events: seq<Event>)
    requires Consistent(w) && Protected(w) && ClearsFit(w, events)
    ensures StaysCovered(w, events)
  {
    hide Consistent, ClearsFit, ClearsNone, Run;
    forall n, tail | 0 <= n <= |events| && Run(w, events[..n]).Some? && ClearsNone(Run(w, events[..n]).value, tail)
      ensures var r := Run(Run(w, events[..n]).value, tail);
        r.Some? ==> AllowancesCovered(r.value.journal, r.value.allowances)
    {
      FitPrefix(w, events, n);
      FitRunProtects(w, events[..n]);
      RunKeepsInv(w, events[..n]);
      var v := Run(w, events[..n]).value;
      NoClearingFits(v, tail);
      FitRunProtects(v, tail);
    }
  }

  lemma StaysCoveredLater(w: World, events: seq<Event>)
    requires events != [] && StaysCovered(w, events) && Step(w, events[0]).Some?
    ensures StaysCovered(Step(w, events[0]).value, events[1..])
  {
    hide Step, ClearsNone, AllowancesCovered;
    var next := Step(w, events[0]).value;
    forall n, tail | 0 <= n <= |events| - 1 && Run(next, events[1..][..n]).Some?
        && ClearsNone(Run(next, events[1..][..n]).value, tail)
      ensures var r := Run(Run(next, events[1..][..n]).value, tail);
        r.Some? ==> AllowancesCovered(r.value.journal, r.value.allowances)
    {
      assert events[..n + 1][1..] == events[1..][..n];
      assert events[..n + 1][0] == events[0];
      assert Run(w, events[..n + 1]) == Run(next, events[1..][..n]);
    }
  }

  /**
   * The exact condition, for all runs: allowances are covered at every point, and stay so whatever happens before the
   * next clearing, if and only if every clearing of the run finds the allowance zero and no open entry that can raise
   * it.
   */
  lemma {:induction false} CoveredExactlyWhenClearsFit(w: World, events: seq<Event>)
    requires Consistent(w) && Protected(w) && Run(w, events).Some?
    ensures StaysCovered(w, events) <==> ClearsFit(w, events)
    decreases |events|
  {
    hide Consistent, Protected, ClearFits, Step, StaysCovered;
    if ClearsFit(w, events) {
      FitRunStaysCovered(w, events);
    } else if StaysCovered(w, events) {
      var e := events[0];
      if Clears(w, e) && !ClearFits(w, w.phase.goal.key) {
        UnfitClearBreaks(w, events);
      } else {
        StepKeepsInv(w, e);
        StepProtects(w, e);
        StaysCoveredLater(w, events);
        CoveredExactlyWhenClearsFit(Step(w, e).value, events[1..]);
      }
      assert false;
    }
  }

  lemma UnfitClearBreaks(w: World, events: seq<Event>)
    requires Consistent(w) && events != [] && Run(w, events).Some?
    requires Clears(w, events[0]) && !ClearFits(w, w.phase.goal.key)
    ensures !StaysCovered(w, events)
  {
    IsAdvance(w, events[0]);
    var tail := UnfitClearUncovers(w);
    var v := AdvanceStep(w).value;
    hide Consistent, ClearFits, AdvanceStep, ClearsNone, Covered, AllowanceOf;
    assert events[..1][1..] == [];
    assert Step(w, events[0]) == Some(v);
    assert Run(w, events[..1]) == Some(v);
  }
}
