/**
 * What the funded-transaction protocol promises over its runs from any initial state: over all of them, handlers
 * included, where nothing else is said.
 */
module FundedGuarantees {
  import opened Outcomes
  import opened RecoveryJournal
  import opened FundedProtocol
  import opened FundedSafety
  import opened FundedCoverage

  // ---- The journal is written ahead of the network ----

  /** At every point of every run, what was sent is journaled under its label, and a label has one payload only. */
  lemma SentIsJournaled(start: World, events: seq<Event>)
    requires Initial(start)
    ensures var r := Run(start, events);
      r.Some? ==> forall s :: s in r.value.sent ==>
        exists t :: t in r.value.journal.transactions && t.name == s.0 && t.hash == Keccak(s.1)
    ensures var r := Run(start, events);
      r.Some? ==> forall s, u :: s in r.value.sent && u in r.value.sent && s.0 == u.0 ==> s.1 == u.1
  {
    InitialInv(start);
    RunKeepsInv(start, events);
    var r := Run(start, events);
    if r.Some? {
      forall s | s in r.value.sent
        ensures exists t :: t in r.value.journal.transactions && t.name == s.0 && t.hash == Keccak(s.1)
      {
        assert FundedSafety.Journaled(r.value.journal, s.0, s.1);
      }
    }
  }

  /** Whatever a step newly hands to the network was in the durable journal before it, with these very bytes. */
  lemma WrittenBeforeSent(start: World, events: seq<Event>, e: Event)
    requires Initial(start)
    ensures var r := Run(start, events);
      r.Some? ==> var next := Step(r.value, e);
      next.Some? ==> forall s :: s in next.value.sent && s !in r.value.sent ==> Recorded(r.value.journal, s)
  {
    InitialInv(start);
    RunKeepsInv(start, events);
    var r := Run(start, events);
    if r.Some? {
      var w := r.value;
      var next := Step(w, e);
      if next.Some? {
        SendsFromJournal(w, e);
      }
    }
  }

  /** Setting allowances, keeping books and starting things hand nothing to the network. */
  lemma NothingSent(w: World, e: Event)
    ensures w.phase.Ready? && ReadyStep(w, e).Some? ==> ReadyStep(w, e).value.sent == w.sent
    ensures w.phase.Setting? && SettingStep(w, e).Some? ==> SettingStep(w, e).value.sent == w.sent
  {
    hide RecordObserved, RecordResource, RecordObligation, MarkCleared, RecoveryJournal.MarkRecovered, UpdateMetadata;
  }

  /** The only steps that hand anything to the network. */
  lemma WhoSends(w: World, e: Event)
    requires Step(w, e).Some? && Step(w, e).value.sent != w.sent
    ensures (w.phase.Down? && e.Resend?) || (w.phase.Sending? && w.phase.at.Broadcasting? && e.Send?)
  {
    hide RecordPrepared, RecordBroadcast, RecordTransaction, PrepareEvidence, Rebroadcast, Reload, Reconciled;
    hide ReadyStep, SettingStep;
    NothingSent(w, e);
    match w.phase
    case Down =>
    case Reconciling(_, _) =>
    case Thrown =>
    case Ready(_) =>
    case Setting(_, _, _) =>
    case Sending(_, _, _, _) =>
  }

  ghost predicate Recorded(j: Journal, s: (Label, Payload)) {
    exists t :: t in j.transactions && t.name == s.0 && t.signed == Some(s.1) && t.hash == Keccak(s.1)
  }

  lemma ResendFromJournal(w: World, e: Event)
    requires Core(w) && w.phase.Down? && e.Resend? && DownStep(w, e).Some?
    ensures forall s :: s in DownStep(w, e).value.sent && s !in w.sent ==> Recorded(w.journal, s)
  {
    hide RecoveryJournal.Inv;
    var Resend(hash, answer, response) := e;
    RebroadcastIsIdentical(w.journal, hash, answer, response);
    var found := FindHash(w.journal, hash);
    var r := Rebroadcast(w.journal, hash, answer, response);
    if found.Some? && r.sent.Some? {
      var t := w.journal.transactions[found.value];
      assert t in w.journal.transactions && t.hash == hash && t.signed == r.sent;
      assert Recorded(w.journal, (t.name, r.sent.value));
    }
  }

  lemma SendFromJournal(w: World, response: Option<Hash>)
    requires Consistent(w) && w.phase.Sending? && w.phase.at.Broadcasting?
    ensures Recorded(w.journal, (w.phase.name, w.phase.signed))
  {
    var i := OpenIndex(w.journal, w.phase.name, w.phase.signed);
    var t := w.journal.transactions[i];
    assert t in w.journal.transactions && TransactionOk(t);
  }

  lemma SendsFromJournal(w: World, e: Event)
    requires Consistent(w) && Step(w, e).Some?
    ensures forall s :: s in Step(w, e).value.sent && s !in w.sent ==> Recorded(w.journal, s)
  {
    hide RecoveryJournal.Inv, Recorded, ResendStep;
    if Step(w, e).value.sent != w.sent {
      WhoSends(w, e);
      if w.phase.Down? {
        ResendFromJournal(w, e);
      } else {
        SendFromJournal(w, e.response);
      }
    }
  }

  /** Every journal a run leaves behind, however it crashed, is accepted when it is opened again. */
  lemma EveryReloadSucceeds(start: World, events: seq<Event>)
    requires Initial(start)
    ensures var r := Run(start, events); r.Some? ==> Reload(r.value.journal) == Ok(r.value.journal)
  {
    InitialInv(start);
    RunKeepsInv(start, events);
  }

  // ---- The journal only grows ----

  /** Entries stay under their label and hash, and a terminal entry stays as it is. */
  predicate Extends(j: Journal, k: Journal) {
    && |j.transactions| <= |k.transactions|
    && forall i :: 0 <= i < |j.transactions| ==>
         && k.transactions[i].name == j.transactions[i].name && k.transactions[i].hash == j.transactions[i].hash
         && (j.transactions[i].Terminal() ==> k.transactions[i] == j.transactions[i])
  }

  /** Recording anything of an open transaction extends the journal. */
  lemma OutcomeExtends(j: Journal, i: nat, name: Label, status: Status, block: Option<int>)
    requires i < |j.transactions| && !j.transactions[i].Terminal() && FindHash(j, j.transactions[i].hash) == Some(i)
    ensures var r := RecordTransaction(j, j.transactions[i].hash, status, block); r.Ok? && Extends(j, r.value)
    ensures var r := RecordBroadcast(j, name, j.transactions[i].hash); r.Ok? ==> Extends(j, r.value)
  {
  }

  lemma PreparedExtends(j: Journal, name: Label, hash: Hash, signed: Payload)
    ensures var r := RecordPrepared(j, name, hash, signed); r.Ok? ==> Extends(j, r.value)
  {
  }

  lemma SendingExtends(w: World, e: Event)
    requires Consistent(w) && w.phase.Sending?
    ensures var r := SendingStep(w, e); r.Some? ==> Extends(w.journal, r.value.journal)
  {
    hide Core, Extends, PurposeFits, Covered, Grants;
    if w.phase.at.Recording? {
      RecordingExtends(w, e);
    } else {
      CoreIsReadable(w);
      var i := OpenIndex(w.journal, w.phase.name, w.phase.signed);
      SubmissionExtends(w, e, i);
    }
  }

  lemma RecordingExtends(w: World, e: Event)
    requires w.phase.Sending? && w.phase.at.Recording?
    ensures var r := SendingStep(w, e); r.Some? ==> Extends(w.journal, r.value.journal)
  {
    hide RecordPrepared, Extends;
    SelfExtends(w);
    PreparedExtends(w.journal, w.phase.name, Keccak(w.phase.signed), w.phase.signed);
  }

  lemma SubmissionExtends(w: World, e: Event, i: nat)
    requires w.phase.Sending? && !w.phase.at.Recording?
    requires i < |w.journal.transactions| && !w.journal.transactions[i].Terminal()
    requires w.journal.transactions[i].hash == Keccak(w.phase.signed)
    requires FindHash(w.journal, Keccak(w.phase.signed)) == Some(i)
    ensures var r := SendingStep(w, e); r.Some? ==> Extends(w.journal, r.value.journal)
  {
    hide RecordTransaction, RecordBroadcast, Extends, FindHash;
    SelfExtends(w);
    OutcomeExtends(w.journal, i, w.phase.name, OutcomeUnknown, None);
    if e.Receipt? {
      OutcomeExtends(w.journal, i, w.phase.name, MinedSuccess, Some(e.block));
      OutcomeExtends(w.journal, i, w.phase.name, MinedFailure, None);
    }
  }

  lemma CoreIsReadable(w: World)
    requires Core(w)
    ensures RecoveryJournal.Inv(w.journal)
  {
  }

  lemma DownExtends(w: World, e: Event)
    requires Core(w)
    ensures var r := DownStep(w, e); r.Some? ==> Extends(w.journal, r.value.journal)
  {
    if e.Resend? {
      var found := FindHash(w.journal, e.hash);
    }
  }

  lemma BookExtends(w: World, entry: Entry)
    ensures var r := BookStep(w, entry); r.Some? ==> Extends(w.journal, r.value.journal)
  {
    if !entry.Observed? && BookStep(w, entry).Some? {
      ResourceBooks(w, entry);
    }
  }

  lemma ReadyExtends(w: World, e: Event)
    requires w.phase.Ready?
    ensures var r := ReadyStep(w, e); r.Some? ==> Extends(w.journal, r.value.journal)
  {
    hide BookStep, IsAddress, OnlyActive;
    if e.Book? {
      BookExtends(w, e.entry);
    }
  }

  lemma SettingExtends(w: World, e: Event)
    requires w.phase.Setting?
    ensures var r := SettingStep(w, e); r.Some? ==> Extends(w.journal, r.value.journal)
  {
    hide MarkCleared, RecordObligation, Extends;
    SelfExtends(w);
    if e.Advance? && AdvanceStep(w).Some? {
      ObligationsOnly(w);
    }
  }

  /** Setting an allowance changes nothing of the journal but its obligations. */
  lemma ObligationsOnly(w: World)
    requires w.phase.Setting? && AdvanceStep(w).Some?
    ensures var k := AdvanceStep(w).value.journal; k == w.journal.(obligations := k.obligations)
    ensures Extends(w.journal, AdvanceStep(w).value.journal)
  {
    var key := w.phase.goal.key;
    ObligationsAlone(w.journal, key, if w.phase.stage.Clearing? then w.phase.stage.hashes else []);
    hide RecordObligation, MarkCleared, Extends, FindObligation;
    SelfExtends(w);
  }

  lemma ObligationsAlone(j: Journal, key: Key, hashes: seq<Hash>)
    ensures var r := RecordObligation(j, ObligationId(key), key.owner, key.token, key.spender);
      r.Ok? ==> r.value == j.(obligations := r.value.obligations) && Extends(j, r.value)
    ensures var r := MarkCleared(j, ObligationId(key), hashes);
      r.Ok? ==> r.value == j.(obligations := r.value.obligations) && Extends(j, r.value)
  {
  }

  lemma AnytimeExtends(w: World, e: Event)
    ensures var r := RunStep(w, e); r.Some? ==> Extends(w.journal, r.value.journal)
    ensures var r := ChainStep(w, e); r.Some? ==> Extends(w.journal, r.value.journal)
  {
  }

  lemma InspectExtends(w: World, answer: Inspection)
    requires w.phase.Reconciling?
    ensures var r := InspectStep(w, answer); r.Some? ==> Extends(w.journal, r.value.journal)
  {
  }

  lemma StepExtends(w: World, e: Event)
    requires Consistent(w)
    ensures var r := Step(w, e); r.Some? ==> Extends(w.journal, r.value.journal)
  {
    hide Consistent, DownStep, SendingStep, ReadyStep, SettingStep, InspectStep, RunStep, ChainStep, Extends;
    AnytimeExtends(w, e);
    SelfExtends(w);
    match w.phase
    case Down => DownExtends(w, e);
    case Reconciling(_, _) => if e.Inspect? { InspectExtends(w, e.answer); }
    case Thrown =>
    case Ready(_) => ReadyExtends(w, e);
    case Setting(_, _, _) => SettingExtends(w, e);
    case Sending(_, _, _, _) => SendingExtends(w, e);
  }

  lemma SelfExtends(w: World)
    ensures Extends(w.journal, w.journal)
    ensures Consistent(w) ==> Core(w)
  {
  }

  /** Over any continuation, with any crashes, a label keeps its hash and a settled transaction stays settled. */
  lemma {:induction false} EntriesStay(w: World, events: seq<Event>)
    requires Consistent(w)
    ensures var r := Run(w, events); r.Some? ==> Extends(w.journal, r.value.journal)
    decreases |events|
  {
    hide Consistent, Step;
    if events != [] {
      StepKeepsInv(w, events[0]);
      StepExtends(w, events[0]);
      match Step(w, events[0])
      case None =>
      case Some(next) => EntriesStay(next, events[1..]);
    }
  }

  // ---- Allowances ----

  lemma InitialProtected(w: World)
    requires Initial(w)
    ensures Protected(w)
  {
  }

  /**
   * In a run whose clearings fit, and so in every run that checks before each clearing that the journal has no open
   * entry granting the allowance, no allowance is ever positive without an active obligation in the durable journal.
   */
  lemma AllowancesAreCovered(start: World, events: seq<Event>)
    requires Initial(start)
    ensures ClearsGuarded(start, events) ==> ClearsFit(start, events)
    ensures var r := Run(start, events);
      r.Some? && ClearsFit(start, events) ==> forall key :: AllowanceOf(r.value.allowances, key) > 0 ==>
        exists o :: o in r.value.journal.obligations && o.active && KeyOf(o) == key
  {
    hide ClearsGuarded, ClearsFit, Run, Consistent, Initial;
    InitialInv(start);
    InitialProtected(start);
    if ClearsGuarded(start, events) {
      GuardedRunFits(start, events);
    }
    var r := Run(start, events);
    if r.Some? && ClearsFit(start, events) {
      FitRunProtects(start, events);
      forall key | AllowanceOf(r.value.allowances, key) > 0
        ensures exists o :: o in r.value.journal.obligations && o.active && KeyOf(o) == key
      {
        assert Covered(r.value.journal, key);
      }
    }
  }

  /** And exactly those runs keep them covered whatever happens before the next clearing. */
  lemma AllowancesCoveredExactly(start: World, events: seq<Event>)
    requires Initial(start) && Run(start, events).Some?
    ensures StaysCovered(start, events) <==> ClearsFit(start, events)
  {
    InitialInv(start);
    InitialProtected(start);
    CoveredExactlyWhenClearsFit(start, events);
  }

  /** Without a catch handler every clearing is guarded: the runners that stop at the gate keep allowances covered. */
  lemma UnhandledRunsAreCovered(start: World, events: seq<Event>)
    requires Initial(start) && Handle !in events
    ensures ClearsGuarded(start, events)
    ensures var r := Run(start, events); r.Some? ==> AllowancesCovered(r.value.journal, r.value.allowances)
  {
    hide ClearsGuarded, ClearsFit, Run, Consistent;
    InitialInv(start);
    InitialProtected(start);
    UnhandledRunIsGuarded(start, events);
    GuardedRunFits(start, events);
    FitRunProtects(start, events);
  }

  ghost predicate AllMined(w: World) {
    forall s :: s in w.sent ==> s.1 in w.mined
  }

  ghost predicate NoAllowance(w: World) {
    forall key :: AllowanceOf(w.allowances, key) == 0
  }

  lemma TerminalIsMined(w: World)
    requires Core(w) && AllTerminal(w.journal)
    ensures AllMined(w)
  {
    hide RecoveryJournal.Inv;
    forall s | s in w.sent
      ensures s.1 in w.mined
    {
      assert FundedSafety.Journaled(w.journal, s.0, s.1);
    }
  }

  /** Without active obligations, covered allowances are zero allowances. */
  lemma NothingActiveCovers(w: World)
    requires forall o :: o in w.journal.obligations ==> !o.active
    ensures AllowancesCovered(w.journal, w.allowances) <==> NoAllowance(w)
  {
    assert forall key :: !Covered(w.journal, key);
  }

  /**
   * Evidence can only be prepared once everything sent is mined. Every allowance is zero then if and only if the
   * allowances are covered, as they are in a run whose clearings fit.
   */
  lemma EvidenceMeansMined(start: World, events: seq<Event>, plan: Plan)
    requires Initial(start)
    ensures var r := Run(start, events);
      r.Some? && PrepareEvidence(r.value.journal, plan).Ok? ==>
        && AllMined(r.value)
        && (AllowancesCovered(r.value.journal, r.value.allowances) <==> NoAllowance(r.value))
        && (ClearsFit(start, events) ==> NoAllowance(r.value))
  {
    hide ClearsFit, Run, AllMined, NoAllowance;
    InitialInv(start);
    InitialProtected(start);
    RunKeepsInv(start, events);
    var r := Run(start, events);
    if r.Some? && PrepareEvidence(r.value.journal, plan).Ok? {
      TerminalIsMined(r.value);
      NothingActiveCovers(r.value);
      if ClearsFit(start, events) {
        FitRunProtects(start, events);
      }
    }
  }

  /**
   * A recovery that runs to its end leaves no active obligation in any run. It leaves no allowance if the clearings
   * fit, its own included, and outside a handler nothing is in flight either.
   */
  lemma RecoveryLeavesNothing(start: World, events: seq<Event>)
    requires Initial(start)
    ensures var r := Run(start, events);
      r.Some? && r.value.phase == Ready(Recovering([])) ==>
        && (forall o :: o in r.value.journal.obligations ==> !o.active)
        && (ClearsFit(start, events) ==> NoAllowance(r.value))
        && (!r.value.handling ==> AllMined(r.value))
  {
    hide ClearsFit, Run, AllMined, NoAllowance;
    InitialInv(start);
    InitialProtected(start);
    RunKeepsInv(start, events);
    var r := Run(start, events);
    if r.Some? && r.value.phase == Ready(Recovering([])) {
      NothingActiveCovers(r.value);
      if !r.value.handling {
        TerminalIsMined(r.value);
      }
      if ClearsFit(start, events) {
        FitRunProtects(start, events);
      }
    }
  }

  /** Past the gate, unless a handler is at work or it is sending, the program has nothing in flight. */
  lemma ReadyMeansSettled(start: World, events: seq<Event>)
    requires Initial(start)
    ensures var r := Run(start, events);
      r.Some? && (r.value.phase.Ready? || r.value.phase.Setting?) && !r.value.handling ==> AllMined(r.value)
  {
    hide Run, AllMined;
    InitialInv(start);
    RunKeepsInv(start, events);
    var r := Run(start, events);
    if r.Some? && (r.value.phase.Ready? || r.value.phase.Setting?) && !r.value.handling {
      TerminalIsMined(r.value);
    }
  }

  // ---- When an obligation can be cleared ----

  /** A grant for the allowance was sent and is not mined yet. */
  ghost predicate InFlight(w: World, key: Key) {
    exists s :: s in w.sent && s.1 !in w.mined && Grants(s.1, key)
  }

  ghost predicate CoveredAfter(w: World, e: Event) {
    ChainStep(w, e).Some? ==> AllowancesCovered(w.journal, ChainStep(w, e).value.allowances)
  }

  /**
   * `markAllowanceCleared` itself looks neither at the allowance nor at open grants. Where allowances are covered,
   * clearing keeps them so, now and after whatever the chain does next, exactly when the allowance is zero and no
   * grant is in flight.
   */
  lemma ClearingIsSafeExactly(w: World, key: Key, cleanup: seq<Hash>)
    requires Core(w) && Protected(w)
    requires Covered(w.journal, key) && MarkCleared(w.journal, ObligationId(key), cleanup).Ok?
    ensures var v := w.(journal := MarkCleared(w.journal, ObligationId(key), cleanup).value);
      AllowancesCovered(v.journal, v.allowances) && (forall e :: CoveredAfter(v, e)) <==>
      AllowanceOf(w.allowances, key) == 0 && !InFlight(w, key)
  {
    hide RecoveryJournal.Inv, Obligations, Covered, Threat;
    var k := MarkCleared(w.journal, ObligationId(key), cleanup).value;
    var v := w.(journal := k);
    ClearingUncovers(w.journal, key, cleanup);
    if InFlight(w, key) {
      var s :| s in w.sent && s.1 !in w.mined && Grants(s.1, key);
      var e := Mine(s.1, true);
      assert WasSent(v, s.1);
      assert AllowanceOf(ChainStep(v, e).value.allowances, key) > 0;
      assert !CoveredAfter(v, e);
    } else if AllowanceOf(w.allowances, key) == 0 {
      forall e
        ensures CoveredAfter(v, e)
      {
        ClearedStaysCovered(w, v, key, e);
      }
    }
  }

  lemma ClearedStaysCovered(w: World, v: World, key: Key, e: Event)
    requires Core(w) && Protected(w) && v == w.(journal := v.journal)
    requires AllowanceOf(w.allowances, key) == 0 && !InFlight(w, key)
    requires forall x :: Covered(v.journal, x) <==> x != key && Covered(w.journal, x)
    ensures CoveredAfter(v, e)
  {
    hide RecoveryJournal.Inv, Obligations, Covered;
    var r := ChainStep(v, e);
    if r.Some? {
      if e.Mine? {
        UnminedIsOpen(w, e.signed);
        var t :| t in w.journal.transactions && t.hash == Keccak(e.signed) && !t.Terminal();
        assert Threat(w, t);
        var s :| s in w.sent && s.1 == e.signed;
        assert !Grants(s.1, key);
        assert forall x :: Grants(e.signed, x) ==> Threatened(w, x);
      }
      forall x | AllowanceOf(r.value.allowances, x) > 0
        ensures Covered(v.journal, x)
      {
        if AllowanceOf(w.allowances, x) == 0 {
          assert Grants(e.signed, x);
        }
      }
    }
  }

  /**
   * Looking further ahead: whatever happens before the next clearing, allowances stay covered exactly when the one
   * being cleared is zero and no open entry can still raise it, be it in flight or to be sent by a rebroadcast.
   */
  lemma ClearingIsSafeUntilTheNext(w: World)
    requires Consistent(w) && Protected(w) && Clears(w, Advance)
    ensures var v := AdvanceStep(w).value;
      (forall tail :: ClearsNone(v, tail) && Run(v, tail).Some? ==>
        AllowancesCovered(Run(v, tail).value.journal, Run(v, tail).value.allowances))
      <==> ClearFits(w, w.phase.goal.key)
  {
    var v := AdvanceStep(w).value;
    if ClearFits(w, w.phase.goal.key) {
      ClearingProtects(w);
      ClearingStays(w);
      hide Consistent, Protected, ClearsNone, Run, AdvanceStep, ClearFits, Clears;
      forall tail | ClearsNone(v, tail) && Run(v, tail).Some?
        ensures AllowancesCovered(Run(v, tail).value.journal, Run(v, tail).value.allowances)
      {
        NoClearingFits(v, tail);
        FitRunProtects(v, tail);
        ProtectedIsCovered(Run(v, tail).value);
      }
    } else {
      hide AdvanceStep, ClearsNone, Consistent, Protected, Clears;
      var tail := UnfitClearUncovers(w);
      assert ClearsNone(v, tail) && Run(v, tail).Some?;
      assert !AllowancesCovered(Run(v, tail).value.journal, Run(v, tail).value.allowances);
    }
  }

  lemma ClearingStays(w: World)
    requires Consistent(w) && Clears(w, Advance)
    ensures Consistent(AdvanceStep(w).value)
  {
    hide Consistent;
    StepKeepsInv(w, Advance);
    IsAdvance(w, Advance);
  }

  lemma ProtectedIsCovered(w: World)
    requires Protected(w)
    ensures AllowancesCovered(w.journal, w.allowances)
  {
  }

  // ---- A catch handler after a failed gate ----

  lemma {:induction false} RunAppend(w: World, a: seq<Event>, b: seq<Event>)
    requires Run(w, a).Some?
    ensures Run(w, a + b) == Run(Run(w, a).value, b)
    decreases |a|
  {
    hide Step;
    if a == [] {
      assert a + b == b;
    } else {
      assert (a + b)[1..] == a[1..] + b;
      RunAppend(Step(w, a[0]).value, a[1..], b);
    }
  }

  ghost predicate Reaches(w: World, v: World) {
    exists events :: Run(w, events) == Some(v)
  }

  /** One more step of a run. */
  lemma Then(start: World, w: World, e: Event) returns (v: World)
    requires Reaches(start, w) && Step(w, e).Some?
    ensures v == Step(w, e).value && Reaches(start, v)
  {
    v := Step(w, e).value;
    var events :| Run(start, events) == Some(w);
    RunAppend(start, events, [e]);
    assert [e][1..] == [];
    assert Run(w, [e]) == Run(v, []);
    assert Run(start, events + [e]) == Some(v);
  }

  /** The first start finds nothing to reconcile. */
  lemma Begun(start: World) returns (w: World)
    requires Initial(start)
    ensures Reaches(start, w) && w == To(start, Ready(Free))
  {
    assert Run(start, []) == Some(start);
    assert Reaches(start, start);
    hide Reaches, IsAddress, Run;
    w := Then(start, start, Boot);
    w := Then(start, w, Inspect(Absent));
  }

  lemma Started(start: World, goal: Goal) returns (w: World)
    requires Initial(start) && IsKey(goal.key)
    ensures Reaches(start, w) && w == To(start, Setting(Free, goal, Obliging(0)))
  {
    w := Begun(start);
    assert AllowanceOf(start.allowances, goal.key) == 0 && !start.handling;
    hide Reaches, IsAddress, Run, Initial;
    w := Then(start, w, StartSetting(goal));
    w := Then(start, w, Advance);
  }

  lemma Signed(start: World, key: Key, p: Payload) returns (w: World)
    requires Initial(start) && IsKey(key)
    requires p == Payload(key.owner, start.journal.chainId, 0, Approve(key.token, key.spender, 1))
    ensures Reaches(start, w)
    ensures w.phase == Sending(ForGrant(Free, Goal(key, 1, "grant"), []), "grant", p, Recording)
    ensures w.sent == {} && w.mined == start.mined && w.allowances == start.allowances
    ensures w.journal == start.journal.(
      obligations := [Obligation(ObligationId(key), key.owner, key.token, key.spender, true, [])])
  {
    w := Started(start, Goal(key, 1, "grant"));
    assert ObligationId(key) != "";
    hide Reaches, IsAddress, Run;
    w := Then(start, w, Advance);
    w := Then(start, w, Advance);
    w := Then(start, w, Sign(p.chainId, 0));
  }

  lemma CrashedAfterSending(start: World, key: Key, p: Payload) returns (w: World)
    requires Initial(start) && IsKey(key)
    requires p == Payload(key.owner, start.journal.chainId, 0, Approve(key.token, key.spender, 1))
    ensures Reaches(start, w)
    ensures w.phase == Down
    ensures w.sent == {("grant", p)} && w.mined == start.mined && w.allowances == start.allowances
    ensures w.journal == start.journal.(
      transactions := [Transaction("grant", Keccak(p), Prepared, Some(p), None)],
      obligations := [Obligation(ObligationId(key), key.owner, key.token, key.spender, true, [])])
  {
    w := Signed(start, key, p);
    w := Then(start, w, Record);
    w := Then(start, w, Reserve(true));
    w := Then(start, w, Send(Some(Keccak(p))));
    w := Then(start, w, Crash);
  }

  /** The restart finds the grant still pending, and the gate throws. */
  lemma Stopped(start: World, key: Key, p: Payload) returns (w: World)
    requires Initial(start) && IsKey(key)
    requires p == Payload(key.owner, start.journal.chainId, 0, Approve(key.token, key.spender, 1))
    ensures Reaches(start, w)
    ensures w.sent == {("grant", p)} && w.mined == start.mined && w.allowances == start.allowances && w.phase == Thrown
    ensures w.journal.obligations == [Obligation(ObligationId(key), key.owner, key.token, key.spender, true, [])]
    ensures OneOpen(start, w.journal, p)
  {
    w := CrashedAfterSending(start, key, p);
    ReloadsWhenReached(start, w);
    hide Reaches, IsAddress, Run, Reload, Initial;
    ghost var t := w.journal.transactions[0];
    w := Then(start, w, Boot);
    ghost var u := Reconciled(w.journal, t, Pending);
    w := Then(start, w, Inspect(Pending));
    assert w.journal.transactions == [u] && !u.Terminal();
    w := Then(start, w, Inspect(Pending));
  }

  /** The handler starts a recovery all the same. */
  lemma Caught(start: World, key: Key, p: Payload) returns (w: World)
    requires Initial(start) && IsKey(key)
    requires p == Payload(key.owner, start.journal.chainId, 0, Approve(key.token, key.spender, 1))
    ensures Reaches(start, w)
    ensures w.sent == {("grant", p)} && w.mined == start.mined && w.allowances == start.allowances
    ensures var o := Obligation(ObligationId(key), key.owner, key.token, key.spender, true, []);
      w.journal.obligations == [o] && w.phase == Ready(Recovering([o])) && w.handling
    ensures OneOpen(start, w.journal, p)
  {
    hide Reaches, IsAddress, Run, Initial, OneOpen;
    w := Stopped(start, key, p);
    w := Then(start, w, Handle);
    OnlyOne(w.journal.obligations[0]);
    w := Then(start, w, StartRecovery);
  }

  /** The journal's one transaction is the open grant, with its bytes, and nothing else is recorded. */
  ghost predicate OneOpen(start: World, j: Journal, p: Payload) {
    && |j.transactions| == 1 && !j.transactions[0].Terminal()
    && j.transactions[0].hash == Keccak(p) && j.transactions[0].signed == Some(p)
    && j.owner == start.journal.owner && j.chainId == start.journal.chainId && j.resources == [] && j.plan == None
  }

  /** The recovery reads zero, and is about to clear the obligation. */
  lemma ReadTooEarly(start: World, key: Key, p: Payload) returns (w: World)
    requires Initial(start) && IsKey(key)
    requires p == Payload(key.owner, start.journal.chainId, 0, Approve(key.token, key.spender, 1))
    ensures Reaches(start, w)
    ensures var o := Obligation(ObligationId(key), key.owner, key.token, key.spender, true, []);
      && w.journal.obligations == [o]
      && w.phase == Setting(Recovering([o]), Goal(key, 0, "recovery " + o.id), Clearing([]))
    ensures w.sent == {("grant", p)} && w.mined == start.mined && OneOpen(start, w.journal, p)
  {
    assert AllowanceOf(start.allowances, key) == 0;
    hide Reaches, IsAddress, Reconciled, Initial, OneOpen, Run;
    w := Caught(start, key, p);
    ghost var o := w.journal.obligations[0];
    w := Then(start, w, StartSetting(Goal(key, 0, "recovery " + o.id)));
    w := Then(start, w, Advance);
    w := Then(start, w, Advance);
    w := Then(start, w, Advance);
    w := Then(start, w, Advance);
    w := Then(start, w, Advance);
  }

  /** It clears the obligation, with the grant in flight. */
  lemma ClearedTooEarly(start: World, key: Key, p: Payload) returns (w: World)
    requires Initial(start) && IsKey(key)
    requires p == Payload(key.owner, start.journal.chainId, 0, Approve(key.token, key.spender, 1))
    ensures Reaches(start, w)
    ensures w.phase == Ready(Recovering([])) && w.sent == {("grant", p)} && w.mined == start.mined
    ensures w.journal.obligations == [Obligation(ObligationId(key), key.owner, key.token, key.spender, false, [])]
    ensures OneOpen(start, w.journal, p)
  {
    hide Reaches, IsAddress, Initial, Run;
    w := ReadTooEarly(start, key, p);
    assert w.phase.work.queue[1..] == [];
    w := Then(start, w, Advance);
  }

  lemma OnlyOne(o: Obligation)
    requires o.active
    ensures OnlyActive([o]) == [o]
  {
    assert [o][..0] == [];
    assert OnlyActive([]) == [];
  }

  lemma MinedTooLate(start: World, key: Key, p: Payload) returns (w: World)
    requires Initial(start) && IsKey(key)
    requires p == Payload(key.owner, start.journal.chainId, 0, Approve(key.token, key.spender, 1))
    ensures Reaches(start, w)
    ensures AllowanceOf(w.allowances, key) > 0 && !Covered(w.journal, key)
    ensures forall o :: o in w.journal.obligations ==> !o.active
    ensures OneOpen(start, w.journal, p) && p in w.mined && w.mined[p]
  {
    w := ClearedTooEarly(start, key, p);
    assert ("grant", p) in w.sent && ("grant", p).1 == p && WasSent(w, p);
    hide Reaches, IsAddress, Run;
    w := Then(start, w, Mine(p, true));
  }

  /** The next restart finds the grant mined, and everything settled. */
  lemma SettledTooLate(start: World, key: Key, p: Payload) returns (w: World)
    requires Initial(start) && IsKey(key) && key.owner == start.journal.owner
    requires p == Payload(key.owner, start.journal.chainId, 0, Approve(key.token, key.spender, 1))
    ensures Reaches(start, w)
    ensures AllowanceOf(w.allowances, key) > 0
    ensures NothingActive(w.journal) && AllTerminal(w.journal) && w.journal.plan == None
  {
    w := MinedTooLate(start, key, p);
    hide Reaches, Run, AllowanceOf, IsAddress;
    w := Then(start, w, Crash);
    ReloadsWhenReached(start, w);
    hide Reload;
    w := Then(start, w, Boot);
    ghost var t := w.journal.transactions[0];
    ghost var u := Reconciled(w.journal, t, Confirmed(true, 0));
    assert Identified(w.journal, t) && u.Terminal();
    w := Then(start, w, Inspect(Confirmed(true, 0)));
    assert w.journal.transactions == [u];
  }

  /** Evidence of the run can then be prepared with the allowance open. */
  lemma EvidenceTooEarly(start: World, key: Key, plan: Plan) returns (w: World)
    requires Initial(start) && IsKey(key) && key.owner == start.journal.owner && ValidPlan(plan)
    ensures Reaches(start, w) && w.journal.plan == Some(plan) && w.journal.runStatus == EvidencePending
    ensures AllowanceOf(w.allowances, key) > 0
  {
    hide Reaches, IsAddress, Run, ValidPlan, Initial;
    var p := Payload(key.owner, start.journal.chainId, 0, Approve(key.token, key.spender, 1));
    w := SettledTooLate(start, key, p);
    w := Then(start, w, Evidence(plan));
  }

  lemma ReloadsWhenReached(start: World, w: World)
    requires Initial(start) && Reaches(start, w)
    ensures Reload(w.journal).Ok?
  {
    hide Run, Initial;
    var events :| Run(start, events) == Some(w);
    EveryReloadSucceeds(start, events);
  }

  /**
   * The runners whose catch handler recovers after a failed gate do not keep allowances covered. From every initial
   * state and for every allowance, a restart before a grant is mined leads to a recovery that completes with the grant
   * in flight, and then to the allowance positive without an active obligation. Evidence does not notice.
   */
  lemma HandledRecoveryUncovers(start: World, key: Key)
    requires Initial(start) && IsKey(key)
    ensures exists w :: Reaches(start, w) && w.phase == Ready(Recovering([])) && InFlight(w, key)
    ensures exists w :: Reaches(start, w) && AllowanceOf(w.allowances, key) > 0 && !Covered(w.journal, key)
    ensures key.owner == start.journal.owner ==> forall plan :: ValidPlan(plan) ==>
      exists w :: Reaches(start, w) && AllowanceOf(w.allowances, key) > 0 && EvidenceReady(w, plan)
  {
    hide Reaches, IsAddress, Initial;
    var p := Payload(key.owner, start.journal.chainId, 0, Approve(key.token, key.spender, 1));
    var w := ClearedTooEarly(start, key, p);
    assert InFlight(w, key) by {
      StartMinesNoGrant(start, p);
      assert ("grant", p) in w.sent && ("grant", p).1 == p;
    }
    var v := MinedTooLate(start, key, p);
    if key.owner == start.journal.owner {
      forall plan | ValidPlan(plan)
        ensures exists w :: Reaches(start, w) && AllowanceOf(w.allowances, key) > 0 && EvidenceReady(w, plan)
      {
        var u := EvidenceTooEarly(start, key, plan);
        assert EvidenceReady(u, plan);
      }
    }
  }

  lemma StartMinesNoGrant(start: World, p: Payload)
    requires Initial(start) && p.call.Approve?
    ensures p !in start.mined
  {
  }

  predicate EvidenceReady(w: World, plan: Plan) {
    w.journal.plan == Some(plan) && w.journal.runStatus == EvidencePending
  }
}
