/**
 * What every reachable state of the funded-transaction protocol satisfies, whatever crashes, however the chain answers
 * and whether or not a catch handler goes on after a failure; and what keeps private allowances covered besides.
 */
module FundedSafety {
  import opened Outcomes
  import opened RecoveryJournal
  import opened FundedProtocol

  // ---- The invariant of all runs ----

  /** Some obligation for the allowance is active. */
  ghost predicate Covered(j: Journal, key: Key) {
    exists o :: o in j.obligations && o.active && KeyOf(o) == key
  }

  /** The payload grants a positive allowance for the key once it is mined. */
  predicate Grants(p: Payload, key: Key) {
    p.call.Approve? && 0 < p.call.amount && key == Key(p.signer, p.call.token, p.call.spender)
  }

  ghost predicate Obligations(j: Journal) {
    && (forall o :: o in j.obligations ==> o.id == ObligationId(KeyOf(o)))
    && (forall a, b :: 0 <= a < b < |j.obligations| ==> j.obligations[a].id != j.obligations[b].id)
  }

  /** A transaction recorded as mined is mined, with that outcome. */
  ghost predicate Truthful(j: Journal, mined: map<Payload, bool>) {
    forall t :: t in j.transactions && t.Terminal() ==>
      t.signed.None? && t.hash.payload in mined && mined[t.hash.payload] == (t.status == MinedSuccess)
  }

  ghost predicate Journaled(j: Journal, name: Label, p: Payload) {
    exists t :: t in j.transactions && t.name == name && t.hash == Keccak(p)
  }

  ghost predicate SentJournaled(j: Journal, sent: set<(Label, Payload)>) {
    forall s :: s in sent ==> Journaled(j, s.0, s.1)
  }

  /** Only what was sent is recorded as broadcast. */
  ghost predicate BroadcastSent(w: World) {
    forall t :: t in w.journal.transactions && t.status == Broadcast ==> WasSent(w, t.hash.payload)
  }

  ghost predicate Core(w: World) {
    && RecoveryJournal.Inv(w.journal)
    && Obligations(w.journal)
    && Truthful(w.journal, w.mined)
    && SentJournaled(w.journal, w.sent)
    && BroadcastSent(w)
  }

  /** An open entry of the journal grants the allowance. */
  predicate OpenGrant(j: Journal, key: Key) {
    exists t :: t in j.transactions && !t.Terminal() && Grants(t.hash.payload, key)
  }

  /** A recovery has every active obligation still on its list. */
  ghost predicate WorkFits(j: Journal, work: Work) {
    work.Recovering? ==>
      && (forall o :: o in j.obligations && o.active ==> exists x :: x in work.queue && KeyOf(x) == KeyOf(o))
      && (forall x :: x in work.queue ==> IsKey(KeyOf(x)))
  }

  /** A recovery works on the first obligation of its list. */
  predicate GoalFits(work: Work, goal: Goal) {
    work.Recovering? ==> work.queue != [] && goal.amount == 0 && goal.key == KeyOf(work.queue[0])
  }

  ghost predicate Setup(j: Journal, work: Work, goal: Goal) {
    IsKey(goal.key) && WorkFits(j, work) && GoalFits(work, goal)
  }

  ghost predicate PurposeFits(j: Journal, purpose: Purpose) {
    match purpose
    case Plain => true
    case ForReset(work, goal) => Setup(j, work, goal) && (goal.amount > 0 ==> Covered(j, goal.key))
    case ForGrant(work, goal, hashes) => Setup(j, work, goal) && (goal.amount > 0 ==> Covered(j, goal.key))
  }

  /** An allowance about to be cleared was read as zero: if it is not, then a grant the journal has open was mined. */
  ghost predicate StageFits(w: World, goal: Goal, stage: Stage) {
    match stage
    case Reading => true
    case Obliging(_) => true
    case Clearing(_) =>
      goal.amount == 0 && (AllowanceOf(w.allowances, goal.key) == 0 || OpenGrant(w.journal, goal.key))
    case _ => goal.amount > 0 ==> Covered(w.journal, goal.key)
  }

  /** Outside a catch handler nothing but the current submission is open. */
  ghost predicate Settled(w: World) {
    !w.handling ==> AllTerminal(w.journal)
  }

  ghost predicate OthersTerminal(j: Journal, hash: Hash) {
    forall t :: t in j.transactions ==> t.Terminal() || t.hash == hash
  }

  ghost predicate OpenUnder(j: Journal, name: Label, p: Payload) {
    exists t :: t in j.transactions && t.hash == Keccak(p) && t.name == name && !t.Terminal()
  }

  ghost predicate SendFits(w: World, name: Label, p: Payload, at: SendStage) {
    if at.Recording? then Settled(w)
    else
      && OpenUnder(w.journal, name, p) && (!w.handling ==> OthersTerminal(w.journal, Keccak(p)))
      && (at.Noting? || at.Waiting? || at.Doubting? ==> (name, p) in w.sent)
  }

  ghost predicate PhaseFits(w: World) {
    match w.phase
    case Down => !w.handling
    case Thrown => !w.handling
    case Reconciling(next, clean) =>
      && !w.handling && next <= |w.journal.transactions|
      && (clean ==> forall k :: 0 <= k < next ==> w.journal.transactions[k].Terminal())
    case Ready(work) => Settled(w) && WorkFits(w.journal, work)
    case Setting(work, goal, stage) => Settled(w) && Setup(w.journal, work, goal) && StageFits(w, goal, stage)
    case Sending(purpose, name, p, at) =>
      && PurposeFits(w.journal, purpose) && SendFits(w, name, p, at)
      && (forall key :: Grants(p, key) ==> Covered(w.journal, key))
  }

  ghost predicate Consistent(w: World) {
    Core(w) && PhaseFits(w)
  }

  // ---- Obligations ----

  lemma IdNamesKey(a: Key, b: Key)
    requires IsKey(a) && IsKey(b)
    requires ObligationId(a) == ObligationId(b)
    ensures a == b
  {
    var x, y := ObligationId(a), ObligationId(b);
    assert |"allowance:"| == 10;
    assert x[10..52] == a.owner && y[10..52] == b.owner;
    assert x[53..95] == a.token && y[53..95] == b.token;
    assert x[96..138] == a.spender && y[96..138] == b.spender;
  }

  lemma SameId(j: Journal, a: Obligation, b: Obligation)
    requires RecoveryJournal.Inv(j) && Obligations(j) && a in j.obligations && b in j.obligations
    ensures a.id == b.id <==> KeyOf(a) == KeyOf(b)
    ensures a.id == b.id ==> a == b
  {
    assert ObligationOk(a) && ObligationOk(b);
    if a.id == b.id {
      IdNamesKey(KeyOf(a), KeyOf(b));
      var x :| 0 <= x < |j.obligations| && j.obligations[x] == a;
      var y :| 0 <= y < |j.obligations| && j.obligations[y] == b;
    }
  }

  /** An allowance is covered exactly when the obligation of its name exists and is active. */
  lemma CoveredExactly(j: Journal, key: Key)
    requires RecoveryJournal.Inv(j) && Obligations(j)
    ensures var found := FindObligation(j, ObligationId(key));
      Covered(j, key) <==> found.Some? && KeyOf(j.obligations[found.value]) == key && j.obligations[found.value].active
  {
    var found := FindObligation(j, ObligationId(key));
    if Covered(j, key) {
      var o :| o in j.obligations && o.active && KeyOf(o) == key;
      var x :| 0 <= x < |j.obligations| && j.obligations[x] == o;
      SameId(j, o, j.obligations[found.value]);
    }
  }

  lemma FoundKey(j: Journal, key: Key)
    requires RecoveryJournal.Inv(j) && Obligations(j) && FindObligation(j, ObligationId(key)).Some?
    requires IsKey(key)
    ensures KeyOf(j.obligations[FindObligation(j, ObligationId(key)).value]) == key
  {
    var o := j.obligations[FindObligation(j, ObligationId(key)).value];
    assert ObligationOk(o);
    IdNamesKey(KeyOf(o), key);
  }

  // ---- Changes that keep the core ----

  /** The core says nothing about the allowances and the phase. */
  lemma CoreIgnoresPhase(w: World, v: World)
    requires v == w.(phase := v.phase, handling := v.handling, allowances := v.allowances)
    ensures Core(w) == Core(v)
  {
    hide RecoveryJournal.Inv, Obligations, Covered, AllowanceOf;
    assert forall p :: WasSent(w, p) == WasSent(v, p);
  }

  lemma SameObligationsCover(j: Journal, k: Journal)
    requires k.obligations == j.obligations
    ensures Obligations(j) == Obligations(k)
    ensures forall key :: Covered(j, key) == Covered(k, key)
  {
  }

  /** What holds of an entry besides its place in the journal. */
  ghost predicate EntryFits(w: World, t: Transaction) {
    && (t.Terminal() ==> t.signed.None? && t.hash.payload in w.mined)
    && (t.Terminal() ==> w.mined[t.hash.payload] == (t.status == MinedSuccess))
    && (t.status == Broadcast ==> WasSent(w, t.hash.payload))
  }

  lemma CoreAppend(w: World, t: Transaction, k: Journal)
    requires Core(w) && k == w.journal.(transactions := w.journal.transactions + [t]) && RecoveryJournal.Inv(k)
    requires EntryFits(w, t)
    ensures Core(w.(journal := k))
  {
    hide RecoveryJournal.Inv, Covered, Obligations;
    SameObligationsCover(w.journal, k);
    JournaledStays(w, k);
    SentStays(w, w.(journal := k));
  }

  lemma SentStays(w: World, v: World)
    requires w.sent <= v.sent
    ensures forall p :: WasSent(w, p) ==> WasSent(v, p)
  {
  }

  /** Labels and hashes are all that the journaling of sent payloads depends on. */
  lemma JournaledStays(w: World, k: Journal)
    requires SentJournaled(w.journal, w.sent) && |w.journal.transactions| <= |k.transactions|
    requires forall i :: 0 <= i < |w.journal.transactions| ==>
      k.transactions[i].name == w.journal.transactions[i].name
        && k.transactions[i].hash == w.journal.transactions[i].hash
    ensures SentJournaled(k, w.sent)
  {
    forall s | s in w.sent
      ensures Journaled(k, s.0, s.1)
    {
      assert Journaled(w.journal, s.0, s.1);
      var u :| u in w.journal.transactions && u.name == s.0 && u.hash == Keccak(s.1);
      var x :| 0 <= x < |w.journal.transactions| && w.journal.transactions[x] == u;
      assert k.transactions[x] in k.transactions;
    }
  }

  lemma CoreUpdate(w: World, i: nat, t: Transaction)
    requires Core(w) && i < |w.journal.transactions| && RecoveryJournal.Inv(SetTransaction(w.journal, i, t))
    requires t.name == w.journal.transactions[i].name && t.hash == w.journal.transactions[i].hash
    requires EntryFits(w, t)
    ensures Core(w.(journal := SetTransaction(w.journal, i, t)))
  {
    hide RecoveryJournal.Inv, Covered, Obligations;
    var k := SetTransaction(w.journal, i, t);
    SameObligationsCover(w.journal, k);
    JournaledStays(w, k);
    SentStays(w, w.(journal := k));
    forall u | u in k.transactions
      ensures u == t || u in w.journal.transactions
    {
    }
  }

  lemma CoreElsewhere(w: World, k: Journal)
    requires Core(w) && RecoveryJournal.Inv(k) && Obligations(k) && k.transactions == w.journal.transactions
    ensures Core(w.(journal := k))
  {
    hide RecoveryJournal.Inv, Covered, Obligations;
    JournaledStays(w, k);
    SentStays(w, w.(journal := k));
  }

  /** Only the obligations changed, and they are still named properly. */
  ghost predicate ObligationsChanged(j: Journal, k: Journal) {
    RecoveryJournal.Inv(k) && Obligations(k) && k == j.(obligations := k.obligations)
  }

  /** Recording an obligation covers its allowance and no other, and uncovers none. */
  lemma ObligingCovers(j: Journal, key: Key)
    requires RecoveryJournal.Inv(j) && Obligations(j)
    ensures var r := RecordObligation(j, ObligationId(key), key.owner, key.token, key.spender);
      r.Ok? ==> ObligationsChanged(j, r.value) && forall x :: Covered(r.value, x) <==> x == key || Covered(j, x)
  {
    var id := ObligationId(key);
    var r := RecordObligation(j, id, key.owner, key.token, key.spender);
    ObligationKeepsInv(j, id, key.owner, key.token, key.spender);
    if r.Ok? {
      var k := r.value;
      var found := FindObligation(j, id);
      if found.Some? {
        FoundKey(j, key);
        OneObligationSet(j, k, found.value, key);
      } else {
        assert k.obligations[|j.obligations|] in k.obligations;
        forall x
          ensures Covered(k, x) <==> x == key || Covered(j, x)
        {
        }
      }
    }
  }

  /** Making one obligation active covers its key; all others stay as they are. */
  lemma OneObligationSet(j: Journal, k: Journal, n: nat, key: Key)
    requires n < |j.obligations| && KeyOf(j.obligations[n]) == key
    requires k.obligations == j.obligations ||
      k.obligations == j.obligations[n := j.obligations[n].(active := true, cleanup := [])]
    requires k.obligations[n].active
    ensures forall x :: Covered(k, x) <==> x == key || Covered(j, x)
  {
    assert k.obligations[n] in k.obligations;
    forall x
      ensures Covered(k, x) <==> x == key || Covered(j, x)
    {
      if Covered(j, x) {
        var o :| o in j.obligations && o.active && KeyOf(o) == x;
        var m :| 0 <= m < |j.obligations| && j.obligations[m] == o;
        assert k.obligations[m] in k.obligations;
      }
      if Covered(k, x) {
        var o :| o in k.obligations && o.active && KeyOf(o) == x;
        var m :| 0 <= m < |k.obligations| && k.obligations[m] == o;
        assert m != n ==> j.obligations[m] in j.obligations;
      }
    }
  }

  /** Clearing an obligation uncovers its allowance and no other. */
  lemma ClearingUncovers(j: Journal, key: Key, cleanup: seq<Hash>)
    requires RecoveryJournal.Inv(j) && Obligations(j) && Covered(j, key)
    ensures var r := MarkCleared(j, ObligationId(key), cleanup);
      r.Ok? ==> ObligationsChanged(j, r.value) && forall x :: Covered(r.value, x) <==> x != key && Covered(j, x)
  {
    var id := ObligationId(key);
    var r := MarkCleared(j, id, cleanup);
    ClearedKeepsInv(j, id, cleanup);
    CoveredExactly(j, key);
    if r.Ok? {
      var n := FindObligation(j, id).value;
      SetInactive(j, n, r.value.obligations[n]);
      OneObligationCleared(j, r.value, n, key);
    }
  }

  lemma SetInactive(j: Journal, n: nat, o: Obligation)
    requires Obligations(j) && n < |j.obligations| && o.id == j.obligations[n].id && KeyOf(o) == KeyOf(j.obligations[n])
    ensures Obligations(j.(obligations := j.obligations[n := o]))
  {
    var k := j.(obligations := j.obligations[n := o]);
    forall x | x in k.obligations
      ensures x.id == ObligationId(KeyOf(x))
    {
      assert x == o || x in j.obligations;
      assert j.obligations[n] in j.obligations;
    }
  }

  lemma OneObligationCleared(j: Journal, k: Journal, n: nat, key: Key)
    requires RecoveryJournal.Inv(j) && Obligations(j) && n < |j.obligations| && KeyOf(j.obligations[n]) == key
    requires |k.obligations| == |j.obligations| && !k.obligations[n].active
    requires forall m :: 0 <= m < |j.obligations| && m != n ==> k.obligations[m] == j.obligations[m]
    ensures forall x :: Covered(k, x) <==> x != key && Covered(j, x)
  {
    forall x
      ensures Covered(k, x) <==> x != key && Covered(j, x)
    {
      if Covered(k, x) {
        var o :| o in k.obligations && o.active && KeyOf(o) == x;
        var m :| 0 <= m < |k.obligations| && k.obligations[m] == o;
        assert j.obligations[m] == o;
        SameId(j, o, j.obligations[n]);
      }
      if x != key && Covered(j, x) {
        var o :| o in j.obligations && o.active && KeyOf(o) == x;
        var m :| 0 <= m < |j.obligations| && j.obligations[m] == o;
        assert k.obligations[m] in k.obligations;
      }
    }
  }

  // ---- The chain ----

  /** Everything handed to the network is still open in the journal until it is mined. */
  lemma UnminedIsOpen(w: World, p: Payload)
    requires Core(w) && WasSent(w, p) && p !in w.mined
    ensures exists t :: t in w.journal.transactions && t.hash == Keccak(p) && !t.Terminal()
  {
    var s :| s in w.sent && s.1 == p;
    assert Journaled(w.journal, s.0, s.1);
  }

  /** Mining more payloads keeps the core. */
  lemma CoreMined(w: World, p: Payload, success: bool)
    requires Core(w) && p !in w.mined
    ensures Core(w.(mined := w.mined[p := success]))
  {
    hide RecoveryJournal.Inv, Obligations;
    SentStays(w, w.(mined := w.mined[p := success]));
  }

  lemma MineKeeps(w: World, p: Payload, success: bool)
    requires Consistent(w) && WasSent(w, p) && p !in w.mined
    ensures Consistent(w.(mined := w.mined[p := success], allowances := Approved(w.allowances, p, success)))
  {
    hide RecoveryJournal.Inv, Covered, Obligations;
    var next := w.(mined := w.mined[p := success], allowances := Approved(w.allowances, p, success));
    CoreMined(w, p, success);
    CoreIgnoresPhase(w.(mined := w.mined[p := success]), next);
    hide Core;
    if w.phase.Setting? && w.phase.stage.Clearing? {
      var key := w.phase.goal.key;
      UnminedIsOpen(w, p);
      if AllowanceOf(next.allowances, key) > 0 && AllowanceOf(w.allowances, key) == 0 {
        assert Grants(p, key);
        assert OpenGrant(w.journal, key);
      }
    }
  }

  lemma ChainKeeps(w: World, e: Event)
    requires Consistent(w)
    ensures var r := ChainStep(w, e); r.Some? ==> Consistent(r.value)
  {
    hide RecoveryJournal.Inv, Covered, Obligations, OpenGrant;
    if ChainStep(w, e).Some? {
      match e
      case Mine(p, success) => MineKeeps(w, p, success);
      case MineForeign(p, success) => CoreMined(w, p, success);
      case Spend(_, _) => CoreIgnoresPhase(w, ChainStep(w, e).value);
    }
  }

  // ---- The process ----

  lemma DownKeeps(w: World, e: Event)
    requires Consistent(w) && w.phase.Down?
    ensures var r := DownStep(w, e); r.Some? ==> Consistent(r.value)
  {
    hide Core;
    if e.Resend? && ResendStep(w, e.hash, e.answer, e.response).Some? {
      ResendKeeps(w, e.hash, e.answer, e.response);
    }
    if e.Boot? {
      CoreIgnoresPhase(w, DownStep(w, e).value);
    }
  }

  /** Sending more of what is journaled keeps the core. */
  lemma CoreSent(w: World, sent: set<(Label, Payload)>)
    requires Core(w) && w.sent <= sent && SentJournaled(w.journal, sent)
    ensures Core(w.(sent := sent))
  {
    hide RecoveryJournal.Inv, Obligations;
    SentStays(w, w.(sent := sent));
  }

  /** What is handed out again is journaled. */
  lemma ResentJournaled(w: World, hash: Hash, answer: Inspection, response: Option<Hash>)
    requires Core(w)
    ensures var r := Rebroadcast(w.journal, hash, answer, response); var found := FindHash(w.journal, hash);
      && (found.Some? && r.sent.Some? ==>
           Journaled(w.journal, w.journal.transactions[found.value].name, r.sent.value) && r.sent.value == hash.payload)
      && (r.recorded.Ok? ==> RecoveryJournal.Inv(r.recorded.value))
      && (r.recorded.Ok? && r.recorded.value != w.journal ==> found.Some?)
  {
    hide Obligations, Truthful, SentJournaled, BroadcastSent;
    var found := FindHash(w.journal, hash);
    RebroadcastKeepsInv(w.journal, hash, answer, response);
    RebroadcastIsIdentical(w.journal, hash, answer, response);
    if found.Some? {
      assert w.journal.transactions[found.value] in w.journal.transactions;
    }
  }

  /** What a rebroadcast records is one entry, with the outcome the chain has or as broadcast. */
  lemma ResentEntry(j: Journal, hash: Hash, answer: Inspection, response: Option<Hash>)
    requires Rebroadcast(j, hash, answer, response).recorded.Ok? && FindHash(j, hash).Some?
    ensures var i := FindHash(j, hash).value; var r := Rebroadcast(j, hash, answer, response);
      var u := r.recorded.value.transactions[i];
      && |r.recorded.value.transactions| == |j.transactions| && r.recorded.value == SetTransaction(j, i, u)
      && u.name == j.transactions[i].name && u.hash == hash
      && (r.recorded.value == j
          || (u.status == Broadcast && r.sent.Some?)
          || (answer.Confirmed? && u.Terminal() && u.signed.None? && answer.success == (u.status == MinedSuccess)))
  {
    var i := FindHash(j, hash).value;
    assert j.transactions[i := j.transactions[i]] == j.transactions;
  }

  lemma ResendKeeps(w: World, hash: Hash, answer: Inspection, response: Option<Hash>)
    requires Consistent(w) && w.phase.Down? && Sound(w, hash.payload, answer)
    ensures Consistent(ResendStep(w, hash, answer, response).value)
  {
    ResentJournaled(w, hash, answer, response);
    hide Core, RecoveryJournal.Inv, Covered, Rebroadcast;
    var r := Rebroadcast(w.journal, hash, answer, response);
    var found := FindHash(w.journal, hash);
    var next := ResendStep(w, hash, answer, response).value;
    var v := w.(sent := next.sent);
    SentWithOneMore(w, next.sent, if found.Some? then w.journal.transactions[found.value].name else "", hash.payload);
    CoreSent(w, v.sent);
    if r.recorded.Ok? && r.recorded.value != w.journal {
      ResentEntry(w.journal, hash, answer, response);
      if r.sent.Some? {
        assert (w.journal.transactions[found.value].name, r.sent.value) in v.sent;
        assert WasSent(v, (w.journal.transactions[found.value].name, r.sent.value).1);
      }
      CoreUpdate(v, found.value, r.recorded.value.transactions[found.value]);
    }
  }

  lemma SentWithOneMore(w: World, sent: set<(Label, Payload)>, name: Label, p: Payload)
    requires Core(w) && (sent == w.sent || (sent == w.sent + {(name, p)} && Journaled(w.journal, name, p)))
    ensures SentJournaled(w.journal, sent)
  {
    hide RecoveryJournal.Inv, Obligations;
  }

  lemma InspectKeeps(w: World, answer: Inspection)
    requires Consistent(w) && w.phase.Reconciling?
    ensures var r := InspectStep(w, answer); r.Some? ==> Consistent(r.value)
  {
    var i, j := w.phase.next, w.journal;
    if i < |j.transactions| && Sound(w, j.transactions[i].hash.payload, answer) {
      ReconciledFits(j, i, answer);
      var t := j.transactions[i];
      assert t in j.transactions;
      hide RecoveryJournal.Inv, Obligations;
      CoreUpdate(w, i, Reconciled(j, t, answer));
      CoreIgnoresPhase(w.(journal := SetTransaction(j, i, Reconciled(j, t, answer))), InspectStep(w, answer).value);
    } else {
      hide Core;
      CoreIgnoresPhase(w, To(w, if w.phase.clean then Ready(Free) else Thrown));
    }
  }

  lemma ObservedKeeps(w: World, name: Label, payload: Payload, block: int)
    requires Consistent(w) && w.phase.Ready? && payload in w.mined && w.mined[payload]
    ensures var r := RecordObserved(w.journal, name, Keccak(payload), block);
      Consistent(FundedProtocol.Journaled(w, r, w.phase, w.phase))
  {
    hide Obligations, Covered;
    var r := RecordObserved(w.journal, name, Keccak(payload), block);
    ObservedKeepsInv(w.journal, name, Keccak(payload), block);
    if r.Ok? && r.value != w.journal {
      hide RecoveryJournal.Inv;
      CoreAppend(w, Transaction(name, Keccak(payload), MinedSuccess, None, Some(block)), r.value);
    }
    CoreIgnoresPhase(w, FundedProtocol.Journaled(w, r, w.phase, w.phase).(journal := w.journal));
  }

  /** What the books about resources leave alone, and that they stay readable. */
  lemma ResourceBooksKeep(j: Journal, r: Recorded)
    requires RecoveryJournal.Inv(j) && (r.Ok? ==> RecoveryJournal.Inv(r.value))
    requires r.Ok? ==> r.value == j.(resources := r.value.resources)
    ensures r.Ok? ==> r.value.transactions == j.transactions && r.value.obligations == j.obligations
    ensures r.Ok? ==> Obligations(r.value) == Obligations(j)
  {
  }

  lemma ResourcesKeep(w: World, r: Recorded)
    requires Consistent(w) && w.phase.Ready? && (r.Ok? ==> RecoveryJournal.Inv(r.value))
    requires r.Ok? ==> r.value == w.journal.(resources := r.value.resources)
    ensures Consistent(FundedProtocol.Journaled(w, r, w.phase, w.phase))
  {
    hide RecoveryJournal.Inv;
    var v := FundedProtocol.Journaled(w, r, w.phase, w.phase);
    ResourceBooksKeep(w.journal, r);
    if r.Ok? {
      CoreElsewhere(w, r.value);
      PhaseElsewhere(w, r.value);
    }
    hide Core;
    CoreIgnoresPhase(w.(journal := v.journal), v);
  }

  lemma BookKeeps(w: World, entry: Entry)
    requires Consistent(w) && w.phase.Ready?
    ensures var r := BookStep(w, entry); r.Some? ==> Consistent(r.value)
  {
    ConsistentJournal(w);
    hide Consistent, RecoveryJournal.Inv;
    match entry
    case Observed(name, payload, block) =>
      if payload in w.mined && w.mined[payload] {
        ObservedKeeps(w, name, payload, block);
      }
    case Created(id, kind, address, creation, metadata) =>
      ResourceKeepsInv(w.journal, id, kind, address, creation, metadata);
      ResourcesKeep(w, RecordResource(w.journal, id, kind, address, creation, metadata));
    case Recovered(id, evidence) =>
      RecoveredKeepsInv(w.journal, id, evidence);
      ResourcesKeep(w, MarkRecovered(w.journal, id, evidence));
    case Annotated(id, metadata) =>
      MetadataKeepsInv(w.journal, id, metadata);
      ResourcesKeep(w, UpdateMetadata(w.journal, id, metadata));
  }

  lemma ConsistentJournal(w: World)
    requires Consistent(w)
    ensures RecoveryJournal.Inv(w.journal)
  {
  }

  lemma PhaseElsewhere(w: World, k: Journal)
    requires PhaseFits(w) && k.transactions == w.journal.transactions && k.obligations == w.journal.obligations
    ensures PhaseFits(w.(journal := k))
  {
    SameObligationsCover(w.journal, k);
  }

  lemma RunStepKeeps(w: World, e: Event)
    requires Consistent(w)
    ensures var r := RunStep(w, e); r.Some? ==> Consistent(r.value)
  {
    if RunStep(w, e).Some? {
      match e
      case Conclude(status) =>
        MarkRunReadableExactly(w.journal, status);
        hide RecoveryJournal.Inv;
        CoreElsewhere(w, MarkRun(w.journal, status));
        PhaseElsewhere(w, MarkRun(w.journal, status));
      case Evidence(plan) =>
        EvidenceKeepsInv(w.journal, plan);
        hide RecoveryJournal.Inv;
        var r := PrepareEvidence(w.journal, plan);
        if r.Ok? {
          CoreElsewhere(w, r.value);
          PhaseElsewhere(w, r.value);
        }
    }
  }

  lemma ObligationsKeyed(w: World)
    requires Core(w)
    ensures forall o :: o in w.journal.obligations ==> IsKey(KeyOf(o))
  {
    assert forall o :: o in w.journal.obligations ==> ObligationOk(o);
  }

  lemma ReadyKeeps(w: World, e: Event)
    requires Consistent(w) && w.phase.Ready?
    ensures var r := ReadyStep(w, e); r.Some? ==> Consistent(r.value)
  {
    hide Core, BookStep, IsAddress, OnlyActive;
    if e.Book? {
      BookKeeps(w, e.entry);
    } else {
      ObligationsKeyed(w);
      var r := ReadyStep(w, e);
      if r.Some? {
        CoreIgnoresPhase(w, r.value);
      }
    }
  }

  lemma SignKeeps(w: World, chainId: int, nonce: int)
    requires Consistent(w) && w.phase.Setting?
    ensures var r := SignStep(w, chainId, nonce); r.Some? ==> Consistent(r.value)
  {
    hide Core;
    var r := SignStep(w, chainId, nonce);
    if r.Some? {
      CoreIgnoresPhase(w, r.value);
    }
  }

  // ---- Setting an allowance ----

  /** The steps that read and compare but change no journal. */
  lemma PlainAdvanceKeeps(w: World)
    requires Consistent(w) && w.phase.Setting? && !w.phase.stage.Clearing?
    requires w.phase.stage.Obliging? ==> w.phase.stage.current == 0 && w.phase.goal.amount == 0
    ensures var r := AdvanceStep(w); r.Some? ==> Consistent(r.value)
  {
    hide Core, OpenGrant, Covered, RecordObligation, MarkCleared, IsAddress;
    var Setting(work, goal, stage) := w.phase;
    var r := AdvanceStep(w);
    if r.Some? {
      CoreIgnoresPhase(w, r.value);
    }
  }

  lemma ObligingKeeps(w: World)
    requires Consistent(w) && w.phase.Setting? && w.phase.stage.Obliging?
    requires w.phase.stage.current > 0 || w.phase.goal.amount > 0
    ensures Consistent(AdvanceStep(w).value)
  {
    hide RecoveryJournal.Inv, Obligations, Grants, AllowanceOf;
    var Setting(work, goal, stage) := w.phase;
    var r := RecordObligation(w.journal, ObligationId(goal.key), goal.key.owner, goal.key.token, goal.key.spender);
    ObligingCovers(w.journal, goal.key);
    if r.Ok? {
      CoreElsewhere(w, r.value);
      ObligedWork(w.journal, r.value, work, goal);
    }
  }

  /** What was just covered is what the recovery works on. */
  lemma ObligedWork(j: Journal, k: Journal, work: Work, goal: Goal)
    requires Setup(j, work, goal) && forall x :: Covered(k, x) <==> x == goal.key || Covered(j, x)
    ensures Setup(k, work, goal)
  {
    if work.Recovering? {
      forall o | o in k.obligations && o.active
        ensures exists x :: x in work.queue && KeyOf(x) == KeyOf(o)
      {
        assert Covered(k, KeyOf(o));
        if Covered(j, KeyOf(o)) {
          var n :| n in j.obligations && n.active && KeyOf(n) == KeyOf(o);
        } else {
          assert work.queue[0] in work.queue;
        }
      }
    }
  }

  lemma AfterFits(w: World, j: Journal, work: Work, goal: Goal)
    requires Settled(w.(journal := j)) && Setup(j, work, goal) && (work.Recovering? ==> !Covered(j, goal.key))
    ensures PhaseFits(To(w.(journal := j), After(work)))
  {
    if work.Recovering? {
      forall o | o in j.obligations && o.active
        ensures exists x :: x in work.queue[1..] && KeyOf(x) == KeyOf(o)
      {
        var x :| x in work.queue && KeyOf(x) == KeyOf(o);
        assert Covered(j, KeyOf(o));
      }
    }
  }

  /** Clearing an obligation leaves a recovery's list complete. */
  lemma ClearedWork(j: Journal, k: Journal, work: Work)
    requires WorkFits(j, work) && forall x :: Covered(k, x) ==> Covered(j, x)
    ensures WorkFits(k, work)
  {
    forall o | o in k.obligations && o.active && work.Recovering?
      ensures exists x :: x in work.queue && KeyOf(x) == KeyOf(o)
    {
      assert Covered(k, KeyOf(o));
      assert Covered(j, KeyOf(o));
    }
  }

  /** The obligation that the current step is about to clear, if any. */
  predicate Clears(w: World, e: Event) {
    && e.Advance? && w.phase.Setting? && w.phase.stage.Clearing?
    && var found := FindObligation(w.journal, ObligationId(w.phase.goal.key));
       && found.Some? && w.journal.obligations[found.value].active
       && MarkCleared(w.journal, ObligationId(w.phase.goal.key), w.phase.stage.hashes).Ok?
  }

  /** A clearing uncovers the allowance it is about and no other. */
  lemma ClearingStep(w: World)
    requires Consistent(w) && Clears(w, Advance)
    ensures var r := AdvanceStep(w);
      && r == Some(To(w.(journal := r.value.journal), After(w.phase.work)))
      && r.value.journal == MarkCleared(w.journal, ObligationId(w.phase.goal.key), w.phase.stage.hashes).value
      && ObligationsChanged(w.journal, r.value.journal)
      && Covered(w.journal, w.phase.goal.key)
      && forall x :: Covered(r.value.journal, x) <==> x != w.phase.goal.key && Covered(w.journal, x)
  {
    hide RecoveryJournal.Inv, Obligations, StageFits, WorkFits, Settled, MarkCleared;
    CoveredExactly(w.journal, w.phase.goal.key);
    FoundKey(w.journal, w.phase.goal.key);
    ClearingUncovers(w.journal, w.phase.goal.key, w.phase.stage.hashes);
  }

  lemma ClearingKeeps(w: World)
    requires Consistent(w) && w.phase.Setting? && w.phase.stage.Clearing?
    ensures Consistent(AdvanceStep(w).value)
  {
    hide RecoveryJournal.Inv, Obligations, AllowanceOf, OpenGrant;
    var Setting(work, goal, stage) := w.phase;
    if Clears(w, Advance) {
      ClearingStep(w);
      var k := AdvanceStep(w).value.journal;
      CoreElsewhere(w, k);
      CoreIgnoresPhase(w.(journal := k), AdvanceStep(w).value);
      ClearedWork(w.journal, k, work);
      AfterFits(w, k, work, goal);
    } else {
      CoveredExactly(w.journal, goal.key);
      hide MarkCleared, Core;
      NothingToClear(w);
      CoreIgnoresPhase(w, AdvanceStep(w).value);
    }
  }

  lemma NothingToClear(w: World)
    requires Consistent(w) && w.phase.Setting? && w.phase.stage.Clearing? && !Clears(w, Advance)
    ensures var v := AdvanceStep(w).value; v == To(w, v.phase) && PhaseFits(v)
  {
    hide RecoveryJournal.Inv, Obligations, AllowanceOf, OpenGrant, MarkCleared;
    var Setting(work, goal, stage) := w.phase;
    var found := FindObligation(w.journal, ObligationId(goal.key));
    CoveredExactly(w.journal, goal.key);
    if !(found.Some? && w.journal.obligations[found.value].active) {
      AfterFits(w, w.journal, work, goal);
    }
  }

  lemma AdvanceKeeps(w: World)
    requires Consistent(w) && w.phase.Setting?
    ensures var r := AdvanceStep(w); r.Some? ==> Consistent(r.value)
  {
    hide Core, PhaseFits;
    var stage := w.phase.stage;
    if stage.Clearing? {
      ClearingKeeps(w);
    } else if stage.Obliging? && (stage.current > 0 || w.phase.goal.amount > 0) {
      ObligingKeeps(w);
    } else {
      PlainAdvanceKeeps(w);
    }
  }

  // ---- Sending ----

  lemma RecordKeeps(w: World)
    requires Consistent(w) && w.phase.Sending? && w.phase.at.Recording?
    ensures Consistent(SendingStep(w, Record).value)
  {
    hide Core, Obligations, Covered, Grants, RecordPrepared;
    var Sending(purpose, name, p, at) := w.phase;
    var v := SendingStep(w, Record).value;
    CoreIgnoresPhase(w, v.(journal := w.journal));
    if RecordPrepared(w.journal, name, Keccak(p), p).Ok? {
      CoreIgnoresPhase(w.(journal := v.journal), v);
      RecordedOpen(w, name, p);
      PurposeKept(w.journal, v.journal, purpose);
      SameObligationsCover(w.journal, v.journal);
    }
  }

  /** A payload accepted by the journal is open there, beside what was open before. */
  lemma RecordedOpen(w: World, name: Label, p: Payload)
    requires Core(w) && Settled(w) && RecordPrepared(w.journal, name, Keccak(p), p).Ok?
    ensures var k := RecordPrepared(w.journal, name, Keccak(p), p).value;
      && Core(w.(journal := k)) && k.obligations == w.journal.obligations && OpenUnder(k, name, p)
      && (!w.handling ==> OthersTerminal(k, Keccak(p)))
  {
    hide Obligations;
    if FindHash(w.journal, Keccak(p)).Some? {
      KnownPrepared(w, name, p);
    } else {
      var t := Transaction(name, Keccak(p), Prepared, Some(p), None);
      var k := RecordPrepared(w.journal, name, Keccak(p), p).value;
      PreparedKeepsInv(w.journal, name, Keccak(p), p);
      hide RecoveryJournal.Inv;
      CoreAppend(w, t, k);
      assert t in k.transactions;
    }
  }

  /** A payload that is journaled already and accepted again is still open. */
  lemma KnownPrepared(w: World, name: Label, p: Payload)
    requires Core(w) && FindHash(w.journal, Keccak(p)).Some? && RecordPrepared(w.journal, name, Keccak(p), p).Ok?
    ensures RecordPrepared(w.journal, name, Keccak(p), p).value == w.journal && OpenUnder(w.journal, name, p)
    ensures AllTerminal(w.journal) ==> false
  {
    var t := w.journal.transactions[FindHash(w.journal, Keccak(p)).value];
    assert t in w.journal.transactions;
  }

  lemma PurposeKept(j: Journal, k: Journal, purpose: Purpose)
    requires PurposeFits(j, purpose) && k.obligations == j.obligations
    ensures PurposeFits(k, purpose)
  {
    SameObligationsCover(j, k);
  }

  lemma OpenIndex(j: Journal, name: Label, p: Payload) returns (i: nat)
    requires RecoveryJournal.Inv(j) && OpenUnder(j, name, p)
    ensures i < |j.transactions| && FindHash(j, Keccak(p)) == Some(i)
    ensures j.transactions[i].hash == Keccak(p) && j.transactions[i].name == name && !j.transactions[i].Terminal()
  {
    var t :| t in j.transactions && t.hash == Keccak(p) && t.name == name && !t.Terminal();
    i :| 0 <= i < |j.transactions| && j.transactions[i] == t;
    FoundAt(j, i);
  }

  lemma BroadcastingKeeps(w: World, response: Option<Hash>)
    requires Consistent(w) && w.phase.Sending? && w.phase.at.Broadcasting?
    ensures Consistent(SendingStep(w, Send(response)).value)
  {
    hide RecoveryJournal.Inv, Obligations, Covered, Grants, PurposeFits;
    var Sending(purpose, name, p, at) := w.phase;
    var v := SendingStep(w, Send(response)).value;
    assert Journaled(w.journal, name, p);
    CoreSent(w, w.sent + {(name, p)});
    CoreIgnoresPhase(w.(sent := w.sent + {(name, p)}), v);
  }

  /** A broadcast noted of what was sent keeps the core and what is open. */
  lemma NotedOpen(w: World, name: Label, p: Payload)
    requires Core(w) && OpenUnder(w.journal, name, p) && (name, p) in w.sent
    ensures var r := RecordBroadcast(w.journal, name, Keccak(p));
      r.Ok? ==>
        Core(w.(journal := r.value)) && r.value.obligations == w.journal.obligations && OpenUnder(r.value, name, p)
    ensures var r := RecordBroadcast(w.journal, name, Keccak(p));
      r.Ok? && OthersTerminal(w.journal, Keccak(p)) ==> OthersTerminal(r.value, Keccak(p))
  {
    hide Obligations, Truthful, SentJournaled, BroadcastSent;
    var i := OpenIndex(w.journal, name, p);
    var r := RecordBroadcast(w.journal, name, Keccak(p));
    BroadcastKeepsInv(w.journal, name, Keccak(p));
    if r.Ok? {
      hide RecoveryJournal.Inv;
      assert (name, p).1 == p;
      hide Core;
      CoreUpdate(w, i, w.journal.transactions[i].(status := Broadcast));
      assert r.value.transactions[i] in r.value.transactions;
    }
  }

  lemma NotingKeeps(w: World, noted: bool)
    requires Consistent(w) && w.phase.Sending? && w.phase.at.Noting?
    ensures Consistent(SendingStep(w, Note(noted)).value)
  {
    hide Core, Covered, Grants, PurposeFits, RecordBroadcast, OpenUnder, OthersTerminal;
    var Sending(purpose, name, p, at) := w.phase;
    var v := SendingStep(w, Note(noted)).value;
    NotedOpen(w, name, p);
    CoreIgnoresPhase(w.(journal := v.journal), v);
    PurposeKept(w.journal, v.journal, purpose);
    SameObligationsCover(w.journal, v.journal);
  }

  /** Recording the outcome of the current submission. */
  lemma OutcomeKeeps(w: World, status: Status, block: Option<int>)
    requires Consistent(w) && w.phase.Sending? && !w.phase.at.Recording? && status != Broadcast && status != Prepared
    requires block.Some? ==> 0 <= block.value
    requires status != OutcomeUnknown ==>
      w.phase.signed in w.mined && w.mined[w.phase.signed] == (status == MinedSuccess)
    ensures var r := RecordTransaction(w.journal, Keccak(w.phase.signed), status, block);
      && r.Ok? && Core(w.(journal := r.value)) && r.value.obligations == w.journal.obligations
      && (status != OutcomeUnknown && !w.handling ==> AllTerminal(r.value))
  {
    hide Obligations, Covered, Grants, PurposeFits;
    var Sending(purpose, name, p, at) := w.phase;
    var j := w.journal;
    var i := OpenIndex(j, name, p);
    OpenOutcomesFit(j, Keccak(p), status, block);
    CoreUpdate(w, i, WithOutcome(j.transactions[i], status, block));
    var k := RecordTransaction(j, Keccak(p), status, block).value;
    forall t | t in k.transactions && status != OutcomeUnknown && !w.handling
      ensures t.Terminal()
    {
      var x :| 0 <= x < |k.transactions| && k.transactions[x] == t;
      assert x != i ==> j.transactions[x] in j.transactions && j.transactions[x].hash != Keccak(p);
    }
  }

  lemma ReceiptKeeps(w: World, outcome: Option<bool>, block: nat)
    requires Consistent(w) && w.phase.Sending? && w.phase.at.Waiting?
    ensures var r := ReceiptStep(w, outcome, block); r.Some? ==> Consistent(r.value)
  {
    hide Core;
    var Sending(purpose, name, p, at) := w.phase;
    var r := ReceiptStep(w, outcome, block);
    if r.Some? {
      CoreIgnoresPhase(w.(journal := r.value.journal), r.value);
    }
    match outcome
    case None => OutcomeKeeps(w, OutcomeUnknown, None);
    case Some(success) =>
      if p in w.mined && w.mined[p] == success {
        if success {
          OutcomeKeeps(w, MinedSuccess, Some(block));
          PurposeKept(w.journal, RecordTransaction(w.journal, Keccak(p), MinedSuccess, Some(block)).value, purpose);
        } else {
          OutcomeKeeps(w, MinedFailure, None);
        }
      }
  }

  lemma SendingKeeps(w: World, e: Event)
    requires Consistent(w) && w.phase.Sending?
    ensures var r := SendingStep(w, e); r.Some? ==> Consistent(r.value)
  {
    hide Core, Covered, RecordPrepared, RecordBroadcast, RecordTransaction;
    var r := SendingStep(w, e);
    if r.Some? {
      CoreIgnoresPhase(w.(journal := r.value.journal, sent := r.value.sent), r.value);
    }
    match w.phase.at
    case Recording => if e.Record? { RecordKeeps(w); }
    case Reserving =>
    case Broadcasting => if e.Send? { BroadcastingKeeps(w, e.response); }
    case Noting => if e.Note? { NotingKeeps(w, e.noted); }
    case Doubting => if e.Doubt? { OutcomeKeeps(w, OutcomeUnknown, None); }
    case Waiting => if e.Receipt? { ReceiptKeeps(w, e.outcome, e.block); }
  }

  // ---- Every step, every run ----

  lemma StopKeeps(w: World, v: World)
    requires Core(w) && (v == To(w, Down) || v == w.(phase := Ready(Free), handling := true))
    ensures Consistent(v)
  {
    hide Core;
    CoreIgnoresPhase(w, v);
  }

  lemma StepKeepsInv(w: World, e: Event)
    requires Consistent(w)
    ensures var r := Step(w, e); r.Some? ==> Consistent(r.value)
  {
    hide Core, PhaseFits;
    hide ChainStep, RunStep, DownStep, InspectStep, ReadyStep, AdvanceStep, SignStep, SendingStep;
    if e.Crash? {
      StopKeeps(w, To(w, Down));
    } else if e.Mine? || e.MineForeign? || e.Spend? {
      ChainKeeps(w, e);
    } else if e.Conclude? || e.Evidence? {
      RunStepKeeps(w, e);
    } else {
      match w.phase
      case Down => DownKeeps(w, e);
      case Reconciling(_, _) => if e.Inspect? { InspectKeeps(w, e.answer); }
      case Thrown => if e.Handle? { StopKeeps(w, w.(phase := Ready(Free), handling := true)); }
      case Ready(_) => ReadyKeeps(w, e);
      case Setting(_, _, _) => if e.Advance? { AdvanceKeeps(w); } else if e.Sign? { SignKeeps(w, e.chainId, e.nonce); }
      case Sending(_, _, _, _) => SendingKeeps(w, e);
    }
  }

  /** Over every run, with any crashes and any handlers. */
  lemma {:induction false} RunKeepsInv(w: World, events: seq<Event>)
    requires Consistent(w)
    ensures var r := Run(w, events); r.Some? ==> Consistent(r.value)
    decreases |events|
  {
    hide Consistent, Step;
    if events != [] {
      StepKeepsInv(w, events[0]);
      match Step(w, events[0])
      case None =>
      case Some(next) => RunKeepsInv(next, events[1..]);
    }
  }

  lemma InitialInv(w: World)
    requires Initial(w)
    ensures Consistent(w)
  {
  }
}
