/**
 Sender and receiver together: the leased outbox feeding the idempotent inbox over a channel
 that may delay, repeat or lose messages, with workers that may crash at any point. The
 worker follows README.md: it posts what it claimed and acknowledges only after a 2xx answer.
 */
module Protocol {
  import opened Basics
  import opened Ledger
  import opened Outbox
  import opened LedgerSafety
  import opened LedgerBooks
  import R = Receiver

  /**
   The state of the whole system. Envelopes once posted stay available for delivery for ever,
   which covers delay and repetition; loss and crashes are the steps that never happen.
   */
  datatype World = World(
    ledger: Ledger,
    inbox: R.Inbox,
    posted: set<R.Envelope>,
    answered: set<int>,        // ids of events some worker has a 2xx answer for
    settled: set<string>,      // keys of events acknowledged through a claim
    effects: seq<string>)      // keys the receiver accepted, in order

  const START := World(EMPTY, map[], {}, {}, {}, [])

  datatype Step =
    | LedgerStep(call: Call)
    | DeliverStep(envelope: R.Envelope, at: u64)
    | SettleStep(id: int, owner: string)

  function EnvelopeOf(e: Event): R.Envelope {
    R.Envelope(1, R.Incoming(e.id, e.key, KindText(e.kind), e.op.txId, e.op.index, e.amount, e.address))
  }

  /** Deliveries are of posted envelopes; a worker acknowledges its claim only after a 2xx answer. */
  predicate Enabled(w: World, step: Step) {
    match step
    case LedgerStep(call) => !call.AcknowledgeClaimCall?
    case DeliverStep(envelope, _) => envelope in w.posted
    case SettleStep(id, _) => id in w.answered
  }

  /** The answer to a delivery; the Idempotency-Key header is the event key. */
  function Answer(w: World, envelope: R.Envelope, at: u64): (R.Inbox, Result<R.InboxOutcome, R.Refusal>) {
    R.Accept(w.inbox, envelope.event.key, envelope, at)
  }

  predicate Is2xx(r: Result<R.InboxOutcome, R.Refusal>) {
    r.Ok? && r.value != R.Conflict
  }

  function Posted(l: Ledger, call: Call): set<R.Envelope> {
    if !call.ClaimCall? then {} else
    var r := Claim(l, call.owner, call.now, call.lease).1;
    if r.Ok? && r.value.Some? then {EnvelopeOf(r.value.value.event)} else {}
  }

  function After(w: World, step: Step): World {
    match step
    case LedgerStep(call) =>
      w.(ledger := Next(w.ledger, call), posted := w.posted + Posted(w.ledger, call))
    case DeliverStep(envelope, at) =>
      var (inbox, r) := Answer(w, envelope, at);
      w.(inbox := inbox,
         answered := if Is2xx(r) then w.answered + {envelope.event.id} else w.answered,
         effects := if r == Ok(R.Accepted) then w.effects + [envelope.event.key] else w.effects)
    case SettleStep(id, owner) =>
      var (l, r) := AcknowledgeClaim(w.ledger, id, owner);
      w.(ledger := l,
         settled := if r.Ok? && HasRow(w.ledger, id) then w.settled + {RowAt(w.ledger, id).event.key} else w.settled)
  }

  /** The ledger call a step makes, if any. */
  function CallOf(step: Step): Option<Call> {
    match step
    case LedgerStep(call) => Some(call)
    case DeliverStep(_, _) => None
    case SettleStep(id, owner) => Some(AcknowledgeClaimCall(id, owner))
  }

  function RunWorld(steps: seq<Step>): World {
    if steps == [] then START else After(RunWorld(steps[..|steps| - 1]), steps[|steps| - 1])
  }

  ghost predicate Legal(steps: seq<Step>) {
    forall n | 0 <= n < |steps| :: Enabled(RunWorld(steps[..n]), steps[n])
  }

  ghost function WorldBorn(steps: seq<Step>): set<Outpoint> {
    if steps == [] then {} else
    var before := steps[..|steps| - 1];
    Born(WorldBorn(before), RunWorld(before).ledger, RunWorld(steps).ledger)
  }

  // ---------- the invariant ----------

  /** The envelope carries the facts of the outbox event with its id. */
  predicate IsOfOutbox(l: Ledger, envelope: R.Envelope) {
    HasRow(l, envelope.event.id) && envelope == EnvelopeOf(RowAt(l, envelope.event.id).event)
  }

  /** The inbox row carries the facts of an outbox event with this key. */
  predicate RowOfOutbox(l: Ledger, key: string, row: R.InboxRow) {
    && HasRow(l, row.senderId)
    && RowAt(l, row.senderId).event.key == key
    && R.SameFacts(row, EnvelopeOf(RowAt(l, row.senderId).event))
  }

  predicate AnsweredIn(l: Ledger, inbox: R.Inbox, id: int) {
    HasRow(l, id) && RowAt(l, id).event.key in inbox
  }

  ghost predicate Sound(w: World) {
    && (forall envelope | envelope in w.posted :: IsOfOutbox(w.ledger, envelope))
    && (forall key | key in w.inbox :: RowOfOutbox(w.ledger, key, w.inbox[key]))
    && (forall id | id in w.answered :: AnsweredIn(w.ledger, w.inbox, id))
    && w.settled <= w.inbox.Keys
    && (forall key :: key in w.effects <==> key in w.inbox)
    && (forall i, j | 0 <= i < j < |w.effects| :: w.effects[i] != w.effects[j])
  }

  lemma EventsStay(l: Ledger, l': Ledger, id: int)
    requires Advances(l, l') && HasRow(l, id)
    ensures HasRow(l', id) && RowAt(l', id).event == RowAt(l, id).event
  {
    assert l'.outbox[id - 1].event == l.outbox[id - 1].event;
  }

  /** Ledger growth keeps everything the channel and the inbox hold true. */
  lemma LedgerMoves(w: World, l': Ledger, posted: set<R.Envelope>)
    requires Sound(w) && Advances(w.ledger, l')
    requires forall envelope | envelope in posted :: IsOfOutbox(l', envelope)
    ensures Sound(w.(ledger := l', posted := w.posted + posted))
  {
    forall envelope | envelope in w.posted ensures IsOfOutbox(l', envelope) {
      EventsStay(w.ledger, l', envelope.event.id);
    }
    forall key | key in w.inbox ensures RowOfOutbox(l', key, w.inbox[key]) {
      EventsStay(w.ledger, l', w.inbox[key].senderId);
    }
    forall id | id in w.answered ensures AnsweredIn(l', w.inbox, id) {
      EventsStay(w.ledger, l', id);
    }
  }

  /** An event determines its envelope's facts, and its key determines the event. */
  lemma SameKeySameEvent(l: Ledger, i: int, j: int)
    requires WellFormedEvents(l.outbox) && HasRow(l, i) && HasRow(l, j)
    requires RowAt(l, i).event.key == RowAt(l, j).event.key
    ensures i == j
  {
    var e, f := RowAt(l, i).event, RowAt(l, j).event;
    EventKeyInjective(e.kind, e.op, f.kind, f.op);
    assert (l.outbox[i - 1].event.kind, l.outbox[i - 1].event.op)
           == (l.outbox[j - 1].event.kind, l.outbox[j - 1].event.op);
  }

  /** A posted envelope never meets a conflicting row. */
  lemma NoConflictNow(w: World, born: set<Outpoint>, envelope: R.Envelope, at: u64)
    requires Safe(w.ledger, born) && Sound(w) && envelope in w.posted
    ensures Answer(w, envelope, at).1 != Ok(R.Conflict)
  {
    var key := envelope.event.key;
    assert IsOfOutbox(w.ledger, envelope);
    if key in w.inbox {
      assert RowOfOutbox(w.ledger, key, w.inbox[key]);
      SameKeySameEvent(w.ledger, envelope.event.id, w.inbox[key].senderId);
    }
  }

  lemma DeliverKeeps(w: World, born: set<Outpoint>, envelope: R.Envelope, at: u64)
    requires Safe(w.ledger, born) && Sound(w) && envelope in w.posted
    ensures Sound(After(w, DeliverStep(envelope, at)))
  {
    var w' := After(w, DeliverStep(envelope, at));
    var key := envelope.event.key;
    assert IsOfOutbox(w.ledger, envelope);
    NoConflictNow(w, born, envelope, at);
    R.AcceptEffect(w.inbox, key, envelope, at);
    forall k | k in w'.inbox ensures RowOfOutbox(w.ledger, k, w'.inbox[k]) {
      if k in w.inbox {
        assert RowOfOutbox(w.ledger, k, w.inbox[k]);
      }
    }
    forall id | id in w'.answered ensures AnsweredIn(w.ledger, w'.inbox, id) {
      if id in w.answered {
        assert AnsweredIn(w.ledger, w.inbox, id);
      }
    }
  }

  lemma SettleKeeps(w: World, id: int, owner: string)
    requires Sound(w) && id in w.answered
    ensures Sound(After(w, SettleStep(id, owner)))
  {
    AcknowledgeMoves(w, id, owner);
    assert AnsweredIn(w.ledger, w.inbox, id);
    SettledMore(w.(ledger := AcknowledgeClaim(w.ledger, id, owner).0), RowAt(w.ledger, id).event.key);
  }

  lemma AcknowledgeMoves(w: World, id: int, owner: string)
    requires Sound(w)
    ensures Sound(w.(ledger := AcknowledgeClaim(w.ledger, id, owner).0))
  {
    var l' := AcknowledgeClaim(w.ledger, id, owner).0;
    NextAdvances(w.ledger, AcknowledgeClaimCall(id, owner));
    LedgerMoves(w, l', {});
    assert w.(ledger := l', posted := w.posted + {}) == w.(ledger := l');
  }

  lemma SettledMore(w: World, key: string)
    requires Sound(w) && key in w.inbox
    ensures Sound(w.(settled := w.settled + {key}))
  {
  }

  lemma ClaimPosts(l: Ledger, born: set<Outpoint>, call: Call)
    requires Safe(l, born)
    ensures forall envelope | envelope in Posted(l, call) :: IsOfOutbox(Next(l, call), envelope)
  {
  }

  lemma LedgerStepKeeps(w: World, born: set<Outpoint>, call: Call)
    requires Safe(w.ledger, born) && Sound(w)
    ensures Sound(After(w, LedgerStep(call)))
  {
    NextAdvances(w.ledger, call);
    ClaimPosts(w.ledger, born, call);
    LedgerMoves(w, Next(w.ledger, call), Posted(w.ledger, call));
  }

  lemma StepKeepsSound(w: World, born: set<Outpoint>, step: Step)
    requires Safe(w.ledger, born) && Sound(w) && Enabled(w, step)
    ensures Sound(After(w, step))
  {
    match step
    case LedgerStep(call) => LedgerStepKeeps(w, born, call);
    case DeliverStep(envelope, at) => DeliverKeeps(w, born, envelope, at);
    case SettleStep(id, owner) => SettleKeeps(w, id, owner);
  }

  lemma LedgerOfAfter(w: World, step: Step)
    ensures match CallOf(step)
            case Some(call) => After(w, step).ledger == Next(w.ledger, call)
            case None => After(w, step).ledger == w.ledger
  {
  }

  lemma StepKeepsSafe(w: World, born: set<Outpoint>, step: Step)
    requires Safe(w.ledger, born)
    ensures Safe(After(w, step).ledger, Born(born, w.ledger, After(w, step).ledger))
  {
    LedgerOfAfter(w, step);
    match CallOf(step)
    case Some(call) => NextKeeps(w.ledger, born, call);
    case None => NothingBorn(w.ledger, born);
  }

  lemma NothingBorn(l: Ledger, born: set<Outpoint>)
    ensures Born(born, l, l) == born
  {
  }

  /** Every reachable world is sound. */
  lemma {:induction false} RunSound(steps: seq<Step>)
    requires Legal(steps)
    ensures Safe(RunWorld(steps).ledger, WorldBorn(steps)) && Sound(RunWorld(steps))
    decreases |steps|
  {
    if steps != [] {
      var before := steps[..|steps| - 1];
      assert forall n | 0 <= n < |before| :: before[..n] == steps[..n];
      RunSound(before);
      StepKeepsSound(RunWorld(before), WorldBorn(before), steps[|steps| - 1]);
      StepKeepsSafe(RunWorld(before), WorldBorn(before), steps[|steps| - 1]);
    }
  }

  // ---------- what it means ----------

  /**
   Over every interleaving: no delivery of a posted envelope is ever answered with a conflict;
   no key takes effect twice; every inbox row has the facts of an outbox event; and every
   event acknowledged through a claim is in the inbox.
   */
  lemma ExactlyOneEffect(steps: seq<Step>)
    requires Legal(steps)
    ensures var w := RunWorld(steps);
            && (forall envelope, at | envelope in w.posted :: Answer(w, envelope, at).1 != Ok(R.Conflict))
            && (forall i, j | 0 <= i < |w.effects| && 0 <= j < |w.effects| && w.effects[i] == w.effects[j] :: i == j)
            && (forall key | key in w.inbox :: RowOfOutbox(w.ledger, key, w.inbox[key]))
            && (forall key :: key in w.effects <==> key in w.inbox)
            && w.settled <= w.inbox.Keys
  {
    RunSound(steps);
    var w := RunWorld(steps);
    forall envelope, at | envelope in w.posted ensures Answer(w, envelope, at).1 != Ok(R.Conflict) {
      NoConflictNow(w, WorldBorn(steps), envelope, at);
    }
  }

  ghost function KeysOf(outbox: seq<Row>): set<string> {
    set i | 0 <= i < |outbox| :: outbox[i].event.key
  }

  /** When every event has been acknowledged through a claim, the inbox holds each of them and nothing else. */
  lemma FullyDelivered(steps: seq<Step>)
    requires Legal(steps)
    requires KeysOf(RunWorld(steps).ledger.outbox) <= RunWorld(steps).settled
    ensures var w := RunWorld(steps);
            && w.inbox.Keys == KeysOf(w.ledger.outbox)
            && (forall i | 0 <= i < |w.ledger.outbox| ::
                  var e := w.ledger.outbox[i].event;
                  e.key in w.inbox && R.SameFacts(w.inbox[e.key], EnvelopeOf(e)))
  {
    RunSound(steps);
    var w := RunWorld(steps);
    InboxFromOutbox(w);
    forall i | 0 <= i < |w.ledger.outbox|
      ensures var e := w.ledger.outbox[i].event; e.key in w.inbox && R.SameFacts(w.inbox[e.key], EnvelopeOf(e))
    {
      assert w.ledger.outbox[i].event.key in KeysOf(w.ledger.outbox);
      SettledInInbox(w, WorldBorn(steps), i);
    }
    assert KeysOf(w.ledger.outbox) <= w.inbox.Keys;
  }

  lemma InboxFromOutbox(w: World)
    requires Sound(w)
    ensures w.inbox.Keys <= KeysOf(w.ledger.outbox)
  {
    forall key | key in w.inbox ensures key in KeysOf(w.ledger.outbox) {
      assert RowOfOutbox(w.ledger, key, w.inbox[key]);
      assert w.ledger.outbox[w.inbox[key].senderId - 1].event.key == key;
    }
  }

  lemma SettledInInbox(w: World, born: set<Outpoint>, i: nat)
    requires Safe(w.ledger, born) && Sound(w) && i < |w.ledger.outbox|
    requires w.ledger.outbox[i].event.key in w.settled
    ensures var e := w.ledger.outbox[i].event; e.key in w.inbox && R.SameFacts(w.inbox[e.key], EnvelopeOf(e))
  {
    var e := w.ledger.outbox[i].event;
    assert RowOfOutbox(w.ledger, e.key, w.inbox[e.key]);
    SameKeySameEvent(w.ledger, w.inbox[e.key].senderId, i + 1);
  }

  // ---------- deposits the receiver admits ----------

  /** What the receiver's validation asks of an event's facts. */
  predicate Admissible(op: Outpoint, facts: Facts) {
    R.IsTxId(op.txId) && facts.amount > 0 && R.Address.IsValidTestnetAddress(facts.address)
  }

  ghost predicate AdmissibleLedger(l: Ledger) {
    forall op | op in l.deposits :: Admissible(op, l.deposits[op].facts)
  }

  /** Only admissible deposits are fed in. */
  ghost predicate AdmissibleStep(step: Step) {
    step.LedgerStep? && step.call.ReconcileCall? ==>
      forall item | item in step.call.observed :: Admissible(item.op, item.facts)
  }

  lemma ObserveAdmissible(l: Ledger, daa: u64, item: Appearance)
    requires AdmissibleLedger(l) && Observe(l, daa, item).Ok? && Admissible(item.op, item.facts)
    ensures AdmissibleLedger(Observe(l, daa, item).value)
  {
    var l' := Observe(l, daa, item).value;
    forall op | op in l'.deposits ensures Admissible(op, l'.deposits[op].facts) {
      if op != item.op {
        assert l'.deposits[op] == l.deposits[op];
      }
    }
  }

  lemma {:induction false} ObserveAllAdmissible(l: Ledger, daa: u64, items: seq<Appearance>)
    requires AdmissibleLedger(l) && ObserveAll(l, daa, items).Ok?
    requires forall item | item in items :: Admissible(item.op, item.facts)
    ensures AdmissibleLedger(ObserveAll(l, daa, items).value)
    decreases |items|
  {
    if items != [] {
      var n := |items| - 1;
      ObserveAllAdmissible(l, daa, items[..n]);
      ObserveAdmissible(ObserveAll(l, daa, items[..n]).value, daa, items[n]);
    }
  }

  /** Same rows, same facts. */
  lemma AdmissibleKept(l: Ledger, l': Ledger)
    requires AdmissibleLedger(l) && Advances(l, l') && l'.deposits.Keys == l.deposits.Keys
    ensures AdmissibleLedger(l')
  {
    forall op | op in l'.deposits ensures Admissible(op, l'.deposits[op].facts) {
      assert Progress(l.deposits[op], l'.deposits[op]);
    }
  }

  lemma ReconcileAdmissible(l: Ledger, born: set<Outpoint>, daa: u64, obs: seq<Appearance>,
                            conf: seq<Confirmation>, gone: seq<Outpoint>)
    requires Safe(l, born) && AdmissibleLedger(l) && Reconciled(l, daa, obs, conf, gone).Ok?
    requires forall item | item in obs :: Admissible(item.op, item.facts)
    ensures AdmissibleLedger(Reconciled(l, daa, obs, conf, gone).value)
  {
    ObserveAllAdmissible(l, daa, obs);
    ObserveAllKeeps(l, born, daa, obs);
    var l1 := ObserveAll(l, daa, obs).value;
    ConfirmAllKeeps(l1, Born(born, l, l1), daa, conf);
    ConfirmAllAdvances(l1, daa, conf);
    var l2 := ConfirmAll(l1, daa, conf).value;
    AdmissibleKept(l1, l2);
    DisappearAllKeeps(l2, Born(born, l, l1), daa, gone);
    DisappearAllAdvances(l2, daa, gone);
    AdmissibleKept(l2, DisappearAll(l2, daa, gone).value);
  }

  lemma StepAdmissible(w: World, born: set<Outpoint>, step: Step)
    requires Safe(w.ledger, born) && AdmissibleLedger(w.ledger) && AdmissibleStep(step)
    ensures AdmissibleLedger(After(w, step).ledger)
  {
    match CallOf(step)
    case None =>
    case Some(call) =>
      if call.ReconcileCall? {
        if Reconciled(w.ledger, call.daa, call.observed, call.confirmed, call.disappeared).Ok? {
          ReconcileAdmissible(w.ledger, born, call.daa, call.observed, call.confirmed, call.disappeared);
        }
      } else {
        NextAdvances(w.ledger, call);
        OnlyReconcileAdds(w.ledger, call);
        AdmissibleKept(w.ledger, Next(w.ledger, call));
      }
  }

  lemma OnlyReconcileAdds(l: Ledger, call: Call)
    requires !call.ReconcileCall?
    ensures Next(l, call).deposits.Keys == l.deposits.Keys
  {
    if IsDelivery(call) {
      DeliveryKeepsEvents(l, call);
    }
  }

  lemma {:induction false} RunAdmissible(steps: seq<Step>)
    requires Legal(steps) && forall step | step in steps :: AdmissibleStep(step)
    ensures AdmissibleLedger(RunWorld(steps).ledger)
    decreases |steps|
  {
    if steps != [] {
      var before := steps[..|steps| - 1];
      assert forall n | 0 <= n < |before| :: before[..n] == steps[..n];
      RunAdmissible(before);
      RunSound(before);
      assert steps[|steps| - 1] in steps;
      StepAdmissible(RunWorld(before), WorldBorn(before), steps[|steps| - 1]);
    }
  }

  /** Fed with admissible deposits, every delivery of a posted envelope is answered with 2xx. */
  lemma AlwaysAnswered(steps: seq<Step>, envelope: R.Envelope, at: u64)
    requires Legal(steps) && forall step | step in steps :: AdmissibleStep(step)
    requires envelope in RunWorld(steps).posted && Fits(at)
    ensures Is2xx(Answer(RunWorld(steps), envelope, at).1)
  {
    RunSound(steps);
    RunAdmissible(steps);
    var w := RunWorld(steps);
    PostedIsValid(w, WorldBorn(steps), envelope);
    NoConflictNow(w, WorldBorn(steps), envelope, at);
  }

  lemma PostedIsValid(w: World, born: set<Outpoint>, envelope: R.Envelope)
    requires Safe(w.ledger, born) && Sound(w) && AdmissibleLedger(w.ledger) && envelope in w.posted
    ensures R.ValidateDelivery(envelope.event.key, envelope).None? && Fits(envelope.event.amount)
  {
    assert IsOfOutbox(w.ledger, envelope);
    var e := w.ledger.outbox[envelope.event.id - 1].event;
    assert EventMatches(w.ledger, e);
    assert Admissible(e.op, w.ledger.deposits[e.op].facts);
    OwnEnvelopeIsValid(e);
  }

  lemma OwnEnvelopeIsValid(e: Event)
    requires e.id > 0 && e.key == EventKey(e.kind, e.op)
    requires R.IsTxId(e.op.txId) && e.amount > 0 && R.Address.IsValidTestnetAddress(e.address)
    ensures R.ValidateDelivery(e.key, EnvelopeOf(e)).None?
  {
  }
}
