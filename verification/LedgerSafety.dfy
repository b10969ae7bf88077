/**
 What every reachable ledger satisfies: at most one credit and one reverse event per outpoint,
 tied to the state of its deposit row, and the credit total this implies.
 */
module LedgerSafety {
  import opened Basics
  import opened Text
  import opened Ledger
  import opened Outbox

  // ---------- event keys ----------

  /** A key determines kind, transaction and output index, whatever characters the txid has. */
  lemma EventKeyInjective(k: Kind, op: Outpoint, k': Kind, op': Outpoint)
    requires EventKey(k, op) == EventKey(k', op')
    ensures k == k' && op == op'
  {
    var p, p' := KindText(k) + ":" + op.txId, KindText(k') + ":" + op'.txId;
    assert EventKey(k, op) == p + ":" + Dec(op.index) && EventKey(k', op') == p' + ":" + Dec(op'.index);
    SplitLast(p, p', ':', Dec(op.index), Dec(op'.index));
    SplitFirst(KindText(k), KindText(k'), ':', op.txId, op'.txId);
    DecInjective(op.index, op'.index);
    assert KindText(Credit)[0] != KindText(Reverse)[0];
  }

  // ---------- the invariant ----------

  /** The (kind, outpoint) pairs that have an event. */
  ghost function Logged(outbox: seq<Row>): set<(Kind, Outpoint)> {
    set i | 0 <= i < |outbox| :: (outbox[i].event.kind, outbox[i].event.op)
  }

  ghost predicate WellFormedEvents(outbox: seq<Row>) {
    && (forall i | 0 <= i < |outbox| ::
          outbox[i].event.id == i + 1 && outbox[i].event.key == EventKey(outbox[i].event.kind, outbox[i].event.op))
    && (forall i, j | 0 <= i < j < |outbox| ::
          (outbox[i].event.kind, outbox[i].event.op) != (outbox[j].event.kind, outbox[j].event.op))
  }

  ghost predicate EventsMatchDeposits(l: Ledger) {
    forall i | 0 <= i < |l.outbox| :: EventMatches(l, l.outbox[i].event)
  }

  predicate EventMatches(l: Ledger, e: Event) {
    && e.op in l.deposits
    && e.amount == l.deposits[e.op].facts.amount
    && e.address == l.deposits[e.op].facts.address
  }

  /**
   How a deposit's state and its events go together. Rows that were inserted as credited
   because of a legacy import are in born; they have no credit event.
   */
  ghost predicate StateMatchesEvents(d: Deposit, credited: bool, reversed: bool, legacy: bool) {
    && Fits(d.facts.amount)
    && (reversed <==> d.state == Reversed)
    && (d.state == Pending ==> !credited && !legacy)
    && (d.state == Credited ==> (credited <==> !legacy))
    && (legacy ==> !credited)
  }

  ghost predicate Safe(l: Ledger, born: set<Outpoint>) {
    && WellFormedEvents(l.outbox)
    && EventsMatchDeposits(l)
    && born <= l.deposits.Keys
    && (forall op | op in l.deposits ::
          StateMatchesEvents(l.deposits[op], (Credit, op) in Logged(l.outbox),
                             (Reverse, op) in Logged(l.outbox), op in born))
  }

  /** The rows a step inserted as credited because of a legacy import join born. */
  ghost function Born(born: set<Outpoint>, l: Ledger, l': Ledger): set<Outpoint> {
    born + (set op | op in l'.deposits.Keys - l.deposits.Keys && op in l.legacy)
  }

  // ---------- enqueuing ----------

  lemma LoggedAppend(outbox: seq<Row>, row: Row)
    ensures Logged(outbox + [row]) == Logged(outbox) + {(row.event.kind, row.event.op)}
  {
    var all := outbox + [row];
    forall p | p in Logged(outbox) ensures p in Logged(all) {
      var i :| 0 <= i < |outbox| && p == (outbox[i].event.kind, outbox[i].event.op);
      assert all[i] == outbox[i];
    }
    assert all[|outbox|] == row;
    assert forall i | 0 <= i < |outbox| :: all[i] == outbox[i];
  }

  lemma LoggedHasKey(outbox: seq<Row>, kind: Kind, op: Outpoint)
    requires WellFormedEvents(outbox)
    ensures HasKey(outbox, EventKey(kind, op)) <==> (kind, op) in Logged(outbox)
  {
    if HasKey(outbox, EventKey(kind, op)) {
      var i :| 0 <= i < |outbox| && outbox[i].event.key == EventKey(kind, op);
      EventKeyInjective(outbox[i].event.kind, outbox[i].event.op, kind, op);
    }
  }

  /** A new event is really appended: the insertion is not ignored. */
  lemma InsertAppends(l: Ledger, kind: Kind, op: Outpoint, amount: u64, address: string)
    requires WellFormedEvents(l.outbox) && Fits(amount) && (kind, op) !in Logged(l.outbox)
    ensures var e := Event(|l.outbox| + 1, EventKey(kind, op), kind, op, amount, address);
            && InsertOutbox(l, kind, op, amount, address) == Ok(l.(outbox := l.outbox + [Row(e, FRESH_DELIVERY)]))
            && WellFormedEvents(l.outbox + [Row(e, FRESH_DELIVERY)])
            && Logged(l.outbox + [Row(e, FRESH_DELIVERY)]) == Logged(l.outbox) + {(kind, op)}
  {
    LoggedHasKey(l.outbox, kind, op);
    var e := Event(|l.outbox| + 1, EventKey(kind, op), kind, op, amount, address);
    var row := Row(e, FRESH_DELIVERY);
    LoggedAppend(l.outbox, row);
    var all := l.outbox + [row];
    assert forall i | 0 <= i < |l.outbox| :: all[i] == l.outbox[i];
    forall i, j | 0 <= i < j < |all|
      ensures (all[i].event.kind, all[i].event.op) != (all[j].event.kind, all[j].event.op)
    {
      if j == |l.outbox| {
        assert (all[i].event.kind, all[i].event.op) in Logged(l.outbox);
      }
    }
  }

  /** A state change together with its event keeps the ledger safe. */
  lemma ChangeWithEvent(l: Ledger, born: set<Outpoint>, op: Outpoint, d: Deposit, kind: Kind)
    requires Safe(l, born) && op in l.deposits && d.facts == l.deposits[op].facts
    requires (kind, op) !in Logged(l.outbox)
    requires StateMatchesEvents(d, kind == Credit || (Credit, op) in Logged(l.outbox),
                                kind == Reverse || (Reverse, op) in Logged(l.outbox), op in born)
    ensures var r := InsertOutbox(l.(deposits := l.deposits[op := d]), kind, op, d.facts.amount, d.facts.address);
            && r.Ok? && Safe(r.value, born)
            && r.value.deposits == l.deposits[op := d] && r.value.legacy == l.legacy
            && |r.value.outbox| == |l.outbox| + 1 && r.value.outbox[..|l.outbox|] == l.outbox
  {
    var l1 := l.(deposits := l.deposits[op := d]);
    InsertAppends(l1, kind, op, d.facts.amount, d.facts.address);
    var l2 := InsertOutbox(l1, kind, op, d.facts.amount, d.facts.address).value;
    EventsStillMatch(l, l2, op, d);
  }

  lemma EventsStillMatch(l: Ledger, l2: Ledger, op: Outpoint, d: Deposit)
    requires EventsMatchDeposits(l) && op in l.deposits && d.facts == l.deposits[op].facts
    requires l2.deposits == l.deposits[op := d]
    requires |l2.outbox| == |l.outbox| + 1 && l2.outbox[..|l.outbox|] == l.outbox
    requires EventMatches(l2, l2.outbox[|l.outbox|].event)
    ensures EventsMatchDeposits(l2)
  {
    forall i | 0 <= i < |l2.outbox| ensures EventMatches(l2, l2.outbox[i].event) {
      if i < |l.outbox| {
        assert l2.outbox[..|l.outbox|][i] == l.outbox[i];
        assert EventMatches(l, l.outbox[i].event);
      }
    }
  }

  lemma LoggedHaveDeposits(l: Ledger)
    requires EventsMatchDeposits(l)
    ensures forall p | p in Logged(l.outbox) :: p.1 in l.deposits
  {
    forall p | p in Logged(l.outbox) ensures p.1 in l.deposits {
      var i :| 0 <= i < |l.outbox| && p == (l.outbox[i].event.kind, l.outbox[i].event.op);
      assert EventMatches(l, l.outbox[i].event);
    }
  }

  // ---------- each deposit step keeps the ledger safe ----------

  lemma ObserveKeeps(l: Ledger, born: set<Outpoint>, daa: u64, item: Appearance)
    requires Safe(l, born) && Observe(l, daa, item).Ok?
    ensures Safe(Observe(l, daa, item).value, Born(born, l, Observe(l, daa, item).value))
    ensures Observe(l, daa, item).value.legacy == l.legacy
    ensures l.deposits.Keys <= Observe(l, daa, item).value.deposits.Keys
  {
    var l' := Observe(l, daa, item).value;
    forall i | 0 <= i < |l'.outbox| ensures EventMatches(l', l'.outbox[i].event) {
      assert EventMatches(l, l.outbox[i].event);
    }
    LoggedHaveDeposits(l);
  }

  lemma ConfirmKeeps(l: Ledger, born: set<Outpoint>, daa: u64, item: Confirmation)
    requires Safe(l, born) && Confirm(l, daa, item).Ok?
    ensures var l' := Confirm(l, daa, item).value;
            Safe(l', born) && l'.legacy == l.legacy && l'.deposits.Keys == l.deposits.Keys
  {
    var d := l.deposits[item.op];
    if d.state == Pending {
      ChangeWithEvent(l, born, item.op, d.(state := Credited, creditedDaa := Some(daa)), Credit);
    }
  }

  lemma DisappearKeeps(l: Ledger, born: set<Outpoint>, daa: u64, op: Outpoint)
    requires Safe(l, born)
    ensures Disappear(l, daa, op).Ok?
    ensures var l' := Disappear(l, daa, op).value;
            Safe(l', born) && l'.legacy == l.legacy && l'.deposits.Keys == l.deposits.Keys
  {
    if op in l.deposits && l.deposits[op].state == Pending {
      var d := l.deposits[op].(state := Reversed, reversedDaa := Some(daa), reason := Some(GONE));
      ChangeWithEvent(l, born, op, d, Reverse);
    }
  }

  lemma ReverseKeeps(l: Ledger, born: set<Outpoint>, daa: u64, op: Outpoint, evidence: string)
    requires Safe(l, born) && ReverseOnReorg(l, daa, op, evidence).Ok?
    ensures var l' := ReverseOnReorg(l, daa, op, evidence).value;
            Safe(l', born) && l'.legacy == l.legacy && l'.deposits.Keys == l.deposits.Keys
  {
    var d := l.deposits[op];
    if d.state == Credited {
      ChangeWithEvent(l, born, op,
                      d.(state := Reversed, reversedDaa := Some(daa), reason := Some(Trim(evidence))), Reverse);
    }
  }

  // ---------- the loops of reconcile ----------

  lemma BornTwice(born: set<Outpoint>, l: Ledger, l1: Ledger, l2: Ledger)
    requires l1.legacy == l.legacy && l.deposits.Keys <= l1.deposits.Keys <= l2.deposits.Keys
    ensures Born(Born(born, l, l1), l1, l2) == Born(born, l, l2)
  {
  }

  lemma {:induction false} ObserveAllKeeps(l: Ledger, born: set<Outpoint>, daa: u64, items: seq<Appearance>)
    requires Safe(l, born) && ObserveAll(l, daa, items).Ok?
    ensures var l' := ObserveAll(l, daa, items).value;
            Safe(l', Born(born, l, l')) && l'.legacy == l.legacy && l.deposits.Keys <= l'.deposits.Keys
    decreases |items|
  {
    if items == [] {
      assert Born(born, l, l) == born;
    } else {
      var n := |items| - 1;
      ObserveAllKeeps(l, born, daa, items[..n]);
      var l1 := ObserveAll(l, daa, items[..n]).value;
      ObserveKeeps(l1, Born(born, l, l1), daa, items[n]);
      BornTwice(born, l, l1, Observe(l1, daa, items[n]).value);
    }
  }

  lemma {:induction false} ConfirmAllKeeps(l: Ledger, born: set<Outpoint>, daa: u64, items: seq<Confirmation>)
    requires Safe(l, born) && ConfirmAll(l, daa, items).Ok?
    ensures var l' := ConfirmAll(l, daa, items).value;
            Safe(l', born) && l'.legacy == l.legacy && l'.deposits.Keys == l.deposits.Keys
    decreases |items|
  {
    if items != [] {
      var n := |items| - 1;
      ConfirmAllKeeps(l, born, daa, items[..n]);
      ConfirmKeeps(ConfirmAll(l, daa, items[..n]).value, born, daa, items[n]);
    }
  }

  lemma {:induction false} DisappearAllKeeps(l: Ledger, born: set<Outpoint>, daa: u64, ops: seq<Outpoint>)
    requires Safe(l, born)
    ensures DisappearAll(l, daa, ops).Ok?
    ensures var l' := DisappearAll(l, daa, ops).value;
            Safe(l', born) && l'.legacy == l.legacy && l'.deposits.Keys == l.deposits.Keys
    decreases |ops|
  {
    if ops != [] {
      var n := |ops| - 1;
      DisappearAllKeeps(l, born, daa, ops[..n]);
      DisappearKeeps(DisappearAll(l, daa, ops[..n]).value, born, daa, ops[n]);
    }
  }

  lemma ReconcileKeeps(l: Ledger, born: set<Outpoint>, daa: u64, obs: seq<Appearance>,
                       conf: seq<Confirmation>, gone: seq<Outpoint>)
    requires Safe(l, born) && Reconciled(l, daa, obs, conf, gone).Ok?
    ensures var l' := Reconciled(l, daa, obs, conf, gone).value; Safe(l', Born(born, l, l'))
  {
    ObserveAllKeeps(l, born, daa, obs);
    var l1 := ObserveAll(l, daa, obs).value;
    ConfirmAllKeeps(l1, Born(born, l, l1), daa, conf);
    var l2 := ConfirmAll(l1, daa, conf).value;
    DisappearAllKeeps(l2, Born(born, l, l1), daa, gone);
    var l3 := DisappearAll(l2, daa, gone).value;
    assert Born(born, l, l3) == Born(born, l, l1);
  }

  // ---------- every call, every run ----------

  /** Only delivery columns changed. */
  ghost predicate SameEvents(l: Ledger, l': Ledger) {
    && l'.deposits == l.deposits && l'.legacy == l.legacy && |l'.outbox| == |l.outbox|
    && forall i | 0 <= i < |l.outbox| :: l'.outbox[i].event == l.outbox[i].event
  }

  lemma SameEventsKeep(l: Ledger, l': Ledger, born: set<Outpoint>)
    requires Safe(l, born) && SameEvents(l, l')
    ensures Safe(l', born)
  {
    forall i | 0 <= i < |l.outbox| ensures EventMatches(l', l'.outbox[i].event) {
      assert EventMatches(l, l.outbox[i].event);
    }
    assert Logged(l'.outbox) == Logged(l.outbox) by {
      assert forall i | 0 <= i < |l.outbox| :: (l'.outbox[i].event.kind, l'.outbox[i].event.op)
                                               == (l.outbox[i].event.kind, l.outbox[i].event.op);
    }
  }

  predicate IsDelivery(call: Call) {
    !call.ImportLegacyCall? && !call.ReconcileCall? && !call.ReverseCall?
  }

  lemma DeliveryKeepsEvents(l: Ledger, call: Call)
    requires IsDelivery(call)
    ensures SameEvents(l, Next(l, call))
  {
  }

  lemma NextKeeps(l: Ledger, born: set<Outpoint>, call: Call)
    requires Safe(l, born)
    ensures Safe(Next(l, call), Born(born, l, Next(l, call)))
  {
    var l' := Next(l, call);
    match call
    case ReconcileCall(daa, obs, conf, gone) =>
      if Reconciled(l, daa, obs, conf, gone).Ok? {
        ReconcileKeeps(l, born, daa, obs, conf, gone);
      } else {
        assert Born(born, l, l) == born;
      }
    case ReverseCall(daa, op, evidence) =>
      if ReverseOnReorg(l, daa, op, evidence).Ok? {
        ReverseKeeps(l, born, daa, op, evidence);
      }
      assert Born(born, l, l') == born;
    case ImportLegacyCall(op) =>
      assert Born(born, l, l') == born;
      SameTables(l, l', born);
    case _ =>
      DeliveryKeepsEvents(l, call);
      SameEventsKeep(l, l', born);
      assert Born(born, l, l') == born;
  }

  lemma SameTables(l: Ledger, l': Ledger, born: set<Outpoint>)
    requires Safe(l, born) && l'.deposits == l.deposits && l'.outbox == l.outbox
    ensures Safe(l', born)
  {
    forall i | 0 <= i < |l.outbox| ensures EventMatches(l', l'.outbox[i].event) {
      assert EventMatches(l, l.outbox[i].event);
    }
  }

  /** The rows a run inserted as credited because of a legacy import. */
  ghost function RunBorn(calls: seq<Call>): set<Outpoint> {
    if calls == [] then {} else
    var before := calls[..|calls| - 1];
    Born(RunBorn(before), Run(before), Run(calls))
  }

  /** Every reachable ledger is safe. */
  lemma {:induction false} RunSafe(calls: seq<Call>)
    ensures Safe(Run(calls), RunBorn(calls))
    decreases |calls|
  {
    if calls != [] {
      var n := |calls| - 1;
      RunSafe(calls[..n]);
      NextKeeps(Run(calls[..n]), RunBorn(calls[..n]), calls[n]);
    }
  }

  // ---------- legacy imports ----------

  /** The outpoint was imported before its deposit was first observed. */
  ghost predicate ImportedFirst(calls: seq<Call>, op: Outpoint) {
    exists n | 0 <= n < |calls| :: calls[n] == ImportLegacyCall(op) && op !in Run(calls[..n]).deposits
  }

  lemma NextTables(l: Ledger, born: set<Outpoint>, call: Call)
    requires Safe(l, born)
    ensures Next(l, call).legacy == l.legacy + (if call.ImportLegacyCall? then {call.op} else {})
    ensures l.deposits.Keys <= Next(l, call).deposits.Keys
  {
    match call
    case ReconcileCall(daa, obs, conf, gone) =>
      if Reconciled(l, daa, obs, conf, gone).Ok? {
        ObserveAllKeeps(l, born, daa, obs);
        var l1 := ObserveAll(l, daa, obs).value;
        ConfirmAllKeeps(l1, Born(born, l, l1), daa, conf);
        DisappearAllKeeps(ConfirmAll(l1, daa, conf).value, Born(born, l, l1), daa, gone);
      }
    case ReverseCall(daa, op, evidence) =>
      if ReverseOnReorg(l, daa, op, evidence).Ok? {
        ReverseKeeps(l, born, daa, op, evidence);
      }
    case _ =>
      if IsDelivery(call) {
        DeliveryKeepsEvents(l, call);
      }
  }

  lemma RunTables(calls: seq<Call>)
    requires calls != []
    ensures var before, last := calls[..|calls| - 1], calls[|calls| - 1];
            && Run(calls).legacy == Run(before).legacy + (if last.ImportLegacyCall? then {last.op} else {})
            && Run(before).deposits.Keys <= Run(calls).deposits.Keys
  {
    var before := calls[..|calls| - 1];
    RunSafe(before);
    NextTables(Run(before), RunBorn(before), calls[|calls| - 1]);
  }

  lemma ImportedFirstNext(calls: seq<Call>, op: Outpoint)
    requires calls != []
    ensures var before, last := calls[..|calls| - 1], calls[|calls| - 1];
            ImportedFirst(calls, op)
            <==> ImportedFirst(before, op) || (last == ImportLegacyCall(op) && op !in Run(before).deposits)
  {
    var m := |calls| - 1;
    if ImportedFirst(calls[..m], op) {
      var n :| 0 <= n < m && calls[..m][n] == ImportLegacyCall(op) && op !in Run(calls[..m][..n]).deposits;
      assert calls[..m][..n] == calls[..n];
      assert calls[n] == ImportLegacyCall(op);
    }
    if ImportedFirst(calls, op) {
      var n :| 0 <= n < |calls| && calls[n] == ImportLegacyCall(op) && op !in Run(calls[..n]).deposits;
      if n < m {
        assert calls[..m][..n] == calls[..n];
        assert calls[..m][n] == ImportLegacyCall(op);
      }
    }
  }

  /** An outpoint imported first stays in the import table; without a row nothing else is there. */
  lemma {:induction false} LegacyIsImported(calls: seq<Call>, op: Outpoint)
    ensures ImportedFirst(calls, op) ==> op in Run(calls).legacy
    ensures op !in Run(calls).deposits ==> (ImportedFirst(calls, op) <==> op in Run(calls).legacy)
    decreases |calls|
  {
    if calls != [] {
      LegacyIsImported(calls[..|calls| - 1], op);
      RunTables(calls);
      ImportedFirstNext(calls, op);
    }
  }

  /** The rows inserted as credited are exactly those of outpoints imported before they were observed. */
  lemma {:induction false} BornExactly(calls: seq<Call>, op: Outpoint)
    ensures op in RunBorn(calls) <==> op in Run(calls).deposits && ImportedFirst(calls, op)
    decreases |calls|
  {
    if calls != [] {
      var before := calls[..|calls| - 1];
      BornExactly(before, op);
      LegacyIsImported(before, op);
      RunTables(calls);
      ImportedFirstNext(calls, op);
    }
  }

  /**
   An outpoint imported before it is observed is never credited by an event, whatever is
   confirmed later, and once it has a row it never waits for confirmation.
   */
  lemma ImportedNeverCredited(calls: seq<Call>, n: nat, op: Outpoint)
    requires n < |calls| && calls[n] == ImportLegacyCall(op) && op !in Run(calls[..n]).deposits
    ensures !HasEvent(Run(calls), Credit, op)
    ensures op in Run(calls).deposits ==> Run(calls).deposits[op].state != Pending
  {
    assert ImportedFirst(calls, op);
    BornExactly(calls, op);
    RunSafe(calls);
    HasEventIsLogged(Run(calls), Credit, op);
    LoggedHaveDeposits(Run(calls));
  }

  // ---------- what safety says ----------

  predicate IsEvent(row: Row, kind: Kind, op: Outpoint) {
    row.event.kind == kind && row.event.op == op
  }

  ghost predicate HasEvent(l: Ledger, kind: Kind, op: Outpoint) {
    exists i | 0 <= i < |l.outbox| :: IsEvent(l.outbox[i], kind, op)
  }

  lemma HasEventIsLogged(l: Ledger, kind: Kind, op: Outpoint)
    ensures HasEvent(l, kind, op) <==> (kind, op) in Logged(l.outbox)
  {
    if (kind, op) in Logged(l.outbox) {
      var i :| 0 <= i < |l.outbox| && (kind, op) == (l.outbox[i].event.kind, l.outbox[i].event.op);
      assert IsEvent(l.outbox[i], kind, op);
    }
    if HasEvent(l, kind, op) {
      var i :| 0 <= i < |l.outbox| && IsEvent(l.outbox[i], kind, op);
      assert (l.outbox[i].event.kind, l.outbox[i].event.op) == (kind, op);
    }
  }

  /**
   In every reachable ledger: one event of a kind per outpoint; a pending outpoint has none;
   a reverse event exists exactly when the state is reversed; a credited outpoint has its
   credit event exactly when it was not imported before it was observed.
   */
  lemma ReachableEvents(calls: seq<Call>, op: Outpoint)
    ensures var l := Run(calls);
            && (forall i, j, k | 0 <= i < |l.outbox| && 0 <= j < |l.outbox|
                                 && IsEvent(l.outbox[i], k, op) && IsEvent(l.outbox[j], k, op) :: i == j)
            && (HasEvent(l, Credit, op) || HasEvent(l, Reverse, op) ==> op in l.deposits)
            && (op in l.deposits ==>
                  && (l.deposits[op].state == Pending ==> !HasEvent(l, Credit, op) && !HasEvent(l, Reverse, op))
                  && (HasEvent(l, Reverse, op) <==> l.deposits[op].state == Reversed)
                  && (l.deposits[op].state == Credited ==> (HasEvent(l, Credit, op) <==> !ImportedFirst(calls, op))))
  {
    var l := Run(calls);
    BornExactly(calls, op);
    RunSafe(calls);
    HasEventIsLogged(l, Credit, op);
    HasEventIsLogged(l, Reverse, op);
    LoggedHaveDeposits(l);
    forall i, j, k | 0 <= i < |l.outbox| && 0 <= j < |l.outbox|
                     && IsEvent(l.outbox[i], k, op) && IsEvent(l.outbox[j], k, op)
      ensures i == j
    {
      assert (l.outbox[i].event.kind, l.outbox[i].event.op) == (l.outbox[j].event.kind, l.outbox[j].event.op);
    }
  }

  /** Every event carries the address and amount of its outpoint's deposit row, and its own key. */
  lemma ReachableFacts(calls: seq<Call>, i: nat)
    requires i < |Run(calls).outbox|
    ensures var l, e := Run(calls), Run(calls).outbox[i].event;
            e.id == i + 1 && e.key == EventKey(e.kind, e.op) && EventMatches(l, e) && Fits(e.amount)
  {
    RunSafe(calls);
    assert EventMatches(Run(calls), Run(calls).outbox[i].event);
  }
}
