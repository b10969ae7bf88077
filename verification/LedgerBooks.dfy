/**
 Bookkeeping over the deposit ledger: what the credit events add up to, and what reconcile
 never changes, undoes or repeats.
 */
module LedgerBooks {
  import opened Basics
  import opened Ledger
  import opened Outbox
  import opened LedgerSafety

  // ---------- credit totals ----------

  /** A credit event whose outpoint has no reverse event. */
  ghost predicate OpenCredit(l: Ledger, i: nat)
    requires i < |l.outbox|
  {
    l.outbox[i].event.kind == Credit && !HasEvent(l, Reverse, l.outbox[i].event.op)
  }

  /** What a consumer that applies every event has credited: the first m rows. */
  ghost function OpenCreditSum(l: Ledger, m: nat): nat
    requires m <= |l.outbox|
  {
    if m == 0 then 0 else
    OpenCreditSum(l, m - 1) + (if OpenCredit(l, m - 1) then l.outbox[m - 1].event.amount else 0)
  }

  ghost function AmountSum(deposits: map<Outpoint, Deposit>, ops: set<Outpoint>): nat
    requires ops <= deposits.Keys
    decreases |ops|
  {
    if ops == {} then 0 else
    var op :| op in ops;
    deposits[op].facts.amount + AmountSum(deposits, ops - {op})
  }

  lemma {:induction false} AmountSumRemove(deposits: map<Outpoint, Deposit>, ops: set<Outpoint>, op: Outpoint)
    requires ops <= deposits.Keys && op in ops
    ensures AmountSum(deposits, ops) == deposits[op].facts.amount + AmountSum(deposits, ops - {op})
    decreases |ops|
  {
    var o :| o in ops && AmountSum(deposits, ops) == deposits[o].facts.amount + AmountSum(deposits, ops - {o});
    if o != op {
      AmountSumRemove(deposits, ops - {o}, op);
      AmountSumRemove(deposits, ops - {op}, o);
      assert ops - {o} - {op} == ops - {op} - {o};
    }
  }

  ghost function OpenOps(l: Ledger, m: nat): set<Outpoint>
    requires m <= |l.outbox|
  {
    set i | 0 <= i < m && OpenCredit(l, i) :: l.outbox[i].event.op
  }

  lemma OpenOpsNext(l: Ledger, m: nat)
    requires m < |l.outbox| && WellFormedEvents(l.outbox)
    ensures var op := l.outbox[m].event.op;
            if OpenCredit(l, m) then op in OpenOps(l, m + 1) && OpenOps(l, m + 1) - {op} == OpenOps(l, m)
            else OpenOps(l, m + 1) == OpenOps(l, m)
  {
    var e := l.outbox[m].event;
    if OpenCredit(l, m) {
      assert OpenOps(l, m + 1) == OpenOps(l, m) + {e.op};
      forall i | 0 <= i < m && OpenCredit(l, i) ensures l.outbox[i].event.op != e.op {
        assert (l.outbox[i].event.kind, l.outbox[i].event.op) != (e.kind, e.op);
      }
    }
  }

  lemma OpenOpsHaveRows(l: Ledger, m: nat)
    requires m <= |l.outbox| && EventsMatchDeposits(l)
    ensures OpenOps(l, m) <= l.deposits.Keys
  {
    forall i | 0 <= i < m ensures l.outbox[i].event.op in l.deposits {
      EventHasAmount(l, i);
    }
  }

  lemma EventHasAmount(l: Ledger, i: nat)
    requires EventsMatchDeposits(l) && i < |l.outbox|
    ensures l.outbox[i].event.op in l.deposits
    ensures l.outbox[i].event.amount == l.deposits[l.outbox[i].event.op].facts.amount
  {
    assert EventMatches(l, l.outbox[i].event);
  }

  lemma {:induction false} OpenSumIsAmountSum(l: Ledger, m: nat)
    requires m <= |l.outbox| && WellFormedEvents(l.outbox) && EventsMatchDeposits(l)
    requires OpenOps(l, m) <= l.deposits.Keys
    ensures OpenCreditSum(l, m) == AmountSum(l.deposits, OpenOps(l, m))
  {
    if m > 0 {
      OpenSumIsAmountSum(l, m - 1);
      OpenOpsNext(l, m - 1);
      if OpenCredit(l, m - 1) {
        AmountSumRemove(l.deposits, OpenOps(l, m), l.outbox[m - 1].event.op);
        EventHasAmount(l, m - 1);
      }
    }
  }

  ghost function CreditedOps(l: Ledger, born: set<Outpoint>): set<Outpoint> {
    set op | op in l.deposits && l.deposits[op].state == Credited && op !in born
  }

  /** The deposits a run leaves credited, apart from those imported before they were observed. */
  ghost function OwnCredits(calls: seq<Call>): set<Outpoint> {
    set op | op in Run(calls).deposits && Run(calls).deposits[op].state == Credited && !ImportedFirst(calls, op)
  }

  lemma SafeBalance(l: Ledger, born: set<Outpoint>)
    requires Safe(l, born)
    ensures OpenCreditSum(l, |l.outbox|) == AmountSum(l.deposits, CreditedOps(l, born))
  {
    OpenOpsHaveRows(l, |l.outbox|);
    OpenSumIsAmountSum(l, |l.outbox|);
    forall op ensures op in OpenOps(l, |l.outbox|) <==> op in CreditedOps(l, born) {
      OpenIsCredited(l, born, op);
    }
    assert OpenOps(l, |l.outbox|) == CreditedOps(l, born);
  }

  lemma OpenIsCredited(l: Ledger, born: set<Outpoint>, op: Outpoint)
    requires Safe(l, born)
    ensures op in OpenOps(l, |l.outbox|) <==> op in CreditedOps(l, born)
  {
    HasEventIsLogged(l, Credit, op);
    HasEventIsLogged(l, Reverse, op);
    LoggedHaveDeposits(l);
    if op in CreditedOps(l, born) {
      var i :| 0 <= i < |l.outbox| && IsEvent(l.outbox[i], Credit, op);
      assert OpenCredit(l, i);
    }
  }

  /**
   In every reachable ledger the credit events with no matching reverse event add up to the
   credited deposits that were not imported before they were observed.
   */
  lemma CreditsBalance(calls: seq<Call>)
    ensures var l := Run(calls);
            OpenCreditSum(l, |l.outbox|) == AmountSum(l.deposits, OwnCredits(calls))
  {
    RunSafe(calls);
    SafeBalance(Run(calls), RunBorn(calls));
    forall op ensures op in OwnCredits(calls) <==> op in CreditedOps(Run(calls), RunBorn(calls)) {
      BornExactly(calls, op);
    }
    assert OwnCredits(calls) == CreditedOps(Run(calls), RunBorn(calls));
  }

  // ---------- what reconcile leaves alone ----------

  /** Facts and first sighting stay; the state only moves forward and reversed is final. */
  ghost predicate Progress(d: Deposit, d': Deposit) {
    && d'.facts == d.facts && d'.firstSeen == d.firstSeen
    && (d.state == Reversed ==> d'.state == Reversed)
    && (d'.state == Pending ==> d.state == Pending)
  }

  ghost predicate Advances(l: Ledger, l': Ledger) {
    && l.legacy <= l'.legacy
    && (forall op | op in l.deposits :: op in l'.deposits && Progress(l.deposits[op], l'.deposits[op]))
    && |l.outbox| <= |l'.outbox|
    && (forall i | 0 <= i < |l.outbox| :: l'.outbox[i].event == l.outbox[i].event)
  }

  lemma AdvancesTwice(l: Ledger, l1: Ledger, l2: Ledger)
    requires Advances(l, l1) && Advances(l1, l2)
    ensures Advances(l, l2)
  {
    forall op | op in l.deposits ensures op in l2.deposits && Progress(l.deposits[op], l2.deposits[op]) {
      assert op in l1.deposits && Progress(l.deposits[op], l1.deposits[op]);
      assert Progress(l1.deposits[op], l2.deposits[op]);
    }
  }

  lemma {:induction false} ObserveAllAdvances(l: Ledger, daa: u64, items: seq<Appearance>)
    requires ObserveAll(l, daa, items).Ok?
    ensures Advances(l, ObserveAll(l, daa, items).value)
    decreases |items|
  {
    if items != [] {
      var n := |items| - 1;
      ObserveAllAdvances(l, daa, items[..n]);
      var l1 := ObserveAll(l, daa, items[..n]).value;
      AdvancesTwice(l, l1, Observe(l1, daa, items[n]).value);
    }
  }

  lemma {:induction false} ConfirmAllAdvances(l: Ledger, daa: u64, items: seq<Confirmation>)
    requires ConfirmAll(l, daa, items).Ok?
    ensures Advances(l, ConfirmAll(l, daa, items).value)
    decreases |items|
  {
    if items != [] {
      var n := |items| - 1;
      ConfirmAllAdvances(l, daa, items[..n]);
      var l1 := ConfirmAll(l, daa, items[..n]).value;
      AdvancesTwice(l, l1, Confirm(l1, daa, items[n]).value);
    }
  }

  lemma {:induction false} DisappearAllAdvances(l: Ledger, daa: u64, ops: seq<Outpoint>)
    requires DisappearAll(l, daa, ops).Ok?
    ensures Advances(l, DisappearAll(l, daa, ops).value)
    decreases |ops|
  {
    if ops != [] {
      var n := |ops| - 1;
      DisappearAllAdvances(l, daa, ops[..n]);
      var l1 := DisappearAll(l, daa, ops[..n]).value;
      AdvancesTwice(l, l1, Disappear(l1, daa, ops[n]).value);
    }
  }

  lemma ReconcileAdvances(l: Ledger, daa: u64, obs: seq<Appearance>, conf: seq<Confirmation>, gone: seq<Outpoint>)
    requires Reconciled(l, daa, obs, conf, gone).Ok?
    ensures Advances(l, Reconciled(l, daa, obs, conf, gone).value)
  {
    ObserveAllAdvances(l, daa, obs);
    var l1 := ObserveAll(l, daa, obs).value;
    ConfirmAllAdvances(l1, daa, conf);
    var l2 := ConfirmAll(l1, daa, conf).value;
    DisappearAllAdvances(l2, daa, gone);
    AdvancesTwice(l, l1, l2);
    AdvancesTwice(l, l2, DisappearAll(l2, daa, gone).value);
  }

  /**
   No call of the interface changes the recorded facts of an outpoint, takes an outpoint out
   of the reversed state, drops a row or rewrites an event.
   */
  lemma NextAdvances(l: Ledger, call: Call)
    ensures Advances(l, Next(l, call))
  {
    match call
    case ReconcileCall(daa, obs, conf, gone) =>
      if Reconciled(l, daa, obs, conf, gone).Ok? {
        ReconcileAdvances(l, daa, obs, conf, gone);
      }
    case ImportLegacyCall(op) =>
    case ReverseCall(daa, op, evidence) =>
    case _ =>
      DeliveryKeepsEvents(l, call);
  }

  // ---------- reconciling twice ----------

  /** An observation the ledger already holds. */
  ghost predicate Held(l: Ledger, daa: u64, item: Appearance) {
    && item.op in l.deposits && l.deposits[item.op].facts == item.facts
    && l.deposits[item.op].lastSeen == daa && Fits(item.facts.amount) && Fits(item.facts.blockDaa)
  }

  /** A confirmation the ledger already acted on. */
  ghost predicate ActedOn(l: Ledger, item: Confirmation) {
    && item.op in l.deposits && l.deposits[item.op].facts == item.facts
    && l.deposits[item.op].state != Pending && Fits(item.facts.amount) && Fits(item.facts.blockDaa)
  }

  ghost predicate Gone(l: Ledger, op: Outpoint) {
    op in l.deposits ==> l.deposits[op].state != Pending
  }

  /** lastSeen is only ever moved to the current DAA. */
  ghost predicate Sightings(l: Ledger, l': Ledger, daa: u64) {
    forall op | op in l.deposits :: op in l'.deposits
      && (l'.deposits[op].lastSeen == l.deposits[op].lastSeen || l'.deposits[op].lastSeen == daa)
  }

  lemma {:induction false} ObserveAllHolds(l: Ledger, daa: u64, items: seq<Appearance>)
    requires ObserveAll(l, daa, items).Ok?
    ensures forall item | item in items :: Held(ObserveAll(l, daa, items).value, daa, item)
    decreases |items|
  {
    if items != [] {
      var n := |items| - 1;
      ObserveAllHolds(l, daa, items[..n]);
      var l1 := ObserveAll(l, daa, items[..n]).value;
      var l2 := Observe(l1, daa, items[n]).value;
      forall item | item in items ensures Held(l2, daa, item) {
        if item in items[..n] {
          assert Held(l1, daa, item);
        } else {
          assert item == items[n];
        }
      }
    }
  }

  lemma {:induction false} ObserveAllAgain(l: Ledger, daa: u64, items: seq<Appearance>)
    requires forall item | item in items :: Held(l, daa, item)
    ensures ObserveAll(l, daa, items) == Ok(l)
    decreases |items|
  {
    if items != [] {
      var n := |items| - 1;
      ObserveAllAgain(l, daa, items[..n]);
      assert Held(l, daa, items[n]);
      assert l.deposits[items[n].op := l.deposits[items[n].op]] == l.deposits;
    }
  }

  lemma {:induction false} ConfirmAllActs(l: Ledger, daa: u64, items: seq<Confirmation>)
    requires ConfirmAll(l, daa, items).Ok?
    ensures var l' := ConfirmAll(l, daa, items).value;
            && Sightings(l, l', daa) && (forall item | item in items :: ActedOn(l', item))
    decreases |items|
  {
    if items != [] {
      var n := |items| - 1;
      ConfirmAllActs(l, daa, items[..n]);
      var l1 := ConfirmAll(l, daa, items[..n]).value;
      var l2 := Confirm(l1, daa, items[n]).value;
      forall item | item in items ensures ActedOn(l2, item) {
        if item in items[..n] {
          assert ActedOn(l1, item);
        } else {
          assert item == items[n];
        }
      }
    }
  }

  lemma {:induction false} ConfirmAllAgain(l: Ledger, daa: u64, items: seq<Confirmation>)
    requires forall item | item in items :: ActedOn(l, item)
    ensures ConfirmAll(l, daa, items) == Ok(l)
    decreases |items|
  {
    if items != [] {
      ConfirmAllAgain(l, daa, items[..|items| - 1]);
      assert ActedOn(l, items[|items| - 1]);
    }
  }

  lemma {:induction false} DisappearAllActs(l: Ledger, daa: u64, ops: seq<Outpoint>)
    requires DisappearAll(l, daa, ops).Ok?
    ensures var l' := DisappearAll(l, daa, ops).value;
            && Sightings(l, l', daa) && l'.deposits.Keys == l.deposits.Keys && (forall op | op in ops :: Gone(l', op))
    decreases |ops|
  {
    if ops != [] {
      var n := |ops| - 1;
      DisappearAllActs(l, daa, ops[..n]);
      var l1 := DisappearAll(l, daa, ops[..n]).value;
      var l2 := Disappear(l1, daa, ops[n]).value;
      forall op | op in ops ensures Gone(l2, op) {
        if op in ops[..n] {
          assert Gone(l1, op);
        } else {
          assert op == ops[n];
        }
      }
    }
  }

  lemma {:induction false} DisappearAllAgain(l: Ledger, daa: u64, ops: seq<Outpoint>)
    requires forall op | op in ops :: Gone(l, op)
    ensures DisappearAll(l, daa, ops) == Ok(l)
    decreases |ops|
  {
    if ops != [] {
      DisappearAllAgain(l, daa, ops[..|ops| - 1]);
      assert Gone(l, ops[|ops| - 1]);
    }
  }

  /** Repeating a successful reconcile with the same arguments changes nothing in the ledger. */
  lemma ReconcileIdempotent(l: Ledger, daa: u64, obs: seq<Appearance>, conf: seq<Confirmation>, gone: seq<Outpoint>)
    requires Reconciled(l, daa, obs, conf, gone).Ok?
    ensures var l' := Reconciled(l, daa, obs, conf, gone).value;
            Reconciled(l', daa, obs, conf, gone) == Ok(l')
  {
    var l1 := ObserveAll(l, daa, obs).value;
    var l2 := ConfirmAll(l1, daa, conf).value;
    var l3 := DisappearAll(l2, daa, gone).value;
    ObserveAllHolds(l, daa, obs);
    ConfirmAllActs(l1, daa, conf);
    ConfirmAllAdvances(l1, daa, conf);
    DisappearAllActs(l2, daa, gone);
    DisappearAllAdvances(l2, daa, gone);
    AdvancesTwice(l1, l2, l3);
    forall item | item in obs ensures Held(l3, daa, item) {
      assert Held(l1, daa, item);
      assert Progress(l1.deposits[item.op], l3.deposits[item.op]);
    }
    forall item | item in conf ensures ActedOn(l3, item) {
      assert ActedOn(l2, item);
      assert Progress(l2.deposits[item.op], l3.deposits[item.op]);
    }
    ObserveAllAgain(l3, daa, obs);
    ConfirmAllAgain(l3, daa, conf);
    DisappearAllAgain(l3, daa, gone);
  }
}
