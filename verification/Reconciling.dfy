/**
 What one reconcile means, read off its arguments: when it succeeds, and the row of every
 outpoint afterwards.
 */
module Reconciling {
  import opened Basics
  import opened Ledger
  import opened Outbox
  import opened LedgerSafety
  import opened Tracker

  predicate InRange(facts: Facts) {
    Fits(facts.amount) && Fits(facts.blockDaa)
  }

  // ---------- observing ----------

  function SeenOps(items: seq<Appearance>): set<Outpoint> {
    set item | item in items :: item.op
  }

  /** Facts in range, the recorded ones where there is a row, and the same for one outpoint throughout. */
  ghost predicate Agreeing(l: Ledger, items: seq<Appearance>) {
    && (forall item | item in items ::
          InRange(item.facts) && (item.op in l.deposits ==> l.deposits[item.op].facts == item.facts))
    && (forall a, b | a in items && b in items && a.op == b.op :: a.facts == b.facts)
  }

  function FirstRow(l: Ledger, daa: u64, op: Outpoint, facts: Facts): Deposit {
    if op in l.legacy then Deposit(facts, Credited, daa, daa, Some(daa), None, None)
    else Deposit(facts, Pending, daa, daa, None, None, None)
  }

  /** Rows of seen outpoints are there and carry the facts seen; no other row changes. */
  ghost predicate Observes(l: Ledger, l': Ledger, daa: u64, items: seq<Appearance>) {
    && l'.legacy == l.legacy && l'.outbox == l.outbox
    && l'.deposits.Keys == l.deposits.Keys + SeenOps(items)
    && (forall item | item in items :: l'.deposits[item.op].facts == item.facts)
    && forall op | op in l'.deposits ::
         l'.deposits[op] == if op !in l.deposits then FirstRow(l, daa, op, l'.deposits[op].facts)
                            else if op in SeenOps(items) then l.deposits[op].(lastSeen := daa)
                            else l.deposits[op]
  }

  lemma SeenAppend(items: seq<Appearance>)
    requires |items| > 0
    ensures SeenOps(items) == SeenOps(items[..|items| - 1]) + {items[|items| - 1].op}
    ensures forall item :: item in items <==> item in items[..|items| - 1] || item == items[|items| - 1]
  {
    var n := |items| - 1;
    assert items == items[..n] + [items[n]];
    forall op ensures op in SeenOps(items) <==> op in SeenOps(items[..n]) || op == items[n].op {
      if op == items[n].op {
        assert items[n] in items;
      }
    }
  }

  /** The first loop succeeds exactly on agreeing items, and does exactly this. */
  lemma {:induction false} ObserveAllMeans(l: Ledger, daa: u64, items: seq<Appearance>)
    ensures ObserveAll(l, daa, items).Ok? <==> Agreeing(l, items)
    ensures ObserveAll(l, daa, items).Ok? ==> Observes(l, ObserveAll(l, daa, items).value, daa, items)
    decreases |items|
  {
    if items != [] {
      var n := |items| - 1;
      ObserveAllMeans(l, daa, items[..n]);
      SeenAppend(items);
      if Agreeing(l, items[..n]) {
        var l1 := ObserveAll(l, daa, items[..n]).value;
        AgreeOneMore(l, l1, daa, items);
        if Observe(l1, daa, items[n]).Ok? {
          ObserveOneMore(l, l1, daa, items);
        }
      } else {
        AgreeingPrefix(l, items);
      }
    }
  }

  lemma AgreeingPrefix(l: Ledger, items: seq<Appearance>)
    requires |items| > 0 && !Agreeing(l, items[..|items| - 1])
    ensures !Agreeing(l, items)
  {
    SeenAppend(items);
  }

  lemma AgreeOneMore(l: Ledger, l1: Ledger, daa: u64, items: seq<Appearance>)
    requires |items| > 0 && Agreeing(l, items[..|items| - 1]) && Observes(l, l1, daa, items[..|items| - 1])
    ensures Observe(l1, daa, items[|items| - 1]).Ok? <==> Agreeing(l, items)
  {
    var n := |items| - 1;
    var last := items[n];
    SeenAppend(items);
    if last.op in SeenOps(items[..n]) {
      var item :| item in items[..n] && item.op == last.op;
      assert l1.deposits[last.op].facts == item.facts;
      assert forall a | a in items[..n] && a.op == last.op :: a.facts == item.facts;
    }
  }

  lemma ObserveOneMore(l: Ledger, l1: Ledger, daa: u64, items: seq<Appearance>)
    requires |items| > 0 && Observes(l, l1, daa, items[..|items| - 1])
    requires Observe(l1, daa, items[|items| - 1]).Ok?
    ensures Observes(l, Observe(l1, daa, items[|items| - 1]).value, daa, items)
  {
    SeenAppend(items);
  }

  // ---------- confirming ----------

  predicate MayConfirm(l: Ledger, item: Confirmation) {
    item.op in l.deposits && l.deposits[item.op].facts == item.facts && InRange(item.facts)
  }

  function CreditedAt(d: Deposit, daa: u64): Deposit {
    d.(state := Credited, creditedDaa := Some(daa))
  }

  /** The listed pending rows become credited; no other row changes. */
  ghost predicate Credits(l: Ledger, l': Ledger, daa: u64, ops: set<Outpoint>) {
    && l'.legacy == l.legacy && l'.deposits.Keys == l.deposits.Keys
    && forall op | op in l.deposits ::
         l'.deposits[op] == if op in ops && l.deposits[op].state == Pending then CreditedAt(l.deposits[op], daa)
                            else l.deposits[op]
  }

  /** The second loop succeeds exactly on recorded facts, and does exactly this. */
  lemma {:induction false} ConfirmAllMeans(l: Ledger, daa: u64, items: seq<Confirmation>)
    ensures ConfirmAll(l, daa, items).Ok? <==> forall item | item in items :: MayConfirm(l, item)
    ensures ConfirmAll(l, daa, items).Ok? ==> Credits(l, ConfirmAll(l, daa, items).value, daa, OpsOf(items))
    decreases |items|
  {
    if items != [] {
      var front, last := items[..|items| - 1], items[|items| - 1];
      ConfirmAllMeans(l, daa, front);
      assert items == front + [last];
      OpsAppend(front, last);
      if ConfirmAll(l, daa, front).Ok? {
        var l1 := ConfirmAll(l, daa, front).value;
        ConfirmMeans(l1, daa, last);
        assert MayConfirm(l1, last) <==> MayConfirm(l, last);
      }
    }
  }

  lemma ConfirmMeans(l: Ledger, daa: u64, item: Confirmation)
    ensures Confirm(l, daa, item).Ok? <==> MayConfirm(l, item)
    ensures Confirm(l, daa, item).Ok? ==> Credits(l, Confirm(l, daa, item).value, daa, {item.op})
  {
  }

  // ---------- disappearing ----------

  function GoneAt(d: Deposit, daa: u64): Deposit {
    d.(state := Reversed, reversedDaa := Some(daa), reason := Some(GONE))
  }

  ghost predicate Reverses(l: Ledger, l': Ledger, daa: u64, ops: seq<Outpoint>) {
    && l'.legacy == l.legacy && l'.deposits.Keys == l.deposits.Keys
    && forall op | op in l.deposits ::
         l'.deposits[op] == if op in ops && l.deposits[op].state == Pending then GoneAt(l.deposits[op], daa)
                            else l.deposits[op]
  }

  /** The third loop never fails: it reverses what is pending and leaves the rest alone. */
  lemma {:induction false} DisappearAllMeans(l: Ledger, daa: u64, ops: seq<Outpoint>)
    requires AmountsFit(l)
    ensures DisappearAll(l, daa, ops).Ok? && Reverses(l, DisappearAll(l, daa, ops).value, daa, ops)
    decreases |ops|
  {
    if ops != [] {
      var front, last := ops[..|ops| - 1], ops[|ops| - 1];
      DisappearAllMeans(l, daa, front);
      assert ops == front + [last];
      var l1 := DisappearAll(l, daa, front).value;
      assert last in l1.deposits ==> Fits(l1.deposits[last].facts.amount);
    }
  }

  // ---------- the whole call ----------

  /** A confirmation of a recorded row or of one just observed, with the same facts. */
  ghost predicate Backed(l: Ledger, observed: seq<Appearance>, item: Confirmation) {
    && InRange(item.facts)
    && (if item.op in l.deposits then l.deposits[item.op].facts == item.facts
        else exists seen | seen in observed :: seen.op == item.op && seen.facts == item.facts)
  }

  /** The row an outpoint starts the second loop with. */
  function SeenRow(l: Ledger, daa: u64, observed: seq<Appearance>, op: Outpoint, facts: Facts): Deposit {
    if op !in l.deposits then FirstRow(l, daa, op, facts)
    else if op in SeenOps(observed) then l.deposits[op].(lastSeen := daa)
    else l.deposits[op]
  }

  /** Only a pending row changes state: credited when confirmed, else reversed when it disappeared. */
  function FinalRow(d: Deposit, daa: u64, confirmed: set<Outpoint>, gone: seq<Outpoint>, op: Outpoint): Deposit {
    if d.state != Pending then d
    else if op in confirmed then CreditedAt(d, daa)
    else if op in gone then GoneAt(d, daa)
    else d
  }

  /** When reconcile succeeds. */
  lemma ReconcileSucceeds(l: Ledger, daa: u64, obs: seq<Appearance>, conf: seq<Confirmation>, gone: seq<Outpoint>)
    requires AmountsFit(l)
    ensures Reconciled(l, daa, obs, conf, gone).Ok?
            <==> Fits(daa) && Agreeing(l, obs) && forall item | item in conf :: Backed(l, obs, item)
  {
    ObserveAllMeans(l, daa, obs);
    if Agreeing(l, obs) {
      var l1 := ObserveAll(l, daa, obs).value;
      ConfirmAllMeans(l1, daa, conf);
      forall item | item in conf ensures MayConfirm(l1, item) <==> Backed(l, obs, item) {
        BackedOrNot(l, l1, daa, obs, item);
      }
      if ConfirmAll(l1, daa, conf).Ok? {
        ObservedAmountsFit(l, l1, daa, obs);
        DisappearAllMeans(ConfirmAll(l1, daa, conf).value, daa, gone);
      }
    }
  }

  lemma BackedOrNot(l: Ledger, l1: Ledger, daa: u64, obs: seq<Appearance>, item: Confirmation)
    requires Agreeing(l, obs) && Observes(l, l1, daa, obs)
    ensures MayConfirm(l1, item) <==> Backed(l, obs, item)
  {
    if item.op in l1.deposits && item.op !in l.deposits {
      var seen :| seen in obs && seen.op == item.op;
      assert l1.deposits[item.op].facts == seen.facts;
    }
  }

  lemma ObservedAmountsFit(l: Ledger, l1: Ledger, daa: u64, obs: seq<Appearance>)
    requires AmountsFit(l) && Agreeing(l, obs) && Observes(l, l1, daa, obs)
    ensures AmountsFit(l1)
  {
    forall op | op in l1.deposits ensures Fits(l1.deposits[op].facts.amount) {
      if op !in l.deposits {
        var seen :| seen in obs && seen.op == op;
        assert l1.deposits[op].facts == seen.facts;
      }
    }
  }

  /** What it does to every row. */
  lemma ReconcileMeans(l: Ledger, daa: u64, obs: seq<Appearance>, conf: seq<Confirmation>, gone: seq<Outpoint>)
    requires AmountsFit(l) && Reconciled(l, daa, obs, conf, gone).Ok?
    ensures var l' := Reconciled(l, daa, obs, conf, gone).value;
            && l'.legacy == l.legacy && l'.deposits.Keys == l.deposits.Keys + SeenOps(obs)
            && (forall item | item in obs :: l'.deposits[item.op].facts == item.facts)
            && (forall op | op in l'.deposits ::
                  l'.deposits[op]
                  == FinalRow(SeenRow(l, daa, obs, op, l'.deposits[op].facts), daa, OpsOf(conf), gone, op))
  {
    ObserveAllMeans(l, daa, obs);
    var l1 := ObserveAll(l, daa, obs).value;
    ConfirmAllMeans(l1, daa, conf);
    var l2 := ConfirmAll(l1, daa, conf).value;
    ObservedAmountsFit(l, l1, daa, obs);
    DisappearAllMeans(l2, daa, gone);
    LoopsTogether(l, l1, l2, DisappearAll(l2, daa, gone).value, daa, obs, OpsOf(conf), gone);
  }

  lemma LoopsTogether(l: Ledger, l1: Ledger, l2: Ledger, l3: Ledger, daa: u64, obs: seq<Appearance>,
                      conf: set<Outpoint>, gone: seq<Outpoint>)
    requires Observes(l, l1, daa, obs) && Credits(l1, l2, daa, conf) && Reverses(l2, l3, daa, gone)
    ensures l3.legacy == l.legacy && l3.deposits.Keys == l.deposits.Keys + SeenOps(obs)
    ensures forall item | item in obs :: l3.deposits[item.op].facts == item.facts
    ensures forall op | op in l3.deposits ::
              l3.deposits[op] == FinalRow(SeenRow(l, daa, obs, op, l3.deposits[op].facts), daa, conf, gone, op)
  {
    forall op | op in l3.deposits
      ensures l3.deposits[op] == FinalRow(SeenRow(l, daa, obs, op, l3.deposits[op].facts), daa, conf, gone, op)
    {
      RowTogether(l1.deposits[op], l2.deposits[op], l3.deposits[op], daa, conf, gone, op);
      assert l1.deposits[op] == SeenRow(l, daa, obs, op, l1.deposits[op].facts);
    }
  }

  lemma RowTogether(d1: Deposit, d2: Deposit, d3: Deposit, daa: u64, conf: set<Outpoint>, gone: seq<Outpoint>,
                    op: Outpoint)
    requires d2 == if op in conf && d1.state == Pending then CreditedAt(d1, daa) else d1
    requires d3 == if op in gone && d2.state == Pending then GoneAt(d2, daa) else d2
    ensures d3 == FinalRow(d1, daa, conf, gone, op) && d3.facts == d1.facts
  {
  }

  // ---------- refusals ----------

  const BEYOND := 0x8000_0000_0000_0000

  /** What is wrong with a first or repeated observation. */
  lemma ObserveRefused(l: Ledger, daa: u64, item: Appearance)
    requires Observe(l, daa, item).Err?
    ensures Observe(l, daa, item).error
            == if item.facts.amount >= BEYOND || item.facts.blockDaa >= BEYOND then OutOfRange
               else FactsChanged(item.op)
  {
  }

  /** What is wrong with a confirmation; numbers are only looked at as far as the facts agree. */
  lemma ConfirmRefused(l: Ledger, daa: u64, item: Confirmation)
    requires Confirm(l, daa, item).Err?
    ensures var e := Confirm(l, daa, item).error;
            && e in {NeverObserved(item.op), OutOfRange, ConfirmationChanged(item.op)}
            && (e == NeverObserved(item.op) <==> item.op !in l.deposits)
            && (e == ConfirmationChanged(item.op) ==>
                  item.op in l.deposits && l.deposits[item.op].facts != item.facts)
            && (item.op in l.deposits && AmountsFit(l) && e == OutOfRange ==>
                  var facts := l.deposits[item.op].facts;
                  facts.address == item.facts.address
                  && (item.facts.amount >= BEYOND
                      || (facts.amount == item.facts.amount && item.facts.blockDaa >= BEYOND)))
            && (item.op in l.deposits && l.deposits[item.op].facts.address != item.facts.address ==>
                  e == ConfirmationChanged(item.op))
  {
  }

  lemma {:induction false} ObserveStopsAt(l: Ledger, daa: u64, items: seq<Appearance>) returns (n: nat)
    requires ObserveAll(l, daa, items).Err?
    ensures n < |items| && ObserveAll(l, daa, items[..n]).Ok?
    ensures Observe(ObserveAll(l, daa, items[..n]).value, daa, items[n]) == ObserveAll(l, daa, items)
    decreases |items|
  {
    n := |items| - 1;
    if ObserveAll(l, daa, items[..n]).Err? {
      var m := ObserveStopsAt(l, daa, items[..n]);
      assert items[..n][..m] == items[..m];
      n := m;
    }
  }

  lemma {:induction false} ConfirmStopsAt(l: Ledger, daa: u64, items: seq<Confirmation>) returns (n: nat)
    requires ConfirmAll(l, daa, items).Err?
    ensures n < |items| && ConfirmAll(l, daa, items[..n]).Ok?
    ensures Confirm(ConfirmAll(l, daa, items[..n]).value, daa, items[n]) == ConfirmAll(l, daa, items)
    decreases |items|
  {
    n := |items| - 1;
    if ConfirmAll(l, daa, items[..n]).Err? {
      var m := ConfirmStopsAt(l, daa, items[..n]);
      assert items[..n][..m] == items[..m];
      n := m;
    }
  }

  /** The first observation that is refused. */
  ghost predicate FirstObservation(l: Ledger, daa: u64, observed: seq<Appearance>, n: nat, e: Error) {
    && n < |observed| && Agreeing(l, observed[..n]) && ObserveAll(l, daa, observed[..n]).Ok?
    && Observe(ObserveAll(l, daa, observed[..n]).value, daa, observed[n]) == Err(e)
  }

  /** The first confirmation that is refused, after all observations. */
  ghost predicate FirstConfirmation(l: Ledger, daa: u64, observed: seq<Appearance>, confirmed: seq<Confirmation>,
                                    n: nat, e: Error) {
    && n < |confirmed| && ObserveAll(l, daa, observed).Ok?
    && var seen := ObserveAll(l, daa, observed).value;
       && (forall item | item in confirmed[..n] :: MayConfirm(seen, item))
       && !MayConfirm(seen, confirmed[n])
       && ConfirmAll(seen, daa, confirmed[..n]).Ok?
       && Confirm(ConfirmAll(seen, daa, confirmed[..n]).value, daa, confirmed[n]) == Err(e)
  }

  /**
   A refused reconcile reports a score out of range, or else what is wrong with the first
   observation refused, or else with the first confirmation; and the tables stay as they were.
   */
  lemma ReconcileRefused(l: Ledger, daa: u64, obs: seq<Appearance>, conf: seq<Confirmation>, gone: seq<Outpoint>)
    requires AmountsFit(l) && Reconciled(l, daa, obs, conf, gone).Err?
    ensures var e := Reconciled(l, daa, obs, conf, gone).error;
            if daa >= BEYOND then e == OutOfRange
            else if !Agreeing(l, obs) then exists n :: FirstObservation(l, daa, obs, n, e)
            else exists n :: FirstConfirmation(l, daa, obs, conf, n, e)
    ensures Next(l, ReconcileCall(daa, obs, conf, gone)) == l
  {
    ObserveAllMeans(l, daa, obs);
    if Fits(daa) {
      var e := Reconciled(l, daa, obs, conf, gone).error;
      if ObserveAll(l, daa, obs).Err? {
        var n := ObserveStopsAt(l, daa, obs);
        ObserveAllMeans(l, daa, obs[..n]);
        assert FirstObservation(l, daa, obs, n, e);
      } else {
        var l1 := ObserveAll(l, daa, obs).value;
        ObservedAmountsFit(l, l1, daa, obs);
        ConfirmAllMeans(l1, daa, conf);
        if ConfirmAll(l1, daa, conf).Ok? {
          DisappearAllMeans(ConfirmAll(l1, daa, conf).value, daa, gone);
        }
        var n := ConfirmStopsAt(l1, daa, conf);
        FirstRefused(l1, daa, conf, n);
        assert FirstConfirmation(l, daa, obs, conf, n, e);
      }
    }
  }

  lemma FirstRefused(l: Ledger, daa: u64, conf: seq<Confirmation>, n: nat)
    requires n < |conf| && ConfirmAll(l, daa, conf[..n]).Ok?
    requires Confirm(ConfirmAll(l, daa, conf[..n]).value, daa, conf[n]).Err?
    ensures (forall item | item in conf[..n] :: MayConfirm(l, item)) && !MayConfirm(l, conf[n])
  {
    ConfirmAllMeans(l, daa, conf[..n]);
    ConfirmMeans(ConfirmAll(l, daa, conf[..n]).value, daa, conf[n]);
  }

  /** The refusals of an explicit reversal. */
  lemma ReversalRefused(l: Ledger, daa: u64, op: Outpoint, evidence: string)
    requires AmountsFit(l) && ReverseOnReorg(l, daa, op, evidence).Err?
    ensures ReverseOnReorg(l, daa, op, evidence).error
            == if Trim(evidence) == [] then NoEvidence
               else if daa >= BEYOND then OutOfRange
               else if op !in l.deposits then UnknownOutpoint(op)
               else NotCredited(Pending)
  {
  }

  // ---------- explicit reversal ----------

  /**
   A credited deposit is reversed on non-blank evidence, a reversed one stays as it is, and
   anything else is refused. The reversal records its score and the trimmed evidence, appends
   one reverse event with the deposit's amount and address, and touches nothing else.
   */
  lemma ReversalMeans(l: Ledger, born: set<Outpoint>, daa: u64, op: Outpoint, evidence: string)
    requires Safe(l, born)
    ensures ReverseOnReorg(l, daa, op, evidence).Ok?
            <==> Trim(evidence) != [] && Fits(daa) && op in l.deposits && l.deposits[op].state != Pending
    ensures ReverseOnReorg(l, daa, op, evidence).Ok? ==>
              var d := l.deposits[op];
              var e := Event(|l.outbox| + 1, EventKey(Reverse, op), Reverse, op, d.facts.amount, d.facts.address);
              var reversed := d.(state := Reversed, reversedDaa := Some(daa), reason := Some(Trim(evidence)));
              ReverseOnReorg(l, daa, op, evidence).value
              == if d.state == Reversed then l
                 else l.(deposits := l.deposits[op := reversed], outbox := l.outbox + [Row(e, FRESH_DELIVERY)])
  {
    if op in l.deposits && l.deposits[op].state == Credited {
      var d := l.deposits[op];
      var reversed := d.(state := Reversed, reversedDaa := Some(daa), reason := Some(Trim(evidence)));
      InsertAppends(l.(deposits := l.deposits[op := reversed]), Reverse, op, d.facts.amount, d.facts.address);
    }
  }
}
