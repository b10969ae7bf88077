/**
 Runs that reach the corner cases of the outbox: a leased event that cannot be acknowledged by
 id, an attempt counter at any value, and a claim that fails although it leases.
 */
module Reachable {
  import opened Basics
  import opened Ledger
  import opened Outbox
  import opened LedgerSafety
  import opened Leases
  import opened Draining

  const OP := Outpoint("tx", 0)
  const FACTS := Facts("kaspatest:a", 5, 1, false)
  const CREDIT := Event(1, EventKey(Credit, OP), Credit, OP, 5, "kaspatest:a")

  /** One deposit seen and confirmed at once. */
  function Deposited(): seq<Call> {
    [ReconcileCall(100, [Appearance(OP, FACTS, 100)], [Confirmation(OP, FACTS, 99)], [])]
  }

  /** One deposit, seen and confirmed in one call on new tables, enqueues its credit. */
  lemma OneDeposit(op: Outpoint, facts: Facts)
    requires Fits(facts.amount) && Fits(facts.blockDaa)
    ensures var call := ReconcileCall(100, [Appearance(op, facts, 100)], [Confirmation(op, facts, 99)], []);
            var e := Event(1, EventKey(Credit, op), Credit, op, facts.amount, facts.address);
            Next(EMPTY, call).outbox == [Row(e, FRESH_DELIVERY)]
  {
    var item, hit := Appearance(op, facts, 100), Confirmation(op, facts, 99);
    assert [item][..0] == [] && [hit][..0] == [];
    var l1 := Observe(EMPTY, 100, item).value;
    assert ObserveAll(EMPTY, 100, [item][..0]) == Ok(EMPTY) && ObserveAll(EMPTY, 100, [item]) == Ok(l1);
    assert ConfirmAll(l1, 100, [hit][..0]) == Ok(l1) && ConfirmAll(l1, 100, [hit]) == Confirm(l1, 100, hit);
  }

  lemma DepositedLedger()
    ensures Run(Deposited()).outbox == [Row(CREDIT, FRESH_DELIVERY)]
  {
    assert Deposited() == [] + Deposited();
    RunAppend([], Deposited()[0]);
    OneDeposit(OP, FACTS);
  }

  function Observing(): Call {
    ReconcileCall(100, [Appearance(OP, FACTS, 100)], [], [])
  }

  function Confirming(): Call {
    ReconcileCall(100, [], [Confirmation(OP, FACTS, 99)], [])
  }

  lemma ObserveAlone(l: Ledger)
    ensures Next(l, Observing()) == Committed(l, Observe(l, 100, Appearance(OP, FACTS, 100)))
  {
    var item := Appearance(OP, FACTS, 100);
    assert [item][..0] == [];
    assert ObserveAll(l, 100, [item][..0]) == Ok(l);
  }

  lemma ConfirmAlone(l: Ledger)
    ensures Next(l, Confirming()) == Committed(l, Confirm(l, 100, Confirmation(OP, FACTS, 99)))
  {
    var hit := Confirmation(OP, FACTS, 99);
    assert [hit][..0] == [];
    assert ConfirmAll(l, 100, [hit][..0]) == Ok(l);
  }

  /**
   An import decides nothing once the deposit has been observed: imported before, the deposit
   is credited without an event; imported between observation and confirmation, it gets its
   credit event all the same.
   */
  lemma ImportTooLate()
    ensures Next(Next(Next(EMPTY, ImportLegacyCall(OP)), Observing()), Confirming()).outbox == []
    ensures var l := Next(Next(Next(EMPTY, Observing()), ImportLegacyCall(OP)), Confirming());
            l.outbox == [Row(CREDIT, FRESH_DELIVERY)] && OP in l.legacy
  {
    ObserveAlone(EMPTY);
    ObserveAlone(Next(EMPTY, ImportLegacyCall(OP)));
    ConfirmAlone(Next(Next(EMPTY, ImportLegacyCall(OP)), Observing()));
    ConfirmAlone(Next(Next(EMPTY, Observing()), ImportLegacyCall(OP)));
  }

  /** A worker that leases the event and gives it back, n times. */
  function Retried(n: nat): seq<Call> {
    if n == 0 then Deposited() else Retried(n - 1) + [ClaimCall("w", 0, 1)] + [ReleaseCall(1, "w", "e")]
  }

  function FreeDelivery(n: nat): Delivery {
    FRESH_DELIVERY.(attempts := n, lastError := if n == 0 then None else Some("e"))
  }

  lemma OneRowIsFirst(row: Row)
    requires Eligible(row.delivery, 0)
    ensures FirstEligible([row], 0, 1) == Some(0)
  {
    FirstEligibleIsFirst([row], 0, 1);
  }

  lemma LeaseOne(l: Ledger, n: nat)
    requires l.outbox == [Row(CREDIT, FreeDelivery(n))]
    ensures Next(l, ClaimCall("w", 0, 1)).outbox == [Row(CREDIT, Leased(FreeDelivery(n), "w", 1))]
  {
    OneRowIsFirst(l.outbox[0]);
  }

  lemma ReleaseOne(l: Ledger, n: nat)
    requires l.outbox == [Row(CREDIT, Leased(FreeDelivery(n), "w", 1))]
    ensures Next(l, ReleaseCall(1, "w", "e")).outbox == [Row(CREDIT, FreeDelivery(n + 1))]
  {
    assert Trim("e") == "e";
  }

  /** Every attempt count is reached by an event that is free to be claimed. */
  lemma {:induction false} RetriedLedger(n: nat)
    ensures Run(Retried(n)).outbox == [Row(CREDIT, FreeDelivery(n))]
  {
    if n == 0 {
      DepositedLedger();
    } else {
      RetriedLedger(n - 1);
      var claimed := Retried(n - 1) + [ClaimCall("w", 0, 1)];
      RunAppend(Retried(n - 1), ClaimCall("w", 0, 1));
      LeaseOne(Run(Retried(n - 1)), n - 1);
      RunAppend(claimed, ReleaseCall(1, "w", "e"));
      ReleaseOne(Run(claimed), n - 1);
    }
  }

  /** A reachable ledger whose event is worn: the claim fails and leases it, and a drain fails. */
  lemma WornReachable(n: nat, decide: nat -> Settlement)
    requires n + 1 >= U32_LIMIT && forall id :: Acceptable(decide(id), 0)
    ensures var l := Run(Retried(n));
            && WellFormedEvents(l.outbox) && WornIds(l, 0) == {1}
            && Claim(l, "w", 0, 1).1 == Err(AttemptsOverflow)
            && Claim(l, "w", 0, 1).0.outbox == [Row(CREDIT, Leased(FreeDelivery(n), "w", 1))]
            && Drain(l, "w", 0, 1, decide).failed == Some(AttemptsOverflow)
  {
    var l := Run(Retried(n));
    RetriedLedger(n);
    RunSafe(Retried(n));
    LeaseOne(l, n);
    assert l.outbox[0] == Row(CREDIT, FreeDelivery(n));
    assert 1 in WornIds(l, 0);
    OneRowIsFirst(l.outbox[0]);
    DrainVisits(l, "w", 0, 1, decide);
  }

  /** A reachable event that is leased, not acknowledged, and refused by acknowledge_event. */
  lemma LeasedRefused()
    ensures var l := Run(Deposited() + [ClaimCall("w", 0, 1)]);
            && HasRow(l, 1) && !RowAt(l, 1).delivery.acknowledged
            && AcknowledgeEvent(l, 1) == (l, Err(NotAcknowledgeable(1)))
  {
    DepositedLedger();
    RunAppend(Deposited(), ClaimCall("w", 0, 1));
    LeaseOne(Run(Deposited()), 0);
  }
}
