/**
 A worker at a fixed clock: claim the next event, settle it, repeat until nothing is returned
 or a claim fails.
 */
module Draining {
  import opened Basics
  import opened Ledger
  import opened Outbox
  import opened LedgerSafety
  import opened Leases

  /** What the worker does with a claimed event. */
  datatype Settlement = Acknowledge | Fail(error: string, next: u64, maxAttempts: u32)

  /** Arguments fail_claim accepts at this clock. */
  predicate Acceptable(s: Settlement, now: u64) {
    s.Fail? ==> ValidDeliveryError(s.error) && now < s.next && Fits(s.next) && 1 <= s.maxAttempts <= 100
  }

  /** Arguments claim_next_delivery accepts. */
  predicate ClaimArguments(owner: string, now: u64, lease: u64) {
    ValidOwner(owner) && ValidLease(lease) && Fits(now) && Fits(now + lease)
  }

  function Settle(l: Ledger, id: nat, owner: string, now: u64, s: Settlement): Ledger {
    match s
    case Acknowledge => AcknowledgeClaim(l, id, owner).0
    case Fail(error, next, max) => FailClaim(l, id, owner, error, now, next, max).0
  }

  /** One more lease takes the attempt counter out of its 32 bits. */
  predicate Worn(d: Delivery) {
    d.attempts + 1 >= U32_LIMIT
  }

  /** Ids of the events a claim at this clock may take. */
  ghost function EligibleIds(l: Ledger, now: nat): set<nat> {
    set i | 0 <= i < |l.outbox| && Eligible(l.outbox[i].delivery, now) :: i + 1
  }

  ghost function WornIds(l: Ledger, now: nat): set<nat> {
    set i | 0 <= i < |l.outbox| && Eligible(l.outbox[i].delivery, now) && Worn(l.outbox[i].delivery) :: i + 1
  }

  /** Order of the claim query. */
  ghost predicate Before(l: Ledger, id: nat, id': nat) {
    HasRow(l, id) && HasRow(l, id') && Precedes(l.outbox, id - 1, id' - 1)
  }

  // ---------- one round ----------

  /** The claim leases the first eligible event, and fails after that exactly when the event is worn. */
  lemma ClaimTakesFirst(l: Ledger, owner: string, now: u64, lease: u64) returns (i: nat)
    requires WellFormedEvents(l.outbox) && ClaimArguments(owner, now, lease) && EligibleIds(l, now) != {}
    ensures i < |l.outbox| && Eligible(l.outbox[i].delivery, now)
    ensures forall j | 0 <= j < |l.outbox| && j != i && Eligible(l.outbox[j].delivery, now) :: Precedes(l.outbox, i, j)
    ensures var (l1, r) := Claim(l, owner, now, lease);
            && l1 == WithDelivery(l, i + 1, Leased(l.outbox[i].delivery, owner, now + lease))
            && (Worn(l.outbox[i].delivery) ==> r == Err(AttemptsOverflow))
            && (!Worn(l.outbox[i].delivery) ==> r.Ok? && r.value.Some? && r.value.value.event.id == i + 1)
  {
    var e :| e in EligibleIds(l, now);
    FirstEligibleIsFirst(l.outbox, now, |l.outbox|);
    i := FirstEligible(l.outbox, now, |l.outbox|).value;
  }

  /** Settling a leased event takes it out of reach at this clock. */
  lemma SettleFrees(l: Ledger, i: nat, owner: string, now: u64, lease: u64, s: Settlement)
    requires i < |l.outbox| && Eligible(l.outbox[i].delivery, now)
    requires ValidOwner(owner) && Fits(now) && !Worn(l.outbox[i].delivery) && Acceptable(s, now)
    ensures var l1 := WithDelivery(l, i + 1, Leased(l.outbox[i].delivery, owner, now + lease));
            var l2 := Settle(l1, i + 1, owner, now, s);
            && |l2.outbox| == |l.outbox|
            && l2.outbox[i].event == l.outbox[i].event && !Eligible(l2.outbox[i].delivery, now)
            && (forall j | 0 <= j < |l.outbox| && j != i :: l2.outbox[j] == l.outbox[j])
  {
    var l1 := WithDelivery(l, i + 1, Leased(l.outbox[i].delivery, owner, now + lease));
    assert Owned(l1, i + 1, owner);
  }

  lemma OneFewer(l: Ledger, l2: Ledger, i: nat, now: u64)
    requires WellFormedEvents(l.outbox) && i < |l.outbox| == |l2.outbox|
    requires Eligible(l.outbox[i].delivery, now) && !Eligible(l2.outbox[i].delivery, now)
    requires l2.outbox[i].event == l.outbox[i].event
    requires forall j | 0 <= j < |l.outbox| && j != i :: l2.outbox[j] == l.outbox[j]
    ensures WellFormedEvents(l2.outbox)
    ensures EligibleIds(l2, now) == EligibleIds(l, now) - {i + 1} && i + 1 in EligibleIds(l, now)
  {
    assert forall j | 0 <= j < |l.outbox| :: l2.outbox[j].event == l.outbox[j].event;
  }

  ghost predicate SameOthers(l: Ledger, l2: Ledger, id: nat) {
    |l2.outbox| == |l.outbox| && forall j | 0 <= j < |l.outbox| && j != id - 1 :: l2.outbox[j] == l.outbox[j]
  }

  /** The worker's ledger after it settled the claimed event. */
  function AfterRound(l: Ledger, id: nat, owner: string, now: u64, lease: u64, decide: nat -> Settlement): Ledger {
    Settle(Claim(l, owner, now, lease).0, id, owner, now, decide(id))
  }

  /** A round with a claimed event removes exactly the first event from those eligible. */
  lemma RoundRemovesOne(l: Ledger, owner: string, now: u64, lease: u64, decide: nat -> Settlement)
    requires WellFormedEvents(l.outbox) && ClaimArguments(owner, now, lease)
    requires forall id :: Acceptable(decide(id), now)
    requires Claim(l, owner, now, lease).1.Ok? && Claim(l, owner, now, lease).1.value.Some?
    ensures var id := Claim(l, owner, now, lease).1.value.value.event.id;
            var l2 := AfterRound(l, id, owner, now, lease, decide);
            && id in EligibleIds(l, now) && !Worn(RowAt(l, id).delivery)
            && (forall j | j in EligibleIds(l, now) && j != id :: Before(l, id, j))
            && EligibleIds(l2, now) == EligibleIds(l, now) - {id}
            && WellFormedEvents(l2.outbox) && SameOthers(l, l2, id)
  {
    SomeEligible(l, owner, now, lease);
    var i := ClaimTakesFirst(l, owner, now, lease);
    assert Acceptable(decide(i + 1), now);
    RoundAt(l, AfterRound(l, i + 1, owner, now, lease, decide), i, owner, now, lease, decide(i + 1));
    FirstIsBefore(l, i, now);
  }

  lemma FirstIsBefore(l: Ledger, i: nat, now: u64)
    requires i < |l.outbox|
    requires forall j | 0 <= j < |l.outbox| && j != i && Eligible(l.outbox[j].delivery, now) :: Precedes(l.outbox, i, j)
    ensures forall j | j in EligibleIds(l, now) && j != i + 1 :: Before(l, i + 1, j)
  {
    forall j | j in EligibleIds(l, now) && j != i + 1 ensures Before(l, i + 1, j) {
      assert Precedes(l.outbox, i, j - 1);
    }
  }

  lemma RoundAt(l: Ledger, l2: Ledger, i: nat, owner: string, now: u64, lease: u64, s: Settlement)
    requires WellFormedEvents(l.outbox) && ClaimArguments(owner, now, lease) && Acceptable(s, now)
    requires i < |l.outbox| && Eligible(l.outbox[i].delivery, now) && !Worn(l.outbox[i].delivery)
    requires var l1 := WithDelivery(l, i + 1, Leased(l.outbox[i].delivery, owner, now + lease));
             l2 == Settle(l1, i + 1, owner, now, s)
    ensures WellFormedEvents(l2.outbox) && SameOthers(l, l2, i + 1)
    ensures EligibleIds(l2, now) == EligibleIds(l, now) - {i + 1} && i + 1 in EligibleIds(l, now)
  {
    SettleFrees(l, i, owner, now, lease, s);
    OneFewer(l, l2, i, now);
  }

  lemma SomeEligible(l: Ledger, owner: string, now: u64, lease: u64)
    requires ClaimArguments(owner, now, lease) && Claim(l, owner, now, lease).1 != Ok(None)
    ensures EligibleIds(l, now) != {}
  {
    FirstEligibleIsFirst(l.outbox, now, |l.outbox|);
    var k := FirstEligible(l.outbox, now, |l.outbox|).value;
    assert k + 1 in EligibleIds(l, now);
  }

  /**
   A claim that fails and still changes the ledger: exactly when its arguments are accepted and
   the event the query selects is worn. The lease is committed, and the event keeps it.
   */
  lemma FailsYetLeases(l: Ledger, owner: string, now: u64, lease: u64)
    ensures (Claim(l, owner, now, lease).1.Err? && Claim(l, owner, now, lease).0 != l)
            <==> && ClaimArguments(owner, now, lease)
                 && exists i | 0 <= i < |l.outbox| ::
                      && Eligible(l.outbox[i].delivery, now) && Worn(l.outbox[i].delivery)
                      && forall j | 0 <= j < |l.outbox| && j != i && Eligible(l.outbox[j].delivery, now) ::
                           Precedes(l.outbox, i, j)
  {
    FirstEligibleIsFirst(l.outbox, now, |l.outbox|);
    var k := FirstEligible(l.outbox, now, |l.outbox|);
    if k.Some? && ClaimArguments(owner, now, lease) {
      var leased := WithDelivery(l, k.value + 1, Leased(l.outbox[k.value].delivery, owner, now + lease));
      assert leased.outbox[k.value].delivery.attempts != l.outbox[k.value].delivery.attempts;
    }
  }

  // ---------- the whole drain ----------

  datatype Drained = Drained(ledger: Ledger, ids: seq<nat>, failed: Option<Error>)

  /** Rounds until a claim returns nothing or fails: the ids visited, and the failure. */
  ghost function Drain(l: Ledger, owner: string, now: u64, lease: u64, decide: nat -> Settlement): Drained
    requires WellFormedEvents(l.outbox) && ClaimArguments(owner, now, lease)
    requires forall id :: Acceptable(decide(id), now)
    decreases |EligibleIds(l, now)|
  {
    var (l1, r) := Claim(l, owner, now, lease);
    if r.Err? then Drained(l1, [], Some(r.error))
    else if r.value.None? then Drained(l1, [], None)
    else
      RoundRemovesOne(l, owner, now, lease, decide);
      var id := r.value.value.event.id;
      var rest := Drain(AfterRound(l, id, owner, now, lease, decide), owner, now, lease, decide);
      rest.(ids := [id] + rest.ids)
  }

  /** Listed in the order of the claim query, judged on the outbox of l. */
  ghost predicate InOrder(l: Ledger, ids: seq<nat>) {
    forall p, q | 0 <= p < q < |ids| :: Before(l, ids[p], ids[q])
  }

  /** Visited: eligible, and before every worn event. */
  ghost predicate Visited(l: Ledger, now: nat, id: nat) {
    id in EligibleIds(l, now) && forall w | w in WornIds(l, now) :: Before(l, id, w)
  }

  lemma OrderExtends(l: Ledger, l2: Ledger, id: nat, rest: seq<nat>)
    requires SameOthers(l, l2, id) && InOrder(l2, rest)
    requires forall x | x in rest :: x != id && Before(l, id, x)
    ensures InOrder(l, [id] + rest)
  {
    var ids := [id] + rest;
    forall p, q | 0 <= p < q < |ids| ensures Before(l, ids[p], ids[q]) {
      assert ids[q] == rest[q - 1] && rest[q - 1] in rest;
      if p > 0 {
        assert ids[p] == rest[p - 1] && rest[p - 1] in rest;
        assert Before(l2, rest[p - 1], rest[q - 1]);
      }
    }
  }

  /** Events other than the settled one are worn, and ordered, as before. */
  lemma RoundKeepsWorn(l: Ledger, l2: Ledger, id: nat, now: u64)
    requires SameOthers(l, l2, id) && HasRow(l, id) && !Worn(RowAt(l, id).delivery)
    requires EligibleIds(l2, now) == EligibleIds(l, now) - {id}
    ensures WornIds(l2, now) == WornIds(l, now) && id !in WornIds(l, now)
    ensures forall x, y | x != id && y != id :: Before(l2, x, y) <==> Before(l, x, y)
  {
    forall w ensures w in WornIds(l2, now) <==> w in WornIds(l, now) {
      assert w in WornIds(l2, now) ==> w in EligibleIds(l2, now) && w in EligibleIds(l, now) && w != id;
      assert w in WornIds(l, now) ==> w in EligibleIds(l, now) && w != id && w in EligibleIds(l2, now);
    }
  }

  lemma VisitedNext(l: Ledger, l2: Ledger, id: nat, now: u64, x: nat)
    requires SameOthers(l, l2, id) && id in EligibleIds(l, now) && !Worn(RowAt(l, id).delivery)
    requires EligibleIds(l2, now) == EligibleIds(l, now) - {id}
    requires forall j | j in EligibleIds(l, now) && j != id :: Before(l, id, j)
    ensures Visited(l, now, x) <==> x == id || Visited(l2, now, x)
  {
    RoundKeepsWorn(l, l2, id, now);
    assert WornIds(l, now) <= EligibleIds(l, now);
    if x != id {
      forall w | w in WornIds(l, now) ensures Before(l2, x, w) <==> Before(l, x, w) {
        assert w != id;
      }
    }
  }

  /** Nothing is before the first eligible event, so a worn first event stops the drain at once. */
  lemma WornFirstStops(l: Ledger, owner: string, now: u64, lease: u64)
    requires WellFormedEvents(l.outbox) && ClaimArguments(owner, now, lease)
    requires Claim(l, owner, now, lease).1.Err?
    ensures Claim(l, owner, now, lease).1 == Err(AttemptsOverflow) && WornIds(l, now) != {}
    ensures forall x :: !Visited(l, now, x)
  {
    SomeEligible(l, owner, now, lease);
    var k := ClaimTakesFirst(l, owner, now, lease);
    assert k + 1 in WornIds(l, now);
    forall x: nat ensures !Visited(l, now, x) {
      if x in EligibleIds(l, now) && x != k + 1 {
        assert Precedes(l.outbox, k, x - 1);
        assert !Before(l, x, k + 1);
      }
    }
  }

  lemma NothingLeft(l: Ledger, owner: string, now: u64, lease: u64)
    requires ClaimArguments(owner, now, lease) && Claim(l, owner, now, lease).1 == Ok(None)
    ensures EligibleIds(l, now) == {} && WornIds(l, now) == {} && Claim(l, owner, now, lease).0 == l
  {
    FirstEligibleIsFirst(l.outbox, now, |l.outbox|);
  }

  /**
   The worker fails exactly when some eligible event is worn, and then because of its attempt
   counter. Either way it visits exactly the eligible events before every worn one, each once,
   by next attempt time and then id; without a failure a claim then returns nothing.
   */
  lemma {:induction false} DrainVisits(l: Ledger, owner: string, now: u64, lease: u64, decide: nat -> Settlement)
    requires WellFormedEvents(l.outbox) && ClaimArguments(owner, now, lease)
    requires forall id :: Acceptable(decide(id), now)
    ensures var d := Drain(l, owner, now, lease, decide);
            && (d.failed.Some? <==> WornIds(l, now) != {})
            && (d.failed.Some? ==> d.failed.value == AttemptsOverflow)
            && (forall id :: id in d.ids <==> Visited(l, now, id))
            && InOrder(l, d.ids)
            && (d.failed.None? ==> Claim(d.ledger, owner, now, lease) == (d.ledger, Ok(None)))
    decreases |EligibleIds(l, now)|
  {
    var r := Claim(l, owner, now, lease).1;
    if r.Err? {
      WornFirstStops(l, owner, now, lease);
    } else if r.value.None? {
      NothingLeft(l, owner, now, lease);
    } else {
      RoundRemovesOne(l, owner, now, lease, decide);
      var id := r.value.value.event.id;
      var l2 := AfterRound(l, id, owner, now, lease, decide);
      DrainVisits(l2, owner, now, lease, decide);
      RoundKeepsWorn(l, l2, id, now);
      var rest := Drain(l2, owner, now, lease, decide).ids;
      forall x ensures x in [id] + rest <==> Visited(l, now, x) {
        VisitedNext(l, l2, id, now, x);
      }
      forall x | x in rest ensures x != id && Before(l, id, x) {
        assert x in EligibleIds(l2, now);
      }
      OrderExtends(l, l2, id, rest);
    }
  }

  /** With no worn event in the way every eligible event is visited. */
  lemma DrainVisitsAll(l: Ledger, owner: string, now: u64, lease: u64, decide: nat -> Settlement)
    requires WellFormedEvents(l.outbox) && ClaimArguments(owner, now, lease)
    requires forall id :: Acceptable(decide(id), now)
    ensures var d := Drain(l, owner, now, lease, decide);
            (d.failed.None? && forall id :: id in d.ids <==> id in EligibleIds(l, now)) <==> WornIds(l, now) == {}
  {
    DrainVisits(l, owner, now, lease, decide);
  }
}
