/**
 Leases and order of the outbox: what the claim query selects, and who may hold an event when.
 */
module Leases {
  import opened Basics
  import opened Ledger
  import opened Outbox
  import opened LedgerSafety

  // ---------- what a lease is ----------

  /** Owner and expiry come together; acknowledged and dead-lettered events hold no lease. */
  predicate LeaseSane(d: Delivery) {
    && (d.owner.Some? <==> d.leaseUntil.Some?)
    && (d.acknowledged || d.dead ==> d.owner.None?)
  }

  ghost predicate LeasesSane(l: Ledger) {
    forall i | 0 <= i < |l.outbox| :: LeaseSane(l.outbox[i].delivery)
  }

  /** A deposit step only adds rows, and added rows have never been claimed. */
  ghost predicate OnlyFreshRows(l: Ledger, l': Ledger) {
    && |l.outbox| <= |l'.outbox|
    && l'.outbox[..|l.outbox|] == l.outbox
    && forall i | |l.outbox| <= i < |l'.outbox| :: l'.outbox[i].delivery == FRESH_DELIVERY
  }

  lemma {:induction false} ConfirmAllRows(l: Ledger, daa: u64, items: seq<Confirmation>)
    requires ConfirmAll(l, daa, items).Ok?
    ensures OnlyFreshRows(l, ConfirmAll(l, daa, items).value)
    decreases |items|
  {
    if items != [] {
      ConfirmAllRows(l, daa, items[..|items| - 1]);
    }
  }

  lemma {:induction false} DisappearAllRows(l: Ledger, daa: u64, ops: seq<Outpoint>)
    requires DisappearAll(l, daa, ops).Ok?
    ensures OnlyFreshRows(l, DisappearAll(l, daa, ops).value)
    decreases |ops|
  {
    if ops != [] {
      DisappearAllRows(l, daa, ops[..|ops| - 1]);
    }
  }

  lemma {:induction false} ObserveAllRows(l: Ledger, daa: u64, items: seq<Appearance>)
    requires ObserveAll(l, daa, items).Ok?
    ensures ObserveAll(l, daa, items).value.outbox == l.outbox
    decreases |items|
  {
    if items != [] {
      ObserveAllRows(l, daa, items[..|items| - 1]);
    }
  }

  lemma DepositCallRows(l: Ledger, call: Call)
    requires !IsDelivery(call)
    ensures OnlyFreshRows(l, Next(l, call))
  {
    match call
    case ReconcileCall(daa, obs, conf, gone) =>
      if Reconciled(l, daa, obs, conf, gone).Ok? {
        ObserveAllRows(l, daa, obs);
        var l1 := ObserveAll(l, daa, obs).value;
        ConfirmAllRows(l1, daa, conf);
        var l2 := ConfirmAll(l1, daa, conf).value;
        DisappearAllRows(l2, daa, gone);
        var l3 := DisappearAll(l2, daa, gone).value;
        assert l3.outbox[..|l1.outbox|] == l2.outbox[..|l1.outbox|] == l1.outbox;
        forall i | |l1.outbox| <= i < |l3.outbox| ensures l3.outbox[i].delivery == FRESH_DELIVERY {
          if i < |l2.outbox| {
            assert l3.outbox[..|l2.outbox|][i] == l2.outbox[i];
          }
        }
      }
    case _ =>
  }

  lemma NextLeasesSane(l: Ledger, call: Call)
    requires LeasesSane(l)
    ensures LeasesSane(Next(l, call))
  {
    var l' := Next(l, call);
    if call.ClaimCall? {
      FirstEligibleIsFirst(l.outbox, call.now, |l.outbox|);
    } else if !IsDelivery(call) {
      DepositCallRows(l, call);
      forall i | 0 <= i < |l'.outbox| ensures LeaseSane(l'.outbox[i].delivery) {
        if i < |l.outbox| {
          assert l'.outbox[..|l.outbox|][i] == l.outbox[i];
        }
      }
    }
  }

  lemma {:induction false} RunLeasesSane(calls: seq<Call>)
    ensures LeasesSane(Run(calls))
    decreases |calls|
  {
    if calls != [] {
      RunLeasesSane(calls[..|calls| - 1]);
      NextLeasesSane(Run(calls[..|calls| - 1]), calls[|calls| - 1]);
    }
  }

  // ---------- the claim query ----------

  /** Lexicographic order on (next attempt, position). */
  predicate Precedes(outbox: seq<Row>, i: nat, j: nat)
    requires i < |outbox| && j < |outbox|
  {
    outbox[i].delivery.nextAttempt < outbox[j].delivery.nextAttempt
    || (outbox[i].delivery.nextAttempt == outbox[j].delivery.nextAttempt && i < j)
  }

  /** The query returns the first eligible row in that order, and nothing only when none is eligible. */
  lemma {:induction false} FirstEligibleIsFirst(outbox: seq<Row>, now: nat, m: nat)
    requires m <= |outbox|
    ensures match FirstEligible(outbox, now, m)
            case None => forall j | 0 <= j < m :: !Eligible(outbox[j].delivery, now)
            case Some(i) =>
              && Eligible(outbox[i].delivery, now)
              && forall j | 0 <= j < m && j != i && Eligible(outbox[j].delivery, now) :: Precedes(outbox, i, j)
  {
    if m > 0 {
      FirstEligibleIsFirst(outbox, now, m - 1);
    }
  }

  // ---------- exclusive leases ----------

  /** Call number m of the run is a claim that returned event id. */
  ghost predicate ClaimsEvent(calls: seq<Call>, m: nat, id: nat)
    requires m < |calls|
  {
    && calls[m].ClaimCall?
    && var r := Claim(Run(calls[..m]), calls[m].owner, calls[m].now, calls[m].lease).1;
       r.Ok? && r.value.Some? && r.value.value.event.id == id
  }

  /** The owner gave the event up: a release or a failure of it that succeeded. */
  predicate GivesUp(l: Ledger, call: Call, id: nat) {
    || (call.ReleaseCall? && call.id == id && ReleaseClaim(l, id, call.owner, call.error).1.Ok?)
    || (call.FailCall? && call.id == id
        && FailClaim(l, id, call.owner, call.error, call.now, call.next, call.maxAttempts).1.Ok?)
  }

  /** Acknowledged, or leased at least until the given time. */
  predicate HeldUntil(l: Ledger, id: nat, until: nat) {
    HasRow(l, id)
    && var d := RowAt(l, id).delivery;
       d.acknowledged || (!d.dead && d.leaseUntil.Some? && until <= d.leaseUntil.value)
  }

  lemma HeldKept(l: Ledger, call: Call, id: nat, until: nat)
    requires LeasesSane(l) && HeldUntil(l, id, until) && !GivesUp(l, call, id)
    ensures HeldUntil(Next(l, call), id, until)
  {
    var l' := Next(l, call);
    assert LeaseSane(l.outbox[id - 1].delivery);
    if IsDelivery(call) {
      if call.ClaimCall? {
        FirstEligibleIsFirst(l.outbox, call.now, |l.outbox|);
      }
    } else {
      DepositCallRows(l, call);
      assert l'.outbox[..|l.outbox|][id - 1] == l.outbox[id - 1];
    }
  }

  lemma ClaimHolds(l: Ledger, born: set<Outpoint>, owner: string, now: u64, lease: u64)
    requires Safe(l, born)
    ensures var (l', r) := Claim(l, owner, now, lease);
            r.Ok? && r.value.Some? ==>
              && HasRow(l, r.value.value.event.id)
              && RowAt(l, r.value.value.event.id).event == r.value.value.event
              && Eligible(RowAt(l, r.value.value.event.id).delivery, now)
              && HeldUntil(l', r.value.value.event.id, now + lease)
              && Owned(l', r.value.value.event.id, owner)
  {
    FirstEligibleIsFirst(l.outbox, now, |l.outbox|);
    var r := Claim(l, owner, now, lease).1;
    if r.Ok? && r.value.Some? {
      var i := FirstEligible(l.outbox, now, |l.outbox|).value;
      assert l.outbox[i].event.id == i + 1;
    }
  }

  lemma HeldAtClaim(calls: seq<Call>, i: nat, id: nat)
    requires i < |calls| && ClaimsEvent(calls, i, id)
    ensures HeldUntil(Run(calls[..i + 1]), id, calls[i].now + calls[i].lease)
  {
    assert calls[..i + 1][..i] == calls[..i];
    RunSafe(calls[..i]);
    ClaimHolds(Run(calls[..i]), RunBorn(calls[..i]), calls[i].owner, calls[i].now, calls[i].lease);
  }

  lemma HeldStep(calls: seq<Call>, m: nat, id: nat, until: nat)
    requires m < |calls| && HeldUntil(Run(calls[..m]), id, until) && !GivesUp(Run(calls[..m]), calls[m], id)
    ensures HeldUntil(Run(calls[..m + 1]), id, until)
  {
    assert calls[..m + 1][..m] == calls[..m];
    RunLeasesSane(calls[..m]);
    HeldKept(Run(calls[..m]), calls[m], id, until);
  }

  lemma {:induction false} HeldSince(calls: seq<Call>, i: nat, m: nat, id: nat)
    requires i < m <= |calls| && ClaimsEvent(calls, i, id)
    requires forall n | i < n < m :: !GivesUp(Run(calls[..n]), calls[n], id)
    ensures HeldUntil(Run(calls[..m]), id, calls[i].now + calls[i].lease)
    decreases m
  {
    if m == i + 1 {
      HeldAtClaim(calls, i, id);
    } else {
      HeldSince(calls, i, m - 1, id);
      HeldStep(calls, m - 1, id, calls[i].now + calls[i].lease);
    }
  }

  /**
   Two claims of one event, with no release or failure by its owner in between, have disjoint
   lease intervals: the second begins when the first has run out, even if clocks jump.
   */
  lemma LeasesDisjoint(calls: seq<Call>, i: nat, j: nat, id: nat)
    requires i < j < |calls| && ClaimsEvent(calls, i, id) && ClaimsEvent(calls, j, id)
    requires forall n | i < n < j :: !GivesUp(Run(calls[..n]), calls[n], id)
    ensures calls[i].now + calls[i].lease <= calls[j].now
  {
    HeldSince(calls, i, j, id);
    RunSafe(calls[..j]);
    ClaimHolds(Run(calls[..j]), RunBorn(calls[..j]), calls[j].owner, calls[j].now, calls[j].lease);
  }

  predicate AcknowledgedIn(l: Ledger, id: nat) {
    HasRow(l, id) && RowAt(l, id).delivery.acknowledged
  }

  lemma AcknowledgedKept(l: Ledger, call: Call, id: nat)
    requires AcknowledgedIn(l, id)
    ensures AcknowledgedIn(Next(l, call), id)
  {
    if call.ClaimCall? {
      FirstEligibleIsFirst(l.outbox, call.now, |l.outbox|);
    } else if !IsDelivery(call) {
      DepositCallRows(l, call);
      assert Next(l, call).outbox[..|l.outbox|][id - 1] == l.outbox[id - 1];
    }
  }

  lemma {:induction false} AcknowledgedStays(calls: seq<Call>, m: nat, j: nat, id: nat)
    requires m <= j <= |calls| && AcknowledgedIn(Run(calls[..m]), id)
    ensures AcknowledgedIn(Run(calls[..j]), id)
    decreases j
  {
    if m < j {
      AcknowledgedStays(calls, m, j - 1, id);
      assert calls[..j][..j - 1] == calls[..j - 1];
      AcknowledgedKept(Run(calls[..j - 1]), calls[j - 1], id);
    }
  }

  /** An acknowledged event is never claimed again. */
  lemma AcknowledgedNeverClaimed(calls: seq<Call>, m: nat, j: nat, id: nat)
    requires m <= j < |calls| && AcknowledgedIn(Run(calls[..m]), id)
    ensures !ClaimsEvent(calls, j, id)
  {
    AcknowledgedStays(calls, m, j, id);
    RunSafe(calls[..j]);
    if calls[j].ClaimCall? {
      ClaimHolds(Run(calls[..j]), RunBorn(calls[..j]), calls[j].owner, calls[j].now, calls[j].lease);
    }
  }
}
