/**
 Retries and dead letters: whose calls may touch a leased event, what the attempt counter
 counts, and what a scheduled retry and a dead letter wait for.
 */
module Retries {
  import opened Basics
  import opened Ledger
  import opened Outbox
  import opened LedgerSafety
  import opened Leases

  // ---------- exclusive leases ----------

  /** A call made in the name of the lease owner. */
  predicate ByOwner(call: Call, id: int, owner: string) {
    match call
    case AcknowledgeClaimCall(i, o) => i == id && o == owner
    case ReleaseCall(i, o, _) => i == id && o == owner
    case FailCall(i, o, _, _, _, _) => i == id && o == owner
    case _ => false
  }

  lemma DepositCallKeepsRow(l: Ledger, call: Call, id: nat)
    requires !IsDelivery(call) && HasRow(l, id)
    ensures HasRow(Next(l, call), id) && RowAt(Next(l, call), id) == RowAt(l, id)
  {
    DepositCallRows(l, call);
    assert Next(l, call).outbox[..|l.outbox|][id - 1] == l.outbox[id - 1];
  }

  /**
   While an event is leased, only calls in its owner's name change its row, or a claim at or
   after the time the lease runs out.
   */
  lemma OnlyOwnerChanges(l: Ledger, call: Call, id: nat)
    requires LeasesSane(l) && HasRow(l, id) && RowAt(l, id).delivery.owner.Some?
    requires !ByOwner(call, id, RowAt(l, id).delivery.owner.value)
    ensures var d := RowAt(l, id).delivery;
            HasRow(Next(l, call), id)
            && (RowAt(Next(l, call), id) == RowAt(l, id) || (call.ClaimCall? && d.leaseUntil.value <= call.now))
  {
    assert LeaseSane(l.outbox[id - 1].delivery);
    if call.ClaimCall? {
      FirstEligibleIsFirst(l.outbox, call.now, |l.outbox|);
    } else if !IsDelivery(call) {
      DepositCallKeepsRow(l, call, id);
    }
  }

  /** A lease ends exactly when it says: from then on, and not before, the event can be claimed again. */
  lemma LeaseEnds(l: Ledger, owner: string, now: u64, lease: u64, later: nat)
    requires WellFormedEvents(l.outbox)
    requires Claim(l, owner, now, lease).1.Ok? && Claim(l, owner, now, lease).1.value.Some?
    ensures var (l', r) := Claim(l, owner, now, lease);
            && HasRow(l', r.value.value.event.id)
            && (later >= now ==>
                  (Eligible(RowAt(l', r.value.value.event.id).delivery, later) <==> later >= now + lease))
  {
    FirstEligibleIsFirst(l.outbox, now, |l.outbox|);
    var i := FirstEligible(l.outbox, now, |l.outbox|).value;
    assert l.outbox[i].event.id == i + 1;
  }

  /**
   By id an event is acknowledged exactly when it is there, unacknowledged and not leased: the
   call reports an event that is not acknowledged as missing exactly when a worker leases it.
   */
  lemma AcknowledgeRefused(calls: seq<Call>, id: nat)
    requires HasRow(Run(calls), id)
    ensures var d := RowAt(Run(calls), id).delivery;
            && (AcknowledgeEvent(Run(calls), id).1.Err? && !d.acknowledged <==> d.owner.Some?)
            && (d.owner.Some? <==> d.leaseUntil.Some?)
  {
    RunLeasesSane(calls);
    assert LeaseSane(Run(calls).outbox[id - 1].delivery);
  }

  // ---------- attempts ----------

  /** The call leases event id, whatever it then returns. */
  predicate Takes(l: Ledger, call: Call, id: int) {
    && call.ClaimCall? && ValidOwner(call.owner) && ValidLease(call.lease)
    && Fits(call.now) && Fits(call.now + call.lease)
    && FirstEligible(l.outbox, call.now, |l.outbox|).Some?
    && FirstEligible(l.outbox, call.now, |l.outbox|).value == id - 1
  }

  predicate Requeues(l: Ledger, call: Call, id: int) {
    call.RequeueCall? && call.id == id && RequeueDeadLetter(l, id, call.now).1.Ok?
  }

  /** How often the event was leased since it was enqueued or last requeued. */
  function LeasesTaken(calls: seq<Call>, id: int): nat {
    if calls == [] then 0 else
    var n := |calls| - 1;
    var l := Run(calls[..n]);
    if Requeues(l, calls[n], id) then 0
    else LeasesTaken(calls[..n], id) + (if Takes(l, calls[n], id) then 1 else 0)
  }

  lemma AttemptsStep(l: Ledger, call: Call, id: nat)
    requires HasRow(l, id)
    ensures HasRow(Next(l, call), id)
    ensures RowAt(Next(l, call), id).delivery.attempts
            == if Requeues(l, call, id) then 0
               else RowAt(l, id).delivery.attempts + (if Takes(l, call, id) then 1 else 0)
  {
    if !IsDelivery(call) {
      DepositCallKeepsRow(l, call, id);
    }
  }

  lemma NotYetTaken(l: Ledger, call: Call, id: nat)
    requires !HasRow(l, id)
    ensures !Takes(l, call, id) && !Requeues(l, call, id)
    ensures HasRow(Next(l, call), id) ==> RowAt(Next(l, call), id).delivery == FRESH_DELIVERY
  {
    if !IsDelivery(call) {
      DepositCallRows(l, call);
    }
  }

  lemma {:induction false} NeverTaken(calls: seq<Call>, id: nat)
    requires !HasRow(Run(calls), id)
    ensures LeasesTaken(calls, id) == 0
    decreases |calls|
  {
    if calls != [] {
      var n := |calls| - 1;
      if HasRow(Run(calls[..n]), id) {
        AttemptsStep(Run(calls[..n]), calls[n], id);
      } else {
        NeverTaken(calls[..n], id);
        NotYetTaken(Run(calls[..n]), calls[n], id);
      }
    }
  }

  /** In every run the attempt counter is the number of leases since the last requeue. */
  lemma {:induction false} AttemptsCountLeases(calls: seq<Call>, id: nat)
    requires HasRow(Run(calls), id)
    ensures RowAt(Run(calls), id).delivery.attempts == LeasesTaken(calls, id)
    decreases |calls|
  {
    if calls != [] {
      var n := |calls| - 1;
      if HasRow(Run(calls[..n]), id) {
        AttemptsCountLeases(calls[..n], id);
        AttemptsStep(Run(calls[..n]), calls[n], id);
      } else {
        NeverTaken(calls[..n], id);
        NotYetTaken(Run(calls[..n]), calls[n], id);
      }
    }
  }

  /**
   A reported failure dead-letters the event exactly when it has been leased as often as the
   limit allows, and otherwise makes it wait for the given time; either way the lease is free.
   */
  lemma FailureOutcomes(calls: seq<Call>, id: nat, owner: string, error: string, now: u64, next: u64, max: u32)
    requires FailClaim(Run(calls), id, owner, error, now, next, max).1.Ok?
    ensures var (l', r) := FailClaim(Run(calls), id, owner, error, now, next, max);
            var taken := LeasesTaken(calls, id);
            && HasRow(l', id) && taken < U32_LIMIT
            && r.value == (if taken >= max then DeadLettered(taken) else RetryScheduled(taken, next))
            && RowAt(l', id).delivery.dead == (taken >= max)
            && RowAt(l', id).delivery.owner == None
            && (taken < max ==> RowAt(l', id).delivery.nextAttempt == next > now)
  {
    AttemptsCountLeases(calls, id);
    RunLeasesSane(calls);
    assert LeaseSane(Run(calls).outbox[id - 1].delivery);
  }

  // ---------- waiting ----------

  predicate DeadIn(l: Ledger, id: nat) {
    HasRow(l, id) && RowAt(l, id).delivery.dead
  }

  lemma DeadKept(l: Ledger, call: Call, id: nat)
    requires DeadIn(l, id) && !Requeues(l, call, id)
    ensures DeadIn(Next(l, call), id) && !Takes(l, call, id)
  {
    if call.ClaimCall? {
      FirstEligibleIsFirst(l.outbox, call.now, |l.outbox|);
    } else if !IsDelivery(call) {
      DepositCallKeepsRow(l, call, id);
    }
  }

  /** A dead letter is never leased again until an operator requeues it. */
  lemma {:induction false} DeadStays(calls: seq<Call>, m: nat, j: nat, id: nat)
    requires m <= j <= |calls| && DeadIn(Run(calls[..m]), id)
    requires forall n | m <= n < j :: !Requeues(Run(calls[..n]), calls[n], id)
    ensures DeadIn(Run(calls[..j]), id) && (j < |calls| ==> !Takes(Run(calls[..j]), calls[j], id))
    decreases j
  {
    if m < j {
      DeadStays(calls, m, j - 1, id);
      DeadOneMore(calls, j - 1, id);
    }
    if j < |calls| {
      DeadNotTaken(Run(calls[..j]), calls[j], id);
    }
  }

  lemma DeadOneMore(calls: seq<Call>, n: nat, id: nat)
    requires n < |calls| && DeadIn(Run(calls[..n]), id) && !Requeues(Run(calls[..n]), calls[n], id)
    ensures DeadIn(Run(calls[..n + 1]), id)
  {
    assert calls[..n + 1][..n] == calls[..n];
    DeadKept(Run(calls[..n]), calls[n], id);
  }

  lemma DeadNotTaken(l: Ledger, call: Call, id: nat)
    requires DeadIn(l, id)
    ensures !Takes(l, call, id)
  {
    if call.ClaimCall? {
      FirstEligibleIsFirst(l.outbox, call.now, |l.outbox|);
    }
  }

  predicate WaitsUntil(l: Ledger, id: nat, until: nat) {
    HasRow(l, id) && RowAt(l, id).delivery.nextAttempt == until
  }

  /** The call reschedules the event: a failure of it, or a requeue. */
  predicate Reschedules(l: Ledger, call: Call, id: nat) {
    Requeues(l, call, id)
    || (call.FailCall? && call.id == id
        && FailClaim(l, id, call.owner, call.error, call.now, call.next, call.maxAttempts).1.Ok?)
  }

  lemma WaitKept(l: Ledger, call: Call, id: nat, until: nat)
    requires WaitsUntil(l, id, until) && !Reschedules(l, call, id)
    ensures WaitsUntil(Next(l, call), id, until)
  {
    if !IsDelivery(call) {
      DepositCallKeepsRow(l, call, id);
    }
  }

  lemma TakenWhenDue(l: Ledger, call: Call, id: nat)
    ensures Takes(l, call, id) ==> HasRow(l, id) && RowAt(l, id).delivery.nextAttempt <= call.now
  {
    if call.ClaimCall? {
      FirstEligibleIsFirst(l.outbox, call.now, |l.outbox|);
    }
  }

  lemma WaitStep(calls: seq<Call>, n: nat, id: nat, until: nat)
    requires n < |calls| && WaitsUntil(Run(calls[..n]), id, until) && !Reschedules(Run(calls[..n]), calls[n], id)
    ensures WaitsUntil(Run(calls[..n + 1]), id, until)
  {
    assert calls[..n + 1][..n] == calls[..n];
    WaitKept(Run(calls[..n]), calls[n], id, until);
  }

  lemma {:induction false} WaitGoesOn(calls: seq<Call>, m: nat, j: nat, id: nat, until: nat)
    requires m <= j <= |calls| && WaitsUntil(Run(calls[..m]), id, until)
    requires forall n | m <= n < j :: !Reschedules(Run(calls[..n]), calls[n], id)
    ensures WaitsUntil(Run(calls[..j]), id, until)
    decreases j
  {
    if m < j {
      WaitGoesOn(calls, m, j - 1, id, until);
      WaitStep(calls, j - 1, id, until);
    }
  }

  /** A scheduled retry is not leased before its time, whatever else happens, unless rescheduled. */
  lemma RetryWaits(calls: seq<Call>, m: nat, j: nat, id: nat, until: nat)
    requires m <= j < |calls| && WaitsUntil(Run(calls[..m]), id, until)
    requires forall n | m <= n < j :: !Reschedules(Run(calls[..n]), calls[n], id)
    ensures Takes(Run(calls[..j]), calls[j], id) ==> calls[j].now >= until
    ensures WaitsUntil(Run(calls[..j]), id, until)
  {
    WaitGoesOn(calls, m, j, id, until);
    TakenWhenDue(Run(calls[..j]), calls[j], id);
  }
}
