/**
 The delivery calls one by one, in plain terms: which arguments each accepts, which error it
 gives, and what is in the event's row afterwards.
 */
module Calls {
  import opened Basics
  import opened Ledger
  import opened Outbox
  import opened Leases

  // ---------- arguments ----------

  lemma BlankExactly(s: string)
    ensures Trim(s) == [] <==> AllSpace(s)
  {
    var left, right := TrimExactly(s);
    if Trim(s) != [] {
      assert Trim(s)[0] in s;
      SpaceIs(Trim(s)[0]);
    } else {
      assert s == left + right;
    }
  }

  /** Not blank, and at most 128 characters. */
  predicate NamesWorker(owner: string) {
    !AllSpace(owner) && |owner| <= 128
  }

  /** The row of event id before and after, when nothing else changed. */
  ghost predicate OnlyRow(l: Ledger, l': Ledger, id: int, d: Delivery) {
    && HasRow(l, id) && HasRow(l', id)
    && l' == l.(outbox := l.outbox[id - 1 := RowAt(l', id)])
    && RowAt(l', id) == Row(RowAt(l, id).event, d)
  }

  // ---------- claim_next_delivery ----------

  /** The argument errors of a claim, in the order they are checked. */
  lemma ClaimRefused(l: Ledger, owner: string, now: u64, lease: u64)
    ensures var r := Claim(l, owner, now, lease).1;
            && (r == Err(BadOwner) <==> !NamesWorker(owner))
            && (r == Err(BadLease) <==> NamesWorker(owner) && !(1 <= lease <= 3600))
            && (r == Err(OutOfRange)
                <==> NamesWorker(owner) && 1 <= lease <= 3600 && now + lease >= 0x8000_0000_0000_0000)
            && (r in {Err(BadOwner), Err(BadLease), Err(OutOfRange)} ==> Claim(l, owner, now, lease).0 == l)
  {
    BlankExactly(owner);
  }

  /** A claim that returns an event has leased it, and changed nothing else. */
  lemma ClaimLeases(l: Ledger, owner: string, now: u64, lease: u64)
    requires Claim(l, owner, now, lease).1.Ok? && Claim(l, owner, now, lease).1.value.Some?
    ensures exists id ::
              && HasRow(l, id) && Eligible(RowAt(l, id).delivery, now)
              && var d := RowAt(l, id).delivery;
                 && d.attempts + 1 < 0x1_0000_0000
                 && Claim(l, owner, now, lease).1 == Ok(Some(Claimed(RowAt(l, id).event, d.attempts + 1)))
                 && OnlyRow(l, Claim(l, owner, now, lease).0, id,
                            Delivery(false, Some(owner), Some(now + lease), d.attempts + 1, d.lastError, d.nextAttempt,
                                     false, d.deadAt))
  {
    FirstEligibleIsFirst(l.outbox, now, |l.outbox|);
    var id := FirstEligible(l.outbox, now, |l.outbox|).value + 1;
    assert HasRow(l, id) && Eligible(RowAt(l, id).delivery, now);
  }

  /** What makes an event eligible. */
  lemma EligibleExactly(d: Delivery, now: nat)
    requires LeaseSane(d)
    ensures Eligible(d, now)
            <==> !d.acknowledged && !d.dead && now >= d.nextAttempt && (d.owner.Some? ==> now >= d.leaseUntil.value)
  {
  }

  // ---------- acknowledge_event and acknowledge_claim ----------

  /** By id, an event without a lease. */
  lemma AcknowledgeEventLeaves(l: Ledger, id: int)
    ensures var (l', r) := AcknowledgeEvent(l, id);
            && (r.Ok? <==> HasRow(l, id) && !RowAt(l, id).delivery.acknowledged && RowAt(l, id).delivery.owner == None)
            && (r.Err? ==> l' == l && r == Err(NotAcknowledgeable(id)))
            && (r.Ok? ==> var d := RowAt(l, id).delivery;
                          OnlyRow(l, l', id,
                                  Delivery(true, None, None, d.attempts, None, d.nextAttempt, d.dead, d.deadAt)))
  {
  }

  /** By its lease owner. */
  lemma AcknowledgeClaimLeaves(l: Ledger, id: int, owner: string)
    ensures var (l', r) := AcknowledgeClaim(l, id, owner);
            && (r.Ok? <==> && NamesWorker(owner) && HasRow(l, id)
                           && !RowAt(l, id).delivery.acknowledged && RowAt(l, id).delivery.owner == Some(owner))
            && (r.Err? ==> l' == l && r.error == if NamesWorker(owner) then NotOwned(id) else BadOwner)
            && (r.Ok? ==> var d := RowAt(l, id).delivery;
                          OnlyRow(l, l', id,
                                  Delivery(true, None, None, d.attempts, None, d.nextAttempt, d.dead, d.deadAt)))
  {
    BlankExactly(owner);
  }

  // ---------- release_claim and fail_claim ----------

  /** The text, without the white space around it, has between 1 and 1024 characters. */
  predicate Reportable(error: string) {
    !AllSpace(error) && |Trim(error)| <= 1024
  }

  predicate Holds(l: Ledger, id: int, owner: string) {
    HasRow(l, id) && !RowAt(l, id).delivery.acknowledged && RowAt(l, id).delivery.owner == Some(owner)
  }

  lemma ReleaseLeaves(l: Ledger, id: int, owner: string, error: string)
    ensures var (l', r) := ReleaseClaim(l, id, owner, error);
            && (r.Ok? <==> NamesWorker(owner) && Reportable(error) && Holds(l, id, owner))
            && (r.Err? ==> l' == l && r.error == if !NamesWorker(owner) then BadOwner
                                                 else if !Reportable(error) then BadDeliveryError
                                                 else NotOwned(id))
            && (r.Ok? ==> var d := RowAt(l, id).delivery;
                          OnlyRow(l, l', id, Delivery(false, None, None, d.attempts, Some(Trim(error)), d.nextAttempt,
                                                      d.dead, d.deadAt)))
  {
    BlankExactly(owner);
    BlankExactly(error);
  }

  /** The arguments fail_claim accepts; times below 2^63. */
  predicate FailArguments(owner: string, error: string, now: nat, next: nat, maxAttempts: nat) {
    && NamesWorker(owner) && Reportable(error) && 1 <= maxAttempts <= 100
    && now < next < 0x8000_0000_0000_0000
  }

  lemma FailAccepted(l: Ledger, id: int, owner: string, error: string, now: u64, next: u64, maxAttempts: u32)
    ensures var (l', r) := FailClaim(l, id, owner, error, now, next, maxAttempts);
            && (r.Ok? <==> && FailArguments(owner, error, now, next, maxAttempts) && Holds(l, id, owner)
                           && RowAt(l, id).delivery.attempts < 0x1_0000_0000)
            && (r.Err? ==> l' == l && r.error == if !NamesWorker(owner) then BadOwner
                                                 else if !Reportable(error) then BadDeliveryError
                                                 else if !(1 <= maxAttempts <= 100) then BadMaxAttempts
                                                 else if next <= now then RetryNotLater
                                                 else if next >= 0x8000_0000_0000_0000 then OutOfRange
                                                 else if !Holds(l, id, owner) then NotOwned(id)
                                                 else AttemptsOverflow)
  {
    BlankExactly(owner);
    BlankExactly(error);
  }

  lemma FailLeaves(l: Ledger, id: int, owner: string, error: string, now: u64, next: u64, maxAttempts: u32)
    requires FailClaim(l, id, owner, error, now, next, maxAttempts).1.Ok?
    ensures HasRow(l, id)
    ensures var l' := FailClaim(l, id, owner, error, now, next, maxAttempts).0;
            var d := RowAt(l, id).delivery;
            OnlyRow(l, l', id,
                    if d.attempts >= maxAttempts
                    then Delivery(false, None, None, d.attempts, Some(Trim(error)), 0, true, Some(now))
                    else Delivery(false, None, None, d.attempts, Some(Trim(error)), next, d.dead, d.deadAt))
  {
  }

  // ---------- requeue_dead_letter ----------

  /**
   A requeue succeeds exactly on an unacknowledged dead letter. The event can then be claimed
   exactly from the given time on, its next lease counts as the first, and nothing else changes.
   */
  lemma RequeueStartsOver(l: Ledger, id: int, now: u64)
    ensures var (l', r) := RequeueDeadLetter(l, id, now);
            && (r.Ok? <==> && now < 0x8000_0000_0000_0000 && HasRow(l, id)
                           && !RowAt(l, id).delivery.acknowledged && RowAt(l, id).delivery.dead)
            && (r.Err? ==> l' == l && r.error == if now < 0x8000_0000_0000_0000 then NotDeadLetter(id) else OutOfRange)
            && (r.Ok? ==> OnlyRow(l, l', id, Delivery(false, None, None, 0, None, now, false, None))
                          && forall later: nat :: Eligible(RowAt(l', id).delivery, later) <==> now <= later)
  {
  }
}
