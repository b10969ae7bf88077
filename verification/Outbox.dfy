/**
 The delivery side of src/deposit_ledger.rs: the leased outbox with retries and dead letters.
 */
module Outbox {
  import opened Basics
  import opened Ledger

  // ---------- argument checks ----------

  predicate ValidOwner(owner: string) {
    Trim(owner) != [] && |owner| <= 128
  }

  predicate ValidDeliveryError(error: string) {
    1 <= |Trim(error)| <= 1024
  }

  predicate ValidLease(lease: nat) {
    1 <= lease <= 3600
  }

  // ---------- rows ----------

  predicate HasRow(l: Ledger, id: int) {
    1 <= id <= |l.outbox|
  }

  function RowAt(l: Ledger, id: int): Row
    requires HasRow(l, id)
  {
    l.outbox[id - 1]
  }

  function WithDelivery(l: Ledger, id: int, d: Delivery): Ledger
    requires HasRow(l, id)
  {
    l.(outbox := l.outbox[id - 1 := l.outbox[id - 1].(delivery := d)])
  }

  predicate Owned(l: Ledger, id: int, owner: string) {
    HasRow(l, id) && !RowAt(l, id).delivery.acknowledged && RowAt(l, id).delivery.owner == Some(owner)
  }

  // ---------- claiming ----------

  predicate Eligible(d: Delivery, now: nat) {
    && !d.acknowledged
    && !d.dead
    && d.nextAttempt <= now
    && (d.leaseUntil.None? || d.leaseUntil.value <= now)
  }

  /** The first eligible row among the first m by next attempt time, then by id. */
  function FirstEligible(outbox: seq<Row>, now: nat, m: nat): Option<nat>
    requires m <= |outbox|
    ensures FirstEligible(outbox, now, m).Some? ==>
              FirstEligible(outbox, now, m).value < m
  {
    if m == 0 then None else
    var best := FirstEligible(outbox, now, m - 1);
    var d := outbox[m - 1].delivery;
    if Eligible(d, now) && (best.None? || d.nextAttempt < outbox[best.value].delivery.nextAttempt)
    then Some(m - 1) else best
  }

  datatype Claimed = Claimed(event: Event, attempts: u32)

  function Leased(d: Delivery, owner: string, until: nat): Delivery {
    d.(owner := Some(owner), leaseUntil := Some(until), attempts := d.attempts + 1)
  }

  function Claim(l: Ledger, owner: string, now: u64, lease: u64): (Ledger, Result<Option<Claimed>, Error>) {
    if !ValidOwner(owner) then (l, Err(BadOwner))
    else if !ValidLease(lease) then (l, Err(BadLease))
    else if !Fits(now) then (l, Err(OutOfRange))
    else if !Fits(now + lease) then (l, Err(OutOfRange))
    else
      match FirstEligible(l.outbox, now, |l.outbox|)
      case None => (l, Ok(None))
      case Some(i) =>
        var d := Leased(l.outbox[i].delivery, owner, now + lease);
        var l' := WithDelivery(l, i + 1, d);
        if d.attempts >= U32_LIMIT then (l', Err(AttemptsOverflow))
        else (l', Ok(Some(Claimed(l.outbox[i].event, d.attempts))))
  }

  // ---------- settling ----------

  function Settled(d: Delivery): Delivery {
    d.(acknowledged := true, owner := None, leaseUntil := None, lastError := None)
  }

  function AcknowledgeEvent(l: Ledger, id: int): (Ledger, Result<(), Error>) {
    if HasRow(l, id) && !RowAt(l, id).delivery.acknowledged && RowAt(l, id).delivery.owner.None?
    then (WithDelivery(l, id, Settled(RowAt(l, id).delivery)), Ok(()))
    else (l, Err(NotAcknowledgeable(id)))
  }

  function AcknowledgeClaim(l: Ledger, id: int, owner: string): (Ledger, Result<(), Error>) {
    if !ValidOwner(owner) then (l, Err(BadOwner))
    else if Owned(l, id, owner) then (WithDelivery(l, id, Settled(RowAt(l, id).delivery)), Ok(()))
    else (l, Err(NotOwned(id)))
  }

  function ReleaseClaim(l: Ledger, id: int, owner: string, error: string): (Ledger, Result<(), Error>) {
    if !ValidOwner(owner) then (l, Err(BadOwner))
    else if !ValidDeliveryError(error) then (l, Err(BadDeliveryError))
    else if Owned(l, id, owner) then
      var d := RowAt(l, id).delivery.(owner := None, leaseUntil := None, lastError := Some(Trim(error)));
      (WithDelivery(l, id, d), Ok(()))
    else (l, Err(NotOwned(id)))
  }

  datatype FailureOutcome =
    | RetryScheduled(attempts: u32, nextAttempt: u64)
    | DeadLettered(attempts: u32)

  function FailClaim(l: Ledger, id: int, owner: string, error: string, now: u64, next: u64, maxAttempts: u32)
    : (Ledger, Result<FailureOutcome, Error>)
  {
    if !ValidOwner(owner) then (l, Err(BadOwner))
    else if !ValidDeliveryError(error) then (l, Err(BadDeliveryError))
    else if !(1 <= maxAttempts <= 100) then (l, Err(BadMaxAttempts))
    else if next <= now then (l, Err(RetryNotLater))
    else if !Fits(now) || !Fits(next) then (l, Err(OutOfRange))
    else if !Owned(l, id, owner) then (l, Err(NotOwned(id)))
    else
      var d := RowAt(l, id).delivery;
      if d.attempts >= U32_LIMIT then (l, Err(AttemptsOverflow))
      else
        var freed := d.(owner := None, leaseUntil := None, lastError := Some(Trim(error)));
        if d.attempts >= maxAttempts then
          (WithDelivery(l, id, freed.(nextAttempt := 0, dead := true, deadAt := Some(now))),
           Ok(DeadLettered(d.attempts)))
        else
          (WithDelivery(l, id, freed.(nextAttempt := next)), Ok(RetryScheduled(d.attempts, next)))
  }

  function RequeueDeadLetter(l: Ledger, id: int, now: u64): (Ledger, Result<(), Error>) {
    if !Fits(now) then (l, Err(OutOfRange))
    else if HasRow(l, id) && !RowAt(l, id).delivery.acknowledged && RowAt(l, id).delivery.dead then
      var d := RowAt(l, id).delivery.(dead := false, deadAt := None, attempts := 0, nextAttempt := now,
                                      lastError := None, owner := None, leaseUntil := None);
      (WithDelivery(l, id, d), Ok(()))
    else (l, Err(NotDeadLetter(id)))
  }

  // ---------- runs ----------

  datatype Call =
    | ImportLegacyCall(op: Outpoint)
    | ReconcileCall(daa: u64, observed: seq<Appearance>, confirmed: seq<Confirmation>, disappeared: seq<Outpoint>)
    | ReverseCall(daa: u64, op: Outpoint, evidence: string)
    | AcknowledgeEventCall(id: int)
    | ClaimCall(owner: string, now: u64, lease: u64)
    | AcknowledgeClaimCall(id: int, owner: string)
    | ReleaseCall(id: int, owner: string, error: string)
    | FailCall(id: int, owner: string, error: string, now: u64, next: u64, maxAttempts: u32)
    | RequeueCall(id: int, now: u64)

  /** A transaction that fails leaves the ledger as it was. */
  function Committed(l: Ledger, r: Result<Ledger, Error>): Ledger {
    if r.Ok? then r.value else l
  }

  /** The ledger after one call of its interface. */
  function Next(l: Ledger, call: Call): Ledger {
    match call
    case ImportLegacyCall(op) => ImportLegacy(l, op)
    case ReconcileCall(daa, obs, conf, gone) => Committed(l, Reconciled(l, daa, obs, conf, gone))
    case ReverseCall(daa, op, evidence) => Committed(l, ReverseOnReorg(l, daa, op, evidence))
    case AcknowledgeEventCall(id) => AcknowledgeEvent(l, id).0
    case ClaimCall(owner, now, lease) => Claim(l, owner, now, lease).0
    case AcknowledgeClaimCall(id, owner) => AcknowledgeClaim(l, id, owner).0
    case ReleaseCall(id, owner, error) => ReleaseClaim(l, id, owner, error).0
    case FailCall(id, owner, error, now, next, max) => FailClaim(l, id, owner, error, now, next, max).0
    case RequeueCall(id, now) => RequeueDeadLetter(l, id, now).0
  }

  /** A new ledger after a sequence of calls. */
  function Run(calls: seq<Call>): Ledger {
    if calls == [] then EMPTY else Next(Run(calls[..|calls| - 1]), calls[|calls| - 1])
  }

  lemma RunAppend(calls: seq<Call>, call: Call)
    ensures Run(calls + [call]) == Next(Run(calls), call)
  {
    assert (calls + [call])[..|calls|] == calls;
  }
}
