/**
 The store of src/deposit_ledger.rs as an object: each method is one transaction, specified by
 the corresponding function on ledger values.
 */
module LedgerStore {
  import opened Basics
  import opened Ledger
  import opened Outbox

  class DepositLedger {
    var deposits: map<Outpoint, Deposit>
    var legacy: set<Outpoint>
    var outbox: seq<Row>

    function Tables(): Ledger
      reads this
    {
      Ledger(deposits, legacy, outbox)
    }

    ghost predicate Valid()
      reads this
    {
      AmountsFit(Tables())
    }

    constructor ()
      ensures Tables() == EMPTY && Valid()
    {
      deposits, legacy, outbox := map[], {}, [];
    }

    method ImportLegacyCredit(op: Outpoint)
      modifies this
      ensures Tables() == ImportLegacy(old(Tables()), op)
    {
      legacy := legacy + {op};
    }

    /** insert_outbox: an event whose key is there already is ignored. */
    method Enqueue(kind: Kind, op: Outpoint, amount: u64, address: string) returns (r: Result<(), Error>)
      modifies this`outbox
      ensures Mirrors(r, old(Tables()), InsertOutbox(old(Tables()), kind, op, amount, address))
    {
      var key := EventKey(kind, op);
      if !Fits(amount) {
        return Err(OutOfRange);
      }
      if HasKey(outbox, key) {
        return Ok(());
      }
      var event := Event(|outbox| + 1, key, kind, op, amount, address);
      outbox := outbox + [Row(event, FRESH_DELIVERY)];
      r := Ok(());
    }

    /** On success the tables are the resulting ledger; a failure is reported, tables untouched. */
    ghost predicate Mirrors(r: Result<(), Error>, before: Ledger, done: Result<Ledger, Error>)
      reads this
    {
      && Tables() == Committed(before, done)
      && r == if done.Ok? then Ok(()) else Err(done.error)
    }

    method ObserveOne(daa: u64, item: Appearance) returns (r: Result<(), Error>)
      modifies this`deposits
      ensures Mirrors(r, old(Tables()), Observe(old(Tables()), daa, item))
    {
      if !Fits(item.facts.amount) || !Fits(item.facts.blockDaa) {
        return Err(OutOfRange);
      }
      if item.op in deposits {
        var row := deposits[item.op];
        if row.facts != item.facts {
          return Err(FactsChanged(item.op));
        }
        deposits := deposits[item.op := row.(lastSeen := daa)];
      } else {
        var credited := item.op in legacy;
        var row := Deposit(item.facts, if credited then Credited else Pending, daa, daa,
                           if credited then Some(daa) else None, None, None);
        deposits := deposits[item.op := row];
      }
      r := Ok(());
    }

    method ConfirmOne(daa: u64, item: Confirmation) returns (r: Result<(), Error>)
      requires Valid()
      modifies this`deposits, this`outbox
      ensures Mirrors(r, old(Tables()), Confirm(old(Tables()), daa, item)) && Valid()
    {
      if item.op !in deposits {
        return Err(NeverObserved(item.op));
      }
      var row := deposits[item.op];
      if row.facts.address != item.facts.address {
        return Err(ConfirmationChanged(item.op));
      }
      if !Fits(item.facts.amount) {
        return Err(OutOfRange);
      }
      if row.facts.amount != item.facts.amount {
        return Err(ConfirmationChanged(item.op));
      }
      if !Fits(item.facts.blockDaa) {
        return Err(OutOfRange);
      }
      if row.facts.blockDaa != item.facts.blockDaa || row.facts.coinbase != item.facts.coinbase {
        return Err(ConfirmationChanged(item.op));
      }
      if row.state == Pending {
        deposits := deposits[item.op := row.(state := Credited, creditedDaa := Some(daa))];
        r := Enqueue(Credit, item.op, row.facts.amount, row.facts.address);
      } else {
        r := Ok(());
      }
    }

    method DisappearOne(daa: u64, op: Outpoint) returns (r: Result<(), Error>)
      requires Valid()
      modifies this`deposits, this`outbox
      ensures Mirrors(r, old(Tables()), Disappear(old(Tables()), daa, op)) && Valid()
    {
      if op !in deposits || deposits[op].state != Pending {
        return Ok(());
      }
      var row := deposits[op];
      deposits := deposits[op := row.(state := Reversed, reversedDaa := Some(daa), reason := Some(GONE))];
      r := Enqueue(Reverse, op, row.facts.amount, row.facts.address);
    }

    method ObserveEach(daa: u64, items: seq<Appearance>) returns (r: Result<(), Error>)
      requires Valid()
      modifies this`deposits
      ensures var done := ObserveAll(old(Tables()), daa, items);
              && r == (if done.Ok? then Ok(()) else Err(done.error))
              && (r.Ok? ==> done == Ok(Tables()) && Valid())
    {
      r := Ok(());
      ghost var before := Tables();
      for n := 0 to |items|
        invariant r == Ok(()) && Valid() && ObserveAll(before, daa, items[..n]) == Ok(Tables())
      {
        assert items[..n + 1][..n] == items[..n];
        r := ObserveOne(daa, items[n]);
        if r.Err? {
          ObserveStops(before, daa, items, n + 1);
          return;
        }
      }
      assert items[..|items|] == items;
    }

    method ConfirmEach(daa: u64, items: seq<Confirmation>) returns (r: Result<(), Error>)
      requires Valid()
      modifies this`deposits, this`outbox
      ensures var done := ConfirmAll(old(Tables()), daa, items);
              && r == (if done.Ok? then Ok(()) else Err(done.error))
              && (r.Ok? ==> done == Ok(Tables()) && Valid())
    {
      r := Ok(());
      ghost var before := Tables();
      for n := 0 to |items|
        invariant r == Ok(()) && Valid() && ConfirmAll(before, daa, items[..n]) == Ok(Tables())
      {
        assert items[..n + 1][..n] == items[..n];
        r := ConfirmOne(daa, items[n]);
        if r.Err? {
          ConfirmStops(before, daa, items, n + 1);
          return;
        }
      }
      assert items[..|items|] == items;
    }

    method DisappearEach(daa: u64, ops: seq<Outpoint>) returns (r: Result<(), Error>)
      requires Valid()
      modifies this`deposits, this`outbox
      ensures var done := DisappearAll(old(Tables()), daa, ops);
              && r == (if done.Ok? then Ok(()) else Err(done.error))
              && (r.Ok? ==> done == Ok(Tables()) && Valid())
    {
      r := Ok(());
      ghost var before := Tables();
      for n := 0 to |ops|
        invariant r == Ok(()) && Valid() && DisappearAll(before, daa, ops[..n]) == Ok(Tables())
      {
        assert ops[..n + 1][..n] == ops[..n];
        r := DisappearOne(daa, ops[n]);
        if r.Err? {
          DisappearStops(before, daa, ops, n + 1);
          return;
        }
      }
      assert ops[..|ops|] == ops;
    }

    /** One transaction around the three loops: any failure puts the tables back. */
    method Reconcile(daa: u64, observed: seq<Appearance>, confirmed: seq<Confirmation>, disappeared: seq<Outpoint>)
      returns (r: Result<(), Error>)
      requires Valid()
      modifies this`deposits, this`outbox
      ensures Mirrors(r, old(Tables()), Reconciled(old(Tables()), daa, observed, confirmed, disappeared))
      ensures Valid()
    {
      if !Fits(daa) {
        return Err(OutOfRange);
      }
      var savedDeposits, savedOutbox := deposits, outbox;
      r := ObserveEach(daa, observed);
      if r.Ok? {
        r := ConfirmEach(daa, confirmed);
      }
      if r.Ok? {
        r := DisappearEach(daa, disappeared);
      }
      if r.Err? {
        deposits, outbox := savedDeposits, savedOutbox;
      }
    }

    method ReverseCreditedOnReorg(daa: u64, op: Outpoint, evidence: string) returns (r: Result<(), Error>)
      requires Valid()
      modifies this`deposits, this`outbox
      ensures Mirrors(r, old(Tables()), ReverseOnReorg(old(Tables()), daa, op, evidence)) && Valid()
    {
      var why := Trim(evidence);
      if why == [] {
        return Err(NoEvidence);
      }
      if !Fits(daa) {
        return Err(OutOfRange);
      }
      if op !in deposits {
        return Err(UnknownOutpoint(op));
      }
      var row := deposits[op];
      if row.state == Reversed {
        return Ok(());
      }
      if row.state != Credited {
        return Err(NotCredited(row.state));
      }
      deposits := deposits[op := row.(state := Reversed, reversedDaa := Some(daa), reason := Some(why))];
      r := Enqueue(Reverse, op, row.facts.amount, row.facts.address);
    }

    method AcknowledgeById(id: int) returns (r: Result<(), Error>)
      modifies this
      ensures (Tables(), r) == AcknowledgeEvent(old(Tables()), id)
    {
      if !(1 <= id <= |outbox|) {
        return Err(NotAcknowledgeable(id));
      }
      var d := outbox[id - 1].delivery;
      if d.acknowledged || d.owner.Some? {
        return Err(NotAcknowledgeable(id));
      }
      outbox := outbox[id - 1 := outbox[id - 1].(delivery := Settled(d))];
      r := Ok(());
    }

    method ClaimNextDelivery(owner: string, now: u64, lease: u64) returns (r: Result<Option<Claimed>, Error>)
      modifies this
      ensures (Tables(), r) == Claim(old(Tables()), owner, now, lease)
    {
      if !ValidOwner(owner) {
        return Err(BadOwner);
      }
      if !ValidLease(lease) {
        return Err(BadLease);
      }
      if !Fits(now) || !Fits(now + lease) {
        return Err(OutOfRange);
      }
      var best := SelectNext(now);
      if best.None? {
        return Ok(None);
      }
      var i := best.value;
      var d := Leased(outbox[i].delivery, owner, now + lease);
      outbox := outbox[i := outbox[i].(delivery := d)];
      if d.attempts >= U32_LIMIT {
        return Err(AttemptsOverflow);
      }
      r := Ok(Some(Claimed(outbox[i].event, d.attempts)));
    }

    /** The claim query: the first eligible row in (next attempt, id) order. */
    method SelectNext(now: nat) returns (best: Option<nat>)
      ensures best == FirstEligible(outbox, now, |outbox|)
    {
      best := None;
      for m := 0 to |outbox|
        invariant best == FirstEligible(outbox, now, m)
      {
        var d := outbox[m].delivery;
        if Eligible(d, now) && (best.None? || d.nextAttempt < outbox[best.value].delivery.nextAttempt) {
          best := Some(m);
        }
      }
    }

    method AcknowledgeOwned(id: int, owner: string) returns (r: Result<(), Error>)
      modifies this
      ensures (Tables(), r) == AcknowledgeClaim(old(Tables()), id, owner)
    {
      if !ValidOwner(owner) {
        return Err(BadOwner);
      }
      if !Owned(Ledger(deposits, legacy, outbox), id, owner) {
        return Err(NotOwned(id));
      }
      outbox := outbox[id - 1 := outbox[id - 1].(delivery := Settled(outbox[id - 1].delivery))];
      r := Ok(());
    }

    method Release(id: int, owner: string, error: string) returns (r: Result<(), Error>)
      modifies this
      ensures (Tables(), r) == ReleaseClaim(old(Tables()), id, owner, error)
    {
      if !ValidOwner(owner) {
        return Err(BadOwner);
      }
      if !ValidDeliveryError(error) {
        return Err(BadDeliveryError);
      }
      if !Owned(Ledger(deposits, legacy, outbox), id, owner) {
        return Err(NotOwned(id));
      }
      var d := outbox[id - 1].delivery.(owner := None, leaseUntil := None, lastError := Some(Trim(error)));
      outbox := outbox[id - 1 := outbox[id - 1].(delivery := d)];
      r := Ok(());
    }

    method Fail(id: int, owner: string, error: string, now: u64, next: u64, maxAttempts: u32)
      returns (r: Result<FailureOutcome, Error>)
      modifies this
      ensures (Tables(), r) == FailClaim(old(Tables()), id, owner, error, now, next, maxAttempts)
    {
      if !ValidOwner(owner) {
        return Err(BadOwner);
      }
      if !ValidDeliveryError(error) {
        return Err(BadDeliveryError);
      }
      if !(1 <= maxAttempts <= 100) {
        return Err(BadMaxAttempts);
      }
      if next <= now {
        return Err(RetryNotLater);
      }
      if !Fits(now) || !Fits(next) {
        return Err(OutOfRange);
      }
      if !Owned(Ledger(deposits, legacy, outbox), id, owner) {
        return Err(NotOwned(id));
      }
      var row := outbox[id - 1];
      var d := row.delivery;
      if d.attempts >= U32_LIMIT {
        return Err(AttemptsOverflow);
      }
      d := d.(owner := None, leaseUntil := None, lastError := Some(Trim(error)));
      if d.attempts >= maxAttempts {
        d := d.(nextAttempt := 0, dead := true, deadAt := Some(now));
        r := Ok(DeadLettered(d.attempts));
      } else {
        d := d.(nextAttempt := next);
        r := Ok(RetryScheduled(d.attempts, next));
      }
      outbox := outbox[id - 1 := row.(delivery := d)];
    }

    method Requeue(id: int, now: u64) returns (r: Result<(), Error>)
      modifies this
      ensures (Tables(), r) == RequeueDeadLetter(old(Tables()), id, now)
    {
      if !Fits(now) {
        return Err(OutOfRange);
      }
      if !(1 <= id <= |outbox|) || outbox[id - 1].delivery.acknowledged || !outbox[id - 1].delivery.dead {
        return Err(NotDeadLetter(id));
      }
      var d := outbox[id - 1].delivery.(dead := false, deadAt := None, attempts := 0, nextAttempt := now,
                                        lastError := None, owner := None, leaseUntil := None);
      outbox := outbox[id - 1 := outbox[id - 1].(delivery := d)];
      r := Ok(());
    }
  }

  /** Once an item fails, the whole pass reports that failure. */
  lemma {:induction false} ObserveStops(l: Ledger, daa: u64, items: seq<Appearance>, n: nat)
    requires n <= |items| && ObserveAll(l, daa, items[..n]).Err?
    ensures ObserveAll(l, daa, items) == ObserveAll(l, daa, items[..n])
    decreases |items|
  {
    if n == |items| {
      assert items[..n] == items;
    } else {
      assert items[..|items| - 1][..n] == items[..n];
      ObserveStops(l, daa, items[..|items| - 1], n);
    }
  }

  lemma {:induction false} ConfirmStops(l: Ledger, daa: u64, items: seq<Confirmation>, n: nat)
    requires n <= |items| && ConfirmAll(l, daa, items[..n]).Err?
    ensures ConfirmAll(l, daa, items) == ConfirmAll(l, daa, items[..n])
    decreases |items|
  {
    if n == |items| {
      assert items[..n] == items;
    } else {
      assert items[..|items| - 1][..n] == items[..n];
      ConfirmStops(l, daa, items[..|items| - 1], n);
    }
  }

  lemma {:induction false} DisappearStops(l: Ledger, daa: u64, ops: seq<Outpoint>, n: nat)
    requires n <= |ops| && DisappearAll(l, daa, ops[..n]).Err?
    ensures DisappearAll(l, daa, ops) == DisappearAll(l, daa, ops[..n])
    decreases |ops|
  {
    if n == |ops| {
      assert ops[..n] == ops;
    } else {
      assert ops[..|ops| - 1][..n] == ops[..n];
      DisappearStops(l, daa, ops[..|ops| - 1], n);
    }
  }
}
