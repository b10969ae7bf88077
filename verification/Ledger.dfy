/**
 The deposit side of src/deposit_ledger.rs: deposit rows, legacy credits and the events their
 changes enqueue. Tables are values; a transaction is one function from ledger to ledger
 that hands back the ledger it was given when it fails.
 */
module Ledger {
  import opened Basics
  import opened Text

  // ---------- rows ----------

  datatype Outpoint = Outpoint(txId: string, index: u32)

  datatype Facts = Facts(address: string, amount: u64, blockDaa: u64, coinbase: bool)

  datatype DepositState = Pending | Credited | Reversed

  datatype Deposit = Deposit(
    facts: Facts, state: DepositState, firstSeen: u64, lastSeen: u64,
    creditedDaa: Option<u64>, reversedDaa: Option<u64>, reason: Option<string>)

  datatype Kind = Credit | Reverse

  datatype Event = Event(id: nat, key: string, kind: Kind, op: Outpoint, amount: u64, address: string)

  datatype Delivery = Delivery(
    acknowledged: bool, owner: Option<string>, leaseUntil: Option<nat>, attempts: nat,
    lastError: Option<string>, nextAttempt: nat, dead: bool, deadAt: Option<nat>)

  datatype Row = Row(event: Event, delivery: Delivery)

  /**
   The tables. The outbox row with primary key id stands at position id - 1: keys are handed
   out in order, no row is ever deleted, and no insertion is ever ignored (LedgerSafety).
   */
  datatype Ledger = Ledger(deposits: map<Outpoint, Deposit>, legacy: set<Outpoint>, outbox: seq<Row>)

  datatype Appearance = Appearance(op: Outpoint, facts: Facts, virtualDaa: u64)

  datatype Confirmation = Confirmation(op: Outpoint, facts: Facts, confirmations: u64)

  datatype Error =
    | OutOfRange
    | FactsChanged(op: Outpoint)
    | NeverObserved(op: Outpoint)
    | ConfirmationChanged(op: Outpoint)
    | NoEvidence
    | UnknownOutpoint(op: Outpoint)
    | NotCredited(state: DepositState)
    | BadOwner
    | BadLease
    | BadDeliveryError
    | BadMaxAttempts
    | RetryNotLater
    | AttemptsOverflow
    | NotAcknowledgeable(id: int)
    | NotOwned(id: int)
    | NotDeadLetter(id: int)

  const EMPTY := Ledger(map[], {}, [])

  /** to_i64 succeeds. */
  predicate Fits(v: nat) {
    v <= I64_MAX
  }

  /** SQLite integers are signed 64-bit numbers: no stored amount is larger. */
  ghost predicate AmountsFit(l: Ledger) {
    forall op | op in l.deposits :: Fits(l.deposits[op].facts.amount)
  }

  // ---------- events ----------

  function KindText(kind: Kind): string {
    match kind
    case Credit => "credit"
    case Reverse => "reverse"
  }

  function EventKey(kind: Kind, op: Outpoint): string {
    KindText(kind) + ":" + op.txId + ":" + Dec(op.index)
  }

  const FRESH_DELIVERY := Delivery(false, None, None, 0, None, 0, false, None)

  predicate HasKey(outbox: seq<Row>, key: string) {
    exists i | 0 <= i < |outbox| :: outbox[i].event.key == key
  }

  /** Enqueue an event, unless its key is there already. */
  function InsertOutbox(l: Ledger, kind: Kind, op: Outpoint, amount: u64, address: string): Result<Ledger, Error> {
    if !Fits(amount) then Err(OutOfRange)
    else if HasKey(l.outbox, EventKey(kind, op)) then Ok(l)
    else
      var event := Event(|l.outbox| + 1, EventKey(kind, op), kind, op, amount, address);
      Ok(l.(outbox := l.outbox + [Row(event, FRESH_DELIVERY)]))
  }

  // ---------- reconcile ----------

  function Observe(l: Ledger, daa: u64, item: Appearance): Result<Ledger, Error> {
    if !Fits(item.facts.amount) || !Fits(item.facts.blockDaa) then Err(OutOfRange)
    else if item.op in l.deposits then
      var d := l.deposits[item.op];
      if d.facts != item.facts then Err(FactsChanged(item.op))
      else Ok(l.(deposits := l.deposits[item.op := d.(lastSeen := daa)]))
    else
      var d := if item.op in l.legacy
               then Deposit(item.facts, Credited, daa, daa, Some(daa), None, None)
               else Deposit(item.facts, Pending, daa, daa, None, None, None);
      Ok(l.(deposits := l.deposits[item.op := d]))
  }

  function Confirm(l: Ledger, daa: u64, item: Confirmation): Result<Ledger, Error> {
    if item.op !in l.deposits then Err(NeverObserved(item.op))
    else
      var d := l.deposits[item.op];
      if d.facts.address != item.facts.address then Err(ConfirmationChanged(item.op))
      else if !Fits(item.facts.amount) then Err(OutOfRange)
      else if d.facts.amount != item.facts.amount then Err(ConfirmationChanged(item.op))
      else if !Fits(item.facts.blockDaa) then Err(OutOfRange)
      else if d.facts != item.facts then Err(ConfirmationChanged(item.op))
      else if d.state != Pending then Ok(l)
      else
        var credited := d.(state := Credited, creditedDaa := Some(daa));
        InsertOutbox(l.(deposits := l.deposits[item.op := credited]),
                     Credit, item.op, d.facts.amount, d.facts.address)
  }

  const GONE := "disappeared before confirmation"

  function Disappear(l: Ledger, daa: u64, op: Outpoint): Result<Ledger, Error> {
    if op in l.deposits && l.deposits[op].state == Pending then
      var d := l.deposits[op];
      var reversed := d.(state := Reversed, reversedDaa := Some(daa), reason := Some(GONE));
      InsertOutbox(l.(deposits := l.deposits[op := reversed]), Reverse, op, d.facts.amount, d.facts.address)
    else Ok(l)
  }

  function ObserveAll(l: Ledger, daa: u64, items: seq<Appearance>): Result<Ledger, Error> {
    if items == [] then Ok(l) else
    var r := ObserveAll(l, daa, items[..|items| - 1]);
    if r.Err? then r else Observe(r.value, daa, items[|items| - 1])
  }

  function ConfirmAll(l: Ledger, daa: u64, items: seq<Confirmation>): Result<Ledger, Error> {
    if items == [] then Ok(l) else
    var r := ConfirmAll(l, daa, items[..|items| - 1]);
    if r.Err? then r else Confirm(r.value, daa, items[|items| - 1])
  }

  function DisappearAll(l: Ledger, daa: u64, ops: seq<Outpoint>): Result<Ledger, Error> {
    if ops == [] then Ok(l) else
    var r := DisappearAll(l, daa, ops[..|ops| - 1]);
    if r.Err? then r else Disappear(r.value, daa, ops[|ops| - 1])
  }

  /** The three loops one after the other; the first error stops them. */
  function Reconciled(l: Ledger, daa: u64, observed: seq<Appearance>, confirmed: seq<Confirmation>,
                      disappeared: seq<Outpoint>): Result<Ledger, Error> {
    if !Fits(daa) then Err(OutOfRange) else
    var seen := ObserveAll(l, daa, observed);
    if seen.Err? then seen else
    var deep := ConfirmAll(seen.value, daa, confirmed);
    if deep.Err? then deep else DisappearAll(deep.value, daa, disappeared)
  }

  // ---------- the other deposit operations ----------

  function ReverseOnReorg(l: Ledger, daa: u64, op: Outpoint, evidence: string): Result<Ledger, Error> {
    if Trim(evidence) == [] then Err(NoEvidence)
    else if !Fits(daa) then Err(OutOfRange)
    else if op !in l.deposits then Err(UnknownOutpoint(op))
    else
      var d := l.deposits[op];
      if d.state == Reversed then Ok(l)
      else if d.state != Credited then Err(NotCredited(d.state))
      else
        var reversed := d.(state := Reversed, reversedDaa := Some(daa), reason := Some(Trim(evidence)));
        InsertOutbox(l.(deposits := l.deposits[op := reversed]), Reverse, op, d.facts.amount, d.facts.address)
  }

  function ImportLegacy(l: Ledger, op: Outpoint): Ledger {
    l.(legacy := l.legacy + {op})
  }
}
