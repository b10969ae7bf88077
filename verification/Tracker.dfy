/**
 The confirmation tracker of src/exchange.rs: outputs wait in a map until the virtual DAA score
 is far enough above the score of their block.
 */
module Tracker {
  import opened Basics
  import opened Ledger

  const DEFAULT_DEPOSIT_CONFIRMATIONS: u64 := 60
  const COINBASE_MATURITY_DAA: u64 := 1000

  function RequiredFor(threshold: u64, coinbase: bool): u64 {
    if coinbase then Max(threshold, COINBASE_MATURITY_DAA) else threshold
  }

  /** Far enough above its block: by the threshold, and by the maturity of a coinbase output. */
  predicate Deep(threshold: u64, daa: u64, facts: Facts): (deep: bool)
    ensures threshold > 0 ==>
              (deep <==> facts.blockDaa + threshold <= daa && (facts.coinbase ==> facts.blockDaa + 1000 <= daa))
  {
    MinusOrZero(daa, facts.blockDaa) >= RequiredFor(threshold, facts.coinbase)
  }

  function Hit(op: Outpoint, facts: Facts, daa: u64): Confirmation {
    Confirmation(op, facts, MinusOrZero(daa, facts.blockDaa))
  }

  /**
   A new appearance: confirmed at once when it is deep enough, and then the map is left alone,
   even if it holds an older entry for the outpoint.
   */
  function Added(threshold: u64, pending: map<Outpoint, Facts>, seen: Appearance)
    : (map<Outpoint, Facts>, Option<Confirmation>)
  {
    if Deep(threshold, seen.virtualDaa, seen.facts)
    then (pending, Some(Hit(seen.op, seen.facts, seen.virtualDaa)))
    else (pending[seen.op := seen.facts], None)
  }

  function Retained(threshold: u64, daa: u64, pending: map<Outpoint, Facts>): map<Outpoint, Facts> {
    map op | op in pending && !Deep(threshold, daa, pending[op]) :: pending[op]
  }

  function OpsOf(items: seq<Confirmation>): set<Outpoint> {
    set item | item in items :: item.op
  }

  /** Every entry that is deep enough is listed once, in any order: the order of a hash map. */
  ghost predicate Lists(confirmed: seq<Confirmation>, threshold: u64, daa: u64, pending: map<Outpoint, Facts>) {
    && (forall i | 0 <= i < |confirmed| ::
          && confirmed[i].op in pending
          && Deep(threshold, daa, pending[confirmed[i].op])
          && confirmed[i] == Hit(confirmed[i].op, pending[confirmed[i].op], daa))
    && (forall i, j | 0 <= i < j < |confirmed| :: confirmed[i].op != confirmed[j].op)
    && (forall op | op in pending && Deep(threshold, daa, pending[op]) :: op in OpsOf(confirmed))
  }

  class DepositTracker {
    const required: u64
    var pending: map<Outpoint, Facts>

    constructor (threshold: u64)
      ensures required == Max(threshold, 1) && pending == map[]
    {
      required := Max(threshold, 1);
      pending := map[];
    }

    constructor WithDefaultConfirmations()
      ensures required == 60 && pending == map[]
    {
      required := DEFAULT_DEPOSIT_CONFIRMATIONS;
      pending := map[];
    }

    method OnUtxoAdded(seen: Appearance) returns (hit: Option<Confirmation>)
      modifies this
      ensures (pending, hit) == Added(required, old(pending), seen)
    {
      var depth := RequiredFor(required, seen.facts.coinbase);
      var confirmations := MinusOrZero(seen.virtualDaa, seen.facts.blockDaa);
      if confirmations >= depth {
        return Some(Confirmation(seen.op, seen.facts, confirmations));
      }
      pending := pending[seen.op := seen.facts];
      hit := None;
    }

    method OnUtxoRemoved(op: Outpoint) returns (found: bool)
      modifies this
      ensures found == (op in old(pending)) && pending == old(pending) - {op}
    {
      found := op in pending;
      pending := pending - {op};
    }

    /** retain visits the entries in an order of its own choosing. */
    method OnVirtualDaa(daa: u64) returns (confirmed: seq<Confirmation>)
      modifies this
      ensures Lists(confirmed, required, daa, old(pending))
      ensures pending == Retained(required, daa, old(pending))
    {
      ghost var was, taken: set<Outpoint> := pending, {};
      confirmed := [];
      var left := pending.Keys;
      while left != {}
        invariant pending == was - taken && left <= was.Keys - taken
        invariant forall op | op in was.Keys - left :: op in taken <==> Deep(required, daa, was[op])
        invariant Taken(confirmed, daa, was, taken)
        decreases |left|
      {
        var op :| op in left;
        left := left - {op};
        var facts := pending[op];
        var confirmations := MinusOrZero(daa, facts.blockDaa);
        if confirmations >= RequiredFor(required, facts.coinbase) {
          TakeOne(confirmed, daa, was, taken, op);
          assert pending - {op} == was - (taken + {op});
          confirmed := confirmed + [Confirmation(op, facts, confirmations)];
          pending := pending - {op};
          taken := taken + {op};
        }
      }
      TakenLists(confirmed, required, daa, was, taken);
    }
  }

  /** The entries of taken are listed once each. */
  ghost predicate Taken(confirmed: seq<Confirmation>, daa: u64, was: map<Outpoint, Facts>, taken: set<Outpoint>) {
    && taken <= was.Keys && OpsOf(confirmed) == taken
    && (forall i | 0 <= i < |confirmed| ::
          confirmed[i].op in taken && confirmed[i] == Hit(confirmed[i].op, was[confirmed[i].op], daa))
    && forall i, j | 0 <= i < j < |confirmed| :: confirmed[i].op != confirmed[j].op
  }

  lemma TakeOne(confirmed: seq<Confirmation>, daa: u64, was: map<Outpoint, Facts>, taken: set<Outpoint>, op: Outpoint)
    requires Taken(confirmed, daa, was, taken) && op in was && op !in taken
    ensures Taken(confirmed + [Hit(op, was[op], daa)], daa, was, taken + {op})
  {
    OpsAppend(confirmed, Hit(op, was[op], daa));
  }

  lemma TakenLists(confirmed: seq<Confirmation>, threshold: u64, daa: u64, was: map<Outpoint, Facts>,
                   taken: set<Outpoint>)
    requires Taken(confirmed, daa, was, taken)
    requires forall op | op in was :: op in taken <==> Deep(threshold, daa, was[op])
    ensures Lists(confirmed, threshold, daa, was) && was - taken == Retained(threshold, daa, was)
  {
  }

  lemma OpsAppend(items: seq<Confirmation>, item: Confirmation)
    ensures OpsOf(items + [item]) == OpsOf(items) + {item.op}
  {
    assert forall c | c in items :: c in items + [item];
    assert item in items + [item];
  }
}
