/**
 The one-shot view of an address in src/cex.rs, and its agreement with the tracker: a row is
 spendable exactly when a fresh tracker would confirm it on arrival.
 */
module Snapshot {
  import opened Basics
  import opened Ledger
  import opened Tracker

  datatype Utxo = Utxo(op: Outpoint, facts: Facts)

  datatype Spendable = Spendable(op: Outpoint, amount: u64, confirmations: u64, coinbase: bool)

  datatype AddressSnapshot = AddressSnapshot(
    address: string, virtualDaa: u64, confirmed: u64, pending: u64, immatureCoinbase: u64,
    spendable: seq<Spendable>)

  datatype SnapshotError = ForeignAddress | DuplicateOutpoint | PendingOverflow | CoinbaseOverflow | ConfirmedOverflow

  // ---------- meanings ----------

  predicate Foreign(address: string, utxos: seq<Utxo>, i: nat)
    requires i < |utxos|
  {
    utxos[i].facts.address != address
  }

  predicate Repeated(utxos: seq<Utxo>, i: nat)
    requires i < |utxos|
  {
    exists j | 0 <= j < i :: utxos[j].op == utxos[i].op
  }

  predicate Acceptable(address: string, utxos: seq<Utxo>) {
    forall i | 0 <= i < |utxos| :: !Foreign(address, utxos, i) && !Repeated(utxos, i)
  }

  /** The exact total of the rows that are deep, or of those that are not. */
  function Total(depth: u64, daa: u64, utxos: seq<Utxo>, deep: bool): nat {
    if utxos == [] then 0 else
    var last := utxos[|utxos| - 1];
    Total(depth, daa, utxos[..|utxos| - 1], deep)
    + (if Deep(depth, daa, last.facts) == deep then last.facts.amount else 0)
  }

  function ImmatureTotal(depth: u64, daa: u64, utxos: seq<Utxo>): nat
    ensures ImmatureTotal(depth, daa, utxos) <= Total(depth, daa, utxos, false)
  {
    if utxos == [] then 0 else
    var last := utxos[|utxos| - 1];
    ImmatureTotal(depth, daa, utxos[..|utxos| - 1])
    + (if !Deep(depth, daa, last.facts) && last.facts.coinbase then last.facts.amount else 0)
  }

  function AmountTotal(utxos: seq<Utxo>): nat {
    if utxos == [] then 0 else AmountTotal(utxos[..|utxos| - 1]) + utxos[|utxos| - 1].facts.amount
  }

  /** What a fresh tracker does with the rows as they arrive: what waits and what is confirmed. */
  function Arrived(depth: u64, daa: u64, utxos: seq<Utxo>): (map<Outpoint, Facts>, seq<Confirmation>) {
    if utxos == [] then (map[], []) else
    var before := Arrived(depth, daa, utxos[..|utxos| - 1]);
    var last := utxos[|utxos| - 1];
    var step := Added(depth, before.0, Appearance(last.op, last.facts, daa));
    (step.0, if step.1.Some? then before.1 + [step.1.value] else before.1)
  }

  function AsSpendable(hit: Confirmation): Spendable {
    Spendable(hit.op, hit.facts.amount, hit.confirmations, hit.facts.coinbase)
  }

  function AsSpendables(hits: seq<Confirmation>): seq<Spendable> {
    seq(|hits|, i requires 0 <= i < |hits| => AsSpendable(hits[i]))
  }

  function SpendableSum(rows: seq<Spendable>): nat {
    if rows == [] then 0 else SpendableSum(rows[..|rows| - 1]) + rows[|rows| - 1].amount
  }

  /** The listed rows are worth the confirmed total. */
  lemma {:induction false} SpendableTotal(depth: u64, daa: u64, utxos: seq<Utxo>)
    ensures SpendableSum(AsSpendables(Arrived(depth, daa, utxos).1)) == Total(depth, daa, utxos, true)
    decreases |utxos|
  {
    if utxos != [] {
      var n := |utxos| - 1;
      SpendableTotal(depth, daa, utxos[..n]);
      if Deep(depth, daa, utxos[n].facts) {
        var before, hit := Arrived(depth, daa, utxos[..n]).1, Hit(utxos[n].op, utxos[n].facts, daa);
        SpendablesAppend(before, hit);
        assert (AsSpendables(before) + [AsSpendable(hit)])[..|before|] == AsSpendables(before);
      }
    }
  }

  /** Row i as the snapshot lists it. */
  ghost predicate ListedAs(utxo: Utxo, daa: u64, row: Spendable) {
    && row.op == utxo.op && row.amount == utxo.facts.amount && row.coinbase == utxo.facts.coinbase
    && row.confirmations + utxo.facts.blockDaa == daa
  }

  /** Row i is deep, and this is its confirmation. */
  predicate HitOf(depth: u64, daa: u64, utxo: Utxo, hit: Confirmation) {
    Deep(depth, daa, utxo.facts) && hit == Hit(utxo.op, utxo.facts, daa)
  }

  lemma ListedRow(depth: u64, daa: u64, utxo: Utxo, hits: seq<Confirmation>, k: nat)
    requires depth > 0 && k < |hits| && HitOf(depth, daa, utxo, hits[k])
    ensures AsSpendables(hits)[k] in AsSpendables(hits) && ListedAs(utxo, daa, AsSpendables(hits)[k])
  {
  }

  ghost predicate ListsDeep(depth: u64, daa: u64, utxos: seq<Utxo>, rows: seq<Spendable>) {
    forall i | 0 <= i < |utxos| && Deep(depth, daa, utxos[i].facts) ::
      exists row | row in rows :: ListedAs(utxos[i], daa, row)
  }

  ghost predicate ListsOnlyDeep(depth: u64, daa: u64, utxos: seq<Utxo>, rows: seq<Spendable>) {
    forall row | row in rows ::
      exists i | 0 <= i < |utxos| && Deep(depth, daa, utxos[i].facts) :: ListedAs(utxos[i], daa, row)
  }

  /** Every deep row is listed, with its amount, its depth and its coinbase flag. */
  lemma DeepRowsListed(depth: u64, daa: u64, utxos: seq<Utxo>, hits: seq<Confirmation>)
    requires depth > 0
    requires forall i | 0 <= i < |utxos| && Deep(depth, daa, utxos[i].facts) ::
               Hit(utxos[i].op, utxos[i].facts, daa) in hits
    ensures ListsDeep(depth, daa, utxos, AsSpendables(hits))
  {
    forall i | 0 <= i < |utxos| && Deep(depth, daa, utxos[i].facts)
      ensures exists row | row in AsSpendables(hits) :: ListedAs(utxos[i], daa, row)
    {
      var k :| 0 <= k < |hits| && hits[k] == Hit(utxos[i].op, utxos[i].facts, daa);
      ListedRow(depth, daa, utxos[i], hits, k);
    }
  }

  /** And nothing else is listed. */
  lemma ListedRowsDeep(depth: u64, daa: u64, utxos: seq<Utxo>, hits: seq<Confirmation>)
    requires depth > 0
    requires forall hit | hit in hits :: exists i | 0 <= i < |utxos| :: HitOf(depth, daa, utxos[i], hit)
    ensures ListsOnlyDeep(depth, daa, utxos, AsSpendables(hits))
  {
    forall row | row in AsSpendables(hits)
      ensures exists i | 0 <= i < |utxos| && Deep(depth, daa, utxos[i].facts) :: ListedAs(utxos[i], daa, row)
    {
      var k :| 0 <= k < |hits| && AsSpendables(hits)[k] == row;
      assert hits[k] in hits;
      var i :| 0 <= i < |utxos| && HitOf(depth, daa, utxos[i], hits[k]);
      ListedRow(depth, daa, utxos[i], hits, k);
    }
  }

  lemma PartsOfTotal(depth: u64, daa: u64, utxos: seq<Utxo>)
    ensures Total(depth, daa, utxos, true) + Total(depth, daa, utxos, false) == AmountTotal(utxos)
  {
  }

  /** The first row at fault, and its fault; a foreign address counts before a repeated outpoint. */
  ghost predicate FirstFault(address: string, utxos: seq<Utxo>, error: SnapshotError) {
    exists i | 0 <= i < |utxos| ::
      && Acceptable(address, utxos[..i])
      && (Foreign(address, utxos, i) || Repeated(utxos, i))
      && error == if Foreign(address, utxos, i) then ForeignAddress else DuplicateOutpoint
  }

  // ---------- the operations ----------

  method ValidateSnapshot(address: string, utxos: seq<Utxo>) returns (r: Result<(), SnapshotError>)
    ensures r.Ok? <==> Acceptable(address, utxos)
    ensures r.Err? ==> FirstFault(address, utxos, r.error)
  {
    var outpoints: set<Outpoint> := {};
    for i := 0 to |utxos|
      invariant outpoints == set j | 0 <= j < i :: utxos[j].op
      invariant forall j | 0 <= j < i :: !Foreign(address, utxos, j) && !Repeated(utxos, j)
    {
      PrefixAcceptable(address, utxos, i);
      if utxos[i].facts.address != address {
        assert Foreign(address, utxos, i);
        return Err(ForeignAddress);
      }
      if utxos[i].op in outpoints {
        assert Repeated(utxos, i);
        return Err(DuplicateOutpoint);
      }
      outpoints := outpoints + {utxos[i].op};
    }
    r := Ok(());
  }

  lemma PrefixAcceptable(address: string, utxos: seq<Utxo>, i: nat)
    requires i <= |utxos| && forall j | 0 <= j < i :: !Foreign(address, utxos, j) && !Repeated(utxos, j)
    ensures Acceptable(address, utxos[..i])
  {
    forall j | 0 <= j < i ensures !Foreign(address, utxos[..i], j) && !Repeated(utxos[..i], j) {
      assert !Foreign(address, utxos, j) && !Repeated(utxos, j);
    }
  }

  ghost predicate Overflows(n: nat) {
    n >= U64_LIMIT
  }

  /** The first row that takes one of the two exact totals over 64 bits, and which of them. */
  ghost predicate FirstOverflow(depth: u64, daa: u64, utxos: seq<Utxo>, error: SnapshotError) {
    exists i | 0 <= i < |utxos| ::
      && !Overflows(Total(depth, daa, utxos[..i], true)) && !Overflows(Total(depth, daa, utxos[..i], false))
      && Overflows(Total(depth, daa, utxos[..i + 1], Deep(depth, daa, utxos[i].facts)))
      && error == if Deep(depth, daa, utxos[i].facts) then ConfirmedOverflow else PendingOverflow
  }

  lemma TotalsGrow(depth: u64, daa: u64, utxos: seq<Utxo>, n: nat, deep: bool)
    requires n <= |utxos|
    ensures Total(depth, daa, utxos[..n], deep) <= Total(depth, daa, utxos, deep)
    decreases |utxos| - n
  {
    if n == |utxos| {
      assert utxos[..n] == utxos;
    } else {
      TotalsGrow(depth, daa, utxos, n + 1, deep);
      assert utxos[..n + 1][..n] == utxos[..n];
    }
  }

  /**
   The totals of the rows, deep and not; it fails only on rows of another address, on repeated
   outpoints, or when one of the two exact totals does not fit 64 bits.
   */
  method SnapshotAddress(address: string, virtualDaa: u64, utxos: seq<Utxo>, threshold: u64)
    returns (r: Result<AddressSnapshot, SnapshotError>)
    ensures var depth := Max(threshold, 1);
            && (r.Ok? <==> && Acceptable(address, utxos)
                           && !Overflows(Total(depth, virtualDaa, utxos, true))
                           && !Overflows(Total(depth, virtualDaa, utxos, false)))
            && (r.Ok? ==> r.value == AddressSnapshot(address, virtualDaa,
                                                     Total(depth, virtualDaa, utxos, true),
                                                     Total(depth, virtualDaa, utxos, false),
                                                     ImmatureTotal(depth, virtualDaa, utxos),
                                                     AsSpendables(Arrived(depth, virtualDaa, utxos).1)))
            && (r.Err? ==>
                  && (!Acceptable(address, utxos) ==> FirstFault(address, utxos, r.error))
                  && (Acceptable(address, utxos) ==> FirstOverflow(depth, virtualDaa, utxos, r.error)))
  {
    var valid := ValidateSnapshot(address, utxos);
    if valid.Err? {
      return Err(valid.error);
    }
    var depth := Max(threshold, 1);
    var confirmed: u64, pending: u64, immature: u64 := 0, 0, 0;
    var spendable: seq<Spendable> := [];
    for i := 0 to |utxos|
      invariant confirmed == Total(depth, virtualDaa, utxos[..i], true)
      invariant pending == Total(depth, virtualDaa, utxos[..i], false)
      invariant immature == ImmatureTotal(depth, virtualDaa, utxos[..i])
      invariant spendable == AsSpendables(Arrived(depth, virtualDaa, utxos[..i]).1)
    {
      var utxo := utxos[i];
      NextPrefix(utxos, i);
      TotalsGrow(depth, virtualDaa, utxos, i + 1, true);
      TotalsGrow(depth, virtualDaa, utxos, i + 1, false);
      var conf := MinusOrZero(virtualDaa, utxo.facts.blockDaa);
      if conf < RequiredFor(depth, utxo.facts.coinbase) {
        if pending + utxo.facts.amount >= U64_LIMIT {
          return Err(PendingOverflow);
        }
        pending := pending + utxo.facts.amount;
        if utxo.facts.coinbase {
          if immature + utxo.facts.amount >= U64_LIMIT {
            return Err(CoinbaseOverflow);
          }
          immature := immature + utxo.facts.amount;
        }
        continue;
      }
      if confirmed + utxo.facts.amount >= U64_LIMIT {
        return Err(ConfirmedOverflow);
      }
      confirmed := confirmed + utxo.facts.amount;
      SpendablesAppend(Arrived(depth, virtualDaa, utxos[..i]).1, Hit(utxo.op, utxo.facts, virtualDaa));
      spendable := spendable + [Spendable(utxo.op, utxo.facts.amount, conf, utxo.facts.coinbase)];
    }
    assert utxos[..|utxos|] == utxos;
    r := Ok(AddressSnapshot(address, virtualDaa, confirmed, pending, immature, spendable));
  }

  lemma NextPrefix(utxos: seq<Utxo>, i: nat)
    requires i < |utxos|
    ensures utxos[..i + 1][..i] == utxos[..i] && |utxos[..i + 1]| == i + 1 && utxos[..i + 1][i] == utxos[i]
  {
  }

  lemma SpendablesAppend(hits: seq<Confirmation>, hit: Confirmation)
    ensures AsSpendables(hits + [hit]) == AsSpendables(hits) + [AsSpendable(hit)]
  {
  }

  /** A fresh tracker fed the rows one by one: the function Arrived is what it does. */
  method TrackArrivals(virtualDaa: u64, utxos: seq<Utxo>, threshold: u64)
    returns (tracker: DepositTracker, hits: seq<Confirmation>)
    ensures tracker.required == Max(threshold, 1)
    ensures (tracker.pending, hits) == Arrived(Max(threshold, 1), virtualDaa, utxos)
  {
    tracker := new DepositTracker(threshold);
    hits := [];
    for i := 0 to |utxos|
      invariant fresh(tracker) && tracker.required == Max(threshold, 1)
      invariant (tracker.pending, hits) == Arrived(tracker.required, virtualDaa, utxos[..i])
    {
      NextPrefix(utxos, i);
      var hit := tracker.OnUtxoAdded(Appearance(utxos[i].op, utxos[i].facts, virtualDaa));
      if hit.Some? {
        hits := hits + [hit.value];
      }
    }
    assert utxos[..|utxos|] == utxos;
  }

  // ---------- agreement with the tracker ----------

  ghost function PendingSum(pending: map<Outpoint, Facts>): nat
    decreases |pending|
  {
    if pending == map[] then 0 else
    var op :| op in pending;
    pending[op].amount + PendingSum(pending - {op})
  }

  lemma {:induction false} PendingSumRemove(pending: map<Outpoint, Facts>, op: Outpoint)
    requires op in pending
    ensures PendingSum(pending) == pending[op].amount + PendingSum(pending - {op})
    decreases |pending|
  {
    var o :| o in pending && PendingSum(pending) == pending[o].amount + PendingSum(pending - {o});
    if o != op {
      PendingSumRemove(pending - {o}, op);
      PendingSumRemove(pending - {op}, o);
      assert pending - {o} - {op} == pending - {op} - {o};
    }
  }

  /** The rows that are deep, in order; with the facts and depth of each. */
  ghost predicate SplitByDepth(depth: u64, daa: u64, utxos: seq<Utxo>, pending: map<Outpoint, Facts>,
                               hits: seq<Confirmation>) {
    && (forall i | 0 <= i < |utxos| ::
          if Deep(depth, daa, utxos[i].facts)
          then utxos[i].op !in pending && Hit(utxos[i].op, utxos[i].facts, daa) in hits
          else utxos[i].op in pending && pending[utxos[i].op] == utxos[i].facts)
    && (forall op | op in pending :: exists i | 0 <= i < |utxos| :: utxos[i].op == op)
    && (forall hit | hit in hits :: exists i | 0 <= i < |utxos| :: hit == Hit(utxos[i].op, utxos[i].facts, daa))
  }

  /** With distinct outpoints every row is either confirmed on arrival or waits, never both. */
  lemma {:induction false} ArrivalsSplit(depth: u64, daa: u64, utxos: seq<Utxo>)
    requires forall i | 0 <= i < |utxos| :: !Repeated(utxos, i)
    ensures SplitByDepth(depth, daa, utxos, Arrived(depth, daa, utxos).0, Arrived(depth, daa, utxos).1)
    decreases |utxos|
  {
    if utxos != [] {
      var n := |utxos| - 1;
      FrontDistinct(utxos);
      ArrivalsSplit(depth, daa, utxos[..n]);
      SplitGrows(depth, daa, utxos);
    }
  }

  lemma {:induction false} HitsAreDeep(depth: u64, daa: u64, utxos: seq<Utxo>)
    ensures forall hit | hit in Arrived(depth, daa, utxos).1 ::
              exists i | 0 <= i < |utxos| :: HitOf(depth, daa, utxos[i], hit)
    decreases |utxos|
  {
    if utxos != [] {
      var n := |utxos| - 1;
      HitsAreDeep(depth, daa, utxos[..n]);
      forall hit | hit in Arrived(depth, daa, utxos).1
        ensures exists i | 0 <= i < |utxos| :: HitOf(depth, daa, utxos[i], hit)
      {
        if hit in Arrived(depth, daa, utxos[..n]).1 {
          var i :| 0 <= i < n && HitOf(depth, daa, utxos[..n][i], hit);
          assert utxos[..n][i] == utxos[i];
        } else {
          assert HitOf(depth, daa, utxos[n], hit);
        }
      }
    }
  }

  lemma FrontDistinct(utxos: seq<Utxo>)
    requires |utxos| > 0 && forall i | 0 <= i < |utxos| :: !Repeated(utxos, i)
    ensures var front := utxos[..|utxos| - 1]; forall i | 0 <= i < |front| :: !Repeated(front, i)
  {
    var front := utxos[..|utxos| - 1];
    forall i | 0 <= i < |front| ensures !Repeated(front, i) {
      assert !Repeated(utxos, i);
    }
  }

  lemma {:induction false} WaitingTotal(depth: u64, daa: u64, utxos: seq<Utxo>)
    requires forall i | 0 <= i < |utxos| :: !Repeated(utxos, i)
    ensures var (pending, hits) := Arrived(depth, daa, utxos);
            PendingSum(pending) == Total(depth, daa, utxos, false) && |pending| + |hits| == |utxos|
    decreases |utxos|
  {
    if utxos != [] {
      var n := |utxos| - 1;
      FrontDistinct(utxos);
      WaitingTotal(depth, daa, utxos[..n]);
      if !Deep(depth, daa, utxos[n].facts) {
        ArrivalsSplit(depth, daa, utxos[..n]);
        NewOutpoint(depth, daa, utxos);
        var before := Arrived(depth, daa, utxos[..n]).0;
        PendingSumInsert(before, utxos[n].op, utxos[n].facts);
      }
    }
  }

  /** The coinbase outputs among those that wait. */
  function CoinbaseOf(pending: map<Outpoint, Facts>): map<Outpoint, Facts> {
    map op | op in pending && pending[op].coinbase :: pending[op]
  }

  lemma CoinbaseInsert(pending: map<Outpoint, Facts>, op: Outpoint, facts: Facts)
    requires op !in pending
    ensures PendingSum(CoinbaseOf(pending[op := facts]))
            == PendingSum(CoinbaseOf(pending)) + (if facts.coinbase then facts.amount else 0)
  {
    if facts.coinbase {
      assert CoinbaseOf(pending[op := facts]) == CoinbaseOf(pending)[op := facts];
      PendingSumInsert(CoinbaseOf(pending), op, facts);
    } else {
      assert CoinbaseOf(pending[op := facts]) == CoinbaseOf(pending);
    }
  }

  lemma {:induction false} WaitingCoinbase(depth: u64, daa: u64, utxos: seq<Utxo>)
    requires forall i | 0 <= i < |utxos| :: !Repeated(utxos, i)
    ensures PendingSum(CoinbaseOf(Arrived(depth, daa, utxos).0)) == ImmatureTotal(depth, daa, utxos)
    decreases |utxos|
  {
    if utxos == [] {
      assert CoinbaseOf(map[]) == map[];
    } else {
      var n := |utxos| - 1;
      FrontDistinct(utxos);
      WaitingCoinbase(depth, daa, utxos[..n]);
      if !Deep(depth, daa, utxos[n].facts) {
        ArrivalsSplit(depth, daa, utxos[..n]);
        NewOutpoint(depth, daa, utxos);
        CoinbaseInsert(Arrived(depth, daa, utxos[..n]).0, utxos[n].op, utxos[n].facts);
      }
    }
  }

  lemma PendingSumInsert(pending: map<Outpoint, Facts>, op: Outpoint, facts: Facts)
    requires op !in pending
    ensures PendingSum(pending[op := facts]) == PendingSum(pending) + facts.amount
  {
    PendingSumRemove(pending[op := facts], op);
    assert pending[op := facts] - {op} == pending;
  }

  lemma NewOutpoint(depth: u64, daa: u64, utxos: seq<Utxo>)
    requires |utxos| > 0 && !Repeated(utxos, |utxos| - 1)
    requires var front := utxos[..|utxos| - 1];
             SplitByDepth(depth, daa, front, Arrived(depth, daa, front).0, Arrived(depth, daa, front).1)
    ensures utxos[|utxos| - 1].op !in Arrived(depth, daa, utxos[..|utxos| - 1]).0
  {
    var n := |utxos| - 1;
    forall op | op in Arrived(depth, daa, utxos[..n]).0 ensures op != utxos[n].op {
      var i :| 0 <= i < n && utxos[..n][i].op == op;
      assert utxos[i].op != utxos[n].op;
    }
  }

  lemma SplitGrows(depth: u64, daa: u64, utxos: seq<Utxo>)
    requires |utxos| > 0 && forall i | 0 <= i < |utxos| :: !Repeated(utxos, i)
    requires var front := utxos[..|utxos| - 1];
             SplitByDepth(depth, daa, front, Arrived(depth, daa, front).0, Arrived(depth, daa, front).1)
    ensures SplitByDepth(depth, daa, utxos, Arrived(depth, daa, utxos).0, Arrived(depth, daa, utxos).1)
  {
    var n := |utxos| - 1;
    var front, last := utxos[..n], utxos[n];
    var was, now := Arrived(depth, daa, front), Arrived(depth, daa, utxos);
    NewOutpoint(depth, daa, utxos);
    forall i | 0 <= i < |utxos|
      ensures if Deep(depth, daa, utxos[i].facts)
              then utxos[i].op !in now.0 && Hit(utxos[i].op, utxos[i].facts, daa) in now.1
              else utxos[i].op in now.0 && now.0[utxos[i].op] == utxos[i].facts
    {
      if i < n {
        assert front[i] == utxos[i];
        assert !Repeated(utxos, n);
      } else if Deep(depth, daa, last.facts) {
        assert now.1[|now.1| - 1] == Hit(last.op, last.facts, daa);
      }
    }
    forall op | op in now.0 ensures exists i | 0 <= i < |utxos| :: utxos[i].op == op {
      if op in was.0 {
        var i :| 0 <= i < n && front[i].op == op;
        assert utxos[i].op == op;
      } else {
        assert utxos[n].op == op;
      }
    }
    forall hit | hit in now.1 ensures exists i | 0 <= i < |utxos| :: hit == Hit(utxos[i].op, utxos[i].facts, daa) {
      if hit in was.1 {
        var i :| 0 <= i < n && hit == Hit(front[i].op, front[i].facts, daa);
        assert hit == Hit(utxos[i].op, utxos[i].facts, daa);
      } else {
        assert hit == Hit(utxos[n].op, utxos[n].facts, daa);
      }
    }
  }

  /**
   The snapshot and the tracker agree: what is spendable is what a fresh tracker with the same
   threshold confirms on arrival, what is pending is what it retains, every later update that
   sees the same score confirms nothing more, and the two sums make up all rows.
   */
  lemma SnapshotAgrees(daa: u64, utxos: seq<Utxo>, threshold: u64, address: string)
    requires Acceptable(address, utxos)
    ensures var depth := Max(threshold, 1);
            var (pending, hits) := Arrived(depth, daa, utxos);
            && SplitByDepth(depth, daa, utxos, pending, hits)
            && Retained(depth, daa, pending) == pending
            && |pending| + |hits| == |utxos|
            && PendingSum(pending) == Total(depth, daa, utxos, false)
            && Total(depth, daa, utxos, true) + PendingSum(pending) == AmountTotal(utxos)
            && PendingSum(CoinbaseOf(pending)) == ImmatureTotal(depth, daa, utxos)
  {
    var depth := Max(threshold, 1);
    ArrivalsSplit(depth, daa, utxos);
    WaitingCoinbase(depth, daa, utxos);
    WaitingTotal(depth, daa, utxos);
    PartsOfTotal(depth, daa, utxos);
    NothingDeepWaits(depth, daa, utxos, Arrived(depth, daa, utxos).0, Arrived(depth, daa, utxos).1);
  }

  lemma NothingDeepWaits(depth: u64, daa: u64, utxos: seq<Utxo>, pending: map<Outpoint, Facts>, hits: seq<Confirmation>)
    requires SplitByDepth(depth, daa, utxos, pending, hits)
    ensures Retained(depth, daa, pending) == pending
  {
    forall op | op in pending ensures !Deep(depth, daa, pending[op]) {
      var i :| 0 <= i < |utxos| && utxos[i].op == op;
    }
  }

  lemma DeepAreHits(depth: u64, daa: u64, utxos: seq<Utxo>)
    requires forall i | 0 <= i < |utxos| :: !Repeated(utxos, i)
    ensures forall i | 0 <= i < |utxos| && Deep(depth, daa, utxos[i].facts) ::
              Hit(utxos[i].op, utxos[i].facts, daa) in Arrived(depth, daa, utxos).1
  {
    ArrivalsSplit(depth, daa, utxos);
  }

  /**
   The list of spendable rows: every row deep enough and no other, with its own amount, depth
   and coinbase flag, and together worth the confirmed total.
   */
  lemma SpendableExactly(daa: u64, utxos: seq<Utxo>, threshold: u64, address: string)
    requires Acceptable(address, utxos)
    ensures var depth := Max(threshold, 1);
            var rows := AsSpendables(Arrived(depth, daa, utxos).1);
            && SpendableSum(rows) == Total(depth, daa, utxos, true)
            && ListsDeep(depth, daa, utxos, rows) && ListsOnlyDeep(depth, daa, utxos, rows)
  {
    var depth := Max(threshold, 1);
    SpendableTotal(depth, daa, utxos);
    HitsAreDeep(depth, daa, utxos);
    DeepAreHits(depth, daa, utxos);
    DeepRowsListed(depth, daa, utxos, Arrived(depth, daa, utxos).1);
    ListedRowsDeep(depth, daa, utxos, Arrived(depth, daa, utxos).1);
  }
}
