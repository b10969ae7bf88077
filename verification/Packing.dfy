/**
 The packing instance of scripts/tn12_tps_cnf.py and its reduction in scripts/bps100_cnf.py:
 transactions into block slots, each transaction in exactly one slot, at most cap per slot.
 The instance has a model exactly when the arithmetic says the transactions fit.
 */
module Packing {
  import opened Text
  import opened Cnf
  import opened Counter

  // ---------- names ----------

  function CellName(t: nat, s: nat): string {
    "x_" + (Dec(t) + "_" + Dec(s))
  }

  function TxTag(t: nat): string {
    "tx" + Dec(t)
  }

  function SlotTag(s: nat): string {
    "slot" + Dec(s)
  }

  function Cell(tb: Table, t: nat, s: nat): int {
    Number(tb, CellName(t, s))
  }

  lemma CellNameInjective(t: nat, s: nat, t': nat, s': nat)
    requires CellName(t, s) == CellName(t', s')
    ensures t == t' && s == s'
  {
    assert Dec(t) + "_" + Dec(s) == CellName(t, s)[2..] == Dec(t') + "_" + Dec(s');
    DecPairInjective(t, s, t', s');
  }

  lemma TagSplit(head: string, p: string, q: string, x: string, y: string)
    requires '_' !in p && '_' !in q
    requires (head + p) + "_s_" + x == (head + q) + "_s_" + y
    ensures p == q && x == y
  {
    var w := (head + p) + "_s_" + x;
    assert w == head + (p + "_" + ("s_" + x));
    assert w == head + (q + "_" + ("s_" + y));
    assert w[|head|..] == p + "_" + ("s_" + x) == q + "_" + ("s_" + y);
    SplitFirst(p, q, '_', "s_" + x, "s_" + y);
    assert x == ("s_" + x)[2..] == ("s_" + y)[2..] == y;
  }

  /** Counters of different transactions or slots never share a helper name. */
  lemma TaggedNameInjective(head: string, m: nat, i: nat, j: nat, m': nat, i': nat, j': nat)
    requires HelperName(head + Dec(m), i, j) == HelperName(head + Dec(m'), i', j')
    ensures m == m' && i == i' && j == j'
  {
    TagSplit(head, Dec(m), Dec(m'), Dec(i) + "_" + Dec(j), Dec(i') + "_" + Dec(j'));
    DecInjective(m, m');
    DecPairInjective(i, j, i', j');
  }

  /** Cell names, row helpers and column helpers are three disjoint families. */
  lemma FamiliesDisjoint(t: nat, s: nat, m: nat, i: nat, j: nat, m': nat, i': nat, j': nat)
    ensures CellName(t, s) != HelperName(TxTag(m), i, j)
    ensures CellName(t, s) != HelperName(SlotTag(m'), i', j')
    ensures HelperName(TxTag(m), i, j) != HelperName(SlotTag(m'), i', j')
  {
    assert CellName(t, s)[0] == 'x';
    assert HelperName(TxTag(m), i, j)[0] == 't';
    assert HelperName(SlotTag(m'), i', j')[0] == 's';
  }

  // ---------- the clauses ----------

  function RowLits(tb: Table, t: nat, m: nat): (r: seq<int>)
    ensures |r| == m
  {
    if m == 0 then [] else RowLits(tb, t, m - 1) + [Cell(tb, t, m - 1)]
  }

  function ColLits(tb: Table, m: nat, s: nat): (r: seq<int>)
    ensures |r| == m
  {
    if m == 0 then [] else ColLits(tb, m - 1, s) + [Cell(tb, m - 1, s)]
  }

  /** The first m blocks of clauses, one after the other. */
  function Flat(block: nat -> seq<Clause>, m: nat): seq<Clause> {
    if m == 0 then [] else Flat(block, m - 1) + block(m - 1)
  }

  function TxBlock(tb: Table, slots: nat): nat -> seq<Clause> {
    (t: nat) => ExactlyOneClauses(RowLits(tb, t, slots), tb, TxTag(t))
  }

  function SlotBlock(tb: Table, txs: nat, cap: int): nat -> seq<Clause> {
    (s: nat) => AtMostClauses(ColLits(tb, txs, s), cap, tb, SlotTag(s))
  }

  function TxClauses(tb: Table, m: nat, slots: nat): seq<Clause> {
    Flat(TxBlock(tb, slots), m)
  }

  function SlotClauses(tb: Table, txs: nat, m: nat, cap: int): seq<Clause> {
    Flat(SlotBlock(tb, txs, cap), m)
  }

  function PackingClauses(tb: Table, txs: nat, slots: nat, cap: int): seq<Clause> {
    TxClauses(tb, txs, slots) + SlotClauses(tb, txs, slots, cap)
  }

  ghost predicate HasCells(tb: Table, txs: nat, slots: nat) {
    forall t: nat, s: nat | t < txs && s < slots :: CellName(t, s) in tb
  }

  ghost predicate HasTxHelpers(tb: Table, txs: nat, slots: nat) {
    forall t: nat | t < txs && 1 < slots :: HasHelpers(tb, TxTag(t), slots, 1)
  }

  ghost predicate HasSlotHelpers(tb: Table, txs: nat, slots: nat, cap: int) {
    forall s: nat | s < slots && 1 <= cap < txs :: HasHelpers(tb, SlotTag(s), txs, cap)
  }

  /** A table that numbers every name the instance mentions, each with its own number. */
  ghost predicate Complete(tb: Table, txs: nat, slots: nat, cap: int) {
    && WellNumbered(tb)
    && HasCells(tb, txs, slots)
    && HasTxHelpers(tb, txs, slots)
    && HasSlotHelpers(tb, txs, slots, cap)
  }

  // ---------- double counting ----------

  function Bit(b: bool): nat {
    if b then 1 else 0
  }

  /** Cells of transaction t set among slots 0, ..., m - 1. */
  function RowCount(a: Assignment, tb: Table, t: nat, m: nat): nat {
    if m == 0 then 0 else RowCount(a, tb, t, m - 1) + Bit(a(Cell(tb, t, m - 1)))
  }

  /** Cells of slot s set among transactions 0, ..., m - 1. */
  function ColCount(a: Assignment, tb: Table, m: nat, s: nat): nat {
    if m == 0 then 0 else ColCount(a, tb, m - 1, s) + Bit(a(Cell(tb, m - 1, s)))
  }

  function RowTotal(a: Assignment, tb: Table, m: nat, slots: nat): nat {
    if m == 0 then 0 else RowTotal(a, tb, m - 1, slots) + RowCount(a, tb, m - 1, slots)
  }

  function ColTotal(a: Assignment, tb: Table, txs: nat, m: nat): nat {
    if m == 0 then 0 else ColTotal(a, tb, txs, m - 1) + ColCount(a, tb, txs, m - 1)
  }

  lemma {:induction false} AddTransaction(a: Assignment, tb: Table, t: nat, m: nat)
    ensures ColTotal(a, tb, t + 1, m) == ColTotal(a, tb, t, m) + RowCount(a, tb, t, m)
  {
    if m > 0 {
      AddTransaction(a, tb, t, m - 1);
    }
  }

  lemma {:induction false} NoTransactions(a: Assignment, tb: Table, m: nat)
    ensures ColTotal(a, tb, 0, m) == 0
  {
    if m > 0 {
      NoTransactions(a, tb, m - 1);
    }
  }

  /** Counting set cells by transaction or by slot gives the same number. */
  lemma {:induction false} DoubleCounting(a: Assignment, tb: Table, txs: nat, slots: nat)
    ensures RowTotal(a, tb, txs, slots) == ColTotal(a, tb, txs, slots)
  {
    if txs == 0 {
      NoTransactions(a, tb, slots);
    } else {
      DoubleCounting(a, tb, txs - 1, slots);
      AddTransaction(a, tb, txs - 1, slots);
    }
  }

  lemma {:induction false} RowLitsCount(a: Assignment, tb: Table, t: nat, n: nat, m: nat)
    requires m <= n && forall s: nat | s < n :: Cell(tb, t, s) > 0
    ensures forall s: nat | s < n :: RowLits(tb, t, n)[s] == Cell(tb, t, s)
    ensures 0 !in RowLits(tb, t, n)
    ensures CountTrue(a, RowLits(tb, t, n), m) == RowCount(a, tb, t, m)
    decreases n, m
  {
    if n > 0 {
      RowLitsCount(a, tb, t, n - 1, 0);
    }
    if m > 0 {
      RowLitsCount(a, tb, t, n, m - 1);
    }
  }

  lemma {:induction false} ColLitsCount(a: Assignment, tb: Table, n: nat, s: nat, m: nat)
    requires m <= n && forall t: nat | t < n :: Cell(tb, t, s) > 0
    ensures forall t: nat | t < n :: ColLits(tb, n, s)[t] == Cell(tb, t, s)
    ensures 0 !in ColLits(tb, n, s)
    ensures CountTrue(a, ColLits(tb, n, s), m) == ColCount(a, tb, m, s)
    decreases n, m
  {
    if n > 0 {
      ColLitsCount(a, tb, n - 1, s, 0);
    }
    if m > 0 {
      ColLitsCount(a, tb, n, s, m - 1);
    }
  }

  // ---------- a model gives a packing ----------

  lemma {:induction false} SomeTrue(a: Assignment, lits: seq<int>, m: nat)
    requires m <= |lits|
    ensures CountTrue(a, lits, m) > 0 <==> exists i | 0 <= i < m :: LitTrue(a, lits[i])
  {
    if m > 0 {
      SomeTrue(a, lits, m - 1);
      if LitTrue(a, lits[m - 1]) {
      } else if CountTrue(a, lits, m - 1) > 0 {
        var i :| 0 <= i < m - 1 && LitTrue(a, lits[i]);
        assert 0 <= i < m;
      }
    }
  }

  lemma ClauseHasTrue(a: Assignment, lits: seq<int>)
    ensures Holds(a, lits) <==> CountTrue(a, lits, |lits|) > 0
  {
    SomeTrue(a, lits, |lits|);
    if Holds(a, lits) {
      var lit :| lit in lits && LitTrue(a, lit);
      var i :| 0 <= i < |lits| && lits[i] == lit;
      assert LitTrue(a, lits[i]);
    }
  }

  /** exactly_one means exactly one: soundness. */
  lemma ExactlyOneSound(a: Assignment, lits: seq<int>, tb: Table, tag: string)
    requires 0 !in lits && WellNumbered(tb) && (1 < |lits| ==> HasHelpers(tb, tag, |lits|, 1))
    requires Sat(a, ExactlyOneClauses(lits, tb, tag))
    ensures CountTrue(a, lits, |lits|) == 1
  {
    assert lits in ExactlyOneClauses(lits, tb, tag);
    ClauseHasTrue(a, lits);
    if |lits| > 1 {
      SatAppend(a, [lits], AtMostClauses(lits, 1, tb, tag));
      NumbersPositive(tb, tag, |lits|, 1);
      AtMostSound(a, lits, 1, tb, tag);
    }
  }

  /** exactly_one means exactly one: completeness. */
  lemma ExactlyOneComplete(a: Assignment, lits: seq<int>, tb: Table, tag: string)
    requires 0 !in lits && WellNumbered(tb) && (1 < |lits| ==> HasHelpers(tb, tag, |lits|, 1))
    requires CountTrue(a, lits, |lits|) == 1 && Tracks(a, lits, tb, tag, 1)
    ensures Sat(a, ExactlyOneClauses(lits, tb, tag))
  {
    ClauseHasTrue(a, lits);
    Sat1(a, lits);
    if |lits| > 1 {
      NumbersPositive(tb, tag, |lits|, 1);
      AtMostComplete(a, lits, 1, tb, tag);
    } else {
      assert AtMostClauses(lits, 1, tb, tag) == [];
    }
    SatAppend(a, [lits], AtMostClauses(lits, 1, tb, tag));
  }

  lemma CellsPositive(tb: Table, txs: nat, slots: nat)
    requires WellNumbered(tb) && HasCells(tb, txs, slots)
    ensures forall t: nat, s: nat | t < txs && s < slots :: Cell(tb, t, s) > 0
  {
  }

  lemma TxSound(a: Assignment, tb: Table, m: nat, txs: nat, slots: nat, cap: int)
    requires m <= txs && Complete(tb, txs, slots, cap)
    requires Sat(a, TxClauses(tb, m, slots))
    ensures RowTotal(a, tb, m, slots) == m
    ensures forall t: nat | t < m :: RowCount(a, tb, t, slots) == 1
  {
    forall t: nat | t < m ensures RowCount(a, tb, t, slots) == 1 {
      SatTx(a, tb, m, slots, t);
      RowSound(a, tb, t, txs, slots, cap);
    }
    TotalOfOnes(a, tb, m, slots);
  }

  // ---------- clauses block by block ----------

  lemma {:induction false} SatFlat(a: Assignment, block: nat -> seq<Clause>, m: nat)
    ensures Sat(a, Flat(block, m)) <==> forall t: nat | t < m :: Sat(a, block(t))
  {
    if m > 0 {
      SatFlat(a, block, m - 1);
      SatAppend(a, Flat(block, m - 1), block(m - 1));
    }
  }

  lemma SatTx(a: Assignment, tb: Table, m: nat, slots: nat, t: nat)
    requires t < m && Sat(a, TxClauses(tb, m, slots))
    ensures Sat(a, ExactlyOneClauses(RowLits(tb, t, slots), tb, TxTag(t)))
  {
    SatFlat(a, TxBlock(tb, slots), m);
    assert Sat(a, TxBlock(tb, slots)(t));
  }

  lemma {:induction false} TotalOfOnes(a: Assignment, tb: Table, m: nat, slots: nat)
    requires forall t: nat | t < m :: RowCount(a, tb, t, slots) == 1
    ensures RowTotal(a, tb, m, slots) == m
  {
    if m > 0 {
      TotalOfOnes(a, tb, m - 1, slots);
    }
  }

  lemma RowSound(a: Assignment, tb: Table, t: nat, txs: nat, slots: nat, cap: int)
    requires t < txs && Complete(tb, txs, slots, cap)
    requires Sat(a, ExactlyOneClauses(RowLits(tb, t, slots), tb, TxTag(t)))
    ensures RowCount(a, tb, t, slots) == 1
  {
    CellsPositive(tb, txs, slots);
    RowLitsCount(a, tb, t, slots, slots);
    ExactlyOneSound(a, RowLits(tb, t, slots), tb, TxTag(t));
  }

  lemma ColumnSound(a: Assignment, tb: Table, txs: nat, s: nat, slots: nat, cap: nat)
    requires s < slots && Complete(tb, txs, slots, cap)
    requires Sat(a, AtMostClauses(ColLits(tb, txs, s), cap, tb, SlotTag(s)))
    ensures ColCount(a, tb, txs, s) <= cap
  {
    CellsPositive(tb, txs, slots);
    ColLitsCount(a, tb, txs, s, txs);
    if 1 <= cap < txs {
      NumbersPositive(tb, SlotTag(s), txs, cap);
    }
    AtMostSound(a, ColLits(tb, txs, s), cap, tb, SlotTag(s));
  }

  lemma OneMore(m: nat, cap: nat)
    ensures (m + 1) * cap == m * cap + cap
  {
  }

  lemma SlotSound(a: Assignment, tb: Table, txs: nat, m: nat, slots: nat, cap: nat)
    requires m <= slots && Complete(tb, txs, slots, cap)
    requires Sat(a, SlotClauses(tb, txs, m, cap))
    ensures ColTotal(a, tb, txs, m) <= m * cap
    ensures forall s: nat | s < m :: ColCount(a, tb, txs, s) <= cap
  {
    SatFlat(a, SlotBlock(tb, txs, cap), m);
    forall s: nat | s < m ensures ColCount(a, tb, txs, s) <= cap {
      assert Sat(a, SlotBlock(tb, txs, cap)(s));
      ColumnSound(a, tb, txs, s, slots, cap);
    }
    TotalOfAtMost(a, tb, txs, m, cap);
  }

  lemma {:induction false} TotalOfAtMost(a: Assignment, tb: Table, txs: nat, m: nat, cap: nat)
    requires forall s: nat | s < m :: ColCount(a, tb, txs, s) <= cap
    ensures ColTotal(a, tb, txs, m) <= m * cap
  {
    if m > 0 {
      TotalOfAtMost(a, tb, txs, m - 1, cap);
      OneMore(m - 1, cap);
    }
  }

  /** Generalised pigeonhole: a model puts every transaction somewhere and overfills no slot. */
  lemma ModelPacks(a: Assignment, tb: Table, txs: nat, slots: nat, cap: nat)
    requires Complete(tb, txs, slots, cap) && Sat(a, PackingClauses(tb, txs, slots, cap))
    ensures forall t: nat | t < txs :: RowCount(a, tb, t, slots) == 1
    ensures forall s: nat | s < slots :: ColCount(a, tb, txs, s) <= cap
    ensures ColTotal(a, tb, txs, slots) == txs <= slots * cap
  {
    SatAppend(a, TxClauses(tb, txs, slots), SlotClauses(tb, txs, slots, cap));
    TxSound(a, tb, txs, txs, slots, cap);
    SlotSound(a, tb, txs, slots, slots, cap);
    DoubleCounting(a, tb, txs, slots);
  }

  // ---------- a packing gives a model ----------

  /** The packing that fills slot after slot: slot s takes transactions s * cap, ..., s * cap + cap - 1. */
  predicate Placed(t: nat, s: nat, cap: nat) {
    s * cap <= t < s * cap + cap
  }

  function Clamp(x: int, hi: nat): (r: nat)
    ensures r <= hi
  {
    if x < 0 then 0 else if x > hi then hi else x
  }

  /** The assignment of that packing: cells as placed, registers at the counts of placed cells. */
  ghost function PackedAssignment(tb: Table, cap: nat): Assignment {
    (v: int) => IsPlacedCell(tb, cap, v) || IsTxRegister(tb, cap, v) || IsSlotRegister(tb, cap, v)
  }

  ghost predicate IsPlacedCell(tb: Table, cap: nat, v: int) {
    exists t: nat, s: nat :: CellName(t, s) in tb && v == Cell(tb, t, s) && Placed(t, s, cap)
  }

  ghost predicate IsTxRegister(tb: Table, cap: nat, v: int) {
    exists t: nat, i: nat, j: nat ::
      HelperName(TxTag(t), i, j) in tb && v == Helper(tb, TxTag(t), i, j) && Bit(t < (i + 1) * cap) >= j
  }

  ghost predicate IsSlotRegister(tb: Table, cap: nat, v: int) {
    exists s: nat, i: nat, j: nat ::
      HelperName(SlotTag(s), i, j) in tb && v == Helper(tb, SlotTag(s), i, j) && Clamp(i + 1 - s * cap, cap) >= j
  }

  lemma PackedCell(tb: Table, cap: nat, t: nat, s: nat)
    requires WellNumbered(tb) && CellName(t, s) in tb
    ensures PackedAssignment(tb, cap)(Cell(tb, t, s)) == Placed(t, s, cap)
  {
    forall t': nat, s': nat | CellName(t', s') == CellName(t, s) ensures t' == t && s' == s {
      CellNameInjective(t', s', t, s);
    }
    forall m: nat, i: nat, j: nat
      ensures CellName(t, s) != HelperName(TxTag(m), i, j) && CellName(t, s) != HelperName(SlotTag(m), i, j)
    {
      FamiliesDisjoint(t, s, m, i, j, m, i, j);
    }
  }

  lemma PackedTxRegister(tb: Table, cap: nat, t: nat, i: nat, j: nat)
    requires WellNumbered(tb) && HelperName(TxTag(t), i, j) in tb
    ensures PackedAssignment(tb, cap)(Helper(tb, TxTag(t), i, j)) == (Bit(t < (i + 1) * cap) >= j)
  {
    var name := HelperName(TxTag(t), i, j);
    forall t': nat, s': nat ensures CellName(t', s') != name {
      FamiliesDisjoint(t', s', t, i, j, 0, 0, 0);
    }
    forall s': nat, i': nat, j': nat ensures HelperName(SlotTag(s'), i', j') != name {
      FamiliesDisjoint(0, 0, t, i, j, s', i', j');
    }
    forall t': nat, i': nat, j': nat | HelperName(TxTag(t'), i', j') == name
      ensures t' == t && i' == i && j' == j
    {
      TaggedNameInjective("tx", t', i', j', t, i, j);
    }
  }

  lemma PackedSlotRegister(tb: Table, cap: nat, s: nat, i: nat, j: nat)
    requires WellNumbered(tb) && HelperName(SlotTag(s), i, j) in tb
    ensures PackedAssignment(tb, cap)(Helper(tb, SlotTag(s), i, j)) == (Clamp(i + 1 - s * cap, cap) >= j)
  {
    var name := HelperName(SlotTag(s), i, j);
    forall t': nat, s': nat ensures CellName(t', s') != name {
      FamiliesDisjoint(t', s', 0, 0, 0, s, i, j);
    }
    forall t': nat, i': nat, j': nat ensures HelperName(TxTag(t'), i', j') != name {
      FamiliesDisjoint(0, 0, t', i', j', s, i, j);
    }
    forall s': nat, i': nat, j': nat | HelperName(SlotTag(s'), i', j') == name
      ensures s' == s && i' == i && j' == j
    {
      TaggedNameInjective("slot", s', i', j', s, i, j);
    }
  }

  lemma {:induction false} PlacedRow(a: Assignment, tb: Table, cap: nat, t: nat, m: nat)
    requires forall s: nat | s < m :: a(Cell(tb, t, s)) == Placed(t, s, cap)
    ensures RowCount(a, tb, t, m) == Bit(t < m * cap)
  {
    if m > 0 {
      PlacedRow(a, tb, cap, t, m - 1);
      OneMore(m - 1, cap);
    }
  }

  lemma PackedRow(tb: Table, cap: nat, t: nat, m: nat)
    requires WellNumbered(tb) && forall s: nat | s < m :: CellName(t, s) in tb
    ensures RowCount(PackedAssignment(tb, cap), tb, t, m) == Bit(t < m * cap)
  {
    forall s: nat | s < m ensures PackedAssignment(tb, cap)(Cell(tb, t, s)) == Placed(t, s, cap) {
      PackedCell(tb, cap, t, s);
    }
    PlacedRow(PackedAssignment(tb, cap), tb, cap, t, m);
  }

  lemma {:induction false} PlacedCol(a: Assignment, tb: Table, base: nat, cap: nat, s: nat, m: nat)
    requires forall t: nat | t < m :: a(Cell(tb, t, s)) == (base <= t < base + cap)
    ensures ColCount(a, tb, m, s) == Clamp(m - base, cap)
  {
    if m > 0 {
      PlacedCol(a, tb, base, cap, s, m - 1);
    }
  }

  lemma PackedCol(tb: Table, cap: nat, s: nat, m: nat)
    requires WellNumbered(tb) && forall t: nat | t < m :: CellName(t, s) in tb
    ensures ColCount(PackedAssignment(tb, cap), tb, m, s) == Clamp(m - s * cap, cap)
  {
    forall t: nat | t < m ensures PackedAssignment(tb, cap)(Cell(tb, t, s)) == Placed(t, s, cap) {
      PackedCell(tb, cap, t, s);
    }
    PlacedCol(PackedAssignment(tb, cap), tb, s * cap, cap, s, m);
  }

  lemma PackedTxTracks(tb: Table, txs: nat, slots: nat, cap: nat, t: nat)
    requires t < txs && Complete(tb, txs, slots, cap)
    ensures Tracks(PackedAssignment(tb, cap), RowLits(tb, t, slots), tb, TxTag(t), 1)
  {
    var a := PackedAssignment(tb, cap);
    CellsPositive(tb, txs, slots);
    forall i: nat, j: nat | i < slots - 1 && 1 <= j <= 1
      ensures a(Helper(tb, TxTag(t), i, j)) == (CountTrue(a, RowLits(tb, t, slots), i + 1) >= j)
    {
      assert HasRow(tb, TxTag(t), i, 1);
      RowLitsCount(a, tb, t, slots, i + 1);
      PackedRow(tb, cap, t, i + 1);
      PackedTxRegister(tb, cap, t, i, j);
    }
  }

  lemma PackedSlotTrack(tb: Table, txs: nat, slots: nat, cap: nat, s: nat, i: nat, j: nat)
    requires s < slots && cap < txs && Complete(tb, txs, slots, cap) && i < txs - 1 && 1 <= j <= cap
    ensures var a := PackedAssignment(tb, cap);
            a(Helper(tb, SlotTag(s), i, j)) == (CountTrue(a, ColLits(tb, txs, s), i + 1) >= j)
  {
    CellsPositive(tb, txs, slots);
    assert HasRow(tb, SlotTag(s), i, cap);
    ColLitsCount(PackedAssignment(tb, cap), tb, txs, s, i + 1);
    PackedCol(tb, cap, s, i + 1);
    PackedSlotRegister(tb, cap, s, i, j);
  }

  lemma PackedSlotTracks(tb: Table, txs: nat, slots: nat, cap: nat, s: nat)
    requires s < slots && cap < txs && Complete(tb, txs, slots, cap)
    ensures Tracks(PackedAssignment(tb, cap), ColLits(tb, txs, s), tb, SlotTag(s), cap)
  {
    var a := PackedAssignment(tb, cap);
    CellsPositive(tb, txs, slots);
    forall i: nat, j: nat | i < txs - 1 && 1 <= j <= cap
      ensures a(Helper(tb, SlotTag(s), i, j)) == (CountTrue(a, ColLits(tb, txs, s), i + 1) >= j)
    {
      PackedSlotTrack(tb, txs, slots, cap, s, i, j);
    }
  }

  lemma PackedTx(tb: Table, txs: nat, slots: nat, cap: nat, t: nat)
    requires t < txs <= slots * cap && Complete(tb, txs, slots, cap)
    ensures Sat(PackedAssignment(tb, cap), ExactlyOneClauses(RowLits(tb, t, slots), tb, TxTag(t)))
  {
    var a := PackedAssignment(tb, cap);
    CellsPositive(tb, txs, slots);
    RowLitsCount(a, tb, t, slots, slots);
    PackedRow(tb, cap, t, slots);
    PackedTxTracks(tb, txs, slots, cap, t);
    ExactlyOneComplete(a, RowLits(tb, t, slots), tb, TxTag(t));
  }

  lemma SatTxs(a: Assignment, tb: Table, slots: nat, m: nat)
    requires forall t: nat | t < m :: Sat(a, TxBlock(tb, slots)(t))
    ensures Sat(a, TxClauses(tb, m, slots))
  {
    SatFlat(a, TxBlock(tb, slots), m);
  }

  lemma PackedColumn(tb: Table, txs: nat, slots: nat, cap: nat, s: nat)
    requires s < slots && Complete(tb, txs, slots, cap)
    ensures Sat(PackedAssignment(tb, cap), AtMostClauses(ColLits(tb, txs, s), cap, tb, SlotTag(s)))
  {
    var a := PackedAssignment(tb, cap);
    CellsPositive(tb, txs, slots);
    ColLitsCount(a, tb, txs, s, txs);
    PackedCol(tb, cap, s, txs);
    if 1 <= cap < txs {
      PackedSlotTracks(tb, txs, slots, cap, s);
      NumbersPositive(tb, SlotTag(s), txs, cap);
    }
    AtMostComplete(a, ColLits(tb, txs, s), cap, tb, SlotTag(s));
  }

  lemma SatSlots(a: Assignment, tb: Table, txs: nat, m: nat, cap: nat)
    requires forall s: nat | s < m :: Sat(a, SlotBlock(tb, txs, cap)(s))
    ensures Sat(a, SlotClauses(tb, txs, m, cap))
  {
    SatFlat(a, SlotBlock(tb, txs, cap), m);
  }

  /** The instance has a model exactly when the transactions fit into the slots. */
  lemma PackingSatisfiable(tb: Table, txs: nat, slots: nat, cap: nat)
    requires Complete(tb, txs, slots, cap)
    ensures Satisfiable(PackingClauses(tb, txs, slots, cap)) <==> txs <= slots * cap
  {
    var clauses := PackingClauses(tb, txs, slots, cap);
    forall a: Assignment | Sat(a, clauses) ensures txs <= slots * cap {
      ModelPacks(a, tb, txs, slots, cap);
    }
    if txs <= slots * cap {
      var a := PackedAssignment(tb, cap);
      forall t: nat | t < txs
        ensures Sat(a, TxBlock(tb, slots)(t))
      {
        PackedTx(tb, txs, slots, cap, t);
      }
      SatTxs(a, tb, slots, txs);
      forall s: nat | s < slots
        ensures Sat(a, SlotBlock(tb, txs, cap)(s))
      {
        PackedColumn(tb, txs, slots, cap, s);
      }
      SatSlots(a, tb, txs, slots, cap);
      SatAppend(a, TxClauses(tb, txs, slots), SlotClauses(tb, txs, slots, cap));
      assert Sat(a, clauses);
    }
  }
}
