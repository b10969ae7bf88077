/**
 The entry points of scripts/tn12_tps_cnf.py and scripts/bps100_cnf.py: encoding an instance,
 reading a solver's model back, reducing the rate, and the k + 1 reduction.
 */
module Encoder {
  import opened Basics
  import opened Cnf
  import opened Packing

  function NTx(tps: int, window: int): int {
    tps * window
  }

  function NSlots(bps: int, window: int): int {
    bps * window
  }

  predicate PackingFits(tps: int, bps: int, cap: int, window: int) {
    NTx(tps, window) <= NSlots(bps, window) * cap
  }

  // ---------- encode_packing ----------

  ghost predicate Assigns(assign: Table, tb: Table, txs: nat, slots: nat) {
    forall t: nat, s: nat | t < txs && s < slots ::
      CellName(t, s) in assign && assign[CellName(t, s)] == Cell(tb, t, s)
  }

  lemma CellsKept(tb: Table, later: Table, txs: nat, slots: nat, assign: Table)
    requires Extends(tb, later) && HasCells(tb, txs, slots) && Assigns(assign, tb, txs, slots)
    ensures HasCells(later, txs, slots) && Assigns(assign, later, txs, slots)
  {
    forall t: nat, s: nat | t < txs && s < slots
      ensures CellName(t, s) in later && Cell(later, t, s) == Cell(tb, t, s)
    {
      assert CellName(t, s) in tb;
    }
  }

  lemma TxHelpersKept(tb: Table, later: Table, txs: nat, slots: nat)
    requires Extends(tb, later) && HasTxHelpers(tb, txs, slots)
    ensures HasTxHelpers(later, txs, slots)
  {
    forall t: nat | t < txs && 1 < slots ensures HasHelpers(later, TxTag(t), slots, 1) {
      HelpersKept(tb, later, TxTag(t), slots, 1);
    }
  }

  lemma SlotHelpersKept(tb: Table, later: Table, txs: nat, slots: nat, cap: int)
    requires Extends(tb, later) && HasSlotHelpers(tb, txs, slots, cap)
    ensures HasSlotHelpers(later, txs, slots, cap)
  {
    forall s: nat | s < slots && 1 <= cap < txs ensures HasHelpers(later, SlotTag(s), txs, cap) {
      HelpersKept(tb, later, SlotTag(s), txs, cap);
    }
  }

  /** Later entries of the dictionary keep the earlier ones that agree with the name table. */
  ghost predicate Recorded(tb: Table, assign: Table, assign': Table) {
    forall n | n in assign :: n in assign' && (assign[n] == Number(tb, n) > 0 ==> assign'[n] == assign[n])
  }

  lemma RecordOne(tb: Table, later: Table, assign: Table, assign': Table, name: string)
    requires Recorded(tb, assign, assign') && Extends(tb, later) && name in later
    ensures Recorded(tb, assign, assign'[name := later[name]])
  {
  }

  /** One row of cell variables, recorded in the assignment dictionary. */
  method RowVariables(cnf: Builder, t: nat, slots: nat, assign: Table) returns (row: seq<int>, assign': Table)
    requires cnf.Valid()
    modifies cnf
    ensures cnf.Valid() && Extends(old(cnf.table), cnf.table) && cnf.clauses == old(cnf.clauses)
    ensures forall s: nat | s < slots :: CellName(t, s) in cnf.table
    ensures forall tb | Extends(cnf.table, tb) :: row == RowLits(tb, t, slots)
    ensures forall s: nat | s < slots :: CellName(t, s) in assign' && assign'[CellName(t, s)] == Cell(cnf.table, t, s)
    ensures Recorded(old(cnf.table), assign, assign')
  {
    row, assign' := [], assign;
    for s := 0 to slots
      invariant cnf.Valid() && Extends(old(cnf.table), cnf.table) && cnf.clauses == old(cnf.clauses)
      invariant forall s': nat | s' < s :: CellName(t, s') in cnf.table
      invariant forall tb | Extends(cnf.table, tb) :: row == RowLits(tb, t, s)
      invariant forall s': nat | s' < s ::
                  CellName(t, s') in assign' && assign'[CellName(t, s')] == Cell(cnf.table, t, s')
      invariant Recorded(old(cnf.table), assign, assign')
    {
      var lit := cnf.V(CellName(t, s));
      row := row + [lit];
      RecordOne(old(cnf.table), cnf.table, assign, assign', CellName(t, s));
      assign' := assign'[CellName(t, s) := lit];
    }
  }

  method EncodeTx(cnf: Builder, t: nat, slots: nat, assign: Table) returns (assign': Table)
    requires cnf.Valid()
    modifies cnf
    ensures cnf.Valid() && Extends(old(cnf.table), cnf.table)
    ensures forall s: nat | s < slots :: CellName(t, s) in cnf.table
    ensures 1 < slots ==> HasHelpers(cnf.table, TxTag(t), slots, 1)
    ensures forall tb | Extends(cnf.table, tb) ::
              cnf.clauses == old(cnf.clauses) + ExactlyOneClauses(RowLits(tb, t, slots), tb, TxTag(t))
    ensures forall s: nat | s < slots :: CellName(t, s) in assign' && assign'[CellName(t, s)] == Cell(cnf.table, t, s)
    ensures Recorded(old(cnf.table), assign, assign')
  {
    var row;
    row, assign' := RowVariables(cnf, t, slots, assign);
    ghost var tb1 := cnf.table;
    assert |row| == |RowLits(tb1, t, slots)| == slots;
    cnf.ExactlyOne(row, TxTag(t));
    assert forall tb | Extends(cnf.table, tb) :: Extends(tb1, tb);
    assert forall s: nat | s < slots :: CellName(t, s) in tb1 && Cell(cnf.table, t, s) == Cell(tb1, t, s);
  }

  /** The rows: every transaction sits in exactly one slot. */
  method EncodeTxs(cnf: Builder, txs: nat, slots: nat) returns (assign: Table)
    requires cnf.Valid() && cnf.clauses == []
    modifies cnf
    ensures cnf.Valid()
    ensures HasCells(cnf.table, txs, slots) && HasTxHelpers(cnf.table, txs, slots)
    ensures Assigns(assign, cnf.table, txs, slots)
    ensures forall tb | Extends(cnf.table, tb) :: cnf.clauses == TxClauses(tb, txs, slots)
  {
    assign := map[];
    for t := 0 to txs
      invariant cnf.Valid()
      invariant HasCells(cnf.table, t, slots) && HasTxHelpers(cnf.table, t, slots)
      invariant Assigns(assign, cnf.table, t, slots)
      invariant forall tb | Extends(cnf.table, tb) :: cnf.clauses == TxClauses(tb, t, slots)
    {
      ghost var tb0, before := cnf.table, assign;
      cnf.ValidIsWellNumbered();
      assign := EncodeTx(cnf, t, slots, assign);
      NextRow(tb0, cnf.table, t, slots, before, assign);
      assert forall tb | Extends(cnf.table, tb) :: Extends(tb0, tb);
    }
  }

  lemma NextRow(tb: Table, later: Table, t: nat, slots: nat, assign: Table, assign': Table)
    requires WellNumbered(tb) && Extends(tb, later)
    requires HasCells(tb, t, slots) && HasTxHelpers(tb, t, slots) && Assigns(assign, tb, t, slots)
    requires forall s: nat | s < slots :: CellName(t, s) in later
    requires 1 < slots ==> HasHelpers(later, TxTag(t), slots, 1)
    requires forall s: nat | s < slots :: CellName(t, s) in assign' && assign'[CellName(t, s)] == Cell(later, t, s)
    requires Recorded(tb, assign, assign')
    ensures HasCells(later, t + 1, slots) && HasTxHelpers(later, t + 1, slots)
    ensures Assigns(assign', later, t + 1, slots)
  {
    CellsKept(tb, later, t, slots, assign);
    TxHelpersKept(tb, later, t, slots);
  }

  method EncodeSlot(cnf: Builder, txs: nat, s: nat, cap: nat)
    requires cnf.Valid()
    modifies cnf
    ensures cnf.Valid() && Extends(old(cnf.table), cnf.table)
    ensures 1 <= cap < txs ==> HasHelpers(cnf.table, SlotTag(s), txs, cap)
    ensures forall tb | Extends(cnf.table, tb) ::
              cnf.clauses == old(cnf.clauses) + AtMostClauses(ColLits(tb, txs, s), cap, tb, SlotTag(s))
  {
    var col := ColumnVariables(cnf, txs, s);
    ghost var tb1 := cnf.table;
    assert |col| == |ColLits(tb1, txs, s)| == txs;
    cnf.AtMost(col, cap, SlotTag(s));
    assert forall tb | Extends(cnf.table, tb) :: Extends(tb1, tb);
  }

  /** The columns: no slot takes more than cap transactions. */
  method EncodeSlots(cnf: Builder, txs: nat, slots: nat, cap: nat, ghost assign: Table)
    requires cnf.Valid() && HasCells(cnf.table, txs, slots) && HasTxHelpers(cnf.table, txs, slots)
    requires Assigns(assign, cnf.table, txs, slots)
    requires forall tb | Extends(cnf.table, tb) :: cnf.clauses == TxClauses(tb, txs, slots)
    modifies cnf
    ensures cnf.Valid() && Complete(cnf.table, txs, slots, cap)
    ensures Assigns(assign, cnf.table, txs, slots)
    ensures cnf.clauses == PackingClauses(cnf.table, txs, slots, cap)
  {
    for s := 0 to slots
      invariant cnf.Valid() && Extends(old(cnf.table), cnf.table)
      invariant HasSlotHelpers(cnf.table, txs, s, cap)
      invariant forall tb | Extends(cnf.table, tb) ::
                  cnf.clauses == TxClauses(tb, txs, slots) + SlotClauses(tb, txs, s, cap)
    {
      ghost var tb0, done := cnf.table, cnf.clauses;
      EncodeSlot(cnf, txs, s, cap);
      SlotHelpersKept(tb0, cnf.table, txs, s, cap);
      forall tb | Extends(cnf.table, tb)
        ensures cnf.clauses == TxClauses(tb, txs, slots) + SlotClauses(tb, txs, s + 1, cap)
      {
        assert Extends(tb0, tb);
        Append(TxClauses(tb, txs, slots), SlotClauses(tb, txs, s, cap),
               AtMostClauses(ColLits(tb, txs, s), cap, tb, SlotTag(s)), done);
      }
    }
    cnf.ValidIsWellNumbered();
    CellsKept(old(cnf.table), cnf.table, txs, slots, assign);
    TxHelpersKept(old(cnf.table), cnf.table, txs, slots);
    assert Extends(cnf.table, cnf.table);
  }

  /** One column: the same variables again, found by name. */
  method ColumnVariables(cnf: Builder, txs: nat, s: nat) returns (col: seq<int>)
    requires cnf.Valid()
    modifies cnf
    ensures cnf.Valid() && Extends(old(cnf.table), cnf.table) && cnf.clauses == old(cnf.clauses)
    ensures forall tb | Extends(cnf.table, tb) :: col == ColLits(tb, txs, s)
  {
    col := [];
    for t := 0 to txs
      invariant cnf.Valid() && Extends(old(cnf.table), cnf.table) && cnf.clauses == old(cnf.clauses)
      invariant forall tb | Extends(cnf.table, tb) :: col == ColLits(tb, t, s)
    {
      var lit := cnf.V(CellName(t, s));
      col := col + [lit];
    }
  }

  datatype Encoding = Rejected | Encoded(cnf: Builder, assign: Table)

  /** packing_fits in plain arithmetic: a positive window drops out. */
  lemma WindowDropsOut(tps: int, bps: int, cap: int, window: int)
    ensures PackingFits(tps, bps, cap, window) <==> tps * window <= bps * window * cap
    ensures window > 0 ==> (PackingFits(tps, bps, cap, window) <==> tps <= bps * cap)
  {
    ScaleProduct(window, bps, cap);
    assert bps * window * cap == window * (bps * cap) && tps * window == window * tps;
    if window > 0 {
      ScaleCompare(window, tps, bps * cap);
    }
  }

  /**
   The encoder: rejected exactly outside its domain; inside it, the clause list encodes
   tps * window transactions into bps * window slots, and has a model exactly when those fit.
   */
  method EncodePacking(tps: int, bps: int, cap: int, window: int) returns (r: Encoding)
    ensures r.Encoded? <==> tps >= 0 && cap >= 0 && bps > 0 && window > 0
    ensures r.Encoded? ==>
              && tps * window >= 0 && bps * window > 0
              && Complete(r.cnf.table, tps * window, bps * window, cap)
              && r.cnf.clauses == PackingClauses(r.cnf.table, tps * window, bps * window, cap)
              && Assigns(r.assign, r.cnf.table, tps * window, bps * window)
              && (Satisfiable(r.cnf.clauses) <==> tps * window <= bps * window * cap)
  {
    if tps < 0 || bps < 0 || cap < 0 || window < 0 {
      return Rejected;
    }
    if bps == 0 || window == 0 {
      return Rejected;
    }
    SizesNonNegative(tps, bps, window);
    var cnf := new Builder();
    var txs: nat := NTx(tps, window);
    var slots: nat := NSlots(bps, window);
    var assign := EncodeTxs(cnf, txs, slots);
    EncodeSlots(cnf, txs, slots, cap, assign);
    PackingSatisfiable(cnf.table, txs, slots, cap);
    r := Encoded(cnf, assign);
  }

  lemma SizesNonNegative(tps: nat, bps: nat, window: nat)
    requires bps > 0 && window > 0
    ensures NTx(tps, window) == tps * window >= 0 && NSlots(bps, window) == bps * window > 0
  {
  }

  // ---------- decode_model ----------

  /** A solver's answer: consistent literals, one of them in every clause. */
  ghost predicate Solves(model: seq<int>, clauses: seq<Clause>) {
    && (forall lit | lit in model :: lit != 0 && -lit !in model)
    && (forall c | c in clauses :: exists lit | lit in c :: lit in model)
  }

  /** The positive literals of a model, as an assignment. */
  function Positive(model: seq<int>): Assignment {
    (v: int) => v > 0 && v in model
  }

  lemma SolvesIsSat(model: seq<int>, clauses: seq<Clause>)
    requires Solves(model, clauses)
    ensures Sat(Positive(model), clauses)
  {
    forall c | c in clauses ensures Holds(Positive(model), c) {
      var lit :| lit in c && lit in model;
      assert LitTrue(Positive(model), lit);
    }
  }

  /** Per-slot transaction counts. */
  method DecodeModel(model: seq<int>, txs: nat, slots: nat, assign: Table) returns (counts: seq<nat>)
    requires forall t: nat, s: nat | t < txs && s < slots :: CellName(t, s) in assign && assign[CellName(t, s)] > 0
    ensures |counts| == slots
    ensures forall s: nat | s < slots :: counts[s] == ColCount(Positive(model), assign, txs, s)
  {
    var a := Positive(model);
    counts := seq(slots, _ => 0);
    for t := 0 to txs
      invariant |counts| == slots
      invariant forall s: nat | s < slots :: counts[s] == ColCount(a, assign, t, s)
    {
      for s := 0 to slots
        invariant |counts| == slots
        invariant forall s': nat | s' < s :: counts[s'] == ColCount(a, assign, t + 1, s')
        invariant forall s': nat | s <= s' < slots :: counts[s'] == ColCount(a, assign, t, s')
      {
        if assign[CellName(t, s)] in model {
          counts := counts[s := counts[s] + 1];
        }
      }
    }
  }

  function Sum(counts: seq<nat>, m: nat): nat
    requires m <= |counts|
  {
    if m == 0 then 0 else Sum(counts, m - 1) + counts[m - 1]
  }

  lemma {:induction false} SumIsColTotal(a: Assignment, tb: Table, txs: nat, counts: seq<nat>, m: nat)
    requires m <= |counts| && forall s: nat | s < m :: counts[s] == ColCount(a, tb, txs, s)
    ensures Sum(counts, m) == ColTotal(a, tb, txs, m)
  {
    if m > 0 {
      SumIsColTotal(a, tb, txs, counts, m - 1);
    }
  }

  lemma {:induction false} SameCells(a: Assignment, assign: Table, tb: Table, m: nat, txs: nat, slots: nat, s: nat)
    requires m <= txs && s < slots && Assigns(assign, tb, txs, slots)
    ensures ColCount(a, assign, m, s) == ColCount(a, tb, m, s)
  {
    if m > 0 {
      SameCells(a, assign, tb, m - 1, txs, slots, s);
      assert CellName(m - 1, s) in assign;
    }
  }

  /**
   Whatever model a solver returns, the decoded counts add up to the number of transactions
   and none exceeds cap: the status "decode-cap-violation" cannot occur.
   */
  lemma DecodedCounts(model: seq<int>, tb: Table, assign: Table, txs: nat, slots: nat, cap: nat, counts: seq<nat>)
    requires Complete(tb, txs, slots, cap) && Assigns(assign, tb, txs, slots)
    requires Solves(model, PackingClauses(tb, txs, slots, cap))
    requires |counts| == slots
    requires forall s: nat | s < slots :: counts[s] == ColCount(Positive(model), assign, txs, s)
    ensures Sum(counts, slots) == txs
    ensures forall c | c in counts :: c <= cap
  {
    var a := Positive(model);
    SolvesIsSat(model, PackingClauses(tb, txs, slots, cap));
    ModelPacks(a, tb, txs, slots, cap);
    forall s: nat | s < slots ensures counts[s] == ColCount(a, tb, txs, s) {
      SameCells(a, assign, tb, txs, txs, slots, s);
    }
    SumIsColTotal(a, tb, txs, counts, slots);
  }

  // ---------- run_instance ----------

  datatype Answer = SatModel(model: seq<int>) | NoModel
  datatype Status = SAT | UNSAT | DecodeCapViolation

  /** The solver is right about the clauses. */
  ghost predicate Truthful(answer: Answer, clauses: seq<Clause>) {
    match answer
    case SatModel(model) => Solves(model, clauses)
    case NoModel => !Satisfiable(clauses)
  }

  /** The literals of the clauses that are true under an assignment. */
  function TrueLits(a: Assignment, clauses: seq<Clause>): seq<int> {
    if clauses == [] then [] else TrueLits(a, clauses[..|clauses| - 1]) + TrueIn(a, clauses[|clauses| - 1])
  }

  function TrueIn(a: Assignment, c: Clause): seq<int> {
    if c == [] then []
    else TrueIn(a, c[..|c| - 1]) + (if LitTrue(a, c[|c| - 1]) then [c[|c| - 1]] else [])
  }

  lemma {:induction false} TrueInMeans(a: Assignment, c: Clause, lit: int)
    ensures lit in TrueIn(a, c) <==> lit in c && LitTrue(a, lit)
    decreases |c|
  {
    if c != [] {
      var n := |c| - 1;
      TrueInMeans(a, c[..n], lit);
      assert c == c[..n] + [c[n]];
    }
  }

  lemma {:induction false} TrueLitsMeans(a: Assignment, clauses: seq<Clause>, lit: int)
    ensures lit in TrueLits(a, clauses) <==> LitTrue(a, lit) && exists c | c in clauses :: lit in c
    decreases |clauses|
  {
    if clauses != [] {
      var n := |clauses| - 1;
      TrueLitsMeans(a, clauses[..n], lit);
      TrueInMeans(a, clauses[n], lit);
      assert clauses == clauses[..n] + [clauses[n]];
    }
  }

  /** What a solver may return for a satisfying assignment: the true literals. */
  lemma TrueLitsSolve(a: Assignment, clauses: seq<Clause>)
    requires Sat(a, clauses)
    ensures Solves(TrueLits(a, clauses), clauses)
  {
    var model := TrueLits(a, clauses);
    forall lit | lit in model ensures lit != 0 && -lit !in model {
      TrueLitsMeans(a, clauses, lit);
      TrueLitsMeans(a, clauses, -lit);
    }
    forall c | c in clauses ensures exists lit | lit in c :: lit in model {
      assert Holds(a, c);
      var lit :| lit in c && LitTrue(a, lit);
      TrueLitsMeans(a, clauses, lit);
    }
  }

  /** Every clause list has a truthful answer, so a truthful solver is a possible one. */
  lemma AnswerExists(clauses: seq<Clause>)
    ensures exists answer: Answer :: Truthful(answer, clauses)
  {
    if Satisfiable(clauses) {
      var a :| Sat(a, clauses);
      TrueLitsSolve(a, clauses);
      assert Truthful(SatModel(TrueLits(a, clauses)), clauses);
    } else {
      assert Truthful(NoModel, clauses);
    }
  }

  ghost function TruthfulAnswer(clauses: seq<Clause>): (answer: Answer)
    ensures Truthful(answer, clauses)
  {
    AnswerExists(clauses);
    var answer :| Truthful(answer, clauses);
    answer
  }

  /** A solver that is right about every clause list: what RunInstance asks for can be had. */
  lemma SolverExists() returns (solve: seq<Clause> -> Answer)
    ensures forall clauses: seq<Clause> :: Truthful(solve(clauses), clauses)
  {
    solve := (clauses: seq<Clause>) => TruthfulAnswer(clauses);
  }

  function MaxCount(counts: seq<nat>, m: nat): (r: nat)
    requires m <= |counts|
    ensures forall i | 0 <= i < m :: counts[i] <= r
    ensures r == 0 || exists i :: 0 <= i < m && counts[i] == r
  {
    if m == 0 then 0
    else if counts[m - 1] > MaxCount(counts, m - 1) then counts[m - 1]
    else MaxCount(counts, m - 1)
  }

  function RunStatus(answer: Answer, counts: seq<nat>, cap: int): Status {
    match answer
    case NoModel => UNSAT
    case SatModel(_) => if MaxCount(counts, |counts|) > cap then DecodeCapViolation else SAT
  }

  /** With a truthful solver the reported status is always the one the arithmetic expects. */
  lemma RunMatchesArithmetic(tb: Table, assign: Table, txs: nat, slots: nat, cap: nat, answer: Answer, counts: seq<nat>)
    requires Complete(tb, txs, slots, cap) && Assigns(assign, tb, txs, slots)
    requires Truthful(answer, PackingClauses(tb, txs, slots, cap))
    requires answer.SatModel? ==> |counts| == slots
    requires answer.SatModel? ==>
               forall s: nat | s < slots :: counts[s] == ColCount(Positive(answer.model), assign, txs, s)
    ensures RunStatus(answer, counts, cap) == if txs <= slots * cap then SAT else UNSAT
  {
    PackingSatisfiable(tb, txs, slots, cap);
    if answer.SatModel? {
      SolvesIsSat(answer.model, PackingClauses(tb, txs, slots, cap));
      assert Satisfiable(PackingClauses(tb, txs, slots, cap));
      DecodedCounts(answer.model, tb, assign, txs, slots, cap, counts);
      assert forall i | 0 <= i < slots :: counts[i] in counts;
    }
  }

  // ---------- reduce_rate ----------

  ghost predicate Divides(d: int, n: int) {
    exists q: int :: n == d * q
  }

  function Gcd(a: nat, b: nat): (g: nat)
    ensures a + b > 0 ==> g > 0
    decreases b
  {
    if b == 0 then a else Gcd(b, a % b)
  }

  lemma DividesCombination(d: int, a: int, b: int, q: int)
    requires Divides(d, a) && Divides(d, b)
    ensures Divides(d, a * q + b) && Divides(d, b - a * q)
  {
    var x :| a == d * x;
    var y :| b == d * y;
    assert a * q + b == d * (x * q + y);
    assert b - a * q == d * (y - x * q);
  }

  lemma {:induction false} GcdDivides(a: nat, b: nat)
    ensures Divides(Gcd(a, b), a) && Divides(Gcd(a, b), b)
    decreases b
  {
    var g := Gcd(a, b);
    if b == 0 {
      assert a == g * 1 && b == g * 0;
    } else {
      GcdDivides(b, a % b);
      DividesCombination(g, b, a % b, a / b);
      assert b * (a / b) + a % b == a;
    }
  }

  lemma {:induction false} GcdGreatest(a: nat, b: nat, d: nat)
    requires Divides(d, a) && Divides(d, b)
    ensures Divides(d, Gcd(a, b))
    decreases b
  {
    if b != 0 {
      DividesCombination(d, b, a, a / b);
      assert a - b * (a / b) == a % b;
      GcdGreatest(b, a % b, d);
    }
  }

  datatype Reduced = BadRate | Reduced(tps: int, bps: int, g: int)

  function ReduceRate(tps: int, bps: int): Reduced {
    if tps < 0 || bps <= 0 then BadRate
    else
      var g0 := Gcd(tps, bps);
      var g := if g0 == 0 then 1 else g0;
      Reduced(tps / g, bps / g, g)
  }

  lemma QuotientOfProduct(d: int, q: int)
    requires d > 0
    ensures d * q / d == q
  {
    var r := d * q / d;
    assert d * r + (d * q) % d == d * q && 0 <= (d * q) % d < d;
    assert d * (q - r) == (d * q) % d;
    if q - r >= 1 {
      ScaleCompare(d, 1, q - r);
    } else if q - r <= -1 {
      ScaleCompare(d, q - r, -1);
    }
  }

  lemma ExactQuotient(n: int, d: int)
    requires d > 0 && Divides(d, n)
    ensures d * (n / d) == n
  {
    var q :| n == d * q;
    QuotientOfProduct(d, q);
  }

  lemma ScaleCompare(g: int, x: int, y: int)
    requires g > 0
    ensures g * x <= g * y <==> x <= y
  {
  }

  lemma ScaleProduct(g: int, x: int, y: int)
    ensures g * (x * y) == g * x * y
  {
  }

  /** Dividing both rates by their gcd changes no packing verdict, and leaves them coprime. */
  lemma ReducedRateSameVerdict(tps: int, bps: int, cap: int, window: int)
    requires ReduceRate(tps, bps).Reduced?
    ensures var r := ReduceRate(tps, bps);
            && r.g * r.tps == tps && r.g * r.bps == bps && r.tps >= 0 && r.bps > 0
            && (r.tps * window <= r.bps * window * cap <==> tps * window <= bps * window * cap)
  {
    var r := ReduceRate(tps, bps);
    GcdDivides(tps, bps);
    ExactQuotient(tps, r.g);
    ExactQuotient(bps, r.g);
    ScaleProduct(r.g, r.tps, window);
    ScaleProduct(r.g, r.bps, window);
    ScaleProduct(r.g, r.bps * window, cap);
    ScaleCompare(r.g, r.tps * window, r.bps * window * cap);
  }

  lemma ReducedRateCoprime(tps: int, bps: int, d: nat)
    requires ReduceRate(tps, bps).Reduced?
    requires Divides(d, ReduceRate(tps, bps).tps) && Divides(d, ReduceRate(tps, bps).bps)
    ensures d == 1
  {
    var r := ReduceRate(tps, bps);
    ReducedRateSameVerdict(tps, bps, 0, 0);
    DividesScaled(r.g, d, r.tps);
    DividesScaled(r.g, d, r.bps);
    GcdGreatest(tps, bps, r.g * d);
    OnlyUnit(r.g, d);
  }

  lemma DividesScaled(g: int, d: int, n: int)
    requires Divides(d, n)
    ensures Divides(g * d, g * n)
  {
    var q :| n == d * q;
    assert g * (d * q) == (g * d) * q;
  }

  lemma OnlyUnit(g: int, d: nat)
    requires g > 0 && Divides(g * d, g)
    ensures d == 1
  {
    var q :| g == (g * d) * q;
    assert g * (d * q) == g * 1 by {
      assert (g * d) * q == g * (d * q);
    }
    ScaleCompare(g, d * q, 1);
    ScaleCompare(g, 1, d * q);
    assert d * q == 1;
    if d >= 2 {
      if q >= 1 {
        ScaleCompare(d, 1, q);
      } else {
        ScaleCompare(d, q, 0);
      }
    }
  }

  // ---------- a whole run ----------

  /** What is reported: the solver's verdict, the arithmetic one, and the counts per slot. */
  datatype Report = Refused | Report(status: Status, arithmetic: Status, counts: Option<seq<nat>>)

  /** The rates that are encoded: divided by their gcd, or as given. */
  function EncodedRate(tps: int, bps: int, reduce: bool): Reduced {
    if reduce then ReduceRate(tps, bps) else Reduced(tps, bps, 1)
  }

  /** One count per slot, all transactions placed, no slot overfilled. */
  ghost predicate IsPacking(counts: seq<nat>, txs: int, slots: int, cap: int) {
    |counts| == slots && Sum(counts, |counts|) == txs && forall c | c in counts :: c <= cap
  }

  /**
   run_instance with a truthful solver, with or without dividing out the gcd: the solver's
   status and the arithmetic one agree and say whether the given rate fits, and the reported
   counts are a packing of all encoded transactions.
   */
  method RunInstance(tps: int, bps: int, cap: int, window: int, reduce: bool, solve: seq<Clause> -> Answer)
    returns (r: Report)
    requires forall clauses: seq<Clause> :: Truthful(solve(clauses), clauses)
    ensures r.Report? <==> tps >= 0 && cap >= 0 && bps > 0 && window > 0
    ensures r.Report? ==> r.status == r.arithmetic == if tps <= bps * cap then SAT else UNSAT
    ensures r.Report? ==> (r.counts.Some? <==> r.status == SAT)
    ensures r.Report? && r.counts.Some? ==>
              var g := if reduce then Gcd(tps, bps) else 1;
              g > 0 && IsPacking(r.counts.value, tps / g * window, bps / g * window, cap)
  {
    var rate := EncodedRate(tps, bps, reduce);
    if rate.BadRate? {
      return Refused;
    }
    if reduce {
      ReducedRateSameVerdict(tps, bps, cap, window);
    }
    WindowDropsOut(tps, bps, cap, window);
    var fits := PackingFits(rate.tps, rate.bps, cap, window);
    WindowDropsOut(rate.tps, rate.bps, cap, window);
    var encoding := EncodePacking(rate.tps, rate.bps, cap, window);
    if encoding.Rejected? {
      return Refused;
    }
    var txs: nat, slots: nat := NTx(rate.tps, window), NSlots(rate.bps, window);
    var status, counts := SolveAndDecode(encoding, txs, slots, cap, solve(encoding.cnf.clauses));
    r := Report(status, if fits then SAT else UNSAT, counts);
  }

  method SolveAndDecode(encoding: Encoding, txs: nat, slots: nat, cap: nat, answer: Answer)
    returns (status: Status, counts: Option<seq<nat>>)
    requires encoding.Encoded? && Complete(encoding.cnf.table, txs, slots, cap)
    requires encoding.cnf.clauses == PackingClauses(encoding.cnf.table, txs, slots, cap)
    requires Assigns(encoding.assign, encoding.cnf.table, txs, slots)
    requires Truthful(answer, encoding.cnf.clauses)
    ensures status == if txs <= slots * cap then SAT else UNSAT
    ensures counts.Some? <==> status == SAT
    ensures counts.Some? ==> IsPacking(counts.value, txs, slots, cap)
  {
    ghost var tb := encoding.cnf.table;
    if answer.NoModel? {
      RunMatchesArithmetic(tb, encoding.assign, txs, slots, cap, answer, []);
      return UNSAT, None;
    }
    CellsPositive(tb, txs, slots);
    var decoded := DecodeModel(answer.model, txs, slots, encoding.assign);
    DecodedCounts(answer.model, tb, encoding.assign, txs, slots, cap, decoded);
    RunMatchesArithmetic(tb, encoding.assign, txs, slots, cap, answer, decoded);
    status, counts := RunStatus(answer, decoded, cap), Some(decoded);
  }

  // ---------- encode_bps_vs_k ----------

  function ConcurrentBlocks(bps: int, latency: int): int {
    bps * latency
  }

  /**
   Blocks of one delay window against the bound k. One block too many is encoded as k + 1
   blocks unless full_n asks for all of them; both forms have a model exactly when k covers
   the window.
   */
  method EncodeBpsVsK(bps: int, k: int, latency: int, fullN: bool) returns (r: Encoding, encodedN: int, n: int)
    ensures n == bps * latency
    ensures encodedN == if fullN || n <= k then n else k + 1
    ensures r.Encoded? <==> k >= 0 && n >= 0
    ensures r.Encoded? ==> (Satisfiable(r.cnf.clauses) <==> bps * latency <= k)
  {
    n := ConcurrentBlocks(bps, latency);
    encodedN := if fullN || n <= k then n else k + 1;
    r := EncodePacking(encodedN, 1, k, 1);
  }
}
