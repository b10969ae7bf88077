/**
 The clause builder of scripts/tn12_tps_cnf.py: a name table, a clause list, the Sinz
 sequential counter and the exactly-one constraint.

 The specification functions below take a finished name table. The methods of class Builder are
 tied to them for every table that extends the one they leave behind, so a specification
 survives the names that later calls add.
 */
module Cnf {
  import opened Text

  type Clause = seq<int>
  type Table = map<string, int>

  // ---------- meaning ----------

  /** An assignment gives a truth value to every variable number. */
  type Assignment = int -> bool

  /** Zero ends a clause in the DIMACS format; it is no literal, and never true. */
  predicate LitTrue(a: Assignment, lit: int) {
    if lit > 0 then a(lit) else lit < 0 && !a(-lit)
  }

  ghost predicate Holds(a: Assignment, c: Clause) {
    exists lit | lit in c :: LitTrue(a, lit)
  }

  ghost predicate Sat(a: Assignment, clauses: seq<Clause>) {
    forall c | c in clauses :: Holds(a, c)
  }

  ghost predicate Satisfiable(clauses: seq<Clause>) {
    exists a: Assignment :: Sat(a, clauses)
  }

  /** How many of the first m literals are true. */
  function CountTrue(a: Assignment, lits: seq<int>, m: nat): (c: nat)
    requires m <= |lits|
    ensures c <= m
  {
    if m == 0 then 0 else CountTrue(a, lits, m - 1) + (if LitTrue(a, lits[m - 1]) then 1 else 0)
  }

  // ---------- name table ----------

  /** Numbers are positive and no two names share one. */
  ghost predicate WellNumbered(tb: Table) {
    && (forall n | n in tb :: tb[n] > 0)
    && (forall n, m | n in tb && m in tb && tb[n] == tb[m] :: n == m)
  }

  ghost predicate Extends(tb: Table, later: Table) {
    forall n | n in tb :: n in later && later[n] == tb[n]
  }

  function Number(tb: Table, name: string): int {
    if name in tb then tb[name] else 0
  }

  /** The name of helper variable (i, j) of the counter with the given tag. */
  function HelperName(tag: string, i: nat, j: nat): string {
    tag + "_s_" + (Dec(i) + "_" + Dec(j))
  }

  function Helper(tb: Table, tag: string, i: nat, j: nat): int {
    Number(tb, HelperName(tag, i, j))
  }

  lemma HelperNameInjective(tag: string, i: nat, j: nat, i': nat, j': nat)
    requires HelperName(tag, i, j) == HelperName(tag, i', j')
    ensures i == i' && j == j'
  {
    var h := tag + "_s_";
    assert Dec(i) + "_" + Dec(j) == HelperName(tag, i, j)[|h|..] == Dec(i') + "_" + Dec(j');
    DecPairInjective(i, j, i', j');
  }

  /** Every helper variable of an n-literal counter with bound k has a number. */
  ghost predicate HasHelpers(tb: Table, tag: string, n: int, k: int) {
    forall i: nat | i < n - 1 :: HasRow(tb, tag, i, k)
  }

  ghost predicate HasRow(tb: Table, tag: string, i: nat, k: int) {
    forall j: nat | 1 <= j <= k :: HelperName(tag, i, j) in tb
  }

  lemma HelpersKept(tb: Table, later: Table, tag: string, n: int, k: int)
    requires Extends(tb, later) && HasHelpers(tb, tag, n, k)
    ensures HasHelpers(later, tag, n, k)
  {
    forall i: nat | i < n - 1 ensures HasRow(later, tag, i, k) {
      assert HasRow(tb, tag, i, k);
    }
  }

  /** The table kept its names, and every new name has a number not used before. */
  ghost predicate Grew(tb: Table, next: int, later: Table, next': int) {
    && Extends(tb, later)
    && next <= next'
    && (forall n | n in later && n !in tb :: next <= later[n])
  }

  lemma Append<T>(base: seq<T>, xs: seq<T>, ys: seq<T>, joined: seq<T>)
    requires joined == base + xs
    ensures joined + ys == base + (xs + ys)
  {
  }

  // ---------- clauses of the sequential counter ----------

  function Negated(lits: seq<int>, m: nat): seq<Clause>
    requires m <= |lits|
  {
    if m == 0 then [] else Negated(lits, m - 1) + [[-lits[m - 1]]]
  }

  /** Clauses of literal 0: it sets register (0, 1); registers (0, 2), ..., (0, m) stay false. */
  function FirstRow(lits: seq<int>, tb: Table, tag: string, m: nat): seq<Clause>
    requires |lits| > 0 && m >= 1
  {
    if m == 1 then [[-lits[0], Helper(tb, tag, 0, 1)]]
    else FirstRow(lits, tb, tag, m - 1) + [[-Helper(tb, tag, 0, m)]]
  }

  /** Literal i counts one more: register (i - 1, j - 1) and the literal set register (i, j). */
  function Up(lits: seq<int>, tb: Table, tag: string, i: nat, j: nat): Clause
    requires 1 <= i < |lits| && j >= 1
  {
    if j == 1 then [-lits[i], Helper(tb, tag, i, 1)]
    else [-lits[i], -Helper(tb, tag, i - 1, j - 1), Helper(tb, tag, i, j)]
  }

  /** A count once reached is kept. */
  function Keep(tb: Table, tag: string, i: nat, j: nat): Clause
    requires 1 <= i
  {
    [-Helper(tb, tag, i - 1, j), Helper(tb, tag, i, j)]
  }

  /** Clauses of literal i for registers 1, ..., m. */
  function CarryRow(lits: seq<int>, tb: Table, tag: string, i: nat, m: nat): seq<Clause>
    requires 1 <= i < |lits|
  {
    if m == 0 then [] else CarryRow(lits, tb, tag, i, m - 1) + [Up(lits, tb, tag, i, m), Keep(tb, tag, i, m)]
  }

  /** Literal i may not be true once register (i - 1, k) is. */
  function Overflow(lits: seq<int>, k: nat, tb: Table, tag: string, i: nat): Clause
    requires 1 <= i < |lits|
  {
    [-lits[i], -Helper(tb, tag, i - 1, k)]
  }

  /** Everything emitted for literals 0, ..., m - 1. */
  function Rows(lits: seq<int>, k: nat, tb: Table, tag: string, m: nat): seq<Clause>
    requires k >= 1 && 1 <= m <= |lits|
  {
    if m == 1 then FirstRow(lits, tb, tag, k)
    else Rows(lits, k, tb, tag, m - 1)
         + (CarryRow(lits, tb, tag, m - 1, k) + [Overflow(lits, k, tb, tag, m - 1)])
  }

  /** What at_most adds, in order. */
  function AtMostClauses(lits: seq<int>, k: int, tb: Table, tag: string): seq<Clause> {
    if k < 0 then Negated(lits, |lits|)
    else if k >= |lits| then []
    else if k == 0 then Negated(lits, |lits|)
    else Rows(lits, k, tb, tag, |lits| - 1) + [Overflow(lits, k, tb, tag, |lits| - 1)]
  }

  /** What exactly_one adds, in order. */
  function ExactlyOneClauses(lits: seq<int>, tb: Table, tag: string): seq<Clause> {
    if lits == [] then [[]] else [lits] + AtMostClauses(lits, 1, tb, tag)
  }

  // ---------- growing lists ----------

  lemma FirstRowStep(lits: seq<int>, tb: Table, tag: string, j: nat)
    requires |lits| > 0 && j >= 2
    ensures FirstRow(lits, tb, tag, j) == FirstRow(lits, tb, tag, j - 1) + [[-Helper(tb, tag, 0, j)]]
  {
  }

  lemma FirstRowGrows(base: seq<Clause>, done: seq<Clause>, lits: seq<int>, tb0: Table, tb1: Table, tag: string,
                      j: nat, r: int)
    requires |lits| > 0 && j >= 2 && Extends(tb0, tb1)
    requires forall tb | Extends(tb0, tb) :: done == base + FirstRow(lits, tb, tag, j - 1)
    requires forall tb | Extends(tb1, tb) :: Helper(tb, tag, 0, j) == r
    ensures forall tb | Extends(tb1, tb) :: done + [[-r]] == base + FirstRow(lits, tb, tag, j)
  {
    forall tb | Extends(tb1, tb) ensures done + [[-r]] == base + FirstRow(lits, tb, tag, j) {
      assert Extends(tb0, tb);
      Append(base, FirstRow(lits, tb, tag, j - 1), [[-r]], done);
      FirstRowStep(lits, tb, tag, j);
    }
  }

  lemma CarryRowGrows(base: seq<Clause>, done: seq<Clause>, up: seq<Clause>, all: seq<Clause>, lits: seq<int>,
                      tb0: Table, tb1: Table, tb2: Table, tag: string, i: nat, j: nat)
    requires 1 <= i < |lits| && 1 <= j && Extends(tb0, tb1) && Extends(tb1, tb2)
    requires forall tb | Extends(tb0, tb) :: done == base + CarryRow(lits, tb, tag, i, j - 1)
    requires forall tb | Extends(tb1, tb) :: up == done + [Up(lits, tb, tag, i, j)]
    requires forall tb | Extends(tb2, tb) :: all == up + [Keep(tb, tag, i, j)]
    ensures forall tb | Extends(tb2, tb) :: all == base + CarryRow(lits, tb, tag, i, j)
  {
    forall tb | Extends(tb2, tb) ensures all == base + CarryRow(lits, tb, tag, i, j) {
      assert Extends(tb1, tb) && Extends(tb0, tb);
      var two := [Up(lits, tb, tag, i, j), Keep(tb, tag, i, j)];
      assert all == done + two;
      Append(base, CarryRow(lits, tb, tag, i, j - 1), two, done);
    }
  }

  lemma OverflowGrows(base: seq<Clause>, done: seq<Clause>, all: seq<Clause>, lits: seq<int>, k: nat,
                      tb0: Table, tb1: Table, tag: string, i: nat)
    requires 1 <= i < |lits| && Extends(tb0, tb1)
    requires forall tb | Extends(tb0, tb) :: done == base + CarryRow(lits, tb, tag, i, k)
    requires forall tb | Extends(tb1, tb) :: all == done + [Overflow(lits, k, tb, tag, i)]
    ensures forall tb | Extends(tb1, tb) ::
              all == base + (CarryRow(lits, tb, tag, i, k) + [Overflow(lits, k, tb, tag, i)])
  {
    forall tb | Extends(tb1, tb)
      ensures all == base + (CarryRow(lits, tb, tag, i, k) + [Overflow(lits, k, tb, tag, i)])
    {
      assert Extends(tb0, tb);
      Append(base, CarryRow(lits, tb, tag, i, k), [Overflow(lits, k, tb, tag, i)], done);
    }
  }

  lemma RowsGrow(base: seq<Clause>, done: seq<Clause>, all: seq<Clause>, lits: seq<int>, k: nat,
                 tb0: Table, tb1: Table, tag: string, i: nat)
    requires 1 <= k && 1 <= i < |lits| && Extends(tb0, tb1)
    requires forall tb | Extends(tb0, tb) :: done == base + Rows(lits, k, tb, tag, i)
    requires forall tb | Extends(tb1, tb) ::
               all == done + (CarryRow(lits, tb, tag, i, k) + [Overflow(lits, k, tb, tag, i)])
    ensures forall tb | Extends(tb1, tb) :: all == base + Rows(lits, k, tb, tag, i + 1)
  {
    forall tb | Extends(tb1, tb) ensures all == base + Rows(lits, k, tb, tag, i + 1) {
      assert Extends(tb0, tb);
      Append(base, Rows(lits, k, tb, tag, i),
             CarryRow(lits, tb, tag, i, k) + [Overflow(lits, k, tb, tag, i)], done);
    }
  }

  lemma AtMostGrows(base: seq<Clause>, done: seq<Clause>, all: seq<Clause>, lits: seq<int>, k: nat,
                    tb0: Table, tb1: Table, tag: string)
    requires 1 <= k < |lits| && Extends(tb0, tb1)
    requires forall tb | Extends(tb0, tb) :: done == base + Rows(lits, k, tb, tag, |lits| - 1)
    requires forall tb | Extends(tb1, tb) :: all == done + [Overflow(lits, k, tb, tag, |lits| - 1)]
    ensures forall tb | Extends(tb1, tb) :: all == base + AtMostClauses(lits, k, tb, tag)
  {
    forall tb | Extends(tb1, tb) ensures all == base + AtMostClauses(lits, k, tb, tag) {
      assert Extends(tb0, tb);
      Append(base, Rows(lits, k, tb, tag, |lits| - 1), [Overflow(lits, k, tb, tag, |lits| - 1)], done);
    }
  }

  lemma HelpersGrow(tb: Table, later: Table, tag: string, i: nat, k: int)
    requires Extends(tb, later) && HasHelpers(tb, tag, i + 1, k) && HasRow(later, tag, i, k)
    ensures HasHelpers(later, tag, i + 2, k)
  {
    HelpersKept(tb, later, tag, i + 1, k);
  }

  lemma GrewTwice(tb0: Table, next0: int, tb1: Table, next1: int, tb2: Table, next2: int)
    requires Grew(tb0, next0, tb1, next1) && Grew(tb1, next1, tb2, next2)
    ensures Grew(tb0, next0, tb2, next2)
  {
  }

  // ---------- the builder ----------

  class Builder {
    var table: Table
    var next: int
    var clauses: seq<Clause>
    ghost var issued: seq<string>  // the names in the order of their numbers

    ghost predicate Valid()
      reads this
    {
      && next == |issued| + 1
      && (forall n | n in table :: 1 <= table[n] < next && issued[table[n] - 1] == n)
    }

    lemma ValidIsWellNumbered()
      requires Valid()
      ensures WellNumbered(table)
    {
    }

    constructor ()
      ensures Valid() && table == map[] && clauses == [] && next == 1
    {
      table, next, clauses, issued := map[], 1, [], [];
    }

    /** The number of a name; a name seen before keeps its number, a new one gets the next. */
    method V(name: string) returns (v: int)
      requires Valid()
      modifies this`table, this`next, this`issued
      ensures Valid() && Extends(old(table), table) && next >= old(next)
      ensures table.Keys == old(table).Keys + {name} && v == table[name]
      ensures name !in old(table) ==> v == old(next)
    {
      if name !in table {
        table := table[name := next];
        next := next + 1;
        issued := issued + [name];
      }
      v := table[name];
    }

    method Add(c: Clause)
      modifies this`clauses
      ensures clauses == old(clauses) + [c]
    {
      clauses := clauses + [c];
    }

    method AddNegated(lits: seq<int>)
      modifies this`clauses
      ensures clauses == old(clauses) + Negated(lits, |lits|)
    {
      for m := 0 to |lits|
        invariant clauses == old(clauses) + Negated(lits, m)
      {
        Add([-lits[m]]);
      }
    }

    /** The nested function s(i, j) of at_most. */
    method Register(tag: string, i: nat, j: nat) returns (v: int)
      requires Valid()
      modifies this`table, this`next, this`issued
      ensures Valid() && Grew(old(table), old(next), table, next)
      ensures HelperName(tag, i, j) in table && v == Helper(table, tag, i, j)
    {
      v := V(HelperName(tag, i, j));
    }

    /** Literal 0: at_most before its main loop. */
    method AddFirstRow(lits: seq<int>, k: int, tag: string)
      requires Valid() && 1 <= k < |lits|
      modifies this
      ensures Valid() && Grew(old(table), old(next), table, next)
      ensures HasRow(table, tag, 0, k)
      ensures forall tb | Extends(table, tb) :: clauses == old(clauses) + FirstRow(lits, tb, tag, k)
    {
      var r := Register(tag, 0, 1);
      Add([-lits[0], r]);
      for j := 2 to k + 1
        invariant Valid() && Grew(old(table), old(next), table, next)
        invariant HasRow(table, tag, 0, j - 1)
        invariant forall tb | Extends(table, tb) :: clauses == old(clauses) + FirstRow(lits, tb, tag, j - 1)
      {
        ghost var tb0, done := table, clauses;
        r := Register(tag, 0, j);
        Add([-r]);
        FirstRowGrows(old(clauses), done, lits, tb0, table, tag, j, r);
      }
    }

    method AddUp(lits: seq<int>, tag: string, i: nat, j: nat)
      requires Valid() && 1 <= j && 1 <= i < |lits|
      modifies this
      ensures Valid() && Grew(old(table), old(next), table, next)
      ensures HelperName(tag, i, j) in table
      ensures forall tb | Extends(table, tb) :: clauses == old(clauses) + [Up(lits, tb, tag, i, j)]
    {
      if j == 1 {
        var out := Register(tag, i, 1);
        Add([-lits[i], out]);
      } else {
        var below := Register(tag, i - 1, j - 1);
        var out := Register(tag, i, j);
        Add([-lits[i], -below, out]);
      }
    }

    method AddKeep(tag: string, i: nat, j: nat)
      requires Valid() && 1 <= j && 1 <= i
      modifies this
      ensures Valid() && Grew(old(table), old(next), table, next)
      ensures forall tb | Extends(table, tb) :: clauses == old(clauses) + [Keep(tb, tag, i, j)]
    {
      var held := Register(tag, i - 1, j);
      var out := Register(tag, i, j);
      Add([-held, out]);
    }

    /** Literal i: one iteration of the main loop of at_most. */
    method AddRow(lits: seq<int>, k: int, tag: string, i: nat)
      requires Valid() && 1 <= k && 1 <= i < |lits|
      modifies this
      ensures Valid() && Grew(old(table), old(next), table, next)
      ensures HasRow(table, tag, i, k)
      ensures forall tb | Extends(table, tb) ::
                clauses == old(clauses) + (CarryRow(lits, tb, tag, i, k) + [Overflow(lits, k, tb, tag, i)])
    {
      for j := 1 to k + 1
        invariant Valid() && Grew(old(table), old(next), table, next)
        invariant HasRow(table, tag, i, j - 1)
        invariant forall tb | Extends(table, tb) ::
                    clauses == old(clauses) + CarryRow(lits, tb, tag, i, j - 1)
      {
        ghost var tb0, done := table, clauses;
        AddUp(lits, tag, i, j);
        ghost var tb1, up := table, clauses;
        AddKeep(tag, i, j);
        CarryRowGrows(old(clauses), done, up, clauses, lits, tb0, tb1, table, tag, i, j);
      }
      ghost var tb0, done := table, clauses;
      AddOverflow(lits, k, tag, i);
      OverflowGrows(old(clauses), done, clauses, lits, k, tb0, table, tag, i);
    }

    method AddOverflow(lits: seq<int>, k: int, tag: string, i: nat)
      requires Valid() && 1 <= k && 1 <= i < |lits|
      modifies this
      ensures Valid() && Grew(old(table), old(next), table, next)
      ensures forall tb | Extends(table, tb) :: clauses == old(clauses) + [Overflow(lits, k, tb, tag, i)]
    {
      var full := Register(tag, i - 1, k);
      Add([-lits[i], -full]);
    }

    method AddRows(lits: seq<int>, k: int, tag: string)
      requires Valid() && 1 <= k < |lits|
      modifies this
      ensures Valid() && Grew(old(table), old(next), table, next)
      ensures HasHelpers(table, tag, |lits|, k)
      ensures forall tb | Extends(table, tb) :: clauses == old(clauses) + Rows(lits, k, tb, tag, |lits| - 1)
    {
      AddFirstRow(lits, k, tag);
      for i := 1 to |lits| - 1
        invariant Valid() && Grew(old(table), old(next), table, next)
        invariant HasHelpers(table, tag, i + 1, k)
        invariant forall tb | Extends(table, tb) :: clauses == old(clauses) + Rows(lits, k, tb, tag, i)
      {
        ghost var tb0, next0, done := table, next, clauses;
        AddRow(lits, k, tag, i);
        GrewTwice(old(table), old(next), tb0, next0, table, next);
        HelpersGrow(tb0, table, tag, i, k);
        RowsGrow(old(clauses), done, clauses, lits, k, tb0, table, tag, i);
      }
    }

    /** Sinz sequential counter: at most k of the literals are true. */
    method AtMost(lits: seq<int>, k: int, tag: string)
      requires Valid()
      modifies this
      ensures Valid() && Grew(old(table), old(next), table, next)
      ensures 1 <= k < |lits| ==> HasHelpers(table, tag, |lits|, k)
      ensures forall tb | Extends(table, tb) ::
                clauses == old(clauses) + AtMostClauses(lits, k, tb, tag)
    {
      var n := |lits|;
      if k < 0 {
        AddNegated(lits);
        return;
      }
      if k >= n {
        return;
      }
      if k == 0 {
        AddNegated(lits);
        return;
      }
      AddRows(lits, k, tag);
      ghost var tb0, next0, done := table, next, clauses;
      AddOverflow(lits, k, tag, n - 1);
      GrewTwice(old(table), old(next), tb0, next0, table, next);
      HelpersKept(tb0, table, tag, n, k);
      AtMostGrows(old(clauses), done, clauses, lits, k, tb0, table, tag);
    }

    method ExactlyOne(lits: seq<int>, tag: string)
      requires Valid()
      modifies this
      ensures Valid() && Grew(old(table), old(next), table, next)
      ensures 1 < |lits| ==> HasHelpers(table, tag, |lits|, 1)
      ensures forall tb | Extends(table, tb) ::
                clauses == old(clauses) + ExactlyOneClauses(lits, tb, tag)
    {
      if lits == [] {
        Add([]);
        return;
      }
      Add(lits);
      ghost var done := clauses;
      AtMost(lits, 1, tag);
      forall tb | Extends(table, tb)
        ensures clauses == old(clauses) + ExactlyOneClauses(lits, tb, tag)
      {
        assert done + AtMostClauses(lits, 1, tb, tag) == old(clauses) + ([lits] + AtMostClauses(lits, 1, tb, tag));
      }
    }
  }
}
