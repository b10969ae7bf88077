/**
 What the clauses of the sequential counter and of exactly_one mean: which assignments of the
 literals can be completed to one that satisfies them.
 */
module Counter {
  import opened Cnf

  /** Register (i, j) is true when at least j of the first i + 1 literals are. */
  ghost predicate CountsRow(a: Assignment, lits: seq<int>, tb: Table, tag: string, i: nat, k: int)
    requires i < |lits|
  {
    forall j: nat | 1 <= j <= k && CountTrue(a, lits, i + 1) >= j :: a(Helper(tb, tag, i, j))
  }

  /** Register (i, j) is true exactly when at least j of the first i + 1 literals are. */
  ghost predicate Tracks(a: Assignment, lits: seq<int>, tb: Table, tag: string, k: int) {
    forall i: nat, j: nat | i < |lits| - 1 && 1 <= j <= k ::
      a(Helper(tb, tag, i, j)) == (CountTrue(a, lits, i + 1) >= j)
  }

  ghost predicate HelpersPositive(tb: Table, tag: string, n: int, k: int) {
    forall i: nat, j: nat | i < n - 1 && 1 <= j <= k :: Helper(tb, tag, i, j) > 0
  }

  lemma NumbersPositive(tb: Table, tag: string, n: int, k: int)
    requires WellNumbered(tb) && HasHelpers(tb, tag, n, k)
    ensures HelpersPositive(tb, tag, n, k)
  {
    forall i: nat, j: nat | i < n - 1 && 1 <= j <= k ensures Helper(tb, tag, i, j) > 0 {
      assert HasRow(tb, tag, i, k);
    }
  }

  // ---------- clauses as implications ----------

  lemma SatAppend(a: Assignment, xs: seq<Clause>, ys: seq<Clause>)
    ensures Sat(a, xs + ys) <==> Sat(a, xs) && Sat(a, ys)
  {
    assert forall c | c in xs :: c in xs + ys;
    assert forall c | c in ys :: c in xs + ys;
  }

  lemma Holds1(a: Assignment, x: int)
    ensures Holds(a, [x]) <==> LitTrue(a, x)
    ensures Sat(a, [[x]]) <==> LitTrue(a, x)
  {
    assert x in [x];
    assert [x] in [[x]];
  }

  lemma Holds2(a: Assignment, x: int, y: int)
    ensures Holds(a, [x, y]) <==> LitTrue(a, x) || LitTrue(a, y)
  {
    assert x in [x, y] && y in [x, y];
  }

  lemma Holds3(a: Assignment, x: int, y: int, z: int)
    ensures Holds(a, [x, y, z]) <==> LitTrue(a, x) || LitTrue(a, y) || LitTrue(a, z)
  {
    assert x in [x, y, z] && y in [x, y, z] && z in [x, y, z];
  }

  lemma Sat1(a: Assignment, c: Clause)
    ensures Sat(a, [c]) <==> Holds(a, c)
  {
    assert c in [c];
  }

  lemma Sat2(a: Assignment, c: Clause, d: Clause)
    ensures Sat(a, [c, d]) <==> Holds(a, c) && Holds(a, d)
  {
    assert c in [c, d] && d in [c, d];
  }

  // ---------- the counter is sound ----------

  lemma {:induction false} FirstRowMeans(a: Assignment, lits: seq<int>, tb: Table, tag: string, m: nat)
    requires |lits| > 0 && lits[0] != 0 && m >= 1
    requires forall j: nat | 1 <= j <= m :: Helper(tb, tag, 0, j) > 0
    ensures Sat(a, FirstRow(lits, tb, tag, m)) <==>
            && (LitTrue(a, lits[0]) ==> a(Helper(tb, tag, 0, 1)))
            && (forall j: nat | 2 <= j <= m :: !a(Helper(tb, tag, 0, j)))
  {
    if m == 1 {
      Sat1(a, [-lits[0], Helper(tb, tag, 0, 1)]);
      Holds2(a, -lits[0], Helper(tb, tag, 0, 1));
    } else {
      FirstRowMeans(a, lits, tb, tag, m - 1);
      SatAppend(a, FirstRow(lits, tb, tag, m - 1), [[-Helper(tb, tag, 0, m)]]);
      Holds1(a, -Helper(tb, tag, 0, m));
    }
  }

  ghost predicate CellMeans(a: Assignment, lit: int, tb: Table, tag: string, i: nat, j: nat)
    requires i >= 1 && j >= 1
  {
    && (LitTrue(a, lit) && (j == 1 || a(Helper(tb, tag, i - 1, j - 1))) ==> a(Helper(tb, tag, i, j)))
    && (a(Helper(tb, tag, i - 1, j)) ==> a(Helper(tb, tag, i, j)))
  }

  lemma CellHolds(a: Assignment, lits: seq<int>, tb: Table, tag: string, i: nat, j: nat)
    requires 1 <= i < |lits| - 1 && lits[i] != 0 && j >= 1
    requires HelpersPositive(tb, tag, |lits|, j)
    ensures Sat(a, [Up(lits, tb, tag, i, j), Keep(tb, tag, i, j)]) <==> CellMeans(a, lits[i], tb, tag, i, j)
  {
    Sat2(a, Up(lits, tb, tag, i, j), Keep(tb, tag, i, j));
    var out := Helper(tb, tag, i, j);
    Holds2(a, -Helper(tb, tag, i - 1, j), out);
    if j == 1 {
      Holds2(a, -lits[i], out);
    } else {
      Holds3(a, -lits[i], -Helper(tb, tag, i - 1, j - 1), out);
    }
  }

  lemma {:induction false} CarryRowMeans(a: Assignment, lits: seq<int>, tb: Table, tag: string, i: nat, m: nat)
    requires 1 <= i < |lits| - 1 && lits[i] != 0
    requires HelpersPositive(tb, tag, |lits|, m)
    ensures Sat(a, CarryRow(lits, tb, tag, i, m)) <==>
            forall j: nat | 1 <= j <= m :: CellMeans(a, lits[i], tb, tag, i, j)
  {
    if m > 0 {
      CarryRowMeans(a, lits, tb, tag, i, m - 1);
      CellHolds(a, lits, tb, tag, i, m);
      SatAppend(a, CarryRow(lits, tb, tag, i, m - 1), [Up(lits, tb, tag, i, m), Keep(tb, tag, i, m)]);
    }
  }

  lemma OverflowMeans(a: Assignment, lits: seq<int>, k: nat, tb: Table, tag: string, i: nat)
    requires 1 <= i < |lits| && lits[i] != 0 && k >= 1
    requires HelpersPositive(tb, tag, |lits|, k)
    ensures Sat(a, [Overflow(lits, k, tb, tag, i)]) <==>
            !(LitTrue(a, lits[i]) && a(Helper(tb, tag, i - 1, k)))
  {
    Sat1(a, Overflow(lits, k, tb, tag, i));
    Holds2(a, -lits[i], -Helper(tb, tag, i - 1, k));
  }

  /** Satisfied rows count: no prefix exceeds k and the registers reach the prefix count. */
  lemma {:induction false} RowsCount(a: Assignment, lits: seq<int>, k: nat, tb: Table, tag: string, m: nat)
    requires 1 <= m < |lits| && k >= 1 && 0 !in lits
    requires HelpersPositive(tb, tag, |lits|, k)
    requires Sat(a, Rows(lits, k, tb, tag, m))
    ensures CountTrue(a, lits, m) <= k && CountsRow(a, lits, tb, tag, m - 1, k)
  {
    if m == 1 {
      FirstRowMeans(a, lits, tb, tag, k);
      assert CountTrue(a, lits, 1) <= 1;
    } else {
      var i := m - 1;
      var row := CarryRow(lits, tb, tag, i, k) + [Overflow(lits, k, tb, tag, i)];
      SatAppend(a, Rows(lits, k, tb, tag, i), row);
      SatAppend(a, CarryRow(lits, tb, tag, i, k), [Overflow(lits, k, tb, tag, i)]);
      RowsCount(a, lits, k, tb, tag, i);
      CarryRowMeans(a, lits, tb, tag, i, k);
      OverflowMeans(a, lits, k, tb, tag, i);
      forall j: nat | 1 <= j <= k && CountTrue(a, lits, m) >= j ensures a(Helper(tb, tag, i, j)) {
        assert CellMeans(a, lits[i], tb, tag, i, j);
      }
    }
  }

  // ---------- the counter is complete ----------

  /** Registers that track the prefix counts satisfy every row while no prefix exceeds k. */
  lemma {:induction false} TrackingRows(a: Assignment, lits: seq<int>, k: nat, tb: Table, tag: string, m: nat)
    requires 1 <= m < |lits| && k >= 1 && 0 !in lits
    requires HelpersPositive(tb, tag, |lits|, k) && Tracks(a, lits, tb, tag, k)
    requires CountTrue(a, lits, m) <= k
    ensures Sat(a, Rows(lits, k, tb, tag, m))
  {
    if m == 1 {
      assert CountTrue(a, lits, 1) <= 1;
      FirstRowMeans(a, lits, tb, tag, k);
    } else {
      var i := m - 1;
      TrackingRows(a, lits, k, tb, tag, i);
      forall j: nat | 1 <= j <= k ensures CellMeans(a, lits[i], tb, tag, i, j) {
      }
      CarryRowMeans(a, lits, tb, tag, i, k);
      OverflowMeans(a, lits, k, tb, tag, i);
      SatAppend(a, CarryRow(lits, tb, tag, i, k), [Overflow(lits, k, tb, tag, i)]);
      SatAppend(a, Rows(lits, k, tb, tag, i),
                CarryRow(lits, tb, tag, i, k) + [Overflow(lits, k, tb, tag, i)]);
    }
  }

  lemma {:induction false} NegatedMeans(a: Assignment, lits: seq<int>, m: nat)
    requires m <= |lits| && 0 !in lits
    ensures Sat(a, Negated(lits, m)) <==> CountTrue(a, lits, m) == 0
  {
    if m > 0 {
      NegatedMeans(a, lits, m - 1);
      SatAppend(a, Negated(lits, m - 1), [[-lits[m - 1]]]);
      Holds1(a, -lits[m - 1]);
    }
  }

  /** The number of true literals the clauses allow: k, but never less than none. */
  function Bound(k: int): nat {
    if k < 0 then 0 else k
  }

  lemma CounterParts(a: Assignment, lits: seq<int>, k: int, tb: Table, tag: string)
    requires 1 <= k < |lits|
    ensures Sat(a, AtMostClauses(lits, k, tb, tag))
            <==> Sat(a, Rows(lits, k, tb, tag, |lits| - 1)) && Sat(a, [Overflow(lits, k, tb, tag, |lits| - 1)])
  {
    SatAppend(a, Rows(lits, k, tb, tag, |lits| - 1), [Overflow(lits, k, tb, tag, |lits| - 1)]);
  }

  lemma CounterSound(a: Assignment, lits: seq<int>, k: int, tb: Table, tag: string)
    requires 1 <= k < |lits| && 0 !in lits && HelpersPositive(tb, tag, |lits|, k)
    requires Sat(a, Rows(lits, k, tb, tag, |lits| - 1)) && Sat(a, [Overflow(lits, k, tb, tag, |lits| - 1)])
    ensures CountTrue(a, lits, |lits|) <= k
  {
    var n := |lits|;
    RowsCount(a, lits, k, tb, tag, n - 1);
    OverflowMeans(a, lits, k, tb, tag, n - 1);
  }

  /** Every satisfying assignment makes at most k of the literals true. */
  lemma AtMostSound(a: Assignment, lits: seq<int>, k: int, tb: Table, tag: string)
    requires 0 !in lits && (1 <= k < |lits| ==> HelpersPositive(tb, tag, |lits|, k))
    requires Sat(a, AtMostClauses(lits, k, tb, tag))
    ensures CountTrue(a, lits, |lits|) <= Bound(k)
  {
    var n := |lits|;
    if k <= 0 && k < n {
      NegatedMeans(a, lits, n);
    } else if 1 <= k < n {
      CounterParts(a, lits, k, tb, tag);
      CounterSound(a, lits, k, tb, tag);
    }
  }

  lemma CounterComplete(a: Assignment, lits: seq<int>, k: int, tb: Table, tag: string)
    requires 1 <= k < |lits| && 0 !in lits && HelpersPositive(tb, tag, |lits|, k)
    requires Tracks(a, lits, tb, tag, k)
    requires CountTrue(a, lits, |lits|) <= k
    ensures Sat(a, AtMostClauses(lits, k, tb, tag))
  {
    var n := |lits|;
    assert CountTrue(a, lits, n - 1) <= k;
    TrackingRows(a, lits, k, tb, tag, n - 1);
    assert a(Helper(tb, tag, n - 2, k)) == (CountTrue(a, lits, n - 1) >= k);
    OverflowMeans(a, lits, k, tb, tag, n - 1);
    SatAppend(a, Rows(lits, k, tb, tag, n - 1), [Overflow(lits, k, tb, tag, n - 1)]);
  }

  /** An assignment whose registers track the counts satisfies the clauses when at most k are true. */
  lemma AtMostComplete(a: Assignment, lits: seq<int>, k: int, tb: Table, tag: string)
    requires 0 !in lits
    requires 1 <= k < |lits| ==> HelpersPositive(tb, tag, |lits|, k) && Tracks(a, lits, tb, tag, k)
    requires CountTrue(a, lits, |lits|) <= Bound(k)
    ensures Sat(a, AtMostClauses(lits, k, tb, tag))
  {
    if 1 <= k < |lits| {
      CounterComplete(a, lits, k, tb, tag);
    } else if k < |lits| {
      NegatedMeans(a, lits, |lits|);
    } else {
      assert AtMostClauses(lits, k, tb, tag) == [] || k < 0;
      NegatedMeans(a, lits, |lits|);
    }
  }

  // ---------- the exact meaning of at_most ----------

  function Var(lit: int): int {
    if lit < 0 then -lit else lit
  }

  ghost predicate IsHelper(tb: Table, tag: string, n: int, v: int) {
    exists i: nat, j: nat :: i < n - 1 && HelperName(tag, i, j) in tb && v == Helper(tb, tag, i, j)
  }

  /** a, with every register set to what it should count. */
  ghost function Tracking(a: Assignment, lits: seq<int>, tb: Table, tag: string): Assignment {
    (v: int) =>
      if IsHelper(tb, tag, |lits|, v) then
        exists i: nat, j: nat ::
          && i < |lits| - 1
          && HelperName(tag, i, j) in tb && v == Helper(tb, tag, i, j)
          && CountTrue(a, lits, i + 1) >= j
      else a(v)
  }

  lemma {:induction false} CountAgrees(a: Assignment, b: Assignment, lits: seq<int>, m: nat)
    requires m <= |lits|
    requires forall lit | lit in lits :: a(Var(lit)) == b(Var(lit))
    ensures CountTrue(a, lits, m) == CountTrue(b, lits, m)
  {
    if m > 0 {
      CountAgrees(a, b, lits, m - 1);
      assert lits[m - 1] in lits;
    }
  }

  lemma TrackingTracks(a: Assignment, lits: seq<int>, k: int, tb: Table, tag: string)
    requires WellNumbered(tb) && HasHelpers(tb, tag, |lits|, k)
    requires forall lit | lit in lits :: !IsHelper(tb, tag, |lits|, Var(lit))
    ensures Tracks(Tracking(a, lits, tb, tag), lits, tb, tag, k)
  {
    var b := Tracking(a, lits, tb, tag);
    forall i: nat, j: nat | i < |lits| - 1 && 1 <= j <= k
      ensures b(Helper(tb, tag, i, j)) == (CountTrue(b, lits, i + 1) >= j)
    {
      assert HasRow(tb, tag, i, k);
      CountAgrees(a, b, lits, i + 1);
      var v := Helper(tb, tag, i, j);
      forall i': nat, j': nat | HelperName(tag, i', j') in tb && v == Helper(tb, tag, i', j')
        ensures i' == i && j' == j
      {
        HelperNameInjective(tag, i', j', i, j);
      }
    }
  }

  ghost predicate AgreeOnIssued(a: Assignment, b: Assignment, next: int) {
    forall v | 0 < v < next :: a(v) == b(v)
  }

  ghost predicate Unused(tb: Table, tag: string) {
    forall i: nat, j: nat :: HelperName(tag, i, j) !in tb
  }

  /**
   The meaning of at_most, for a tag not used before and literals over variables issued before
   (numbers below next): an assignment of the issued variables extends to one that satisfies
   the added clauses exactly when it makes at most k of the literals true. For a negative k
   the clauses mean "none is true", so they still have models.
   */
  lemma AtMostExact(a: Assignment, lits: seq<int>, k: int, tag: string,
                    before: Table, next: int, tb: Table, next': int)
    requires Grew(before, next, tb, next') && Unused(before, tag)
    requires WellNumbered(tb) && (1 <= k < |lits| ==> HasHelpers(tb, tag, |lits|, k))
    requires forall lit | lit in lits :: lit != 0 && Var(lit) < next
    ensures (exists b: Assignment :: AgreeOnIssued(a, b, next) && Sat(b, AtMostClauses(lits, k, tb, tag)))
            <==> CountTrue(a, lits, |lits|) <= Bound(k)
  {
    var n := |lits|;
    if 1 <= k < n {
      NumbersPositive(tb, tag, n, k);
      TrackingTracks(a, lits, k, tb, tag);
    }
    var clauses := AtMostClauses(lits, k, tb, tag);
    forall b: Assignment | AgreeOnIssued(a, b, next) && Sat(b, clauses)
      ensures CountTrue(a, lits, n) <= Bound(k)
    {
      CountAgrees(a, b, lits, n);
      AtMostSound(b, lits, k, tb, tag);
    }
    if CountTrue(a, lits, n) <= Bound(k) {
      var b := Tracking(a, lits, tb, tag);
      assert AgreeOnIssued(a, b, next);
      CountAgrees(a, b, lits, n);
      AtMostComplete(b, lits, k, tb, tag);
      assert Sat(b, clauses);
    }
  }

  // ---------- how many clauses ----------

  lemma {:induction false} FirstRowSize(lits: seq<int>, tb: Table, tag: string, m: nat)
    requires |lits| > 0 && m >= 1
    ensures |FirstRow(lits, tb, tag, m)| == m
  {
    if m > 1 {
      FirstRowSize(lits, tb, tag, m - 1);
    }
  }

  lemma {:induction false} CarryRowSize(lits: seq<int>, tb: Table, tag: string, i: nat, m: nat)
    requires 1 <= i < |lits|
    ensures |CarryRow(lits, tb, tag, i, m)| == 2 * m
  {
    if m > 0 {
      CarryRowSize(lits, tb, tag, i, m - 1);
    }
  }

  lemma {:induction false} RowsSize(lits: seq<int>, k: nat, tb: Table, tag: string, m: nat)
    requires k >= 1 && 1 <= m <= |lits|
    ensures |Rows(lits, k, tb, tag, m)| == k + (m - 1) * (2 * k + 1)
  {
    if m == 1 {
      FirstRowSize(lits, tb, tag, k);
    } else {
      RowsSize(lits, k, tb, tag, m - 1);
      CarryRowSize(lits, tb, tag, m - 1, k);
      assert (m - 1) * (2 * k + 1) == (m - 2) * (2 * k + 1) + (2 * k + 1);
    }
  }

  lemma {:induction false} NegatedSize(lits: seq<int>, m: nat)
    requires m <= |lits|
    ensures |Negated(lits, m)| == m
  {
    if m > 0 {
      NegatedSize(lits, m - 1);
    }
  }

  /** The size of the sequential counter: 2nk + n - 3k - 1 clauses for 0 < k < n. */
  lemma AtMostSize(lits: seq<int>, k: int, tb: Table, tag: string)
    ensures var n := |lits|;
            |AtMostClauses(lits, k, tb, tag)|
            == if k >= n then 0 else if k <= 0 then n else 2 * n * k + n - 3 * k - 1
  {
    var n := |lits|;
    NegatedSize(lits, n);
    if 0 < k < n {
      RowsSize(lits, k, tb, tag, n - 1);
      SizeSum(n, k);
    }
  }

  lemma SizeSum(n: int, k: int)
    ensures k + (n - 2) * (2 * k + 1) + 1 == 2 * n * k + n - 3 * k - 1
  {
    assert (n - 2) * (2 * k + 1) == n * (2 * k + 1) - 2 * (2 * k + 1);
    assert n * (2 * k + 1) == n * (2 * k) + n && n * (2 * k) == 2 * n * k;
  }
}
