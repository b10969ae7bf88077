/**
 The greedy output selection of scripts/tn10_rest.py under the storage mass bound of KIP-0009.
 Python integers are unbounded; its floor division by a positive number is Dafny's.
 */
module Selection {
  import opened Basics
  import L = Ledger
  import Tracker

  const COINBASE_MATURITY_DAA := 1000
  const STORAGE_MASS_PARAMETER := 1_000_000_000_000
  const MAX_STORAGE_MASS := 100_000
  const MIN_STORAGE_SAFE_SOMPI := 20_000_000
  const FEE_PAD_SOMPI := 1_000_000
  const CHANGE_FLOOR := MIN_STORAGE_SAFE_SOMPI + FEE_PAD_SOMPI

  /** An output of the wallet; blockDaa is None when its score cannot be read as a number. */
  datatype Entry = Entry(id: string, amount: int, coinbase: bool, blockDaa: Option<int>)

  datatype SelectError = NoSpendable | NotEnough(need: int, wallet: int)

  // ---------- storage mass ----------

  function Term(amount: int): nat {
    if amount > 0 then STORAGE_MASS_PARAMETER / amount else 0
  }

  function Terms(amounts: seq<int>): nat {
    if amounts == [] then 0 else Terms(amounts[..|amounts| - 1]) + Term(amounts[|amounts| - 1])
  }

  function Mass(inputs: seq<int>, outputs: seq<int>): nat {
    MinusOrZero(Terms(outputs), Terms(inputs))
  }

  method SumTerms(amounts: seq<int>) returns (total: nat)
    ensures total == Terms(amounts)
  {
    total := 0;
    for i := 0 to |amounts|
      invariant total == Terms(amounts[..i])
    {
      assert amounts[..i + 1][..i] == amounts[..i];
      if amounts[i] > 0 {
        total := total + STORAGE_MASS_PARAMETER / amounts[i];
      }
    }
    assert amounts[..|amounts|] == amounts;
  }

  method StorageMass(inputs: seq<int>, outputs: seq<int>) returns (mass: nat)
    ensures mass == Mass(inputs, outputs)
  {
    var spent := SumTerms(inputs);
    var made := SumTerms(outputs);
    mass := if made < spent then 0 else made - spent;
  }

  /** A positive amount costs the whole part of 10^12 over it; any other amount costs nothing. */
  lemma TermExactly(amount: int, q: nat)
    ensures amount > 0 ==> (Term(amount) == q <==> q * amount <= 1_000_000_000_000 < (q + 1) * amount)
    ensures amount <= 0 ==> Term(amount) == 0
  {
    if amount > 0 {
      var x := STORAGE_MASS_PARAMETER / amount;
      assert STORAGE_MASS_PARAMETER == amount * x + STORAGE_MASS_PARAMETER % amount;
      assert x * amount <= STORAGE_MASS_PARAMETER < (x + 1) * amount;
      if x < q {
        Ordered(x + 1, q, amount);
      } else if q < x {
        Ordered(q + 1, x, amount);
      }
    }
  }

  lemma {:induction false} TermsAppend(a: seq<int>, b: seq<int>)
    ensures Terms(a + b) == Terms(a) + Terms(b)
    decreases |b|
  {
    if b == [] {
      assert a + b == a;
    } else {
      var n := |b| - 1;
      assert (a + b)[..|a| + n] == a + b[..n];
      TermsAppend(a, b[..n]);
    }
  }

  /**
   Masses add up: outputs cost their terms, inputs pay for as much as theirs, and what they pay
   beyond that is lost.
   */
  lemma MassExactly(inputs: seq<int>, outputs: seq<int>)
    ensures Mass([], outputs) == Terms(outputs)
    ensures Mass(inputs, inputs + outputs) == Terms(outputs)
    ensures Mass(inputs, outputs) > 0 ==> Mass(inputs, outputs) + Terms(inputs) == Terms(outputs)
    ensures Mass(inputs, outputs) == 0 <==> Terms(outputs) <= Terms(inputs)
  {
    TermsAppend(inputs, outputs);
  }

  lemma TermBound(amount: int)
    requires amount >= MIN_STORAGE_SAFE_SOMPI
    ensures Term(amount) <= MAX_STORAGE_MASS / 2
  {
    DivideBound(STORAGE_MASS_PARAMETER, amount, MAX_STORAGE_MASS / 2);
  }

  lemma DivideBound(n: nat, d: int, q: nat)
    requires d > 0 && n <= q * d
    ensures n / d <= q
  {
    assert n == d * (n / d) + n % d;
    if n / d >= q + 1 {
      Ordered(q + 1, n / d, d);
    }
  }

  lemma Ordered(a: int, b: int, c: int)
    requires a <= b && c >= 0
    ensures a * c <= b * c
  {
  }

  /** Two outputs at the floor are never over the storage mass bound, whatever is spent. */
  lemma SafeOutputs(inputs: seq<int>, commit: int, change: int)
    requires commit >= MIN_STORAGE_SAFE_SOMPI && change >= MIN_STORAGE_SAFE_SOMPI
    ensures Mass(inputs, [commit, change]) <= MAX_STORAGE_MASS
  {
    TermBound(commit);
    TermBound(change);
    assert [commit, change][..1] == [commit] && [commit][..0] == [];
    assert Terms([commit]) == Terms([commit][..0]) + Term(commit);
    assert Terms([commit, change]) == Terms([commit, change][..1]) + Term(change);
  }

  // ---------- maturity ----------

  predicate IsMature(entry: Entry, virtualDaa: Option<int>) {
    !entry.coinbase
    || (virtualDaa.Some? && entry.blockDaa.Some? && virtualDaa.value >= entry.blockDaa.value + COINBASE_MATURITY_DAA)
  }

  /**
   Ordinary outputs are always mature. A coinbase output is mature exactly when both scores are
   known and the tracker with the least threshold finds it deep: a thousand above its block.
   */
  lemma MatureExactly(entry: Entry, virtualDaa: Option<int>)
    ensures !entry.coinbase ==> IsMature(entry, virtualDaa)
    ensures entry.coinbase && (virtualDaa.None? || entry.blockDaa.None?) ==> !IsMature(entry, virtualDaa)
    ensures entry.coinbase && virtualDaa.Some? && entry.blockDaa.Some? ==>
              (IsMature(entry, virtualDaa) <==> virtualDaa.value - entry.blockDaa.value >= 1000)
    ensures entry.coinbase && virtualDaa.Some? && entry.blockDaa.Some?
            && 0 <= virtualDaa.value < U64_LIMIT && 0 <= entry.blockDaa.value < U64_LIMIT ==>
              (IsMature(entry, virtualDaa)
               <==> Tracker.Deep(1, virtualDaa.value, L.Facts("", 0, entry.blockDaa.value, true)))
  {
  }

  function SpendableEntries(entries: seq<Entry>, virtualDaa: Option<int>): (r: seq<Entry>)
    ensures forall e | e in r :: e in entries && IsMature(e, virtualDaa)
    ensures forall e | e in entries && IsMature(e, virtualDaa) :: e in r
  {
    if entries == [] then []
    else
      var rest := SpendableEntries(entries[..|entries| - 1], virtualDaa);
      var last := entries[|entries| - 1];
      if IsMature(last, virtualDaa) then rest + [last] else rest
  }

  /** The filter keeps the order and every copy of a mature entry. */
  lemma {:induction false} SpendableAppend(a: seq<Entry>, b: seq<Entry>, virtualDaa: Option<int>)
    ensures SpendableEntries(a + b, virtualDaa) == SpendableEntries(a, virtualDaa) + SpendableEntries(b, virtualDaa)
    decreases |b|
  {
    if b == [] {
      assert a + b == a;
    } else {
      var n := |b| - 1;
      assert (a + b)[..|a| + n] == a + b[..n];
      SpendableAppend(a, b[..n], virtualDaa);
    }
  }

  lemma SpendableOne(e: Entry, virtualDaa: Option<int>)
    ensures SpendableEntries([e], virtualDaa) == if IsMature(e, virtualDaa) then [e] else []
  {
    assert [e][..0] == [] && SpendableEntries([e][..0], virtualDaa) == [];
  }

  // ---------- sorting ----------

  function AmountsOf(entries: seq<Entry>): (r: seq<int>)
    ensures |r| == |entries|
  {
    seq(|entries|, i requires 0 <= i < |entries| => entries[i].amount)
  }

  function Sum(entries: seq<Entry>): int {
    if entries == [] then 0 else Sum(entries[..|entries| - 1]) + entries[|entries| - 1].amount
  }

  predicate Descending(entries: seq<Entry>) {
    forall i, j | 0 <= i < j < |entries| :: entries[i].amount >= entries[j].amount
  }

  /** Put an entry behind all that are at least as large: what keeps the sort stable. */
  function Insert(entries: seq<Entry>, e: Entry): seq<Entry>
    decreases |entries|
  {
    if entries == [] || entries[|entries| - 1].amount >= e.amount then entries + [e]
    else Insert(entries[..|entries| - 1], e) + [entries[|entries| - 1]]
  }

  /** sorted by amount, largest first; equal amounts keep their order. */
  function SortedDesc(entries: seq<Entry>): seq<Entry> {
    if entries == [] then [] else Insert(SortedDesc(entries[..|entries| - 1]), entries[|entries| - 1])
  }

  function WithAmount(entries: seq<Entry>, amount: int): seq<Entry> {
    if entries == [] then []
    else
      var rest := WithAmount(entries[..|entries| - 1], amount);
      if entries[|entries| - 1].amount == amount then rest + [entries[|entries| - 1]] else rest
  }

  lemma {:induction false} InsertPermutes(entries: seq<Entry>, e: Entry)
    ensures |Insert(entries, e)| == |entries| + 1
    ensures multiset(Insert(entries, e)) == multiset(entries) + multiset{e}
    decreases |entries|
  {
    if entries != [] && entries[|entries| - 1].amount < e.amount {
      var n := |entries| - 1;
      assert entries == entries[..n] + [entries[n]];
      InsertPermutes(entries[..n], e);
    }
  }

  lemma {:induction false} InsertDescends(entries: seq<Entry>, e: Entry)
    requires Descending(entries)
    ensures Descending(Insert(entries, e))
    decreases |entries|
  {
    if entries != [] && entries[|entries| - 1].amount < e.amount {
      var n := |entries| - 1;
      InsertDescends(entries[..n], e);
      InsertedAtLeast(entries[..n], e, entries[n].amount);
    }
  }

  lemma {:induction false} InsertedAtLeast(entries: seq<Entry>, e: Entry, floor: int)
    requires e.amount >= floor && forall i | 0 <= i < |entries| :: entries[i].amount >= floor
    ensures forall i | 0 <= i < |Insert(entries, e)| :: Insert(entries, e)[i].amount >= floor
    decreases |entries|
  {
    if entries != [] && entries[|entries| - 1].amount < e.amount {
      InsertedAtLeast(entries[..|entries| - 1], e, floor);
    }
  }

  lemma LastWithAmount(front: seq<Entry>, e: Entry, amount: int)
    ensures WithAmount(front + [e], amount) == WithAmount(front, amount) + (if e.amount == amount then [e] else [])
  {
    assert (front + [e])[..|front|] == front;
  }

  lemma {:induction false} InsertKeepsOrder(entries: seq<Entry>, e: Entry, amount: int)
    requires Descending(entries)
    ensures WithAmount(Insert(entries, e), amount)
            == WithAmount(entries, amount) + (if e.amount == amount then [e] else [])
    decreases |entries|
  {
    if entries == [] || entries[|entries| - 1].amount >= e.amount {
      LastWithAmount(entries, e, amount);
    } else {
      var n := |entries| - 1;
      InsertKeepsOrder(entries[..n], e, amount);
      LastWithAmount(Insert(entries[..n], e), entries[n], amount);
    }
  }

  lemma {:induction false} SortedDescends(entries: seq<Entry>)
    ensures Descending(SortedDesc(entries))
    decreases |entries|
  {
    if entries != [] {
      SortedDescends(entries[..|entries| - 1]);
      InsertDescends(SortedDesc(entries[..|entries| - 1]), entries[|entries| - 1]);
    }
  }

  lemma {:induction false} SortedPermutes(entries: seq<Entry>)
    ensures |SortedDesc(entries)| == |entries| && multiset(SortedDesc(entries)) == multiset(entries)
    decreases |entries|
  {
    if entries != [] {
      var n := |entries| - 1;
      SortedPermutes(entries[..n]);
      InsertPermutes(SortedDesc(entries[..n]), entries[n]);
      assert entries == entries[..n] + [entries[n]];
    }
  }

  lemma {:induction false} SortedKeepsOrder(entries: seq<Entry>, amount: int)
    ensures WithAmount(SortedDesc(entries), amount) == WithAmount(entries, amount)
    decreases |entries|
  {
    if entries != [] {
      var n := |entries| - 1;
      SortedKeepsOrder(entries[..n], amount);
      SortedDescends(entries[..n]);
      InsertKeepsOrder(SortedDesc(entries[..n]), entries[n], amount);
    }
  }

  /** A stable sort: descending, a permutation, and equal amounts stay in their order. */
  lemma SortedDescSorts(entries: seq<Entry>)
    ensures Descending(SortedDesc(entries)) && |SortedDesc(entries)| == |entries|
    ensures multiset(SortedDesc(entries)) == multiset(entries)
    ensures forall amount :: WithAmount(SortedDesc(entries), amount) == WithAmount(entries, amount)
  {
    SortedDescends(entries);
    SortedPermutes(entries);
    forall amount ensures WithAmount(SortedDesc(entries), amount) == WithAmount(entries, amount) {
      SortedKeepsOrder(entries, amount);
    }
  }

  lemma SumAppend(entries: seq<Entry>, e: Entry)
    ensures Sum(entries + [e]) == Sum(entries) + e.amount
  {
    assert (entries + [e])[..|entries|] == entries;
  }

  /** The entries without the one at position i. */
  function Without(entries: seq<Entry>, i: nat): seq<Entry>
    requires i < |entries|
  {
    entries[..i] + entries[i + 1..]
  }

  lemma WithoutShape(entries: seq<Entry>, i: nat)
    requires i < |entries|
    ensures var n := |entries| - 1;
            Without(entries, i) == if i == n then entries[..n] else Without(entries[..n], i) + [entries[n]]
  {
  }

  lemma {:induction false} SumRemove(entries: seq<Entry>, i: nat)
    requires i < |entries|
    ensures Sum(entries) == entries[i].amount + Sum(Without(entries, i))
    decreases |entries|
  {
    var n := |entries| - 1;
    WithoutShape(entries, i);
    if i < n {
      SumRemove(entries[..n], i);
      SumAppend(Without(entries[..n], i), entries[n]);
    }
  }

  lemma {:induction false} SumPermuted(a: seq<Entry>, b: seq<Entry>)
    requires multiset(a) == multiset(b)
    ensures Sum(a) == Sum(b)
    decreases |a|
  {
    if a == [] {
      assert |multiset(b)| == 0;
    } else {
      var n := |a| - 1;
      assert a == a[..n] + [a[n]];
      assert a[n] in multiset(b);
      var i :| 0 <= i < |b| && b[i] == a[n];
      RemoveOne(b, i);
      SumRemove(b, i);
      SumPermuted(a[..n], Without(b, i));
    }
  }

  lemma RemoveOne(b: seq<Entry>, i: nat)
    requires i < |b|
    ensures multiset(Without(b, i)) == multiset(b) - multiset{b[i]}
  {
    assert b == b[..i] + [b[i]] + b[i + 1..];
  }

  // ---------- no smaller choice ----------

  lemma FirstIsLargest(sorted: seq<Entry>, e: Entry)
    requires Descending(sorted) && e in sorted
    ensures e.amount <= sorted[0].amount
  {
  }

  lemma {:induction false} SumOfTop(sorted: seq<Entry>, m: nat)
    requires 0 < m <= |sorted|
    ensures Sum(sorted[..m]) == sorted[0].amount + Sum(sorted[1..][..m - 1])
  {
    SumStep(sorted, m - 1);
    if m == 1 {
      assert sorted[..0] == [] && sorted[1..][..0] == [];
    } else {
      SumOfTop(sorted, m - 1);
      SumStep(sorted[1..], m - 2);
    }
  }

  /** No choice of k entries is worth more than the k largest. */
  lemma {:induction false} LargestAreBest(sorted: seq<Entry>, pick: seq<Entry>)
    requires Descending(sorted) && multiset(pick) <= multiset(sorted) && |pick| <= |sorted|
    ensures Sum(pick) <= Sum(sorted[..|pick|])
    decreases |sorted|
  {
    if pick == [] {
      assert sorted[..0] == [];
    } else {
      var i := WorstPick(sorted, pick);
      var less := Without(pick, i);
      SumRemove(pick, i);
      LargestAreBest(sorted[1..], less);
      SumOfTop(sorted, |pick|);
    }
  }

  /** A pick that can go together with the largest entry: that entry if picked, else any. */
  lemma WorstPick(sorted: seq<Entry>, pick: seq<Entry>) returns (i: nat)
    requires Descending(sorted) && multiset(pick) <= multiset(sorted) && 0 < |pick| <= |sorted|
    ensures i < |pick| && pick[i].amount <= sorted[0].amount
    ensures multiset(Without(pick, i)) <= multiset(sorted[1..])
  {
    if sorted[0] in pick {
      i :| 0 <= i < |pick| && pick[i] == sorted[0];
    } else {
      i := 0;
      assert pick[0] in multiset(pick);
      assert pick[0] in multiset(sorted);
      FirstIsLargest(sorted, pick[0]);
    }
    RemoveOne(pick, i);
    assert sorted == [sorted[0]] + sorted[1..];
    assert multiset(sorted) == multiset{sorted[0]} + multiset(sorted[1..]);
  }

  // ---------- selecting ----------

  predicate NonNegative(entries: seq<Entry>) {
    forall i | 0 <= i < |entries| :: entries[i].amount >= 0
  }

  function Wanted(requested: int): int {
    if requested < MIN_STORAGE_SAFE_SOMPI then MIN_STORAGE_SAFE_SOMPI else requested
  }

  function Need(requested: int): int {
    Wanted(requested) + CHANGE_FLOOR
  }

  /** The greedy prefix: the shortest non-empty one that reaches the need, or everything. */
  ghost predicate GreedyPrefix(ordered: seq<Entry>, n: nat, need: int) {
    && 0 < n <= |ordered|
    && (forall k | 0 < k < n :: Sum(ordered[..k]) < need)
    && (n == |ordered| || Sum(ordered[..n]) >= need)
  }

  /** What is committed out of a total: the request, or all but the change floor, or half. */
  function CommitOf(total: int, requested: int): int {
    if total >= Need(requested) then Wanted(requested)
    else if total >= MIN_STORAGE_SAFE_SOMPI + CHANGE_FLOOR then total - CHANGE_FLOOR
    else total / 2
  }

  predicate Enough(commit: int, change: int) {
    commit >= MIN_STORAGE_SAFE_SOMPI && change >= MIN_STORAGE_SAFE_SOMPI
  }

  ghost predicate AllBelow(ordered: seq<Entry>, n: nat, need: int)
    requires n <= |ordered|
  {
    forall k | 0 < k <= n :: Sum(ordered[..k]) < need
  }

  lemma SumStep(ordered: seq<Entry>, i: nat)
    requires i < |ordered|
    ensures ordered[..i + 1] == ordered[..i] + [ordered[i]]
    ensures Sum(ordered[..i + 1]) == Sum(ordered[..i]) + ordered[i].amount
  {
    assert ordered[..i + 1][..i] == ordered[..i];
  }

  lemma GreedyStop(ordered: seq<Entry>, n: nat, need: int)
    requires 0 < n <= |ordered| && AllBelow(ordered, n - 1, need)
    requires n == |ordered| || Sum(ordered[..n]) >= need
    ensures GreedyPrefix(ordered, n, need)
  {
  }

  method TakeGreedily(ordered: seq<Entry>, need: int) returns (selected: seq<Entry>, total: int)
    requires ordered != []
    ensures GreedyPrefix(ordered, |selected|, need) && selected == ordered[..|selected|] && total == Sum(selected)
  {
    selected := [];
    total := 0;
    for i := 0 to |ordered|
      invariant selected == ordered[..i] && total == Sum(ordered[..i])
      invariant AllBelow(ordered, i, need)
    {
      SumStep(ordered, i);
      selected := selected + [ordered[i]];
      total := total + ordered[i].amount;
      if total >= need {
        GreedyStop(ordered, i + 1, need);
        return;
      }
    }
    GreedyStop(ordered, |ordered|, need);
  }

  method Split(total: int, requested: int) returns (commit: int, change: int)
    ensures commit == CommitOf(total, requested) && change == total - commit
  {
    commit := Wanted(requested);
    change := total - commit;
    if change < CHANGE_FLOOR {
      commit := total - CHANGE_FLOOR;
      change := CHANGE_FLOOR;
    }
    if commit < MIN_STORAGE_SAFE_SOMPI {
      commit := total / 2;
      change := total - commit;
    }
  }

  /** The final check of the source; its mass test is implied by the other two. */
  method Check(inputs: seq<int>, commit: int, change: int) returns (ok: bool)
    ensures ok <==> Enough(commit, change)
    ensures ok ==> Mass(inputs, [commit, change]) <= MAX_STORAGE_MASS
  {
    var mass := StorageMass(inputs, [commit, change]);
    if Enough(commit, change) {
      SafeOutputs(inputs, commit, change);
    }
    ok := !(commit < MIN_STORAGE_SAFE_SOMPI || change < MIN_STORAGE_SAFE_SOMPI || mass > MAX_STORAGE_MASS);
  }

  /** The outcome when the greedy prefix has n entries. */
  function Outcome(mature: seq<Entry>, requested: int, n: nat): Result<(seq<Entry>, int), SelectError>
    requires n <= |SortedDesc(mature)|
  {
    var selected := SortedDesc(mature)[..n];
    var commit := CommitOf(Sum(selected), requested);
    if Enough(commit, Sum(selected) - commit) then Ok((selected, commit))
    else Err(NotEnough(Need(requested), Sum(selected)))
  }

  method SelectCommitEntries(mature: seq<Entry>, requested: int)
    returns (r: Result<(seq<Entry>, int), SelectError>)
    ensures mature == [] <==> r == Err(NoSpendable)
    ensures mature != [] ==>
              exists n: nat ::
                GreedyPrefix(SortedDesc(mature), n, Need(requested)) && r == Outcome(mature, requested, n)
    ensures NonNegative(mature) ==> (r.Ok? <==> Sum(mature) >= 40_000_000)
  {
    if mature == [] {
      return Err(NoSpendable);
    }
    var ordered := SortedDesc(mature);
    SortedDescSorts(mature);
    var need := Wanted(requested) + CHANGE_FLOOR;
    var selected, total := TakeGreedily(ordered, need);
    var commit, change := Split(total, requested);
    var ok := Check(AmountsOf(selected), commit, change);
    r := if ok then Ok((selected, commit)) else Err(NotEnough(need, total));
    assert r == Outcome(mature, requested, |selected|);
    if NonNegative(mature) {
      SucceedsExactly(mature, requested, |selected|);
    }
  }

  // ---------- what selection guarantees ----------

  lemma {:induction false} SumOfPrefix(entries: seq<Entry>, n: nat)
    requires n <= |entries| && NonNegative(entries)
    ensures Sum(entries[..n]) <= Sum(entries)
    decreases |entries| - n
  {
    if n == |entries| {
      assert entries[..n] == entries;
    } else {
      SumOfPrefix(entries, n + 1);
      assert entries[..n + 1][..n] == entries[..n];
    }
  }

  lemma EnoughExactly(total: int, all: int, requested: int)
    requires total >= Need(requested) || total == all
    requires 0 <= total <= all
    ensures Enough(CommitOf(total, requested), total - CommitOf(total, requested))
            <==> all >= 2 * MIN_STORAGE_SAFE_SOMPI
  {
  }

  lemma SortedNonNegative(mature: seq<Entry>)
    requires NonNegative(mature)
    ensures NonNegative(SortedDesc(mature)) && Sum(SortedDesc(mature)) == Sum(mature)
  {
    var ordered := SortedDesc(mature);
    SortedDescSorts(mature);
    SumPermuted(ordered, mature);
    forall i | 0 <= i < |ordered| ensures ordered[i].amount >= 0 {
      assert ordered[i] in multiset(ordered);
      assert ordered[i] in multiset(mature);
    }
  }

  /**
   With non-negative amounts selection succeeds exactly when all mature outputs together make
   two outputs at the floor, whatever was requested.
   */
  lemma SucceedsExactly(mature: seq<Entry>, requested: int, n: nat)
    requires NonNegative(mature) && GreedyPrefix(SortedDesc(mature), n, Need(requested))
    ensures Outcome(mature, requested, n).Ok? <==> Sum(mature) >= 2 * MIN_STORAGE_SAFE_SOMPI
  {
    var ordered := SortedDesc(mature);
    SortedNonNegative(mature);
    SumOfPrefix(ordered, n);
    SumOfPrefix(ordered[..n], 0);
    assert ordered[..n][..0] == [];
    TotalOrNeed(mature, requested, n);
    EnoughExactly(Sum(ordered[..n]), Sum(mature), requested);
  }

  lemma CommitIsSafe(selected: seq<Entry>, requested: int)
    requires var commit := CommitOf(Sum(selected), requested); Enough(commit, Sum(selected) - commit)
    ensures var commit := CommitOf(Sum(selected), requested);
            Mass(AmountsOf(selected), [commit, Sum(selected) - commit]) <= MAX_STORAGE_MASS
  {
    var commit := CommitOf(Sum(selected), requested);
    SafeOutputs(AmountsOf(selected), commit, Sum(selected) - commit);
  }

  /** A greedy prefix that stays below the need is the whole wallet. */
  lemma TotalOrNeed(mature: seq<Entry>, requested: int, n: nat)
    requires GreedyPrefix(SortedDesc(mature), n, Need(requested))
    ensures Sum(SortedDesc(mature)[..n]) >= Need(requested) || Sum(SortedDesc(mature)[..n]) == Sum(mature)
  {
    SortedDescSorts(mature);
    SumPermuted(SortedDesc(mature), mature);
    if n == |SortedDesc(mature)| {
      assert SortedDesc(mature)[..n] == SortedDesc(mature);
    }
  }

  /** A successful selection: both outputs at the floor and storage mass within the bound. */
  lemma SelectionIsSafe(mature: seq<Entry>, requested: int, n: nat)
    requires n <= |SortedDesc(mature)| && Outcome(mature, requested, n).Ok?
    ensures var (selected, commit) := Outcome(mature, requested, n).value;
            && commit >= 20_000_000 && Sum(selected) - commit >= 20_000_000
            && Mass(AmountsOf(selected), [commit, Sum(selected) - commit]) <= 100_000
  {
    CommitIsSafe(SortedDesc(mature)[..n], requested);
  }

  /**
   The request is met, with the padded change, whenever the wallet can pay it; less than
   requested is committed only when it cannot.
   */
  lemma RequestHonoured(mature: seq<Entry>, requested: int, n: nat)
    requires GreedyPrefix(SortedDesc(mature), n, Need(requested)) && Sum(mature) >= Need(requested)
    ensures var selected := SortedDesc(mature)[..n];
            && Outcome(mature, requested, n) == Ok((selected, if requested < 20_000_000 then 20_000_000 else requested))
            && Sum(selected) - Wanted(requested) >= 21_000_000
  {
    TotalOrNeed(mature, requested, n);
  }

  /**
   When the selected outputs cannot pay the request they are the whole wallet, and either the
   change is exactly the padded floor and the commit what remains, below the request, or, with
   too little even for that, the total is halved, which may commit more than was requested.
   */
  lemma PartialCommit(mature: seq<Entry>, requested: int, n: nat)
    requires GreedyPrefix(SortedDesc(mature), n, Need(requested)) && Outcome(mature, requested, n).Ok?
    requires Sum(SortedDesc(mature)[..n]) < Need(requested)
    ensures var (selected, commit) := Outcome(mature, requested, n).value;
            var change := Sum(selected) - commit;
            && multiset(selected) == multiset(mature) && commit + change == Sum(mature)
            && if Sum(mature) >= 41_000_000 then change == 21_000_000 && commit < requested
               else Sum(mature) >= 40_000_000 && 0 <= change - commit <= 1
  {
    TotalOrNeed(mature, requested, n);
    SortedDescSorts(mature);
    var ordered := SortedDesc(mature);
    assert n == |ordered|;
    assert ordered[..n] == ordered;
    HalvesExactly(Sum(mature), requested);
  }

  lemma HalvesExactly(total: int, requested: int)
    requires total < Need(requested)
    requires var commit := CommitOf(total, requested); Enough(commit, total - commit)
    ensures var commit := CommitOf(total, requested);
            && if total >= 41_000_000 then total - commit == 21_000_000 && commit < requested
               else total >= 40_000_000 && 0 <= total - commit - commit <= 1
  {
  }

  /** A request of 20,200,000 out of 40,900,000: 20,450,000 is committed. */
  lemma HalfExceedsRequest()
    ensures var e := Entry("e", 40_900_000, false, None);
            && GreedyPrefix(SortedDesc([e]), 1, Need(20_200_000))
            && Outcome([e], 20_200_000, 1) == Ok(([e], 20_450_000))
  {
    var e := Entry("e", 40_900_000, false, None);
    assert [e][..0] == [];
    assert SortedDesc([e]) == Insert([], e) == [e];
    assert [e][..1] == [e];
    assert Sum([e]) == Sum([e][..0]) + e.amount;
  }

  /** When the need is reached, no choice of fewer entries reaches it. */
  lemma FewestEntries(mature: seq<Entry>, requested: int, n: nat, pick: seq<Entry>)
    requires GreedyPrefix(SortedDesc(mature), n, Need(requested))
    requires multiset(pick) <= multiset(mature) && |pick| < n
    ensures Sum(pick) < Need(requested)
  {
    SortedDescSorts(mature);
    LargestAreBest(SortedDesc(mature), pick);
  }

  /** Only mature entries of the wallet are spent. */
  lemma OnlyMatureSpent(entries: seq<Entry>, virtualDaa: Option<int>, n: nat, e: Entry)
    requires n <= |SortedDesc(SpendableEntries(entries, virtualDaa))|
    requires e in SortedDesc(SpendableEntries(entries, virtualDaa))[..n]
    ensures e in entries && IsMature(e, virtualDaa)
  {
    var mature := SpendableEntries(entries, virtualDaa);
    SortedDescSorts(mature);
    assert e in SortedDesc(mature);
    assert e in multiset(SortedDesc(mature));
    assert e in multiset(mature);
  }
}
