/**
 The sliding delay window of scripts/ghostdag_k_window_sim.py, over real times.
 */
module Window {

  predicate Sorted(times: seq<real>) {
    forall i, j | 0 <= i < j < |times| :: times[i] <= times[j]
  }

  /** How many of the first n times are later than the cutoff. */
  function CountAfter(times: seq<real>, n: nat, cutoff: real): nat
    requires n <= |times|
  {
    if n == 0 then 0 else CountAfter(times, n - 1, cutoff) + (if times[n - 1] > cutoff then 1 else 0)
  }

  /** Blocks received up to and including index r, less than the latency before it. */
  function Occupancy(times: seq<real>, latency: real, r: nat): nat
    requires r < |times|
  {
    CountAfter(times, r + 1, times[r] - latency)
  }

  lemma {:induction false} CountIsSuffix(times: seq<real>, n: nat, cutoff: real, left: nat)
    requires left <= n <= |times|
    requires forall i | 0 <= i < left :: times[i] <= cutoff
    requires forall i | left <= i < n :: times[i] > cutoff
    ensures CountAfter(times, n, cutoff) == n - left
  {
    if n > 0 {
      CountIsSuffix(times, n - 1, cutoff, if left < n then left else n - 1);
    }
  }

  /**
   The two pointers: each count is the naive one, and the left pointer moves at most once per
   time over the whole run.
   */
  method WindowOccupancy(received: seq<real>, latency: real) returns (counts: seq<nat>, ghost moves: nat)
    requires Sorted(received)
    ensures |counts| == |received|
    ensures forall r | 0 <= r < |received| :: counts[r] == Occupancy(received, latency, r)
    ensures moves <= |received|
  {
    counts := [];
    moves := 0;
    var left := 0;
    for right := 0 to |received|
      invariant moves == left <= right == |counts|
      invariant forall r | 0 <= r < right :: counts[r] == Occupancy(received, latency, r)
      invariant forall i | 0 <= i < left :: right > 0 && received[i] <= received[right - 1] - latency
    {
      var cutoff := received[right] - latency;
      while left <= right && received[left] <= cutoff
        invariant moves == left <= right + 1
        invariant forall i | 0 <= i < left :: received[i] <= cutoff
      {
        left := left + 1;
        moves := moves + 1;
      }
      forall i | left <= i < right + 1 ensures received[i] > cutoff {
        assert received[left] <= received[i];
      }
      CountIsSuffix(received, right + 1, cutoff, left);
      counts := counts + [right - left + 1];
    }
  }

  // ---------- the summary ----------

  /** Some index has this occupancy, and none a greater one; 0 when nothing was received. */
  ghost predicate IsMaximum(counts: seq<nat>, m: nat) {
    && (forall i | 0 <= i < |counts| :: counts[i] <= m)
    && if counts == [] then m == 0 else m in counts
  }

  function Over(counts: seq<nat>, k: int): nat {
    if counts == [] then 0 else Over(counts[..|counts| - 1], k) + (if counts[|counts| - 1] > k then 1 else 0)
  }

  /** The indices with an occupancy above k. */
  function Above(counts: seq<nat>, k: int): set<nat> {
    set i: nat | i < |counts| && counts[i] > k
  }

  lemma {:induction false} OverCounts(counts: seq<nat>, k: int)
    ensures Over(counts, k) == |Above(counts, k)|
    decreases |counts|
  {
    if counts != [] {
      var n := |counts| - 1;
      OverCounts(counts[..n], k);
      if counts[n] > k {
        assert Above(counts, k) == Above(counts[..n], k) + {n};
      } else {
        assert Above(counts, k) == Above(counts[..n], k);
      }
    }
  }

  function Sum(counts: seq<nat>): nat {
    if counts == [] then 0 else Sum(counts[..|counts| - 1]) + counts[|counts| - 1]
  }

  datatype Report = Report(maxOccupancy: nat, mean: real, pOver: real, covers: bool)

  /**
   The verdict of a run: the greatest and the mean occupancy, the fraction of times with an
   occupancy above k, and whether k covers the greatest; before the two reals are rounded.
   */
  method Summarize(counts: seq<nat>, k: int) returns (r: Report)
    ensures IsMaximum(counts, r.maxOccupancy)
    ensures r.mean * (|counts| as real) == Sum(counts) as real && (counts == [] ==> r.mean == 0.0)
    ensures r.pOver * (|counts| as real) == |Above(counts, k)| as real && (counts == [] ==> r.pOver == 0.0)
    ensures r.covers <==> (forall i | 0 <= i < |counts| :: counts[i] <= k) && (counts != [] || k >= 0)
    ensures r.covers <==> r.pOver == 0.0 && (counts != [] || k >= 0)
  {
    var maxOccupancy, sum, over := Totals(counts, k);
    OverCounts(counts, k);
    OverIsZero(counts, k);
    var mean := Ratio(sum, |counts|);
    var pOver := Ratio(over, |counts|);
    r := Report(maxOccupancy, mean, pOver, maxOccupancy <= k);
  }

  method Totals(counts: seq<nat>, k: int) returns (maxOccupancy: nat, sum: nat, over: nat)
    ensures IsMaximum(counts, maxOccupancy) && sum == Sum(counts) && over == Over(counts, k)
  {
    maxOccupancy, sum, over := 0, 0, 0;
    for i := 0 to |counts|
      invariant IsMaximum(counts[..i], maxOccupancy)
      invariant sum == Sum(counts[..i])
      invariant over == Over(counts[..i], k)
    {
      assert counts[..i + 1][..i] == counts[..i] && counts[..i + 1] == counts[..i] + [counts[i]];
      if i == 0 || counts[i] > maxOccupancy {
        maxOccupancy := counts[i];
      }
      sum := sum + counts[i];
      if counts[i] > k {
        over := over + 1;
      }
    }
    assert counts[..|counts|] == counts;
  }

  method Ratio(part: nat, n: nat) returns (q: real)
    requires n == 0 ==> part == 0
    ensures q * (n as real) == part as real
    ensures n == 0 ==> q == 0.0
    ensures q == 0.0 <==> part == 0
  {
    q := if n > 0 then part as real / n as real else 0.0;
  }

  lemma {:induction false} OverIsZero(counts: seq<nat>, k: int)
    ensures Over(counts, k) == 0 <==> forall i | 0 <= i < |counts| :: counts[i] <= k
    decreases |counts|
  {
    if counts != [] {
      var n := |counts| - 1;
      OverIsZero(counts[..n], k);
      assert counts == counts[..n] + [counts[n]];
      if forall i | 0 <= i < |counts| :: counts[i] <= k {
        assert forall i | 0 <= i < n :: counts[..n][i] == counts[i];
        assert counts[n] <= k;
      }
    }
  }

  // ---------- against the window as described ----------

  /** All blocks received in (t - latency, t] for t the time at index r, ties included. */
  function InWindow(times: seq<real>, latency: real, r: nat, n: nat): nat
    requires r < |times| && n <= |times|
  {
    if n == 0 then 0 else
    InWindow(times, latency, r, n - 1)
    + (if times[r] - latency < times[n - 1] && times[n - 1] <= times[r] then 1 else 0)
  }

  function TrueOccupancy(times: seq<real>, latency: real, r: nat): nat
    requires r < |times|
  {
    InWindow(times, latency, r, |times|)
  }

  lemma {:induction false} PrefixInWindow(times: seq<real>, latency: real, r: nat, n: nat)
    requires Sorted(times) && r < |times| && n <= r + 1
    ensures InWindow(times, latency, r, n) == CountAfter(times, n, times[r] - latency)
  {
    if n > 0 {
      PrefixInWindow(times, latency, r, n - 1);
      assert times[n - 1] <= times[r];
    }
  }

  lemma {:induction false} TailInWindow(times: seq<real>, latency: real, r: nat, n: nat)
    requires Sorted(times) && r < n <= |times|
    ensures InWindow(times, latency, r, n) >= InWindow(times, latency, r, r + 1)
    ensures InWindow(times, latency, r, n) == InWindow(times, latency, r, r + 1)
            <==> latency <= 0.0 || r + 1 == n || times[r + 1] > times[r]
  {
    if n > r + 1 {
      TailInWindow(times, latency, r, n - 1);
      assert times[r] <= times[r + 1] <= times[n - 1];
    }
  }

  /**
   The count at an index is the occupancy of (t - L, t] exactly when no later block was received
   at the same time, or the window is empty anyway; otherwise it is smaller.
   */
  lemma CountsUpToTies(times: seq<real>, latency: real, r: nat)
    requires Sorted(times) && r < |times|
    ensures Occupancy(times, latency, r) <= TrueOccupancy(times, latency, r)
    ensures Occupancy(times, latency, r) == TrueOccupancy(times, latency, r)
            <==> latency <= 0.0 || r + 1 == |times| || times[r + 1] > times[r]
  {
    PrefixInWindow(times, latency, r, r + 1);
    TailInWindow(times, latency, r, |times|);
  }

  /** Two blocks at one time: the first counts itself alone, though the window holds both. */
  lemma TieUndercounts()
    ensures Sorted([0.0, 0.0])
    ensures Occupancy([0.0, 0.0], 1.0, 0) == 1 && TrueOccupancy([0.0, 0.0], 1.0, 0) == 2
  {
    var times := [0.0, 0.0];
    assert CountAfter(times, 0, -1.0) == 0 && CountAfter(times, 1, -1.0) == 1;
    assert InWindow(times, 1.0, 0, 0) == 0 && InWindow(times, 1.0, 0, 1) == 1;
  }

  lemma {:induction false} SameTimeSameWindow(times: seq<real>, latency: real, r: nat, s: nat, n: nat)
    requires r < |times| && s < |times| && times[r] == times[s] && n <= |times|
    ensures InWindow(times, latency, r, n) == InWindow(times, latency, s, n)
  {
    if n > 0 {
      SameTimeSameWindow(times, latency, r, s, n - 1);
    }
  }

  /** The last block received at the same time as the one at index r counts them all. */
  lemma {:induction false} LastOfTies(times: seq<real>, latency: real, r: nat) returns (s: nat)
    requires Sorted(times) && r < |times|
    ensures r <= s < |times| && Occupancy(times, latency, s) == TrueOccupancy(times, latency, r)
    decreases |times| - r
  {
    if r + 1 == |times| || times[r + 1] > times[r] {
      s := r;
      CountsUpToTies(times, latency, r);
    } else {
      assert times[r] <= times[r + 1];
      s := LastOfTies(times, latency, r + 1);
      SameTimeSameWindow(times, latency, r, r + 1, |times|);
    }
  }

  /** Ties do not spoil the verdict: k covers the counts exactly when it covers the true occupancies. */
  lemma CoversDespiteTies(times: seq<real>, latency: real, k: int)
    requires Sorted(times)
    ensures (forall r | 0 <= r < |times| :: Occupancy(times, latency, r) <= k)
            <==> forall r | 0 <= r < |times| :: TrueOccupancy(times, latency, r) <= k
  {
    forall r | 0 <= r < |times| ensures Occupancy(times, latency, r) <= TrueOccupancy(times, latency, r) {
      CountsUpToTies(times, latency, r);
    }
    if forall r | 0 <= r < |times| :: Occupancy(times, latency, r) <= k {
      forall r | 0 <= r < |times| ensures TrueOccupancy(times, latency, r) <= k {
        var s := LastOfTies(times, latency, r);
      }
    }
  }
}
