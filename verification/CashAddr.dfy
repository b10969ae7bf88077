/**
 The CashAddr checksum of src/network.rs. A u64 of the source is the sequence of its 64 bits,
 least significant first, so shifts, masks and exclusive or are exact. A string stands for the
 address text; the source rejects every character outside its charset, so how other
 characters are encoded as bytes makes no difference to the verdict.
 */
module CashAddr {

  // ---------- words ----------

  type Word = w: seq<bool> | |w| == 64 witness seq(64, _ => false)

  function Pow2(k: nat): (p: nat)
    ensures p > 0
  {
    if k == 0 then 1 else 2 * Pow2(k - 1)
  }

  predicate BitOf(n: nat, i: nat) {
    n / Pow2(i) % 2 == 1
  }

  function WordOf(n: nat): (r: Word)
    ensures forall i | 0 <= i < 64 :: r[i] == BitOf(n, i)
  {
    seq(64, i requires 0 <= i < 64 => BitOf(n, i))
  }

  function Zero(): Word {
    seq(64, _ => false)
  }

  function Xor(a: Word, b: Word): (r: Word)
    ensures forall i | 0 <= i < 64 :: r[i] == (a[i] != b[i])
  {
    seq(64, i requires 0 <= i < 64 => a[i] != b[i])
  }

  function ShiftRight(a: Word, n: nat): (r: Word)
    requires n <= 64
    ensures forall i | 0 <= i < 64 :: r[i] == (i + n < 64 && a[i + n])
  {
    seq(64, i requires 0 <= i < 64 => i + n < 64 && a[i + n])
  }

  function ShiftLeft(a: Word, n: nat): (r: Word)
    requires n <= 64
    ensures forall i | 0 <= i < 64 :: r[i] == (n <= i && a[i - n])
  {
    seq(64, i requires 0 <= i < 64 => n <= i && a[i - n])
  }

  /** The low n bits: a mask of n ones. */
  function KeepLow(a: Word, n: nat): (r: Word)
    ensures forall i | 0 <= i < 64 :: r[i] == (i < n && a[i])
  {
    seq(64, i requires 0 <= i < 64 => i < n && a[i])
  }

  // ---------- the checksum ----------

  function Generator(i: nat): Word
    requires i < 5
  {
    match i
    case 0 => WordOf(0x98f2bc8e61)
    case 1 => WordOf(0x79b76d99e2)
    case 2 => WordOf(0xf33e5fb3c4)
    case 3 => WordOf(0xae2eabe2a8)
    case 4 => WordOf(0x1e4f43e470)
  }

  /** The first m generators, each mixed in when its bit of top is set. */
  function Mixed(c: Word, top: Word, m: nat): Word
    requires m <= 5
  {
    if m == 0 then c
    else if top[m - 1] then Xor(Mixed(c, top, m - 1), Generator(m - 1))
    else Mixed(c, top, m - 1)
  }

  /** One symbol enters the checksum. */
  function Step(c: Word, v: Word): Word {
    Mixed(Xor(ShiftLeft(KeepLow(c, 35), 5), v), ShiftRight(c, 35), 5)
  }

  function Fold(c: Word, values: seq<Word>): Word {
    if values == [] then c else Step(Fold(c, values[..|values| - 1]), values[|values| - 1])
  }

  function Polymod(values: seq<Word>): Word {
    Xor(Fold(WordOf(1), values), WordOf(1))
  }

  method CashaddrPolymod(values: seq<Word>) returns (r: Word)
    ensures r == Polymod(values)
  {
    var checksum := WordOf(1);
    for n := 0 to |values|
      invariant checksum == Fold(WordOf(1), values[..n])
    {
      assert values[..n + 1][..n] == values[..n];
      var top := ShiftRight(checksum, 35);
      var shifted := Xor(ShiftLeft(KeepLow(checksum, 35), 5), values[n]);
      checksum := shifted;
      for index := 0 to 5
        invariant checksum == Mixed(shifted, top, index)
      {
        if ShiftRight(top, index)[0] {
          checksum := Xor(checksum, Generator(index));
        }
      }
    }
    assert values[..|values|] == values;
    r := Xor(checksum, WordOf(1));
  }

  // ---------- linearity ----------

  /** Bit i of what the first m generators contribute. */
  function Parity(top: Word, i: nat, m: nat): bool
    requires i < 64 && m <= 5
  {
    m > 0 && (Parity(top, i, m - 1) != (top[m - 1] && Generator(m - 1)[i]))
  }

  lemma {:induction false} MixedBit(c: Word, top: Word, m: nat, i: nat)
    requires i < 64 && m <= 5
    ensures Mixed(c, top, m)[i] == (c[i] != Parity(top, i, m))
  {
    if m > 0 {
      MixedBit(c, top, m - 1, i);
    }
  }

  lemma {:induction false} ParityLinear(s: Word, t: Word, i: nat, m: nat)
    requires i < 64 && m <= 5
    ensures Parity(Xor(s, t), i, m) == (Parity(s, i, m) != Parity(t, i, m))
  {
    if m > 0 {
      ParityLinear(s, t, i, m - 1);
    }
  }

  function Moved(c: Word): Word {
    ShiftLeft(KeepLow(c, 35), 5)
  }

  lemma StepBit(c: Word, v: Word, i: nat)
    requires i < 64
    ensures Step(c, v)[i] == (((5 <= i < 40 && c[i - 5]) != v[i]) != Parity(ShiftRight(c, 35), i, 5))
  {
    MixedBit(Xor(Moved(c), v), ShiftRight(c, 35), 5, i);
  }

  /** One step is linear in the state and the symbol together. */
  lemma StepLinear(c: Word, d: Word, v: Word, w: Word)
    ensures Step(Xor(c, d), Xor(v, w)) == Xor(Step(c, v), Step(d, w))
  {
    forall i | 0 <= i < 64
      ensures Step(Xor(c, d), Xor(v, w))[i] == Xor(Step(c, v), Step(d, w))[i]
    {
      StepBit(Xor(c, d), Xor(v, w), i);
      StepBit(c, v, i);
      StepBit(d, w, i);
      assert ShiftRight(Xor(c, d), 35) == Xor(ShiftRight(c, 35), ShiftRight(d, 35));
      ParityLinear(ShiftRight(c, 35), ShiftRight(d, 35), i, 5);
    }
  }

  function Difference(xs: seq<Word>, ys: seq<Word>): (r: seq<Word>)
    requires |xs| == |ys|
    ensures |r| == |xs|
    ensures forall i | 0 <= i < |xs| :: r[i] == Xor(xs[i], ys[i])
  {
    seq(|xs|, i requires 0 <= i < |xs| => Xor(xs[i], ys[i]))
  }

  /** The checksum is linear: the difference of two states is the checksum of the difference. */
  lemma {:induction false} FoldLinear(c: Word, d: Word, xs: seq<Word>, ys: seq<Word>)
    requires |xs| == |ys|
    ensures Fold(Xor(c, d), Difference(xs, ys)) == Xor(Fold(c, xs), Fold(d, ys))
    decreases |xs|
  {
    var n := |xs| - 1;
    if n >= 0 {
      FoldLinear(c, d, xs[..n], ys[..n]);
      assert Difference(xs, ys)[..n] == Difference(xs[..n], ys[..n]);
      StepLinear(Fold(c, xs[..n]), Fold(d, ys[..n]), xs[n], ys[n]);
    }
  }

  lemma {:induction false} FoldAppend(c: Word, xs: seq<Word>, ys: seq<Word>)
    ensures Fold(c, xs + ys) == Fold(Fold(c, xs), ys)
    decreases |ys|
  {
    if ys == [] {
      assert xs + ys == xs;
    } else {
      var n := |ys| - 1;
      assert (xs + ys)[..|xs| + n] == xs + ys[..n];
      FoldAppend(c, xs, ys[..n]);
    }
  }

  // ---------- steps on bounded states ----------

  /** Only the low n bits may be set. */
  ghost predicate Below(w: Word, n: nat) {
    forall i | n <= i < 64 :: !w[i]
  }

  ghost predicate Symbols(values: seq<Word>) {
    forall i | 0 <= i < |values| :: Below(values[i], 5)
  }

  lemma SmallPowers()
    ensures Pow2(0) == 1 && Pow2(1) == 2 && Pow2(2) == 4 && Pow2(3) == 8 && Pow2(4) == 16 && Pow2(5) == 32
  {
  }

  lemma {:induction false} Pow2Grows(k: nat, i: nat)
    requires k <= i
    ensures Pow2(k) <= Pow2(i)
    decreases i
  {
    if k < i {
      Pow2Grows(k, i - 1);
    }
  }

  lemma {:induction false} Pow2Add(a: nat, b: nat)
    ensures Pow2(a + b) == Pow2(a) * Pow2(b)
  {
    if a > 0 {
      Pow2Add(a - 1, b);
    }
  }

  lemma SmallQuotient(n: nat, p: nat)
    requires n < p
    ensures n / p == 0
  {
  }

  /** A number below 2 to the k has no bit from k on. */
  lemma BitsBelow(n: nat, k: nat)
    requires n < Pow2(k)
    ensures Below(WordOf(n), k)
  {
    forall i | k <= i < 64 ensures !BitOf(n, i) {
      Pow2Grows(k, i);
      SmallQuotient(n, Pow2(i));
    }
  }

  /** The five low bits of a number, spelled out. */
  lemma LowBits(n: nat)
    ensures BitOf(n, 0) == (n % 2 == 1) && BitOf(n, 1) == (n / 2 % 2 == 1) && BitOf(n, 2) == (n / 4 % 2 == 1)
    ensures BitOf(n, 3) == (n / 8 % 2 == 1) && BitOf(n, 4) == (n / 16 % 2 == 1)
  {
    SmallPowers();
  }

  /** The low five bits of the generators are 1, 2, 4, 8 and 16. */
  lemma GeneratorLowBits(j: nat)
    requires j < 5
    ensures forall i | 0 <= i < 5 :: Generator(j)[i] == (i == j)
  {
    match j
    case 0 => OneLowBit(0x98f2bc8e61, 0);
    case 1 => OneLowBit(0x79b76d99e2, 1);
    case 2 => OneLowBit(0xf33e5fb3c4, 2);
    case 3 => OneLowBit(0xae2eabe2a8, 3);
    case 4 => OneLowBit(0x1e4f43e470, 4);
  }

  /** Of the five low bits only bit j is set. */
  predicate OnlyBit(n: nat, j: nat) {
    && (n % 2 == 1) == (j == 0) && (n / 2 % 2 == 1) == (j == 1) && (n / 4 % 2 == 1) == (j == 2)
    && (n / 8 % 2 == 1) == (j == 3) && (n / 16 % 2 == 1) == (j == 4)
  }

  lemma OneLowBit(n: nat, j: nat)
    requires OnlyBit(n, j)
    ensures forall i | 0 <= i < 5 :: WordOf(n)[i] == (i == j)
  {
    LowBits(n);
    forall i | 0 <= i < 5 ensures BitOf(n, i) == (i == j) {
      assert i == 0 || i == 1 || i == 2 || i == 3 || i == 4;
    }
  }

  lemma GeneratorBelow(j: nat)
    requires j < 5
    ensures Below(Generator(j), 40)
  {
    assert Pow2(40) == 0x100_0000_0000 by {
      assert Pow2(10) == 1024;
      Pow2Add(10, 10);
      Pow2Add(20, 20);
    }
    match j
    case 0 => BitsBelow(0x98f2bc8e61, 40);
    case 1 => BitsBelow(0x79b76d99e2, 40);
    case 2 => BitsBelow(0xf33e5fb3c4, 40);
    case 3 => BitsBelow(0xae2eabe2a8, 40);
    case 4 => BitsBelow(0x1e4f43e470, 40);
  }

  lemma {:induction false} ParityHigh(top: Word, i: nat, m: nat)
    requires 40 <= i < 64 && m <= 5
    ensures !Parity(top, i, m)
  {
    if m > 0 {
      ParityHigh(top, i, m - 1);
      GeneratorBelow(m - 1);
    }
  }

  lemma {:induction false} ParityLow(top: Word, i: nat, m: nat)
    requires i < 5 && m <= 5
    ensures Parity(top, i, m) == (i < m && top[i])
  {
    if m > 0 {
      ParityLow(top, i, m - 1);
      GeneratorLowBits(m - 1);
    }
  }

  lemma {:induction false} ParityOfNothing(top: Word, i: nat, m: nat)
    requires i < 64 && m <= 5 && forall j | 0 <= j < 5 :: !top[j]
    ensures !Parity(top, i, m)
  {
    if m > 0 {
      ParityOfNothing(top, i, m - 1);
    }
  }

  /** States stay within forty bits. */
  lemma StepStays(c: Word, v: Word)
    requires Below(v, 5)
    ensures Below(Step(c, v), 40)
  {
    forall i | 40 <= i < 64 ensures !Step(c, v)[i] {
      StepBit(c, v, i);
      ParityHigh(ShiftRight(c, 35), i, 5);
    }
  }

  /** Below 35 bits nothing is shifted out: the state moves up and takes in the symbol. */
  lemma StepCollects(c: Word, v: Word, n: nat)
    requires n <= 35 && Below(c, n) && Below(v, 5)
    ensures forall i | 0 <= i < 64 :: Step(c, v)[i] == if i < 5 then v[i] else i < 40 && c[i - 5]
    ensures Below(Step(c, v), n + 5)
    ensures Step(c, v) == Zero() <==> c == Zero() && v == Zero()
  {
    var r := Step(c, v);
    forall i | 0 <= i < 64 ensures r[i] == if i < 5 then v[i] else i < 40 && c[i - 5] {
      StepBit(c, v, i);
      ParityOfNothing(ShiftRight(c, 35), i, 5);
    }
    if r == Zero() {
      assert forall i | 0 <= i < 35 :: c[i] == r[i + 5];
      assert c == Zero();
      assert forall i | 0 <= i < 5 :: v[i] == r[i];
      assert v == Zero();
    }
    if c == Zero() && v == Zero() {
      assert r == Zero();
    }
  }

  /** A zero symbol never turns a non-zero state into zero. */
  lemma ZeroStepKeeps(c: Word)
    requires Below(c, 40) && Step(c, Zero()) == Zero()
    ensures c == Zero()
  {
    var top := ShiftRight(c, 35);
    forall i | 35 <= i < 40 ensures !c[i] {
      StepBit(c, Zero(), i - 35);
      ParityLow(top, i - 35, 5);
      assert top[i - 35] == c[i];
    }
    StepCollects(c, Zero(), 35);
  }

  // ---------- burst detection ----------

  function Zeros(n: nat): (r: seq<Word>)
    ensures |r| == n && forall i | 0 <= i < n :: r[i] == Zero()
  {
    seq(n, _ => Zero())
  }

  lemma {:induction false} ZerosFromZero(n: nat)
    ensures Fold(Zero(), Zeros(n)) == Zero()
  {
    if n > 0 {
      ZerosFromZero(n - 1);
      assert Zeros(n)[..n - 1] == Zeros(n - 1);
      StepCollects(Zero(), Zero(), 0);
    }
  }

  lemma {:induction false} ZerosKeepNonzero(c: Word, n: nat)
    requires Below(c, 40) && c != Zero()
    ensures Below(Fold(c, Zeros(n)), 40) && Fold(c, Zeros(n)) != Zero()
  {
    if n > 0 {
      ZerosKeepNonzero(c, n - 1);
      assert Zeros(n)[..n - 1] == Zeros(n - 1);
      var d := Fold(c, Zeros(n - 1));
      StepStays(d, Zero());
      if Step(d, Zero()) == Zero() {
        ZeroStepKeeps(d);
      }
    }
  }

  /** Up to eight symbols from the zero state fit without anything shifted out. */
  lemma {:induction false} BurstFits(values: seq<Word>)
    requires |values| <= 8 && Symbols(values)
    ensures Below(Fold(Zero(), values), 5 * |values|)
    decreases |values|
  {
    var n := |values| - 1;
    if n >= 0 {
      BurstFits(values[..n]);
      StepCollects(Fold(Zero(), values[..n]), values[n], 5 * n);
    }
  }

  lemma StepNonzero(c: Word, v: Word, n: nat)
    requires n <= 35 && Below(c, n) && Below(v, 5) && (c != Zero() || v != Zero())
    ensures Step(c, v) != Zero()
  {
    StepCollects(c, v, n);
  }

  /** They leave zero only when all of them are zero. */
  lemma {:induction false} BurstNonzero(values: seq<Word>, k: nat)
    requires k < |values| <= 8 && Symbols(values) && values[k] != Zero()
    ensures Fold(Zero(), values) != Zero()
    decreases |values|
  {
    var n := |values| - 1;
    if k < n {
      BurstNonzero(values[..n], k);
    }
    BurstFits(values[..n]);
    StepNonzero(Fold(Zero(), values[..n]), values[n], 5 * n);
  }

  lemma XorZero(a: Word)
    ensures Xor(a, Zero()) == a == Xor(Zero(), a)
  {
  }

  lemma XorIsZero(a: Word, b: Word)
    ensures Xor(a, b) == Zero() <==> a == b
    ensures Xor(a, a) == Zero()
  {
    if Xor(a, b) == Zero() {
      assert forall i | 0 <= i < 64 :: Zero()[i] == (a[i] != b[i]);
      assert forall i | 0 <= i < 64 :: a[i] == b[i];
      assert a == b;
    }
    assert Xor(a, a) == Zero();
  }

  lemma BurstPart(d: seq<Word>, lo: nat, hi: nat, k: nat)
    requires lo <= k < hi <= |d| && hi <= lo + 8 && Symbols(d) && d[k] != Zero()
    ensures Below(Fold(Zero(), d[lo..hi]), 40) && Fold(Zero(), d[lo..hi]) != Zero()
  {
    BurstFits(d[lo..hi]);
    BurstNonzero(d[lo..hi], k - lo);
  }

  lemma BurstShape(d: seq<Word>, lo: nat, hi: nat)
    requires lo <= hi <= |d|
    requires forall i | 0 <= i < |d| && !(lo <= i < hi) :: d[i] == Zero()
    ensures d == Zeros(lo) + (d[lo..hi] + Zeros(|d| - hi))
  {
  }

  lemma BurstState(burst: seq<Word>, lo: nat, n: nat)
    ensures Fold(Zero(), Zeros(lo) + (burst + Zeros(n))) == Fold(Fold(Zero(), burst), Zeros(n))
  {
    FoldAppend(Zero(), Zeros(lo), burst + Zeros(n));
    ZerosFromZero(lo);
    FoldAppend(Zero(), burst, Zeros(n));
  }

  /** A difference confined to eight consecutive positions survives to the end. */
  lemma BurstSurvives(d: seq<Word>, lo: nat, hi: nat, k: nat)
    requires lo <= k < hi <= |d| && hi <= lo + 8 && Symbols(d) && d[k] != Zero()
    requires forall i | 0 <= i < |d| && !(lo <= i < hi) :: d[i] == Zero()
    ensures Fold(Zero(), d) != Zero()
  {
    BurstShape(d, lo, hi);
    BurstState(d[lo..hi], lo, |d| - hi);
    BurstPart(d, lo, hi, k);
    ZerosKeepNonzero(Fold(Zero(), d[lo..hi]), |d| - hi);
  }

  /** Sequences that differ only within eight consecutive positions reach different states. */
  lemma BurstChangesState(c: Word, xs: seq<Word>, ys: seq<Word>, at: nat)
    requires |xs| == |ys| && Symbols(xs) && Symbols(ys) && xs != ys
    requires forall i | 0 <= i < |xs| && !(at <= i < at + 8) :: xs[i] == ys[i]
    ensures Fold(c, xs) != Fold(c, ys)
  {
    var d := Difference(xs, ys);
    var k :| 0 <= k < |xs| && xs[k] != ys[k];
    var hi := if at + 8 <= |xs| then at + 8 else |xs|;
    forall i | 0 <= i < |xs| ensures d[i] == Zero() <==> xs[i] == ys[i] {
      XorIsZero(xs[i], ys[i]);
    }
    BurstSurvives(d, at, hi, k);
    FoldLinear(c, c, xs, ys);
    XorIsZero(c, c);
    XorIsZero(Fold(c, xs), Fold(c, ys));
  }

  // ---------- every state can be completed ----------

  /** The first m of the eight symbols that spell the low forty bits of t. */
  function Spelled(t: Word, m: nat): (r: seq<Word>)
    requires m <= 8
    ensures |r| == m && forall j | 0 <= j < m :: r[j] == KeepLow(ShiftRight(t, 35 - 5 * j), 5)
  {
    seq(m, j requires 0 <= j < m => KeepLow(ShiftRight(t, 35 - 5 * j), 5))
  }

  lemma SpelledStep(t: Word, m: nat)
    requires 1 <= m <= 8 && Below(t, 40)
    ensures Step(ShiftRight(t, 45 - 5 * m), Spelled(t, m)[m - 1]) == ShiftRight(t, 40 - 5 * m)
  {
    var c := ShiftRight(t, 45 - 5 * m);
    assert Below(c, 5 * m - 5);
    StepCollects(c, Spelled(t, m)[m - 1], 5 * m - 5);
  }

  lemma {:induction false} SpelledState(t: Word, m: nat)
    requires m <= 8 && Below(t, 40)
    ensures Fold(Zero(), Spelled(t, m)) == ShiftRight(t, 40 - 5 * m)
  {
    if m == 0 {
      assert Zero() == ShiftRight(t, 40);
    } else {
      SpelledState(t, m - 1);
      assert Spelled(t, m)[..m - 1] == Spelled(t, m - 1);
      SpelledStep(t, m);
    }
  }

  /** The eight symbols that take state c to state goal. */
  function Suffix(c: Word, goal: Word): seq<Word> {
    Spelled(Xor(Fold(c, Zeros(8)), goal), 8)
  }

  lemma SuffixReaches(c: Word, goal: Word)
    requires Below(c, 40) && Below(goal, 40)
    ensures |Suffix(c, goal)| == 8 && Symbols(Suffix(c, goal)) && Fold(c, Suffix(c, goal)) == goal
  {
    var z := Fold(c, Zeros(8));
    FoldStays(c, Zeros(8));
    var t := Xor(z, goal);
    var w := Suffix(c, goal);
    SpelledState(t, 8);
    assert ShiftRight(t, 0) == t;
    XorZero(c);
    forall i | 0 <= i < 8 ensures Difference(Zeros(8), w)[i] == w[i] {
      XorZero(w[i]);
    }
    assert Difference(Zeros(8), w) == w;
    FoldLinear(c, Zero(), Zeros(8), w);
    assert Xor(z, t) == goal;
  }

  lemma {:induction false} FoldStays(c: Word, values: seq<Word>)
    requires Below(c, 40) && Symbols(values)
    ensures Below(Fold(c, values), 40)
    decreases |values|
  {
    var n := |values| - 1;
    if n >= 0 {
      FoldStays(c, values[..n]);
      StepStays(Fold(c, values[..n]), values[n]);
    }
  }

  lemma OneBelow()
    ensures Below(WordOf(1), 40)
  {
    SmallPowers();
    BitsBelow(1, 1);
  }

  /**
   After any symbols at all, exactly one eight-symbol suffix makes the polymod zero.
   */
  lemma UniqueChecksum(body: seq<Word>)
    requires Symbols(body)
    ensures exists w :: |w| == 8 && Symbols(w) && Polymod(body + w) == Zero()
    ensures forall v, w | |v| == |w| == 8 && Symbols(v) && Symbols(w)
                          && Polymod(body + v) == Zero() == Polymod(body + w) :: v == w
  {
    var one := WordOf(1);
    var c := Fold(one, body);
    OneBelow();
    FoldStays(one, body);
    SuffixReaches(c, one);
    FoldAppend(one, body, Suffix(c, one));
    XorIsZero(one, one);
    assert Polymod(body + Suffix(c, one)) == Zero();
    forall v, w | |v| == |w| == 8 && Symbols(v) && Symbols(w)
                  && Polymod(body + v) == Zero() == Polymod(body + w)
      ensures v == w
    {
      XorIsZero(Fold(one, body + v), one);
      XorIsZero(Fold(one, body + w), one);
      FoldAppend(one, body, v);
      FoldAppend(one, body, w);
      if v != w {
        BurstChangesState(c, v, w, 0);
      }
    }
  }
}
