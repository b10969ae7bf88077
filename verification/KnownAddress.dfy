/**
 A known answer: the address used throughout the repository is valid. This fixes what laws about
 all addresses leave open: the generators, the starting value, the charset's order and how the
 prefix enters. A state of forty bits is computed with as eight five-bit symbols.
 */
module KnownAddress {
  import opened CashAddr
  import opened Address

  // ---------- symbols ----------

  function Mask(b: nat): bv5
    requires b < 5
  {
    match b
    case 0 => 1
    case 1 => 2
    case 2 => 4
    case 3 => 8
    case 4 => 16
  }

  predicate Has(s: bv5, b: nat)
    requires b < 5
  {
    s & Mask(b) != 0
  }

  /** Five bits of a word, from position at on. */
  ghost predicate Symbol(w: Word, at: nat, s: bv5)
    requires at + 5 <= 64
  {
    forall b | 0 <= b < 5 :: w[at + b] == Has(s, b)
  }

  /** The low forty bits of a word, lowest symbol first. */
  ghost predicate Shows(w: Word, e: seq<bv5>) {
    |e| == 8 && forall k | 0 <= k < 8 :: Symbol(w, 5 * k, e[k])
  }

  lemma NumberBits(s: bv5)
    ensures var n := s as nat;
            && n < 32 && (n % 2 == 1) == Has(s, 0) && (n / 2 % 2 == 1) == Has(s, 1) && (n / 4 % 2 == 1) == Has(s, 2)
            && (n / 8 % 2 == 1) == Has(s, 3) && (n / 16 % 2 == 1) == Has(s, 4)
  {
  }

  // ---------- numbers as symbols ----------

  /** The number's digits to the base 32, lowest first. */
  predicate Spells(n: nat, e: seq<bv5>) {
    if e == [] then n == 0 else n % 32 == e[0] as nat && Spells(n / 32, e[1..])
  }

  lemma QuotientIs(n: nat, d: nat, q: nat, r: nat)
    requires d > 0 && n == d * q + r && r < d
    ensures n / d == q
  {
    var x := n / d;
    assert n == d * x + n % d && 0 <= n % d < d;
    if x > q {
      Products(d, q + 1, x);
    } else if x < q {
      Products(d, x + 1, q);
    }
  }

  lemma Products(d: nat, a: nat, b: nat)
    requires 1 <= a <= b
    ensures d * a <= d * b && d * a == d * (a - 1) + d
  {
  }

  lemma Half(n: nat, p: nat)
    requires p > 0
    ensures n / (2 * p) == n / 2 / p
  {
    var q, r := n / 2 / p, n / 2 % p;
    assert n == 2 * (p * q + r) + n % 2;
    assert 2 * (p * q) == 2 * p * q;
    QuotientIs(n, 2 * p, q, 2 * r + n % 2);
  }

  lemma NextBit(n: nat, i: nat)
    ensures BitOf(n, i + 1) == BitOf(n / 2, i)
  {
    Half(n, Pow2(i));
  }

  lemma FiveUp(n: nat, i: nat)
    ensures BitOf(n, i + 5) == BitOf(n / 32, i)
  {
    var n1 := n / 2;
    var n2 := n1 / 2;
    var n3 := n2 / 2;
    var n4 := n3 / 2;
    NextBit(n, i + 4);
    NextBit(n1, i + 3);
    NextBit(n2, i + 2);
    NextBit(n3, i + 1);
    NextBit(n4, i);
    assert n4 / 2 == n / 32;
  }

  lemma LowDigits(q: nat, r: nat)
    requires r < 32
    ensures var n := 32 * q + r;
            && n % 2 == r % 2 && n / 2 % 2 == r / 2 % 2 && n / 4 % 2 == r / 4 % 2
            && n / 8 % 2 == r / 8 % 2 && n / 16 % 2 == r / 16 % 2
  {
    HighParts(q, r);
    Even(32 * q, r, 16 * q);
    Even(16 * q, r / 2, 8 * q);
    Even(8 * q, r / 4, 4 * q);
    Even(4 * q, r / 8, 2 * q);
    Even(2 * q, r / 16, q);
  }

  lemma Even(a: nat, r: nat, h: nat)
    requires a == 2 * h
    ensures (a + r) % 2 == r % 2
  {
  }

  lemma HighParts(q: nat, r: nat)
    ensures var n := 32 * q + r;
            && n / 2 == 16 * q + r / 2 && n / 4 == 8 * q + r / 4 && n / 8 == 4 * q + r / 8 && n / 16 == 2 * q + r / 16
  {
    var n := 32 * q + r;
    QuotientIs(n, 2, 16 * q + r / 2, r % 2);
    QuotientIs(n, 4, 8 * q + r / 4, r % 4);
    QuotientIs(n, 8, 4 * q + r / 8, r % 8);
    QuotientIs(n, 16, 2 * q + r / 16, r % 16);
  }

  lemma LowSymbol(n: nat, s: bv5)
    requires n % 32 == s as nat
    ensures Symbol(WordOf(n), 0, s)
  {
    LowBits(n);
    NumberBits(s);
    LowDigits(n / 32, n % 32);
  }

  lemma {:induction false} SpelledSymbol(n: nat, e: seq<bv5>, k: nat)
    requires Spells(n, e) && k < |e| <= 8
    ensures Symbol(WordOf(n), 5 * k, e[k])
    decreases k
  {
    if k == 0 {
      LowSymbol(n, e[0]);
    } else {
      SpelledSymbol(n / 32, e[1..], k - 1);
      forall i | 5 * k <= i < 5 * k + 5 ensures WordOf(n)[i] == WordOf(n / 32)[i - 5] {
        FiveUp(n, i - 5);
      }
    }
  }

  lemma SpelledShows(n: nat, e: seq<bv5>)
    requires Spells(n, e) && |e| == 8
    ensures Shows(WordOf(n), e)
  {
    forall k | 0 <= k < 8 ensures Symbol(WordOf(n), 5 * k, e[k]) {
      SpelledSymbol(n, e, k);
    }
  }

  // ---------- the generators ----------

  function GeneratorSymbols(j: nat): (e: seq<bv5>)
    requires j < 5
    ensures |e| == 8
  {
    match j
    case 0 => [1, 19, 3, 25, 11, 25, 3, 19]
    case 1 => [2, 15, 6, 27, 22, 27, 6, 15]
    case 2 => [4, 30, 12, 31, 5, 31, 12, 30]
    case 3 => [8, 21, 24, 23, 10, 23, 24, 21]
    case 4 => [16, 3, 25, 7, 20, 7, 25, 3]
  }

  lemma Spelled0()
    ensures Spells(0x98f2bc8e61, [1, 19, 3, 25, 11, 25, 3, 19])
  {
  }

  lemma Spelled1()
    ensures Spells(0x79b76d99e2, [2, 15, 6, 27, 22, 27, 6, 15])
  {
  }

  lemma Spelled2()
    ensures Spells(0xf33e5fb3c4, [4, 30, 12, 31, 5, 31, 12, 30])
  {
  }

  lemma Spelled3()
    ensures Spells(0xae2eabe2a8, [8, 21, 24, 23, 10, 23, 24, 21])
  {
  }

  lemma Spelled4()
    ensures Spells(0x1e4f43e470, [16, 3, 25, 7, 20, 7, 25, 3])
  {
  }

  lemma GeneratorShows(j: nat)
    requires j < 5
    ensures Shows(Generator(j), GeneratorSymbols(j))
  {
    Spelled0();
    Spelled1();
    Spelled2();
    Spelled3();
    Spelled4();
    match j
    case 0 => SpelledShows(0x98f2bc8e61, GeneratorSymbols(0));
    case 1 => SpelledShows(0x79b76d99e2, GeneratorSymbols(1));
    case 2 => SpelledShows(0xf33e5fb3c4, GeneratorSymbols(2));
    case 3 => SpelledShows(0xae2eabe2a8, GeneratorSymbols(3));
    case 4 => SpelledShows(0x1e4f43e470, GeneratorSymbols(4));
  }

  lemma GeneratorBit(j: nat, k: nat, b: nat)
    requires j < 5 && k < 8 && b < 5
    ensures Generator(j)[5 * k + b] == Has(GeneratorSymbols(j)[k], b)
  {
    GeneratorShows(j);
    assert Symbol(Generator(j), 5 * k, GeneratorSymbols(j)[k]);
  }

  // ---------- a step on words is a step on symbols ----------

  function Plus(s: bv5, t: bv5): bv5 {
    s ^ t
  }

  /** The symbols of the generators at one position. */
  function Column(k: nat): (g: seq<bv5>)
    requires k < 8
    ensures |g| == 5
  {
    [GeneratorSymbols(0)[k], GeneratorSymbols(1)[k], GeneratorSymbols(2)[k], GeneratorSymbols(3)[k],
     GeneratorSymbols(4)[k]]
  }

  function Pick(b: bool, s: bv5): bv5 {
    if b then s else 0
  }

  /** What the generators picked by the bits of top add at position k. */
  function Mix(top: bv5, g: seq<bv5>): bv5
    requires |g| == 5
  {
    Plus(Plus(Plus(Plus(Pick(Has(top, 0), g[0]), Pick(Has(top, 1), g[1])), Pick(Has(top, 2), g[2])),
              Pick(Has(top, 3), g[3])),
         Pick(Has(top, 4), g[4]))
  }

  /** The first m of them. */
  function Select(top: bv5, g: seq<bv5>, m: nat): bv5
    requires |g| == 5 && 1 <= m <= 5
  {
    if m == 1 then Pick(Has(top, 0), g[0])
    else Plus(Select(top, g, m - 1), Pick(Has(top, m - 1), g[m - 1]))
  }

  lemma MixIsSelect(top: bv5, g: seq<bv5>)
    requires |g| == 5
    ensures Mix(top, g) == Select(top, g, 5)
  {
    var p0, p1, p2 := Pick(Has(top, 0), g[0]), Pick(Has(top, 1), g[1]), Pick(Has(top, 2), g[2]);
    var p3 := Pick(Has(top, 3), g[3]);
    assert Select(top, g, 1) == p0;
    assert Select(top, g, 2) == Plus(p0, p1);
    assert Select(top, g, 3) == Plus(Plus(p0, p1), p2);
    assert Select(top, g, 4) == Plus(Plus(Plus(p0, p1), p2), p3);
  }

  function Next(e: seq<bv5>, s: bv5): (r: seq<bv5>)
    requires |e| == 8
    ensures |r| == 8
  {
    [Plus(s, Mix(e[7], Column(0))), Plus(e[0], Mix(e[7], Column(1))), Plus(e[1], Mix(e[7], Column(2))),
     Plus(e[2], Mix(e[7], Column(3))), Plus(e[3], Mix(e[7], Column(4))), Plus(e[4], Mix(e[7], Column(5))),
     Plus(e[5], Mix(e[7], Column(6))), Plus(e[6], Mix(e[7], Column(7)))]
  }

  lemma PlusBit(s: bv5, t: bv5, b: nat)
    requires b < 5
    ensures Has(Plus(s, t), b) == (Has(s, b) != Has(t, b))
  {
  }

  lemma PickBit(x: bool, s: bv5, b: nat)
    requires b < 5
    ensures Has(Pick(x, s), b) == (x && Has(s, b))
  {
  }

  lemma {:induction false} SelectBit(c: Word, k: nat, top: bv5, b: nat, m: nat)
    requires k < 8 && b < 5 && 1 <= m <= 5 && Symbol(c, 35, top)
    ensures Has(Select(top, Column(k), m), b) == Parity(ShiftRight(c, 35), 5 * k + b, m)
  {
    var g := Column(k);
    var picked := Has(top, m - 1);
    assert c[35 + (m - 1)] == picked;
    GeneratorBit(m - 1, k, b);
    ColumnAt(k, m - 1);
    PickBit(picked, g[m - 1], b);
    if m > 1 {
      SelectBit(c, k, top, b, m - 1);
      PlusBit(Select(top, g, m - 1), Pick(picked, g[m - 1]), b);
    }
  }

  lemma ColumnAt(k: nat, j: nat)
    requires k < 8 && j < 5
    ensures Column(k)[j] == GeneratorSymbols(j)[k]
  {
  }

  /** The symbol that enters position k: the input, or the one below. */
  ghost predicate Enters(c: Word, v: Word, k: nat, m: bv5)
    requires k < 8
  {
    Below(v, 5) && if k == 0 then Symbol(v, 0, m) else Symbol(c, 5 * k - 5, m)
  }

  lemma MovedBit(c: Word, v: Word, k: nat, m: bv5, b: nat)
    requires k < 8 && b < 5 && Enters(c, v, k, m)
    ensures var i := 5 * k + b; ((5 <= i < 40 && c[i - 5]) != v[i]) == Has(m, b)
  {
    if k == 0 {
      assert v[0 + b] == Has(m, b);
    } else {
      assert c[5 * k - 5 + b] == Has(m, b);
    }
  }

  lemma StepSymbol(c: Word, v: Word, k: nat, top: bv5, m: bv5)
    requires k < 8 && Symbol(c, 35, top) && Enters(c, v, k, m)
    ensures Symbol(Step(c, v), 5 * k, Plus(m, Mix(top, Column(k))))
  {
    var r := Plus(m, Mix(top, Column(k)));
    forall b | 0 <= b < 5 ensures Step(c, v)[5 * k + b] == Has(r, b) {
      StepBit(c, v, 5 * k + b);
      MovedBit(c, v, k, m, b);
      MixIsSelect(top, Column(k));
      SelectBit(c, k, top, b, 5);
      PlusBit(m, Mix(top, Column(k)), b);
    }
  }

  lemma StepShowsLow(c: Word, e: seq<bv5>, v: Word, s: bv5)
    requires Shows(c, e) && Symbol(v, 0, s) && Below(v, 5)
    ensures var r := Next(e, s);
            Symbol(Step(c, v), 0, r[0]) && Symbol(Step(c, v), 5, r[1])
  {
    assert Symbol(c, 5 * 7, e[7]) && Symbol(c, 5 * 0, e[0]);
    StepSymbol(c, v, 0, e[7], s);
    StepSymbol(c, v, 1, e[7], e[0]);
  }

  lemma StepShowsMiddle(c: Word, e: seq<bv5>, v: Word, s: bv5)
    requires Shows(c, e) && Symbol(v, 0, s) && Below(v, 5)
    ensures var r := Next(e, s);
            Symbol(Step(c, v), 10, r[2]) && Symbol(Step(c, v), 15, r[3])
  {
    assert Symbol(c, 5 * 7, e[7]) && Symbol(c, 5 * 1, e[1]) && Symbol(c, 5 * 2, e[2]);
    StepSymbol(c, v, 2, e[7], e[1]);
    StepSymbol(c, v, 3, e[7], e[2]);
  }

  lemma StepShowsUpper(c: Word, e: seq<bv5>, v: Word, s: bv5)
    requires Shows(c, e) && Symbol(v, 0, s) && Below(v, 5)
    ensures var r := Next(e, s);
            Symbol(Step(c, v), 20, r[4]) && Symbol(Step(c, v), 25, r[5])
  {
    assert Symbol(c, 5 * 7, e[7]) && Symbol(c, 5 * 3, e[3]) && Symbol(c, 5 * 4, e[4]);
    StepSymbol(c, v, 4, e[7], e[3]);
    StepSymbol(c, v, 5, e[7], e[4]);
  }

  lemma StepShowsTop(c: Word, e: seq<bv5>, v: Word, s: bv5)
    requires Shows(c, e) && Symbol(v, 0, s) && Below(v, 5)
    ensures var r := Next(e, s);
            Symbol(Step(c, v), 30, r[6]) && Symbol(Step(c, v), 35, r[7])
  {
    assert Symbol(c, 5 * 7, e[7]) && Symbol(c, 5 * 5, e[5]) && Symbol(c, 5 * 6, e[6]);
    StepSymbol(c, v, 6, e[7], e[5]);
    StepSymbol(c, v, 7, e[7], e[6]);
  }

  lemma StepShows(c: Word, e: seq<bv5>, v: Word, s: bv5)
    requires Shows(c, e) && Symbol(v, 0, s) && Below(v, 5)
    ensures Shows(Step(c, v), Next(e, s))
  {
    StepShowsLow(c, e, v, s);
    StepShowsMiddle(c, e, v, s);
    StepShowsUpper(c, e, v, s);
    StepShowsTop(c, e, v, s);
    ShowsAll(Step(c, v), Next(e, s));
  }

  lemma ShowsAll(w: Word, r: seq<bv5>)
    requires |r| == 8
    requires Symbol(w, 0, r[0]) && Symbol(w, 5, r[1]) && Symbol(w, 10, r[2]) && Symbol(w, 15, r[3])
    requires Symbol(w, 20, r[4]) && Symbol(w, 25, r[5]) && Symbol(w, 30, r[6]) && Symbol(w, 35, r[7])
    ensures Shows(w, r)
  {
    forall k | 0 <= k < 8 ensures Symbol(w, 5 * k, r[k]) {
      assert k == 0 || k == 1 || k == 2 || k == 3 || k == 4 || k == 5 || k == 6 || k == 7;
    }
  }

  function After(e: seq<bv5>, input: seq<bv5>): (r: seq<bv5>)
    requires |e| == 8
    ensures |r| == 8
    decreases |input|
  {
    if input == [] then e else After(Next(e, input[0]), input[1..])
  }

  // ---------- reading text ----------

  function WordsOf(input: seq<bv5>): (ws: seq<Word>)
    ensures |ws| == |input| && forall i | 0 <= i < |input| :: ws[i] == WordOf(input[i] as nat)
  {
    seq(|input|, i requires 0 <= i < |input| => WordOf(input[i] as nat))
  }

  lemma {:induction false} FoldShows(c: Word, e: seq<bv5>, input: seq<bv5>)
    requires Shows(c, e)
    ensures Shows(Fold(c, WordsOf(input)), After(e, input))
    decreases |input|
  {
    if input != [] {
      var first := WordOf(input[0] as nat);
      SmallWord(input[0]);
      StepShows(c, e, first, input[0]);
      FoldShows(Step(c, first), Next(e, input[0]), input[1..]);
      assert WordsOf(input) == [first] + WordsOf(input[1..]);
      FoldFirst(c, first, WordsOf(input[1..]));
    }
  }

  lemma SmallWord(s: bv5)
    ensures Symbol(WordOf(s as nat), 0, s) && Below(WordOf(s as nat), 5)
  {
    NumberBits(s);
    LowSymbol(s as nat, s);
    SymbolBelow(s as nat);
  }

  lemma FoldFirst(c: Word, first: Word, rest: seq<Word>)
    ensures Fold(c, [first] + rest) == Fold(Step(c, first), rest)
  {
    FoldAppend(c, [first], rest);
    assert [first][..0] == [];
    assert Fold(c, [first]) == Step(c, first);
  }

  function InCharset(s: bv5): (n: nat)
    ensures n == s as nat < |CHARSET|
  {
    NumberBits(s);
    s as nat
  }

  /** The characters at these positions of the charset. */
  function Text(input: seq<bv5>): (t: string)
    ensures |t| == |input|
  {
    seq(|input|, i requires 0 <= i < |input| => CHARSET[InCharset(input[i])])
  }

  lemma TextWords(input: seq<bv5>)
    ensures OverCharset(Text(input)) && PayloadWords(Text(input)) == WordsOf(input)
  {
    forall i | 0 <= i < |input| ensures Text(input)[i] in CHARSET && SymbolOf(Text(input)[i]) == WordsOf(input)[i] {
      PositionOf(InCharset(input[i]));
    }
  }

  /** The checksum after the prefix and this much of a payload. */
  ghost predicate Reads(t: string, e: seq<bv5>) {
    OverCharset(t) && Shows(Fold(HeadState(), PayloadWords(t)), e)
  }

  lemma ReadMore(t: string, e: seq<bv5>, input: seq<bv5>)
    requires Reads(t, e)
    ensures |e| == 8 && Reads(t + Text(input), After(e, input))
  {
    TextWords(input);
    PayloadAppend(t, Text(input));
    FoldAppend(HeadState(), PayloadWords(t), PayloadWords(Text(input)));
    FoldShows(Fold(HeadState(), PayloadWords(t)), e, input);
  }

  lemma OneShows()
    ensures Shows(WordOf(1), [1, 0, 0, 0, 0, 0, 0, 0])
  {
    SpelledShows(1, [1, 0, 0, 0, 0, 0, 0, 0]);
  }

  lemma ZeroNumber()
    ensures WordOf(0) == Zero()
  {
    forall i | 0 <= i < 64 ensures !WordOf(0)[i] {
      assert 0 / Pow2(i) == 0;
    }
  }

  /** k, a, s, p, a, t, e, s, t and the separating zero. */
  lemma HeadWords()
    ensures PrefixWords(TESTNET_PREFIX) + [Zero()] == WordsOf([11, 1, 19, 16, 1, 20, 5, 19, 20, 0])
  {
    var p := TESTNET_PREFIX;
    ZeroNumber();
    forall i | 0 <= i < |p| ensures PrefixWords(p)[i] == WordOf(p[i] as int % 32) {
      PrefixWordAt(p, i);
    }
    assert 'k' as int % 32 == 11 && 'a' as int % 32 == 1 && 's' as int % 32 == 19 && 'p' as int % 32 == 16;
    assert 't' as int % 32 == 20 && 'e' as int % 32 == 5;
  }

  lemma HeadSteps()
    ensures After([1, 0, 0, 0, 0, 0, 0, 0], [11, 1, 19, 16, 1, 20, 5, 19, 20, 0]) == [20, 17, 17, 15, 22, 30, 30, 22]
  {
  }

  lemma NothingRead()
    ensures Reads("", [20, 17, 17, 15, 22, 30, 30, 22])
  {
    OneShows();
    HeadWords();
    HeadSteps();
    FoldShows(WordOf(1), [1, 0, 0, 0, 0, 0, 0, 0], [11, 1, 19, 16, 1, 20, 5, 19, 20, 0]);
    assert PayloadWords("") == [];
  }

  lemma Part1(t: string)
    requires Reads(t, [20, 17, 17, 15, 22, 30, 30, 22])
    ensures Reads(t + "qptv6u", [26, 2, 16, 17, 24, 21, 6, 20])
  {
    Letters1();
    Steps1();
    ReadMore(t, [20, 17, 17, 15, 22, 30, 30, 22], [0, 1, 11, 12, 26, 28]);
  }

  lemma Letters1()
    ensures Text([0, 1, 11, 12, 26, 28]) == "qptv6u"
  {
  }

  lemma Steps1()
    ensures After([20, 17, 17, 15, 22, 30, 30, 22], [0, 1, 11, 12, 26, 28]) == [26, 2, 16, 17, 24, 21, 6, 20]
  {
  }

  lemma Part2(t: string)
    requires Reads(t, [26, 2, 16, 17, 24, 21, 6, 20])
    ensures Reads(t + "8kel95", [17, 3, 7, 15, 7, 2, 24, 29])
  {
    Letters2();
    Steps2();
    ReadMore(t, [26, 2, 16, 17, 24, 21, 6, 20], [7, 22, 25, 31, 5, 20]);
  }

  lemma Letters2()
    ensures Text([7, 22, 25, 31, 5, 20]) == "8kel95"
  {
  }

  lemma Steps2()
    ensures After([26, 2, 16, 17, 24, 21, 6, 20], [7, 22, 25, 31, 5, 20]) == [17, 3, 7, 15, 7, 2, 24, 29]
  {
  }

  lemma Part3(t: string)
    requires Reads(t, [17, 3, 7, 15, 7, 2, 24, 29])
    ensures Reads(t + "drh2p2", [28, 22, 3, 10, 18, 2, 17, 28])
  {
    Letters3();
    Steps3();
    ReadMore(t, [17, 3, 7, 15, 7, 2, 24, 29], [13, 3, 23, 10, 1, 10]);
  }

  lemma Letters3()
    ensures Text([13, 3, 23, 10, 1, 10]) == "drh2p2"
  {
  }

  lemma Steps3()
    ensures After([17, 3, 7, 15, 7, 2, 24, 29], [13, 3, 23, 10, 1, 10]) == [28, 22, 3, 10, 18, 2, 17, 28]
  {
  }

  lemma Part4(t: string)
    requires Reads(t, [28, 22, 3, 10, 18, 2, 17, 28])
    ensures Reads(t + "z492cy", [23, 12, 26, 26, 5, 17, 29, 10])
  {
    Letters4();
    Steps4();
    ReadMore(t, [28, 22, 3, 10, 18, 2, 17, 28], [2, 21, 5, 10, 24, 4]);
  }

  lemma Letters4()
    ensures Text([2, 21, 5, 10, 24, 4]) == "z492cy"
  {
  }

  lemma Steps4()
    ensures After([28, 22, 3, 10, 18, 2, 17, 28], [2, 21, 5, 10, 24, 4]) == [23, 12, 26, 26, 5, 17, 29, 10]
  {
  }

  lemma Part5(t: string)
    requires Reads(t, [23, 12, 26, 26, 5, 17, 29, 10])
    ensures Reads(t + "ksk8lp", [6, 7, 15, 23, 29, 12, 9, 30])
  {
    Letters5();
    Steps5();
    ReadMore(t, [23, 12, 26, 26, 5, 17, 29, 10], [22, 16, 22, 7, 31, 1]);
  }

  lemma Letters5()
    ensures Text([22, 16, 22, 7, 31, 1]) == "ksk8lp"
  {
  }

  lemma Steps5()
    ensures After([23, 12, 26, 26, 5, 17, 29, 10], [22, 16, 22, 7, 31, 1]) == [6, 7, 15, 23, 29, 12, 9, 30]
  {
  }

  lemma Part6(t: string)
    requires Reads(t, [6, 7, 15, 23, 29, 12, 9, 30])
    ensures Reads(t + "etep28", [10, 28, 21, 27, 7, 19, 13, 21])
  {
    Letters6();
    Steps6();
    ReadMore(t, [6, 7, 15, 23, 29, 12, 9, 30], [25, 11, 25, 1, 10, 7]);
  }

  lemma Letters6()
    ensures Text([25, 11, 25, 1, 10, 7]) == "etep28"
  {
  }

  lemma Steps6()
    ensures After([6, 7, 15, 23, 29, 12, 9, 30], [25, 11, 25, 1, 10, 7]) == [10, 28, 21, 27, 7, 19, 13, 21]
  {
  }

  lemma Part7(t: string)
    requires Reads(t, [10, 28, 21, 27, 7, 19, 13, 21])
    ensures Reads(t + "6fngqu", [21, 22, 22, 12, 3, 15, 7, 6])
  {
    Letters7();
    Steps7();
    ReadMore(t, [10, 28, 21, 27, 7, 19, 13, 21], [26, 9, 19, 8, 0, 28]);
  }

  lemma Letters7()
    ensures Text([26, 9, 19, 8, 0, 28]) == "6fngqu"
  {
  }

  lemma Steps7()
    ensures After([10, 28, 21, 27, 7, 19, 13, 21], [26, 9, 19, 8, 0, 28]) == [21, 22, 22, 12, 3, 15, 7, 6]
  {
  }

  lemma Part8(t: string)
    requires Reads(t, [21, 22, 22, 12, 3, 15, 7, 6])
    ensures Reads(t + "5j9nk5", [2, 6, 26, 25, 15, 4, 31, 6])
  {
    Letters8();
    Steps8();
    ReadMore(t, [21, 22, 22, 12, 3, 15, 7, 6], [20, 18, 5, 19, 22, 20]);
  }

  lemma Letters8()
    ensures Text([20, 18, 5, 19, 22, 20]) == "5j9nk5"
  {
  }

  lemma Steps8()
    ensures After([21, 22, 22, 12, 3, 15, 7, 6], [20, 18, 5, 19, 22, 20]) == [2, 6, 26, 25, 15, 4, 31, 6]
  {
  }

  lemma Part9(t: string)
    requires Reads(t, [2, 6, 26, 25, 15, 4, 31, 6])
    ensures Reads(t + "7g642l", [27, 15, 16, 23, 14, 28, 14, 27])
  {
    Letters9();
    Steps9();
    ReadMore(t, [2, 6, 26, 25, 15, 4, 31, 6], [30, 8, 26, 21, 10, 31]);
  }

  lemma Letters9()
    ensures Text([30, 8, 26, 21, 10, 31]) == "7g642l"
  {
  }

  lemma Steps9()
    ensures After([2, 6, 26, 25, 15, 4, 31, 6], [30, 8, 26, 21, 10, 31]) == [27, 15, 16, 23, 14, 28, 14, 27]
  {
  }

  lemma Part10(t: string)
    requires Reads(t, [27, 15, 16, 23, 14, 28, 14, 27])
    ensures Reads(t + "zf748k", [26, 30, 12, 28, 12, 30, 26, 10])
  {
    Letters10();
    Steps10();
    ReadMore(t, [27, 15, 16, 23, 14, 28, 14, 27], [2, 9, 30, 21, 7, 22]);
  }

  lemma Letters10()
    ensures Text([2, 9, 30, 21, 7, 22]) == "zf748k"
  {
  }

  lemma Steps10()
    ensures After([27, 15, 16, 23, 14, 28, 14, 27], [2, 9, 30, 21, 7, 22]) == [26, 30, 12, 28, 12, 30, 26, 10]
  {
  }

  lemma Part11(t: string)
    requires Reads(t, [26, 30, 12, 28, 12, 30, 26, 10])
    ensures Reads(t + "t", [1, 0, 0, 0, 0, 0, 0, 0])
  {
    Letters11();
    Steps11();
    ReadMore(t, [26, 30, 12, 28, 12, 30, 26, 10], [11]);
  }

  lemma Letters11()
    ensures Text([11]) == "t"
  {
  }

  lemma Steps11()
    ensures After([26, 30, 12, 28, 12, 30, 26, 10], [11]) == [1, 0, 0, 0, 0, 0, 0, 0]
  {
  }

  // ---------- the address ----------

  const PAYLOAD: string :=
    "qptv6u" + "8kel95" + "drh2p2" + "z492cy" + "ksk8lp" + "etep28"
    + "6fngqu" + "5j9nk5" + "7g642l" + "zf748k" + "t"

  lemma StartRead()
    ensures Reads("qptv6u" + "8kel95" + "drh2p2" + "z492cy", [23, 12, 26, 26, 5, 17, 29, 10])
  {
    NothingRead();
    Part1("");
    assert "" + "qptv6u" == "qptv6u";
    Part2("qptv6u");
    Part3("qptv6u" + "8kel95");
    Part4("qptv6u" + "8kel95" + "drh2p2");
  }

  lemma MiddleRead(t: string)
    requires Reads(t, [23, 12, 26, 26, 5, 17, 29, 10])
    ensures Reads(t + "ksk8lp" + "etep28" + "6fngqu" + "5j9nk5", [2, 6, 26, 25, 15, 4, 31, 6])
  {
    Part5(t);
    Part6(t + "ksk8lp");
    Part7(t + "ksk8lp" + "etep28");
    Part8(t + "ksk8lp" + "etep28" + "6fngqu");
  }

  lemma EndRead(t: string)
    requires Reads(t, [2, 6, 26, 25, 15, 4, 31, 6])
    ensures Reads(t + "7g642l" + "zf748k" + "t", [1, 0, 0, 0, 0, 0, 0, 0])
  {
    Part9(t);
    Part10(t + "7g642l");
    Part11(t + "7g642l" + "zf748k");
  }

  lemma PayloadRead()
    ensures Reads(PAYLOAD, [1, 0, 0, 0, 0, 0, 0, 0])
  {
    StartRead();
    MiddleRead("qptv6u" + "8kel95" + "drh2p2" + "z492cy");
    EndRead("qptv6u" + "8kel95" + "drh2p2" + "z492cy" + "ksk8lp" + "etep28" + "6fngqu" + "5j9nk5");
  }

  /** The state the symbols of one fix the word. */
  lemma OnlyOne(w: Word)
    requires Shows(w, [1, 0, 0, 0, 0, 0, 0, 0]) && Below(w, 40)
    ensures w == WordOf(1)
  {
    var one: seq<bv5> := [1, 0, 0, 0, 0, 0, 0, 0];
    OneShows();
    OneBelow();
    forall i | 0 <= i < 64 ensures w[i] == WordOf(1)[i] {
      if i < 40 {
        assert Symbol(w, 5 * (i / 5), one[i / 5]) && Symbol(WordOf(1), 5 * (i / 5), one[i / 5]);
        assert w[5 * (i / 5) + i % 5] == Has(one[i / 5], i % 5);
      }
    }
  }

  /** The address of the repository's examples is valid. */
  lemma PublishedAddressIsValid()
    ensures IsValidTestnetAddress(TestnetAddress(PAYLOAD))
  {
    PayloadRead();
    HeadSymbols();
    PayloadSymbols(PAYLOAD);
    OneBelow();
    FoldStays(WordOf(1), PrefixWords(TESTNET_PREFIX) + [Zero()]);
    FoldStays(HeadState(), PayloadWords(PAYLOAD));
    OnlyOne(Fold(HeadState(), PayloadWords(PAYLOAD)));
    GoodPayloadState(PAYLOAD);
    ValidShape(PAYLOAD);
  }
}
