/**
 Whole addresses of src/network.rs: prefix, colon, payload over the charset, checksum zero.
 */
module Address {
  import opened CashAddr

  const CHARSET: string := "qpzry9x8gf2tvdw0s3jn54khce6mua7l"
  const TESTNET_PREFIX: string := "kaspatest"

  // ---------- string operations of the source ----------

  function LowerChar(c: char): char {
    if 'A' <= c <= 'Z' then (c as int + 32) as char else c
  }

  function ToAsciiLowercase(s: string): (r: string)
    ensures |r| == |s| && forall i | 0 <= i < |s| :: r[i] == LowerChar(s[i])
  {
    seq(|s|, i requires 0 <= i < |s| => LowerChar(s[i]))
  }

  datatype Split = NoColon | Split(prefix: string, payload: string)

  /** rsplit_once(':'): the text before and after the last colon. */
  function RSplitColon(s: string): Split {
    if s == [] then NoColon
    else if s[|s| - 1] == ':' then Split(s[..|s| - 1], [])
    else match RSplitColon(s[..|s| - 1])
      case NoColon => NoColon
      case Split(p, q) => Split(p, q + [s[|s| - 1]])
  }

  /** The first position of c in s at or after i, or |s|. */
  function Position(s: string, c: char, i: nat): (p: nat)
    requires i <= |s|
    ensures i <= p <= |s| && (p < |s| ==> s[p] == c) && forall j | i <= j < p :: s[j] != c
    decreases |s| - i
  {
    if i == |s| || s[i] == c then i else Position(s, c, i + 1)
  }

  // ---------- specification of validity ----------

  function PrefixWords(prefix: string): (r: seq<Word>)
    ensures |r| == |prefix|
  {
    if prefix == [] then []
    else PrefixWords(prefix[..|prefix| - 1]) + [WordOf(prefix[|prefix| - 1] as int % 32)]
  }

  function SymbolOf(c: char): Word
    requires c in CHARSET
  {
    WordOf(Position(CHARSET, c, 0))
  }

  predicate OverCharset(s: string) {
    forall c | c in s :: c in CHARSET
  }

  function PayloadWords(payload: string): (r: seq<Word>)
    requires OverCharset(payload)
    ensures |r| == |payload| && forall i | 0 <= i < |payload| :: r[i] == SymbolOf(payload[i])
  {
    seq(|payload|, i requires 0 <= i < |payload| => SymbolOf(payload[i]))
  }

  function Values(prefix: string, payload: string): seq<Word>
    requires OverCharset(payload)
  {
    PrefixWords(prefix) + [Zero()] + PayloadWords(payload)
  }

  predicate CashaddrValid(addr: string, expected: string) {
    && addr == ToAsciiLowercase(addr)
    && RSplitColon(addr).Split?
    && var Split(prefix, payload) := RSplitColon(addr);
       && prefix == expected
       && |payload| > 8
       && OverCharset(payload)
       && Polymod(Values(prefix, payload)) == Zero()
  }

  predicate IsValidTestnetAddress(addr: string) {
    CashaddrValid(addr, TESTNET_PREFIX)
  }

  /** The check as the source runs it: one pass that pushes the values, then the polymod. */
  method CheckCashaddr(addr: string, expected: string) returns (ok: bool)
    ensures ok == CashaddrValid(addr, expected)
  {
    if addr != ToAsciiLowercase(addr) {
      return false;
    }
    var parts := RSplitColon(addr);
    if parts.NoColon? {
      return false;
    }
    var prefix, payload := parts.prefix, parts.payload;
    if prefix != expected || |payload| <= 8 {
      return false;
    }
    var plain, values := PushPayload(PrefixWords(prefix) + [Zero()], payload);
    if !plain {
      return false;
    }
    var r := CashaddrPolymod(values);
    ok := r == Zero();
  }

  /** The loop over the payload: false at the first character outside the charset. */
  method PushPayload(head: seq<Word>, payload: string) returns (plain: bool, values: seq<Word>)
    ensures plain == OverCharset(payload)
    ensures plain ==> values == head + PayloadWords(payload)
  {
    values := head;
    for n := 0 to |payload|
      invariant OverCharset(payload[..n])
      invariant values == head + PayloadWords(payload[..n])
    {
      assert payload[n] in payload;
      var index := Position(CHARSET, payload[n], 0);
      if index == |CHARSET| {
        return false, values;
      }
      assert payload[..n + 1] == payload[..n] + [payload[n]];
      assert PayloadWords(payload[..n + 1]) == PayloadWords(payload[..n]) + [WordOf(index)];
      values := values + [WordOf(index)];
    }
    assert payload[..|payload|] == payload;
    plain := true;
  }

  // ---------- the charset ----------

  lemma CharsetDistinct(i: nat, j: nat)
    requires i < j < 32
    ensures CHARSET[i] != CHARSET[j]
  {
  }

  lemma CharsetPlain(c: char)
    requires c in CHARSET
    ensures 'a' <= c <= 'z' || '0' <= c <= '9'
  {
  }

  lemma PositionBelow32(c: char)
    requires c in CHARSET
    ensures Position(CHARSET, c, 0) < 32 && CHARSET[Position(CHARSET, c, 0)] == c
  {
  }

  lemma PositionOf(n: nat)
    requires n < 32
    ensures CHARSET[n] in CHARSET && Position(CHARSET, CHARSET[n], 0) == n
  {
    PositionBelow32(CHARSET[n]);
    var p := Position(CHARSET, CHARSET[n], 0);
    if p < n {
      CharsetDistinct(p, n);
    }
  }

  function Weight(b: bool, weight: nat): nat {
    if b then weight else 0
  }

  /** The number its five low bits spell. */
  function Number(w: Word): nat {
    Weight(w[0], 1) + Weight(w[1], 2) + Weight(w[2], 4) + Weight(w[3], 8) + Weight(w[4], 16)
  }

  lemma NumberOfWord(n: nat)
    requires n < 32
    ensures Number(WordOf(n)) == n
  {
    LowBits(n);
    FiveWeights(n);
  }

  lemma FiveWeights(n: nat)
    requires n < 32
    ensures n == Weight(n % 2 == 1, 1) + Weight(n / 2 % 2 == 1, 2) + Weight(n / 4 % 2 == 1, 4)
                 + Weight(n / 8 % 2 == 1, 8) + Weight(n / 16 % 2 == 1, 16)
  {
    assert n % 2 == n - 2 * (n / 2) && n / 2 % 2 == n / 2 - 2 * (n / 4);
    assert n / 4 % 2 == n / 4 - 2 * (n / 8) && n / 8 % 2 == n / 8 - 2 * (n / 16);
  }

  lemma WordOfNumber(w: Word)
    requires Below(w, 5)
    ensures Number(w) < 32 && WordOf(Number(w)) == w
  {
    var n := Number(w);
    FiveBits(w[0], w[1], w[2], w[3], w[4]);
    LowBits(n);
    SymbolBelow(n);
    forall i | 0 <= i < 64 ensures WordOf(n)[i] == w[i] {
      if i < 5 {
        assert i == 0 || i == 1 || i == 2 || i == 3 || i == 4;
      }
    }
  }

  lemma FiveBits(a: bool, b: bool, c: bool, d: bool, e: bool)
    ensures var n := Weight(a, 1) + Weight(b, 2) + Weight(c, 4) + Weight(d, 8) + Weight(e, 16);
            && n < 32 && (n % 2 == 1) == a && (n / 2 % 2 == 1) == b && (n / 4 % 2 == 1) == c
            && (n / 8 % 2 == 1) == d && (n / 16 % 2 == 1) == e
  {
  }

  lemma SymbolInjective(c: char, d: char)
    requires c in CHARSET && d in CHARSET && SymbolOf(c) == SymbolOf(d)
    ensures c == d
  {
    PositionBelow32(c);
    PositionBelow32(d);
    NumberOfWord(Position(CHARSET, c, 0));
    NumberOfWord(Position(CHARSET, d, 0));
  }

  lemma SymbolBelow(n: nat)
    requires n < 32
    ensures Below(WordOf(n), 5)
  {
    SmallPowers();
    BitsBelow(n, 5);
  }

  /** Every five-bit word is the symbol of a charset character. */
  lemma CharOf(w: Word) returns (c: char)
    requires Below(w, 5)
    ensures c in CHARSET && SymbolOf(c) == w
  {
    WordOfNumber(w);
    PositionOf(Number(w));
    c := CHARSET[Number(w)];
  }

  // ---------- the shape of valid addresses ----------

  lemma {:induction false} RSplitSound(s: string)
    requires RSplitColon(s).Split?
    ensures s == RSplitColon(s).prefix + ":" + RSplitColon(s).payload
    ensures ':' !in RSplitColon(s).payload
  {
    var n := |s| - 1;
    assert s == s[..n] + [s[n]];
    if s[n] != ':' {
      RSplitSound(s[..n]);
    }
  }

  lemma {:induction false} RSplitExact(p: string, q: string)
    requires ':' !in q
    ensures RSplitColon(p + ":" + q) == Split(p, q)
    decreases |q|
  {
    var s := p + ":" + q;
    if q == [] {
      assert s[..|s| - 1] == p;
    } else {
      var n := |q| - 1;
      assert s[..|s| - 1] == p + ":" + q[..n];
      assert q == q[..n] + [q[n]];
      RSplitExact(p, q[..n]);
    }
  }

  ghost predicate GoodPayload(payload: string) {
    |payload| > 8 && OverCharset(payload) && Polymod(Values(TESTNET_PREFIX, payload)) == Zero()
  }

  function TestnetAddress(payload: string): string {
    TESTNET_PREFIX + ":" + payload
  }

  lemma PlainLowercase(payload: string)
    requires OverCharset(payload)
    ensures ToAsciiLowercase(TestnetAddress(payload)) == TestnetAddress(payload)
    ensures ':' !in payload
  {
    var s := TestnetAddress(payload);
    forall c | c in payload ensures 'a' <= c <= 'z' || '0' <= c <= '9' {
      CharsetPlain(c);
    }
    forall i | 0 <= i < |s| ensures LowerChar(s[i]) == s[i] {
      if i >= 10 {
        assert s[i] == payload[i - 10] && s[i] in payload;
      } else {
        assert s[i] == "kaspatest:"[i];
      }
    }
  }

  /** A valid address is the prefix, a colon and a payload whose checksum is zero. */
  lemma ValidShape(payload: string)
    ensures IsValidTestnetAddress(TestnetAddress(payload)) <==> GoodPayload(payload)
  {
    var s := TestnetAddress(payload);
    if GoodPayload(payload) {
      PlainLowercase(payload);
      RSplitExact(TESTNET_PREFIX, payload);
    }
    if IsValidTestnetAddress(s) {
      RSplitSound(s);
      var q := RSplitColon(s).payload;
      assert payload == s[10..] == q;
    }
  }

  lemma ValidHasPrefix(addr: string)
    requires IsValidTestnetAddress(addr)
    ensures |addr| > 18 && addr == TestnetAddress(addr[10..])
  {
    RSplitSound(addr);
    assert addr[10..] == RSplitColon(addr).payload;
  }

  /** The valid testnet addresses are the prefix, a colon and a good payload, and nothing else. */
  lemma ValidExactly(addr: string)
    ensures IsValidTestnetAddress(addr) <==> exists payload :: addr == TestnetAddress(payload) && GoodPayload(payload)
  {
    forall payload | addr == TestnetAddress(payload) ensures IsValidTestnetAddress(addr) <==> GoodPayload(payload) {
      ValidShape(payload);
    }
    if IsValidTestnetAddress(addr) {
      ValidHasPrefix(addr);
    }
  }

  lemma {:induction false} PrefixSymbols(prefix: string)
    ensures Symbols(PrefixWords(prefix))
  {
    if prefix != [] {
      PrefixSymbols(prefix[..|prefix| - 1]);
      SymbolBelow(prefix[|prefix| - 1] as int % 32);
    }
  }

  /** Each prefix character enters by its five low bits. */
  lemma {:induction false} PrefixWordAt(prefix: string, i: nat)
    requires i < |prefix|
    ensures PrefixWords(prefix)[i] == WordOf(prefix[i] as int % 32)
    decreases |prefix|
  {
    if i < |prefix| - 1 {
      PrefixWordAt(prefix[..|prefix| - 1], i);
    }
  }

  lemma PayloadSymbols(payload: string)
    requires OverCharset(payload)
    ensures Symbols(PayloadWords(payload))
  {
    forall i | 0 <= i < |payload| ensures Below(PayloadWords(payload)[i], 5) {
      PositionBelow32(payload[i]);
      SymbolBelow(Position(CHARSET, payload[i], 0));
    }
  }

  lemma HeadSymbols()
    ensures Symbols(PrefixWords(TESTNET_PREFIX) + [Zero()])
  {
    PrefixSymbols(TESTNET_PREFIX);
  }

  // ---------- error detection ----------

  lemma AlteredPrefix(addr: string, altered: string)
    requires |altered| == |addr| >= 10 && addr[..10] == TESTNET_PREFIX + ":"
    requires forall i | 0 <= i < 10 :: altered[i] == addr[i]
    ensures altered == TestnetAddress(altered[10..])
  {
    assert altered[..10] == addr[..10];
    assert altered == altered[..10] + altered[10..];
  }

  /**
   Change any payload characters of a valid address that lie within eight consecutive
   positions, in any way at all: the result is never valid.
   */
  lemma BurstDetected(addr: string, altered: string, at: nat)
    requires IsValidTestnetAddress(addr) && |altered| == |addr| && altered != addr
    requires at >= 10
    requires forall i | 0 <= i < |addr| && !(at <= i < at + 8) :: altered[i] == addr[i]
    ensures !IsValidTestnetAddress(altered)
  {
    ValidHasPrefix(addr);
    var p, q := addr[10..], altered[10..];
    AlteredPrefix(addr, altered);
    ValidShape(p);
    ValidShape(q);
    BurstPayload(p, q, at - 10);
  }

  lemma BurstPayload(p: string, q: string, at: nat)
    requires GoodPayload(p) && |q| == |p| && q != p
    requires forall i | 0 <= i < |p| && !(at <= i < at + 8) :: q[i] == p[i]
    ensures !GoodPayload(q)
  {
    if GoodPayload(q) {
      SamePayload(p, q, at);
    }
  }

  /** The state after the prefix and the separating zero. */
  function HeadState(): Word {
    Fold(WordOf(1), PrefixWords(TESTNET_PREFIX) + [Zero()])
  }

  lemma GoodPayloadState(payload: string)
    requires OverCharset(payload)
    ensures Polymod(Values(TESTNET_PREFIX, payload)) == Zero()
            <==> Fold(HeadState(), PayloadWords(payload)) == WordOf(1)
  {
    FoldAppend(WordOf(1), PrefixWords(TESTNET_PREFIX) + [Zero()], PayloadWords(payload));
    XorIsZero(Fold(WordOf(1), Values(TESTNET_PREFIX, payload)), WordOf(1));
  }

  /** Two good payloads of one length that differ only within eight positions are equal. */
  lemma SamePayload(p: string, q: string, at: nat)
    requires GoodPayload(p) && GoodPayload(q) && |p| == |q|
    requires forall i | 0 <= i < |p| && !(at <= i < at + 8) :: p[i] == q[i]
    ensures p == q
  {
    var xs, ys := PayloadWords(p), PayloadWords(q);
    GoodPayloadState(p);
    GoodPayloadState(q);
    PayloadSymbols(p);
    PayloadSymbols(q);
    if xs != ys {
      BurstChangesState(HeadState(), xs, ys, at);
    }
    SameWords(p, q);
  }

  lemma SameWords(p: string, q: string)
    requires OverCharset(p) && OverCharset(q) && PayloadWords(p) == PayloadWords(q)
    ensures p == q
  {
    assert |p| == |PayloadWords(p)| == |q|;
    forall i | 0 <= i < |p| ensures p[i] == q[i] {
      assert PayloadWords(p)[i] == PayloadWords(q)[i];
      SymbolInjective(p[i], q[i]);
    }
  }

  /** Prefixes that differ in the low bits of some character differ in their words there. */
  lemma PrefixWordsDiffer(p: string, q: string, payload: string, at: nat, i: nat)
    requires |p| == |q| && OverCharset(payload) && i < |p| && p[i] as int % 32 != q[i] as int % 32
    requires forall j | 0 <= j < |p| && !(at <= j < at + 8) :: p[j] == q[j]
    ensures var xs, ys := Values(p, payload), Values(q, payload);
            && |xs| == |ys| && xs != ys && Symbols(xs) && Symbols(ys)
            && (forall j | 0 <= j < |xs| && !(at <= j < at + 8) :: xs[j] == ys[j])
  {
    var xs, ys := Values(p, payload), Values(q, payload);
    PrefixSymbols(p);
    PrefixSymbols(q);
    PayloadSymbols(payload);
    forall j | 0 <= j < |p| ensures xs[j] == WordOf(p[j] as int % 32) && ys[j] == WordOf(q[j] as int % 32) {
      PrefixWordAt(p, j);
      PrefixWordAt(q, j);
    }
    NumberOfWord(p[i] as int % 32);
    NumberOfWord(q[i] as int % 32);
    assert xs[i] != ys[i];
  }

  /**
   The checksum covers the prefix: one payload is not valid under two prefixes of one length
   that differ, in the low five bits of some character, only within eight positions.
   */
  lemma PrefixBound(p: string, q: string, payload: string, at: nat)
    requires |p| == |q| && OverCharset(payload)
    requires forall j | 0 <= j < |p| && !(at <= j < at + 8) :: p[j] == q[j]
    requires exists i | 0 <= i < |p| :: p[i] as int % 32 != q[i] as int % 32
    ensures !(CashaddrValid(p + ":" + payload, p) && CashaddrValid(q + ":" + payload, q))
  {
    if CashaddrValid(p + ":" + payload, p) && CashaddrValid(q + ":" + payload, q) {
      var i :| 0 <= i < |p| && p[i] as int % 32 != q[i] as int % 32;
      PrefixWordsDiffer(p, q, payload, at, i);
      PayloadAfterPrefix(p, payload);
      PayloadAfterPrefix(q, payload);
      BurstChangesState(WordOf(1), Values(p, payload), Values(q, payload), at);
      XorIsZero(Fold(WordOf(1), Values(p, payload)), WordOf(1));
      XorIsZero(Fold(WordOf(1), Values(q, payload)), WordOf(1));
      assert false;
    }
  }

  lemma PayloadAfterPrefix(p: string, payload: string)
    requires OverCharset(payload)
    ensures RSplitColon(p + ":" + payload) == Split(p, payload)
  {
    forall c | c in payload ensures c != ':' {
      CharsetPlain(c);
    }
    RSplitExact(p, payload);
  }

  lemma PayloadAppend(s: string, t: string)
    requires OverCharset(s) && OverCharset(t)
    ensures OverCharset(s + t) && PayloadWords(s + t) == PayloadWords(s) + PayloadWords(t)
  {
  }

  lemma {:induction false} CharsOf(ws: seq<Word>) returns (s: string)
    requires Symbols(ws)
    ensures OverCharset(s) && |s| == |ws| && PayloadWords(s) == ws
  {
    s := [];
    if ws != [] {
      var n := |ws| - 1;
      var t := CharsOf(ws[..n]);
      var c := CharOf(ws[n]);
      PayloadAppend(t, [c]);
      assert PayloadWords([c]) == [ws[n]];
      s := t + [c];
    }
  }

  lemma ChecksumExists(body: string) returns (sum: string)
    requires body != [] && OverCharset(body)
    ensures |sum| == 8 && IsValidTestnetAddress(TestnetAddress(body + sum))
  {
    var words := PayloadWords(body);
    var c := Fold(HeadState(), words);
    HeadSymbols();
    PayloadSymbols(body);
    OneBelow();
    FoldStays(WordOf(1), PrefixWords(TESTNET_PREFIX) + [Zero()]);
    FoldStays(HeadState(), words);
    SuffixReaches(c, WordOf(1));
    sum := CharsOf(Suffix(c, WordOf(1)));
    FoldAppend(HeadState(), words, PayloadWords(sum));
    PayloadAppend(body, sum);
    GoodPayloadState(body + sum);
    ValidShape(body + sum);
  }

  /** Every non-empty body over the charset has exactly one checksum. */
  lemma UniqueAddress(body: string)
    requires body != [] && OverCharset(body)
    ensures exists sum :: |sum| == 8 && IsValidTestnetAddress(TestnetAddress(body + sum))
    ensures forall s, t | |s| == |t| == 8 && IsValidTestnetAddress(TestnetAddress(body + s))
                          && IsValidTestnetAddress(TestnetAddress(body + t)) :: s == t
  {
    var sum := ChecksumExists(body);
    forall s, t | |s| == |t| == 8 && IsValidTestnetAddress(TestnetAddress(body + s))
                  && IsValidTestnetAddress(TestnetAddress(body + t))
      ensures s == t
    {
      OneChecksum(body, s, t);
    }
  }

  lemma OneChecksum(body: string, s: string, t: string)
    requires |s| == |t| == 8
    requires IsValidTestnetAddress(TestnetAddress(body + s)) && IsValidTestnetAddress(TestnetAddress(body + t))
    ensures s == t
  {
    ValidShape(body + s);
    ValidShape(body + t);
    SamePayload(body + s, body + t, |body|);
    assert s == (body + s)[|body|..] == (body + t)[|body|..] == t;
  }
}
