/**
 Decimal rendering and delimiter splitting, as used by the name tables of the SAT encoder
 and by the event keys of the deposit outbox.
 */
module Text {

  /** The decimal digits of n, most significant first, as string formatting renders them. */
  function Dec(n: nat): (s: string)
    ensures |s| > 0 && forall c | c in s :: '0' <= c <= '9'
    decreases n
  {
    if n < 10 then [(48 + n) as char] else Dec(n / 10) + [(48 + n % 10) as char]
  }

  lemma {:induction false} DecInjective(a: nat, b: nat)
    requires Dec(a) == Dec(b)
    ensures a == b
    decreases a
  {
    var s := Dec(a);
    assert |s| == 1 <==> a < 10;
    assert |s| == 1 <==> b < 10;
    if a < 10 {
      assert s[0] == (48 + a) as char == (48 + b) as char;
    } else {
      assert Dec(a / 10) == s[..|s| - 1] == Dec(b / 10);
      DecInjective(a / 10, b / 10);
      assert s[|s| - 1] == (48 + a % 10) as char == (48 + b % 10) as char;
    }
  }

  /** Splitting at the first separator is unambiguous. */
  lemma SplitFirst(p: string, q: string, sep: char, u: string, v: string)
    requires sep !in p && sep !in q
    requires p + [sep] + u == q + [sep] + v
    ensures p == q && u == v
  {
    var w := p + [sep] + u;
    assert w[|p|] == sep && w[|q|] == sep;
    assert forall i | 0 <= i < |p| :: w[i] == p[i];
    assert forall i | 0 <= i < |q| :: w[i] == q[i];
    assert p == w[..|p|] == q;
    assert u == w[|p| + 1..] == v;
  }

  /** Splitting at the last separator is unambiguous. */
  lemma SplitLast(p: string, q: string, sep: char, u: string, v: string)
    requires sep !in u && sep !in v
    requires p + [sep] + u == q + [sep] + v
    ensures p == q && u == v
  {
    var w := p + [sep] + u;
    assert w[|p|] == sep && w[|q|] == sep;
    assert forall i | |p| < i < |w| :: w[i] == u[i - |p| - 1];
    assert forall i | |q| < i < |w| :: w[i] == v[i - |q| - 1];
    assert p == w[..|p|] == q;
    assert u == w[|p| + 1..] == v;
  }

  /** Two rendered numbers joined by an underscore determine both numbers. */
  lemma DecPairInjective(a: nat, b: nat, c: nat, d: nat)
    requires Dec(a) + "_" + Dec(b) == Dec(c) + "_" + Dec(d)
    ensures a == c && b == d
  {
    SplitFirst(Dec(a), Dec(c), '_', Dec(b), Dec(d));
    DecInjective(a, c);
    DecInjective(b, d);
  }
}
