/** Integer widths of the source and the option and result types shared by the models. */
module Basics {

  const U32_LIMIT: nat := 0x1_0000_0000
  const U64_LIMIT: nat := 0x1_0000_0000_0000_0000
  const U128_LIMIT: nat := 0x1_0000_0000_0000_0000_0000_0000_0000_0000
  const I64_MAX: nat := 0x7FFF_FFFF_FFFF_FFFF

  type u32 = n: nat | n < U32_LIMIT
  type u64 = n: nat | n < U64_LIMIT
  type u128 = n: nat | n < U128_LIMIT

  datatype Option<+T> = None | Some(value: T)

  datatype Result<+T, +E> = Ok(value: T) | Err(error: E)

  function Max(a: nat, b: nat): nat {
    if a < b then b else a
  }

  /** saturating_sub */
  function MinusOrZero(a: nat, b: nat): nat {
    if a < b then 0 else a - b
  }

  predicate IsSpace(c: char) {
    c == ' ' || '\t' <= c <= '\r'
  }

  /** trim, for ASCII white space. */
  function Trim(s: string): string
    decreases |s|
  {
    if s == [] then s
    else if IsSpace(s[0]) then Trim(s[1..])
    else if IsSpace(s[|s| - 1]) then Trim(s[..|s| - 1])
    else s
  }

  const SPACES := " \t\n\U{000B}\U{000C}\r"

  predicate AllSpace(s: string) {
    forall c | c in s :: c in SPACES
  }

  lemma SpaceIs(c: char)
    ensures IsSpace(c) <==> c in SPACES
  {
    var spaces := SPACES;
    if '\t' <= c <= '\r' {
      assert spaces[c as int - 8] == c;
    } else if c == ' ' {
      assert spaces[0] == c;
    }
  }

  /** Trimming takes white space off both ends, and all of it. */
  lemma {:induction false} TrimExactly(s: string) returns (left: string, right: string)
    ensures s == left + Trim(s) + right && AllSpace(left) && AllSpace(right)
    ensures Trim(s) != [] ==> !AllSpace([Trim(s)[0]]) && !AllSpace([Trim(s)[|Trim(s)| - 1]])
    decreases |s|
  {
    left, right := [], [];
    if s != [] {
      SpaceIs(s[0]);
      SpaceIs(s[|s| - 1]);
      if IsSpace(s[0]) {
        var l, r := TrimExactly(s[1..]);
        SpaceMore(s[0], l);
        FirstApart(s, l, Trim(s), r);
        left, right := [s[0]] + l, r;
      } else if IsSpace(s[|s| - 1]) {
        var l, r := TrimExactly(s[..|s| - 1]);
        SpaceMore(s[|s| - 1], r);
        LastApart(s, l, Trim(s), r);
        left, right := l, r + [s[|s| - 1]];
      }
    }
  }

  lemma SpaceMore(c: char, s: string)
    requires c in SPACES && AllSpace(s)
    ensures AllSpace([c] + s) && AllSpace(s + [c])
  {
  }

  lemma FirstApart(s: string, l: string, m: string, r: string)
    requires s != [] && s[1..] == l + m + r
    ensures s == [s[0]] + l + m + r
  {
    assert s == [s[0]] + s[1..];
  }

  lemma LastApart(s: string, l: string, m: string, r: string)
    requires s != [] && s[..|s| - 1] == l + m + r
    ensures s == l + m + (r + [s[|s| - 1]])
  {
    assert s == s[..|s| - 1] + [s[|s| - 1]];
  }
}
