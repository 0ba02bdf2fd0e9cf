/** Signed numbers as byte strings: the sign-and-magnitude form that the big-number class exchanges
    with its library, and its mirror image used in scripts. */
module BigNum {
  import opened Arith
  import opened Digits

  function Abs(x: int): nat { if x < 0 then -x else x }

  /** A magnitude with its sign in the top bit, which may take a byte of its own. */
  function Signed(m: seq<nat>, negative: bool): seq<nat> {
    if m == [] then []
    else if m[0] >= 128 then [if negative then 128 else 0] + m
    else if negative then [m[0] + 128] + m[1..]
    else m
  }

  /** The bytes of x, most significant first. */
  function Mpi(x: int): seq<nat> { Signed(DigitsOf(256, Abs(x)), x < 0) }

  function FromMpi(p: seq<nat>): int {
    if p == [] then 0
    else if p[0] >= 128 then 0 - Val(256, [p[0] - 128] + p[1..])
    else Val(256, p)
  }

  lemma ValDropZero(s: seq<nat>)
    ensures Val(256, [0] + s) == Val(256, s)
  {
    ValConcat(256, [0], s);
    assert [0][..0] == [] && Val(256, []) == 0 && Val(256, [0]) == 0;
  }

  lemma EmptyVal()
    ensures Val(256, []) == 0
  {}

  lemma SignedBelow(m: seq<nat>, negative: bool)
    requires Below(256, m)
    ensures Below(256, Signed(m, negative))
  {}

  /** A signed magnitude is read back as it was meant. */
  lemma SignedValue(m: seq<nat>, negative: bool)
    requires m != [] ==> m[0] != 0
    ensures m != [] && m[0] < 256 ==> FromMpi(Signed(m, negative)) == if negative then 0 - Val(256, m) else Val(256, m)
    ensures m == [] ==> FromMpi(Signed(m, negative)) == 0 == Val(256, m)
  {
    hide Val;
    EmptyVal();
    if m != [] && m[0] >= 128 {
      ExtraByte(m, negative);
    } else if m != [] && negative {
      assert [m[0]] + m[1..] == m;
      assert Signed(m, negative)[1..] == m[1..];
    }
  }

  lemma ExtraByte(m: seq<nat>, negative: bool)
    requires m != [] && m[0] >= 128
    ensures FromMpi(Signed(m, negative)) == if negative then 0 - Val(256, m) else Val(256, m)
  {
    hide Val;
    var p := Signed(m, negative);
    assert p[1..] == m;
    ValDropZero(m);
  }

  lemma MpiReadsBack(x: int)
    ensures Below(256, Mpi(x)) && FromMpi(Mpi(x)) == x
  {
    SignedBelow(DigitsOf(256, Abs(x)), x < 0);
    SignedValue(DigitsOf(256, Abs(x)), x < 0);
    ValOfDigits(256, Abs(x));
  }

  // ----- least significant first

  function Reverse(s: seq<nat>): (r: seq<nat>)
    ensures |r| == |s| && forall i :: 0 <= i < |s| ==> r[i] == s[|s| - 1 - i]
  {
    seq(|s|, i requires 0 <= i < |s| => s[|s| - 1 - i])
  }

  lemma ReverseTwice(s: seq<nat>)
    ensures Reverse(Reverse(s)) == s
  {}

  function SetVch(v: seq<nat>): int { FromMpi(Reverse(v)) }

  function GetVch(x: int): seq<nat> { Reverse(Mpi(x)) }

  lemma VchReadsBack(x: int)
    ensures SetVch(GetVch(x)) == x
  {
    ReverseTwice(Mpi(x));
    MpiReadsBack(x);
  }

  // ----- from a machine word

  const TWO_63: int := 0x8000_0000_0000_0000

  lemma NextByte(n: nat, i: nat, v: nat, c: nat)
    requires i < 8 && n < Pow(256, 8) && v == n / Pow(256, 8 - i) && c == n / Pow(256, 7 - i) % 256
    ensures n / Pow(256, 7 - i) == v * 256 + c
    ensures DigitsOf(256, v * 256 + c) == if v == 0 && c == 0 then [] else DigitsOf(256, v) + [c]
  {
    var p := Pow(256, 7 - i);
    PowPositive(256, 7 - i);
    var q := n / p;
    assert Pow(256, 8 - i) == 256 * p;
    DivDiv(n, p, 256);
    DivModId(q, 256);
    DivUnique(v * 256 + c, 256, v);
  }

  lemma DivDiv(n: nat, p: nat, b: nat)
    requires p > 0 && b > 0
    ensures b * p > 0 && n / (b * p) == n / p / b
  {
    MulLe(b, 1, p);
    var q := n / p;
    DivModId(n, p);
    DivModId(q, b);
    var k := q / b;
    Assoc(b, p, k);
    MulLe(p, b * k, q);
    MulLe(p, q + 1, b * k + b);
    Distribute(p, q, 1);
    Distribute(p, b * k, b);
    Commute(p, b, k);
    DivUnique(n, b * p, k);
  }

  lemma Commute(p: int, b: int, k: int)
    ensures p * (b * k) == (b * p) * k && p * b == b * p
  {
    assert p * (b * k) == (p * b) * k;
  }

  lemma SignedMore(m: seq<nat>, negative: bool, c: nat)
    requires m != []
    ensures Signed(m + [c], negative) == Signed(m, negative) + [c]
  {
    if m[0] < 128 && negative { assert (m + [c])[1..] == m[1..] + [c]; }
  }

  /** The bytes handed to the library for a 64-bit number, the smallest one included. */
  method SetInt64(sn: int) returns (p: seq<nat>)
    requires -TWO_63 <= sn < TWO_63
    ensures p == Mpi(sn) && FromMpi(p) == sn
  {
    hide Pow, DigitsOf;
    var fNegative, n;
    if sn < 0 {
      n := -(sn + 1);
      n := n + 1;
      fNegative := true;
    } else {
      n := sn;
      fNegative := false;
    }
    p := [];
    var fLeadingZeroes := true;
    var i := 0;
    WordStart(n);
    while i < 8
      invariant 0 <= i <= 8 && 0 <= n < Pow(256, 8)
      invariant p == Signed(DigitsOf(256, Top(n, i)), fNegative)
      invariant fLeadingZeroes <==> Top(n, i) == 0
    {
      var c := ByteAt(n, i);
      NextTop(n, i);
      if Top(n, i) > 0 { SignedMore(DigitsOf(256, Top(n, i)), fNegative, c); }
      if !fLeadingZeroes || c != 0 {
        if fLeadingZeroes {
          if c >= 128 {
            p := p + [if fNegative then 128 else 0];
          } else if fNegative {
            c := c + 128;
          }
          fLeadingZeroes := false;
        }
        p := p + [c];
      }
      i := i + 1;
    }
    WordEnd(n);
    MpiReadsBack(sn);
  }

  /** The i most significant bytes of a 64-bit word. */
  function Top(n: nat, i: nat): nat
    requires i <= 8
  {
    PowPositive(256, 8 - i);
    DivAtLeast(n, Pow(256, 8 - i), 0);
    n / Pow(256, 8 - i)
  }

  /** (n << 8 * i) >> 56. */
  function ByteAt(n: nat, i: nat): nat
    requires i < 8
  {
    PowPositive(256, 7 - i);
    DivAtLeast(n, Pow(256, 7 - i), 0);
    n / Pow(256, 7 - i) % 256
  }

  lemma WordStart(n: nat)
    requires n <= TWO_63
    ensures n < Pow(256, 8) && Top(n, 0) == 0 && DigitsOf(256, 0) == []
  {
    assert Pow(256, 0) == 1 && Pow(256, 1) == 256 && Pow(256, 2) == 65536 && Pow(256, 4) == 0x1_0000_0000;
    assert Pow(256, 8) == 0x1_0000_0000_0000_0000;
    DivUnique(n, Pow(256, 8), 0);
  }

  lemma NextTop(n: nat, i: nat)
    requires i < 8 && n < Pow(256, 8)
    ensures Top(n, i + 1) == Top(n, i) * 256 + ByteAt(n, i) && ByteAt(n, i) < 256
    ensures DigitsOf(256, Top(n, i + 1)) ==
      if Top(n, i) == 0 && ByteAt(n, i) == 0 then [] else DigitsOf(256, Top(n, i)) + [ByteAt(n, i)]
  {
    hide Pow, DigitsOf;
    NextByte(n, i, Top(n, i), ByteAt(n, i));
  }

  lemma WordEnd(n: nat)
    ensures Top(n, 8) == n
  {
    DivUnique(n, 1, n);
  }
}
