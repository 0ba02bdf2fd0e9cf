/** Compact targets, and the target required of the next block. */
module Compact {
  import opened Arith
  import opened Digits
  import opened BigNum

  const SIZE_UNIT: nat := 0x100_0000

  function At(p: seq<nat>, i: nat): nat { if i < |p| then p[i] else 0 }

  /** The number of bytes, and the first three of them. */
  function GetCompact(x: nat): nat {
    var p := Mpi(x);
    |p| * SIZE_UNIT + At(p, 0) * 0x1_0000 + At(p, 1) * 0x100 + At(p, 2)
  }

  function CompactBytes(c: nat): (p: seq<nat>)
    ensures Below(256, p)
  {
    seq(c / SIZE_UNIT, i requires 0 <= i < c / SIZE_UNIT =>
      if i == 0 then c / 0x1_0000 % 256 else if i == 1 then c / 0x100 % 256 else if i == 2 then c % 256 else 0)
  }

  function SetCompact(c: nat): int { FromMpi(CompactBytes(c)) }

  /** How many bytes x needs, with room for the sign. */
  function Size(x: nat): nat { |Mpi(x)| }

  // ----- the bytes of a positive number

  lemma MpiOfPositive(x: nat)
    requires x > 0
    ensures var p := Mpi(x); p != [] && p[0] < 128 && Below(256, p) && Val(256, p) == x
    ensures var p := Mpi(x); p[0] == 0 ==> |p| >= 2 && p[1] >= 128
  {
    MpiReadsBack(x);
  }

  /** x lies between 128 * 256^(Size - 2) and 128 * 256^(Size - 1). */
  lemma SizeBounds(x: nat)
    requires x > 0
    ensures Size(x) >= 1 && x < 128 * Pow(256, Size(x) - 1)
    ensures Size(x) >= 2 ==> 128 * Pow(256, Size(x) - 2) <= x
  {
    hide Mpi, Val, Pow, Below;
    MpiOfPositive(x);
    BytesBounds(Mpi(x));
  }

  lemma BytesBounds(p: seq<nat>)
    requires p != [] && p[0] < 128 && Below(256, p) && (p[0] == 0 ==> |p| >= 2 && p[1] >= 128)
    ensures Val(256, p) < 128 * Pow(256, |p| - 1)
    ensures |p| >= 2 ==> 128 * Pow(256, |p| - 2) <= Val(256, p)
  {
    hide Val, Pow;
    Leading(p);
    ValBound(256, p[1..]);
    UpperPart(p[0], Pow(256, |p| - 1), Val(256, p[1..]));
    if |p| >= 2 {
      PowNext(|p| - 2);
      PowPositive(256, |p| - 2);
      if p[0] == 0 {
        Leading(p[1..]);
        MulLe(Pow(256, |p| - 2), 128, p[1]);
      } else {
        MulLe(Pow(256, |p| - 1), 1, p[0]);
      }
    }
  }

  lemma UpperPart(d: nat, unit: nat, low: nat)
    requires d < 128 && low < unit
    ensures d * unit + low < 128 * unit
  {}

  lemma PowNext(n: nat)
    ensures Pow(256, n + 1) == 256 * Pow(256, n)
  {}

  /** The first digit and the rest. */
  lemma Leading(p: seq<nat>)
    requires p != []
    ensures Val(256, p) == p[0] * Pow(256, |p| - 1) + Val(256, p[1..])
  {
    assert p == [p[0]] + p[1..];
    ValConcat(256, [p[0]], p[1..]);
    assert [p[0]][..0] == [] && Val(256, []) == 0 && Val(256, [p[0]]) == p[0];
  }

  function ClearLow(x: nat, unit: nat): (r: nat)
    requires unit > 0
    ensures r == unit * (x / unit) && r <= x < r + unit
  {
    DivModId(x, unit);
    DivAtLeast(x, unit, 0);
    MulLe(unit, 0, x / unit);
    x - x % unit
  }

  function Unit(n: nat): (u: nat)
    requires n >= 3
    ensures u > 0
  {
    PowPositive(256, n - 3);
    Pow(256, n - 3)
  }

  /** x with all but the first three bytes cleared. */
  function Trunc(x: nat): nat {
    if Size(x) <= 3 then x else ClearLow(x, Unit(Size(x)))
  }

  lemma FieldsOf(n: nat, a: nat, b: nat, c: nat)
    requires a < 256 && b < 256 && c < 256
    ensures var k := n * SIZE_UNIT + a * 0x1_0000 + b * 0x100 + c;
      k / SIZE_UNIT == n && k / 0x1_0000 % 256 == a && k / 0x100 % 256 == b && k % 256 == c
  {
    var k := n * SIZE_UNIT + a * 0x1_0000 + b * 0x100 + c;
    DivUnique(k, SIZE_UNIT, n);
    DivUnique(k, 0x1_0000, n * 256 + a);
    DivUnique(k, 0x100, n * 65536 + a * 256 + b);
    DivUnique(k, 256, n * 65536 + a * 256 + b);
    DivModId(k, 256);
    DivUnique(n * 256 + a, 256, n);
    DivModId(n * 256 + a, 256);
    DivUnique(n * 65536 + a * 256 + b, 256, n * 256 + a);
    DivModId(n * 65536 + a * 256 + b, 256);
  }

  /** The compact form is read back as the first three bytes and zeros. */
  lemma CompactBytesOf(x: nat)
    requires x > 0
    ensures var p, q := Mpi(x), CompactBytes(GetCompact(x));
      |q| == |p| && forall i :: 0 <= i < |p| ==> q[i] == if i < 3 then p[i] else 0
  {
    MpiOfPositive(x);
    var p := Mpi(x);
    FieldsOf(|p|, At(p, 0), At(p, 1), At(p, 2));
  }

  lemma {:induction false} ZeroTail(p: seq<nat>, n: nat)
    requires n <= |p| && forall i :: n <= i < |p| ==> p[i] == 0
    ensures Val(256, p) == Val(256, p[..n]) * Pow(256, |p| - n)
  {
    assert p == p[..n] + p[n..];
    ValConcat(256, p[..n], p[n..]);
    ZerosOnly(p[n..]);
    ZerosVal(256, p[n..]);
  }

  lemma ReadPositive(q: seq<nat>)
    requires q != [] && q[0] < 128
    ensures FromMpi(q) == Val(256, q)
  {}

  /** Clearing all but the first three digits. */
  lemma KeepThree(p: seq<nat>, q: seq<nat>)
    requires |q| == |p| > 3 && Below(256, p) && forall i :: 0 <= i < |p| ==> q[i] == if i < 3 then p[i] else 0
    ensures Val(256, q) == ClearLow(Val(256, p), Unit(|p|))
  {
    hide Val, Pow;
    assert q[..3] == p[..3];
    ZeroTail(q, 3);
    assert p == p[..3] + p[3..];
    ValConcat(256, p[..3], p[3..]);
    ValBound(256, p[3..]);
    Cleared(Val(256, p), Val(256, p[..3]), Unit(|p|), Val(256, p[3..]));
  }

  lemma Cleared(x: nat, a: nat, unit: nat, low: nat)
    requires low < unit && x == a * unit + low
    ensures ClearLow(x, unit) == a * unit
  {
    DivUnique(x, unit, a);
  }

  /** Reading a compact target back clears all but its first three bytes. */
  lemma CompactReadsBack(x: nat)
    ensures SetCompact(GetCompact(x)) == Trunc(x)
  {
    hide Val, Pow, Mpi, FromMpi, GetCompact, CompactBytes;
    if x == 0 {
      CompactZero();
    } else {
      MpiOfPositive(x);
      CompactBytesOf(x);
      var p, q := Mpi(x), CompactBytes(GetCompact(x));
      ReadPositive(q);
      if |p| <= 3 { assert q == p; } else { KeepThree(p, q); }
    }
  }

  lemma CompactZero()
    ensures SetCompact(GetCompact(0)) == 0 && Trunc(0) == 0
  {}

  /** The loss is below 2^-15 of the number, and nothing positive becomes zero. */
  lemma TruncError(x: nat)
    requires x > 0
    ensures 0 < Trunc(x) <= x && (x - Trunc(x)) * 32768 < x
  {
    hide Pow, Mpi;
    SizeBounds(x);
    if Size(x) > 3 { PowNext(Size(x) - 3); }
  }

  /** Between the bounds of a size, numbers have that size. */
  lemma SizeMonotone(x: nat, y: nat)
    requires 0 < x <= y
    ensures Size(x) <= Size(y)
  {
    SizeBounds(x);
    SizeBounds(y);
    if Size(x) > Size(y) { PowMonotone(Size(y) - 1, Size(x) - 2); }
  }

  lemma {:induction false} PowMonotone(a: nat, b: nat)
    requires a <= b
    ensures Pow(256, a) <= Pow(256, b)
    decreases b
  {
    if a < b {
      PowMonotone(a, b - 1);
      PowPositive(256, b - 1);
    }
  }

  /** What is read back has the same size: the form is canonical, and a fixed point. */
  lemma TruncFixed(x: nat)
    ensures Trunc(Trunc(x)) == Trunc(x) && GetCompact(Trunc(x)) == GetCompact(x)
  {
    hide Val, Pow, Mpi, FromMpi, CompactBytes;
    if x > 0 && Size(x) > 3 {
      CompactBytesOf(x);
      MpiOfPositive(x);
      TruncError(x);
      var p, q := Mpi(x), CompactBytes(GetCompact(x));
      KeepThree(p, q);
      CanonicalUnique(q, Trunc(x));
      CompactReadsBack(x);
      CompactReadsBack(Trunc(x));
    }
  }

  /** Bytes with a clear sign bit and no needless zero are those of their value. */
  lemma CanonicalUnique(q: seq<nat>, y: nat)
    requires q != [] && Below(256, q) && q[0] < 128 && (q[0] == 0 ==> |q| >= 2 && q[1] >= 128) && Val(256, q) == y && y > 0
    ensures Mpi(y) == q
  {
    var m := DigitsOf(256, y);
    ValOfDigits(256, y);
    if q[0] == 0 {
      assert q == [0] + q[1..];
      ValDropZero(q[1..]);
      ValUnique(256, m, q[1..]);
    } else {
      ValUnique(256, m, q);
    }
  }

  lemma TruncMonotone(x: nat, y: nat)
    requires 0 < x <= y
    ensures Trunc(x) <= Trunc(y)
  {
    hide Pow, Mpi;
    SizeMonotone(x, y);
    TruncError(x);
    if Size(y) > 3 {
      var unit := Unit(Size(y));
      if Size(x) == Size(y) {
        DivMonotone(x, y, unit);
        MulLe(unit, x / unit, y / unit);
      } else {
        SizeBounds(x);
        SizeBounds(y);
        PowMonotone(Size(x) - 1, Size(y) - 2);
        PowNext(Size(y) - 3);
        DivAtLeast(y, unit, 32768);
        MulLe(unit, 32768, y / unit);
      }
    }
  }
}
