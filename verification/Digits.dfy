/** Numbers and their digits in any base, most significant first. */
module Digits {
  import opened Arith

  function Pow(base: nat, n: nat): nat { if n == 0 then 1 else base * Pow(base, n - 1) }

  function Val(base: nat, s: seq<nat>): nat {
    if s == [] then 0 else Val(base, s[..|s| - 1]) * base + s[|s| - 1]
  }

  ghost predicate Below(base: nat, s: seq<nat>) { forall i :: 0 <= i < |s| ==> s[i] < base }

  /** The number of zeros in front. */
  function Zeros(s: seq<nat>): (z: nat)
    ensures z <= |s|
  {
    if s == [] || s[0] != 0 then 0 else 1 + Zeros(s[1..])
  }

  function DigitsOf(base: nat, n: nat): (s: seq<nat>)
    requires base > 1
    ensures Below(base, s) && (s != [] ==> s[0] != 0) && (s == [] <==> n == 0)
  {
    if n == 0 then [] else
      DivDown(n, base);
      var r := DigitsOf(base, n / base) + [n % base];
      assert n / base == 0 ==> n % base == n by { DivModId(n, base); }
      r
  }

  lemma DivDown(n: nat, base: nat)
    requires n > 0 && base > 1
    ensures 0 <= n / base < n
  {
    DivModId(n, base);
    DivAtLeast(n, base, 0);
    if n / base >= n { MulLe(base, n, n / base); }
  }

  lemma {:induction false} ValOfDigits(base: nat, n: nat)
    requires base > 1
    ensures Val(base, DigitsOf(base, n)) == n
  {
    if n > 0 {
      DivDown(n, base);
      ValOfDigits(base, n / base);
      DivModId(n, base);
      assert DigitsOf(base, n)[..|DigitsOf(base, n)| - 1] == DigitsOf(base, n / base);
    }
  }

  lemma PowPositive(base: nat, n: nat)
    requires base > 0
    ensures Pow(base, n) > 0
  {}

  lemma Assoc(a: int, b: int, c: int)
    ensures a * (b * c) == (a * b) * c
  {}

  lemma {:induction false} ValBound(base: nat, s: seq<nat>)
    requires base > 0 && Below(base, s)
    ensures Val(base, s) < Pow(base, |s|)
  {
    if s != [] {
      var init := s[..|s| - 1];
      ValBound(base, init);
      MulLe(base, Val(base, init) + 1, Pow(base, |init|));
      Distribute(base, Val(base, init), 1);
    }
  }

  lemma {:induction false} ValConcat(base: nat, s: seq<nat>, t: seq<nat>)
    ensures Val(base, s + t) == Val(base, s) * Pow(base, |t|) + Val(base, t)
  {
    if t == [] {
      assert s + t == s;
    } else {
      var init, last := t[..|t| - 1], t[|t| - 1];
      ValConcat(base, s, init);
      assert (s + t)[..|s + t| - 1] == s + init;
      Distribute(base, Val(base, s) * Pow(base, |init|), Val(base, init));
      Assoc(Val(base, s), Pow(base, |init|), base);
    }
  }

  lemma {:induction false} ZerosVal(base: nat, s: seq<nat>)
    requires Zeros(s) == |s|
    ensures Val(base, s) == 0 && forall i :: 0 <= i < |s| ==> s[i] == 0
  {
    if s != [] {
      ZerosInit(s);
      ZerosVal(base, s[..|s| - 1]);
    }
  }

  /** The last digit only matters for the zeros in front when all others are zero. */
  lemma {:induction false} ZerosInit(s: seq<nat>)
    requires s != []
    ensures Zeros(s) == |s| <==> Zeros(s[..|s| - 1]) == |s| - 1 && s[|s| - 1] == 0
    ensures Zeros(s) < |s| ==> Zeros(s[..|s| - 1]) == Zeros(s)
  {
    if |s| > 1 && s[0] == 0 {
      ZerosInit(s[1..]);
      assert s[..|s| - 1][1..] == s[1..][..|s| - 2];
    } else if |s| == 1 {
      assert s[..0] == [];
    }
  }

  lemma {:induction false} ValZero(base: nat, s: seq<nat>)
    requires base > 0 && Val(base, s) == 0
    ensures Zeros(s) == |s|
  {
    if s != [] {
      var init := s[..|s| - 1];
      if Val(base, init) > 0 { MulLe(base, 1, Val(base, init)); }
      ValZero(base, init);
      ZerosInit(s);
    }
  }

  /** Digits with the same number of zeros in front and the same value are the same. */
  lemma {:induction false} ValUnique(base: nat, s: seq<nat>, t: seq<nat>)
    requires base > 1 && Below(base, s) && Below(base, t)
    requires Val(base, s) == Val(base, t) && Zeros(s) == Zeros(t)
    ensures s == t
  {
    if Zeros(s) == |s| {
      ZerosVal(base, s);
      ValZero(base, t);
      ZerosVal(base, t);
    } else if Zeros(t) == |t| {
      ZerosVal(base, t);
      ValZero(base, s);
    } else {
      var n, m := |s| - 1, |t| - 1;
      ZerosInit(s);
      ZerosInit(t);
      LastDigit(base, Val(base, s[..n]), s[n], Val(base, t[..m]), t[m]);
      ValUnique(base, s[..n], t[..m]);
      assert s == s[..n] + [s[n]] && t == t[..m] + [t[m]];
    }
  }

  lemma LastDigit(base: nat, a: nat, d: nat, b: nat, e: nat)
    requires d < base && e < base && a * base + d == b * base + e
    ensures a == b && d == e
  {
    DivUnique(a * base + d, base, a);
    DivUnique(b * base + e, base, b);
  }

  /** Leading zeros are worth nothing. */
  lemma ValZerosInFront(base: nat, z: nat, s: seq<nat>)
    ensures Val(base, seq(z, _ => 0) + s) == Val(base, s)
    ensures s == [] || s[0] != 0 ==> Zeros(seq(z, _ => 0) + s) == z
  {
    var front := seq(z, _ => 0);
    ValConcat(base, front, s);
    ZerosOnly(front);
    ZerosVal(base, front);
    if s == [] || s[0] != 0 { ZerosThen(front, s); }
  }

  lemma {:induction false} ZerosOnly(s: seq<nat>)
    requires forall i :: 0 <= i < |s| ==> s[i] == 0
    ensures Zeros(s) == |s|
  {
    if s != [] { ZerosOnly(s[1..]); }
  }

  lemma {:induction false} ZerosThen(front: seq<nat>, s: seq<nat>)
    requires forall i :: 0 <= i < |front| ==> front[i] == 0
    requires s == [] || s[0] != 0
    ensures Zeros(front + s) == |front|
  {
    if front != [] {
      assert (front + s)[1..] == front[1..] + s;
      ZerosThen(front[1..], s);
    } else {
      assert front + s == s;
    }
  }
}
