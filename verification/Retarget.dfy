/** The target of the next block: an exponential moving average toward the target spacing. */
module Retarget {
  import opened Arith
  import opened Digits
  import opened Compact

  /** Proof of work, proof of stake with its present target spacing, and proof of stake in the flash hours. */
  datatype Kind = Work | Stake(spacing: nat) | Flash {
    predicate Valid() { Stake? ==> spacing == 120 || spacing == 360 }

    function TargetSpacing(): nat { match this case Work => 120 case Stake(n) => n case Flash => 60 }

    function Timespan(): nat { match this case Work => 60 * 60 case Stake(_) => 2 * 60 * 60 case Flash => 10 * 60 }

    /** ~uint256(0) >> 20 or >> 10. */
    function Limit(): nat { if Work? then Arith.Pow2(236) - 1 else Arith.Pow2(246) - 1 }

    function Interval(): nat
      requires Valid()
    {
      Timespan() / TargetSpacing()
    }

    function Numerator(nActualSpacing: int): int
      requires Valid()
    {
      (Interval() - 1) * TargetSpacing() + nActualSpacing + nActualSpacing
    }

    function Denominator(): nat
      requires Valid()
    {
      (Interval() + 1) * TargetSpacing()
    }
  }

  /** Division that rounds toward zero. */
  function DivTrunc(a: int, d: nat): int
    requires d > 0
  {
    if a >= 0 then a / d else -((-a) / d)
  }

  /** Remainder with the sign of the dividend. */
  function RemTrunc(a: int, d: nat): int
    requires d > 0
  {
    if a >= 0 then a % d else -((-a) % d)
  }

  lemma Constants(k: Kind)
    requires k.Valid()
    ensures k.Denominator() == k.Numerator(k.TargetSpacing()) > 0
    ensures k.Stake? ==> forall s :: s < 3600 ==> k.Numerator(s) < 2 * k.Denominator()
    ensures k.Limit() > 0
  {
    hide Kind.Limit, Arith.Pow2;
    Intervals(k);
    LimitOk(k);
  }

  lemma Intervals(k: Kind)
    requires k.Valid()
    ensures k.Interval() == match k case Work => 30 case Stake(n) => (if n == 120 then 60 else 20) case Flash => 10
  {
    hide Arith.Pow2;
  }

  const WORK_LIMIT: nat := 0xFFF_FFFF_FFFF_FFFF_FFFF_FFFF_FFFF_FFFF_FFFF_FFFF_FFFF_FFFF_FFFF_FFFF_FFFF
  const STAKE_LIMIT: nat := 0x3F_FFFF_FFFF_FFFF_FFFF_FFFF_FFFF_FFFF_FFFF_FFFF_FFFF_FFFF_FFFF_FFFF_FFFF_FFFF

  lemma Sixteen(n: nat)
    ensures Arith.Pow2(n + 16) == 0x1_0000 * Arith.Pow2(n)
  {
    Four(n);
    Four(n + 4);
    Four(n + 8);
    Four(n + 12);
  }

  lemma Four(n: nat)
    ensures Arith.Pow2(n + 4) == 16 * Arith.Pow2(n)
  {
    assert Arith.Pow2(n + 1) == 2 * Arith.Pow2(n);
    assert Arith.Pow2(n + 2) == 2 * Arith.Pow2(n + 1);
    assert Arith.Pow2(n + 3) == 2 * Arith.Pow2(n + 2);
  }

  lemma {:induction false} SixteenTimes(n: nat, m: nat, x: nat)
    requires Arith.Pow2(n) == x
    ensures Arith.Pow2(n + 16 * m) == Shifted(x, m)
    decreases m
  {
    hide Arith.Pow2;
    if m > 0 {
      Sixteen(n);
      SixteenTimes(n + 16, m - 1, 0x1_0000 * x);
    }
  }

  function Shifted(x: nat, m: nat): nat
    decreases m
  {
    if m == 0 then x else Shifted(0x1_0000 * x, m - 1)
  }

  /** 236 and 246 bits, all set. */
  lemma LimitIs(k: Kind)
    ensures k.Limit() == if k.Work? then WORK_LIMIT else STAKE_LIMIT
  {
    SixteenTimes(12, 14, 0x1000);
    SixteenTimes(6, 15, 0x40);
    assert Arith.Pow2(6) == 0x40 && Arith.Pow2(12) == 0x1000;
    assert Shifted(0x1000, 14) == WORK_LIMIT + 1;
    assert Shifted(0x40, 15) == STAKE_LIMIT + 1;
  }

  lemma LimitOk(k: Kind)
    ensures k.Limit() > 0
  {
    LimitPositive(236);
    LimitPositive(246);
  }

  lemma LimitPositive(n: nat)
    requires n > 0
    ensures Arith.Pow2(n) - 1 > 0
  {
    assert Arith.Pow2(n) == 2 * Arith.Pow2(n - 1);
  }

  /** The new target before it is made compact. */
  function NextTarget(k: Kind, x: int, nActualSpacing: int): nat
    requires k.Valid()
  {
    Constants(k);
    var y := DivTrunc(x * k.Numerator(nActualSpacing), k.Denominator());
    if y <= 0 || y > k.Limit() then k.Limit() else y
  }

  function NextBits(k: Kind, nBits: nat, nActualSpacing: int): nat
    requires k.Valid()
  {
    GetCompact(NextTarget(k, SetCompact(nBits), nActualSpacing))
  }

  /** The adjustment both versions of the rule end with. */
  method Adjust(k: Kind, nBits: nat, nActualSpacing: int) returns (bits: nat)
    requires k.Valid()
    ensures bits == NextBits(k, nBits, nActualSpacing)
  {
    hide SetCompact, GetCompact, Arith.Pow2;
    Constants(k);
    var bnNew := SetCompact(nBits);
    bnNew := bnNew * ((k.Interval() - 1) * k.TargetSpacing() + nActualSpacing + nActualSpacing);
    bnNew := DivTrunc(bnNew, k.Denominator());
    if bnNew <= 0 || bnNew > k.Limit() { bnNew := k.Limit(); }
    bits := GetCompact(bnNew);
  }

  /** What the kinds of block multiply and divide by, and their limits. */
  lemma Numbers(k: Kind, s: int)
    requires k.Valid()
    ensures k.Work? ==> k.Numerator(s) == 3480 + 2 * s && k.Denominator() == 3720 && k.Limit() == WORK_LIMIT
    ensures k.Flash? ==> k.Numerator(s) == 540 + 2 * s && k.Denominator() == 660 && k.Limit() == STAKE_LIMIT
    ensures k == Stake(120) ==> k.Numerator(s) == 7080 + 2 * s && k.Denominator() == 7320 && k.Limit() == STAKE_LIMIT
    ensures k == Stake(360) ==> k.Numerator(s) == 6840 + 2 * s && k.Denominator() == 7560 && k.Limit() == STAKE_LIMIT
  {
    hide Kind.Limit, Arith.Pow2;
    Intervals(k);
    LimitIs(k);
  }

  /** The target is multiplied and divided, and replaced by the limit if it is not positive or beyond it. Rounding down instead
      of toward zero would make no difference. */
  lemma TargetByFloor(k: Kind, x: int, s: int, q: int)
    requires k.Valid()
    requires k.Denominator() * q <= x * k.Numerator(s) < k.Denominator() * q + k.Denominator()
    ensures NextTarget(k, x, s) == if q <= 0 || q > k.Limit() then k.Limit() else q
  {
    hide Kind.Limit, Arith.Pow2, Kind.Numerator, Kind.Denominator;
    Constants(k);
    Quotient(k, x, s);
    DivUnique(x * k.Numerator(s), k.Denominator(), q);
    if q >= 1 { MulLe(k.Denominator(), 1, q); } else { MulLe(k.Denominator(), q, 0); }
  }

  /** The target a node reads from the new bits. */
  function Target(k: Kind, nBits: nat, nActualSpacing: int): int
    requires k.Valid()
  {
    SetCompact(NextBits(k, nBits, nActualSpacing))
  }

  lemma TargetIs(k: Kind, nBits: nat, s: int)
    requires k.Valid()
    ensures NextTarget(k, SetCompact(nBits), s) > 0
    ensures Target(k, nBits, s) == Trunc(NextTarget(k, SetCompact(nBits), s))
  {
    Constants(k);
    CompactReadsBack(NextTarget(k, SetCompact(nBits), s));
  }

  /** The quotient is zero or less, and the limit takes its place. */
  predicate Vanishes(k: Kind, x: int, s: int)
    requires k.Valid()
  {
    x * k.Numerator(s) < k.Denominator()
  }

  lemma Quotient(k: Kind, x: int, s: int)
    requires k.Valid()
    ensures k.Denominator() > 0
    ensures var y := DivTrunc(x * k.Numerator(s), k.Denominator());
      (y <= 0 <==> Vanishes(k, x, s)) && (!Vanishes(k, x, s) ==> y == x * k.Numerator(s) / k.Denominator())
  {
    Constants(k);
    QuotientSign(x * k.Numerator(s), k.Denominator());
  }

  lemma QuotientSign(a: int, d: nat)
    requires d > 0
    ensures DivTrunc(a, d) <= 0 <==> a < d
  {
    if a >= d {
      DivAtLeast(a, d, 1);
    } else if a >= 0 {
      DivUnique(a, d, 0);
    } else {
      DivAtLeast(-a, d, 0);
    }
  }

  /** Whatever the bits and the spacing were, the next target is positive and within the limit. */
  lemma InLimit(k: Kind, nBits: nat, s: int)
    requires k.Valid()
    ensures 0 < Target(k, nBits, s) <= k.Limit()
  {
    Constants(k);
    TargetIs(k, nBits, s);
    TruncError(NextTarget(k, SetCompact(nBits), s));
  }

  /** On-target spacing keeps canonical bits within the limit unchanged. */
  lemma OnTarget(k: Kind, nBits: nat)
    requires k.Valid() && 0 < SetCompact(nBits) <= k.Limit() && GetCompact(SetCompact(nBits)) == nBits
    ensures NextBits(k, nBits, k.TargetSpacing()) == nBits
  {
    Constants(k);
    var x, d := SetCompact(nBits), k.Denominator();
    MulLe(d, 1, x);
    DivUnique(x * d, d, x);
  }

  /** The quotient vanishes, or it reaches the limit as far as compact bits can tell. */
  predicate FillsLimit(k: Kind, x: int, s: int)
    requires k.Valid()
  {
    Constants(k);
    Vanishes(k, x, s) || x * k.Numerator(s) / k.Denominator() >= Trunc(k.Limit())
  }

  lemma FillsExactly(k: Kind, nBits: nat, s: int)
    requires k.Valid()
    ensures Target(k, nBits, s) == Trunc(k.Limit()) <==> FillsLimit(k, SetCompact(nBits), s)
  {
    hide SetCompact, GetCompact, Trunc;
    Constants(k);
    TargetIs(k, nBits, s);
    Quotient(k, SetCompact(nBits), s);
    var y, limit := NextTarget(k, SetCompact(nBits), s), k.Limit();
    TruncError(y);
    TruncError(limit);
    TruncFixed(limit);
    if y >= Trunc(limit) {
      TruncMonotone(Trunc(limit), y);
      TruncMonotone(y, limit);
    }
  }

  /** A longer spacing never makes the next block harder, unless the shorter one makes the target vanish
      and the longer one does not give the limit as well. */
  lemma Monotone(k: Kind, nBits: nat, s: int, t: int)
    requires k.Valid() && SetCompact(nBits) > 0 && s <= t
    ensures Target(k, nBits, s) <= Target(k, nBits, t)
      <==> !Vanishes(k, SetCompact(nBits), s) || FillsLimit(k, SetCompact(nBits), t)
  {
    hide SetCompact, GetCompact, Trunc, FillsLimit;
    Constants(k);
    FillsExactly(k, nBits, t);
    var x, d := SetCompact(nBits), k.Denominator();
    TargetIs(k, nBits, s);
    TargetIs(k, nBits, t);
    Quotient(k, x, s);
    Quotient(k, x, t);
    if Vanishes(k, x, s) {
      TruncMonotone(NextTarget(k, x, t), k.Limit());
    } else {
      MulLe(x, k.Numerator(s), k.Numerator(t));
      DivMonotone(x * k.Numerator(s), x * k.Numerator(t), d);
      TruncMonotone(NextTarget(k, x, s), NextTarget(k, x, t));
    }
  }

  /** Outside the flash hours one step of a stake target stays below its double, unless it makes the target vanish. */
  lemma LessThanDouble(k: Kind, nBits: nat, s: int)
    requires k.Valid() && k.Stake? && SetCompact(nBits) > 0 && s < 3600
    ensures Target(k, nBits, s) < 2 * SetCompact(nBits)
      <==> !Vanishes(k, SetCompact(nBits), s) || Trunc(k.Limit()) < 2 * SetCompact(nBits)
  {
    hide SetCompact, GetCompact, Trunc;
    Constants(k);
    var x, d := SetCompact(nBits), k.Denominator();
    TargetIs(k, nBits, s);
    Quotient(k, x, s);
    if !Vanishes(k, x, s) {
      TruncError(NextTarget(k, x, s));
      HalfBound(x, k.Numerator(s), d);
    }
  }

  lemma HalfBound(x: nat, n: int, d: nat)
    requires x > 0 && d > 0 && n < 2 * d && x * n >= d
    ensures x * n / d < 2 * x
  {
    var y := x * n / d;
    DivModId(x * n, d);
    MulLe(x, n + 1, 2 * d);
    Distribute(x, n, 1);
    assert d * (2 * x) == x * (2 * d);
    if y >= 2 * x { MulLe(d, 2 * x, y); }
  }

  lemma SetCompactOne()
    ensures SetCompact(0x0101_0000) == 1
  {
    var p := CompactBytes(0x0101_0000);
    assert |p| == 1 && p[0] == 1;
    assert p[..0] == [] && Val(256, []) == 0;
  }

  lemma TruncSmall(x: nat)
    requires 0 < x < 128
    ensures Trunc(x) == x
  {
    SizeBounds(x);
    PowPositive(256, if Size(x) >= 2 then Size(x) - 2 else 0);
  }

  lemma {:induction false} Pow2AtLeast(n: nat)
    requires n >= 2
    ensures Arith.Pow2(n) >= 4
  {
    if n > 2 { Pow2AtLeast(n - 1); }
  }

  /** A target of 1 vanishes: two stake blocks at the same time make the next block as easy as can be,
      while on-target spacing leaves it at 1. */
  lemma SmallestTargetVanishes()
    ensures var k := Stake(360);
      k.Valid() && Target(k, 0x0101_0000, 0) > 2 * SetCompact(0x0101_0000)
      && Target(k, 0x0101_0000, 0) > Target(k, 0x0101_0000, 360)
  {
    hide Trunc, Size, GetCompact, CompactBytes, Arith.Pow2;
    var k, c := Stake(360), 0x0101_0000;
    SetCompactOne();
    assert k.Interval() == 20 && k.Numerator(0) == 6840 && k.Denominator() == 7560 && k.Numerator(360) == 7560;
    Quotient(k, 1, 0);
    Quotient(k, 1, 360);
    TargetIs(k, c, 0);
    TargetIs(k, c, 360);
    assert NextTarget(k, 1, 0) == k.Limit() && NextTarget(k, 1, 360) == 1 by { Pow2AtLeast(246); }
    TruncSmall(1);
    Pow2AtLeast(246);
    TruncError(k.Limit());
    LimitIsLarge(k.Limit());
  }

  lemma LimitIsLarge(x: nat)
    requires x >= 3
    ensures Trunc(x) >= 3
  {
    hide Trunc;
    TruncMonotone(3, x);
    TruncSmall(3);
  }
}
