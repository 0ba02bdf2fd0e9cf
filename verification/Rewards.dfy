/** Block subsidies and the bound they put on the supply. */
module Rewards {
  import opened Arith
  import opened Ledger

  const HALVING_POINT: nat := 2
  const YEARLY_BLOCKCOUNT: nat := 423_400
  /** Blocks between two halvings. */
  const ERA: nat := HALVING_POINT * YEARLY_BLOCKCOUNT
  const PREMINE: int := 364_800_000 * COIN

  /** `x >> n` of a non-negative amount. */
  function Shr(x: nat, n: nat): nat {
    DivAtLeast(x, Pow2(n), 0);
    x / Pow2(n)
  }

  function Halvings(height: nat): nat { height / HALVING_POINT / YEARLY_BLOCKCOUNT }

  function ProofOfWorkSubsidy(height: nat): nat {
    if height >= 17000 then Shr(50 * COIN, Halvings(height))
    else if height == 1 then PREMINE
    else 0
  }

  /** `flash` is IsFlashStake(nTime); `disablePow` is pindexBest->nTime > nTimeV231. The factor 16 / 10 is integer 1. */
  function ProofOfStakeSubsidy(height: nat, flash: bool, disablePow: bool): nat {
    if height < 16240 then 0 else
      var base := if flash then Shr(150 * COIN, Halvings(height))
                  else if disablePow then Shr(100 * COIN, Halvings(height)) / 3
                  else Shr(100 * COIN, Halvings(height));
      if disablePow then base * (16 / 10) else base
  }

  function GetProofOfWorkReward(height: nat, fees: int): int { ProofOfWorkSubsidy(height) + fees }

  function GetProofOfStakeReward(height: nat, fees: int, flash: bool, disablePow: bool): int {
    ProofOfStakeSubsidy(height, flash, disablePow) + fees
  }

  /** The most either kind of block can mint at this height. */
  function MaxSubsidy(height: nat): nat {
    if height == 1 then PREMINE
    else if height >= 16240 then Shr(150 * COIN, Halvings(height))
    else 0
  }

  function SumMaxSubsidy(n: nat): nat { MaxSubsidy(n) + if n == 0 then 0 else SumMaxSubsidy(n - 1) }

  /** No accepted subsidy exceeds the maximum for its height. */
  lemma SubsidyAtMostMax(height: nat, flash: bool, disablePow: bool)
    ensures ProofOfWorkSubsidy(height) <= MaxSubsidy(height)
    ensures ProofOfStakeSubsidy(height, flash, disablePow) <= MaxSubsidy(height)
  {
    var p := Pow2(Halvings(height));
    DivMonotone(50 * COIN, 150 * COIN, p);
    DivMonotone(100 * COIN, 150 * COIN, p);
  }

  lemma HalvingsIsEra(height: nat)
    ensures Halvings(height) == height / ERA
  {
    var q := height / ERA;
    var r := height % ERA;
    assert height == ERA * q + r && 0 <= r < ERA;
    assert height / 2 == YEARLY_BLOCKCOUNT * q + r / 2;
  }

  lemma ShrHalf(x: nat, n: nat)
    ensures Shr(x, n + 1) == Shr(x, n) / 2
  {
    var p, q := Pow2(n), Shr(x, n);
    DivModId(x, p);
    var k := q / 2;
    assert (2 * p) * k == p * (2 * k);
    assert p * (q - 2 * k) <= p by { MulLe(p, q - 2 * k, 1); }
    assert p * q == p * (2 * k) + p * (q - 2 * k) by { Distribute(p, 2 * k, q - 2 * k); }
    assert p * (q - 2 * k) >= 0;
    DivUnique(x, 2 * p, k);
  }

  lemma NextHalving(height: nat)
    ensures Halvings(height + 846_800) == Halvings(height) + 1
  {
    HalvingsIsEra(height);
    HalvingsIsEra(height + ERA);
  }

  /** Nothing below height 16240; then 150 coins in the flash hours and 100 outside, of which a third is left once proof of
      work is over; half of it after every 846,800 blocks. */
  lemma StakeSubsidy(height: nat, flash: bool, disablePow: bool)
    ensures height < 16_240 ==> ProofOfStakeSubsidy(height, flash, disablePow) == 0
    ensures 16_240 <= height < 846_800 ==>
      ProofOfStakeSubsidy(height, flash, disablePow) == if flash then 15_000_000_000 else if disablePow then 3_333_333_333 else 10_000_000_000
    ensures 16_240 <= height ==>
      ProofOfStakeSubsidy(height + 846_800, flash, disablePow) == ProofOfStakeSubsidy(height, flash, disablePow) / 2
  {
    if height < 846_800 { FirstEra(height); }
    NextHalving(height);
    hide Shr, Halvings;
    ShrHalf(150 * COIN, Halvings(height));
    ShrHalf(100 * COIN, Halvings(height));
    ThirdOfHalf(Shr(100 * COIN, Halvings(height)));
  }

  /** The premine at height 1, 50 coins from height 17000 on, half of it after every 846,800 blocks, nothing otherwise. */
  lemma WorkSubsidy(height: nat)
    ensures height < 17_000 ==> ProofOfWorkSubsidy(height) == if height == 1 then 36_480_000_000_000_000 else 0
    ensures 17_000 <= height < 846_800 ==> ProofOfWorkSubsidy(height) == 5_000_000_000
    ensures 17_000 <= height ==> ProofOfWorkSubsidy(height + 846_800) == ProofOfWorkSubsidy(height) / 2
  {
    if height < 846_800 { FirstEra(height); }
    NextHalving(height);
    hide Shr, Halvings;
    ShrHalf(50 * COIN, Halvings(height));
  }

  lemma FirstEra(height: nat)
    requires height < 846_800
    ensures Halvings(height) == 0 && forall x: nat :: Shr(x, 0) == x
  {
    HalvingsIsEra(height);
    forall x: nat ensures Shr(x, 0) == x { assert Pow2(0) == 1; }
  }

  lemma ThirdOfHalf(x: nat)
    ensures x / 2 / 3 == x / 3 / 2
  {}

  /** Sum of the era subsidies so far; what is left is worth at least two more eras of the current one. */
  function EraSum(x: nat, eras: nat): nat { if eras == 0 then 0 else EraSum(x, eras - 1) + Shr(x, eras - 1) }

  lemma {:induction false} EraSumBound(x: nat, eras: nat)
    ensures EraSum(x, eras) + 2 * Shr(x, eras) <= 2 * x
  {
    if eras == 0 {
      assert Shr(x, 0) == x;
    } else {
      EraSumBound(x, eras - 1);
      ShrHalf(x, eras - 1);
    }
  }

  /** The premine, and the subsidies of the full and the current era up to height n. */
  function Due(n: nat): int {
    PREMINE + ERA * EraSum(150 * COIN, n / ERA) + (n % ERA + 1) * Shr(150 * COIN, n / ERA)
  }

  lemma DueStart()
    ensures Due(0) >= PREMINE
  {}

  lemma DueNext(n: nat)
    requires n > 0
    ensures Due(n) == Due(n - 1) + Shr(150 * COIN, n / ERA)
  {
    hide Shr;
    if n % ERA == 0 {
      NextEra(n);
    } else {
      SameEra(n);
      Distribute(Shr(150 * COIN, n / ERA), n % ERA, 1);
    }
  }

  lemma {:induction false} SumWithinEra(n: nat)
    ensures PREMINE <= Due(n) && SumMaxSubsidy(n) <= Due(n)
  {
    hide Shr, Due, Halvings;
    DueStart();
    if n > 0 {
      SumWithinEra(n - 1);
      HalvingsIsEra(n);
      DueNext(n);
    }
  }

  lemma NextEra(n: nat)
    requires n > 0 && n % ERA == 0
    ensures (n - 1) / ERA == n / ERA - 1 && (n - 1) % ERA == ERA - 1
  {}

  lemma SameEra(n: nat)
    requires n > 0 && n % ERA != 0
    ensures (n - 1) / ERA == n / ERA && (n - 1) % ERA == n % ERA - 1
  {}

  /** Whatever blocks a chain holds up to height n, their subsidies stay below the premine plus two full eras. */
  lemma SupplyCap(n: nat)
    ensures SumMaxSubsidy(n) <= PREMINE + 2 * ERA * (150 * COIN)
  {
    var x: nat := 150 * COIN;
    var s := Shr(x, n / ERA);
    SumWithinEra(n);
    EraSumBound(x, n / ERA);
    CapArith(n % ERA + 1, s, EraSum(x, n / ERA), x);
  }

  lemma CapArith(r: nat, s: nat, sum: nat, x: nat)
    requires r <= ERA && sum + 2 * s <= 2 * x
    ensures ERA * sum + r * s <= 2 * ERA * x
  {
    assert r * s <= ERA * s by { MulLe(s, r, ERA); }
  }
}
