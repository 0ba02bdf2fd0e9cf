/** Which earlier blocks the next target is computed from: the walks back along the branch, and the two versions of the rule. */
module Difficulty {
  import opened Compact
  import opened Retarget

  /** The fields of a block index entry that count here. A branch lists its entries by height, genesis first. */
  datatype Entry = Entry(isStake: bool, nTime: nat, nBits: nat)

  type Branch = seq<Entry>

  const FORK_V2: nat := 817_990
  const FORK_SAME_KIND: nat := 771_000
  const FORK_NEGATIVE: nat := 315_065

  /** The flash hours of a day, in UTC. */
  predicate IsFlashStake(nTime: nat) { nTime / 3600 % 24 in {15, 20, 1, 6} }

  /** The hours are those from one, six, fifteen and twenty o'clock, in seconds of the day. */
  lemma FlashHours(nTime: nat)
    ensures var t := nTime % 86_400;
      IsFlashStake(nTime) <==> 3_600 <= t < 7_200 || 21_600 <= t < 25_200 || 54_000 <= t < 57_600 || 72_000 <= t < 75_600
  {
    var d, t := nTime / 86_400, nTime % 86_400;
    assert nTime == 86_400 * d + t;
    assert nTime / 3600 == 24 * d + t / 3600;
  }

  /** k is the last entry up to i that is wanted, or genesis if there is none. */
  ghost predicate Latest(chain: Branch, i: nat, k: nat, want: Entry -> bool)
    requires i < |chain|
  {
    k <= i && (k == 0 || want(chain[k])) && forall j :: k < j <= i ==> !want(chain[j])
  }

  function BackTo(chain: Branch, i: nat, want: Entry -> bool): (k: nat)
    requires i < |chain|
    ensures Latest(chain, i, k, want)
  {
    if i == 0 || want(chain[i]) then i else BackTo(chain, i - 1, want)
  }

  function OfKind(fProofOfStake: bool): Entry -> bool { (e: Entry) => e.isStake == fProofOfStake }

  function InHours(fFlashStake: bool): Entry -> bool { (e: Entry) => IsFlashStake(e.nTime) == fFlashStake }

  function StakeInHours(fFlashStake: bool): Entry -> bool { (e: Entry) => e.isStake && IsFlashStake(e.nTime) == fFlashStake }

  /** Follows pprev to the last wanted entry. */
  method WalkBack(chain: Branch, i: nat, want: Entry -> bool) returns (k: nat)
    requires i < |chain|
    ensures k == BackTo(chain, i, want)
  {
    k := i;
    while k > 0 && !want(chain[k])
      invariant k <= i && BackTo(chain, k, want) == BackTo(chain, i, want)
    {
      k := k - 1;
    }
  }

  method GetLastBlockIndex(chain: Branch, i: nat, fProofOfStake: bool) returns (k: nat)
    requires i < |chain|
    ensures k == BackTo(chain, i, OfKind(fProofOfStake))
    ensures k <= i && (k == 0 || chain[k].isStake == fProofOfStake) && forall j :: k < j <= i ==> chain[j].isStake != fProofOfStake
  {
    k := WalkBack(chain, i, OfKind(fProofOfStake));
  }

  /** Where GetLastBlockIndex2 ends: from height 771000 on, at the last stake block of these hours; before, at the last
      stake block up to the last block of these hours. */
  function LastOfHours(chain: Branch, i: nat, fFlashStake: bool): (k: nat)
    requires i < |chain|
    ensures k <= i
    ensures i >= FORK_SAME_KIND ==> Latest(chain, i, k, StakeInHours(fFlashStake))
    ensures k > 0 ==> chain[k].isStake
  {
    if i >= FORK_SAME_KIND then BackTo(chain, i, StakeInHours(fFlashStake))
    else BackTo(chain, BackTo(chain, i, InHours(fFlashStake)), OfKind(true))
  }

  method GetLastBlockIndex2(chain: Branch, i: nat, fFlashStake: bool) returns (k: nat)
    requires i < |chain|
    ensures k == LastOfHours(chain, i, fFlashStake)
    ensures i >= 771_000 ==>
      && k <= i && (k == 0 || (chain[k].isStake && IsFlashStake(chain[k].nTime) == fFlashStake))
      && forall j :: k < j <= i ==> !(chain[j].isStake && IsFlashStake(chain[j].nTime) == fFlashStake)
    ensures i < 771_000 ==> exists m :: LastStakeUpTo(chain, i, fFlashStake, m, k)
  {
    if i >= FORK_SAME_KIND {
      k := WalkBack(chain, i, StakeInHours(fFlashStake));
    } else {
      k := WalkBack(chain, i, InHours(fFlashStake));
      ghost var m := k;
      k := WalkBack(chain, k, OfKind(true));
      assert LastStakeUpTo(chain, i, fFlashStake, m, k);
    }
  }

  /** m is the last block of these hours, and k the last stake block up to it. */
  ghost predicate LastStakeUpTo(chain: Branch, i: nat, fFlashStake: bool, m: nat, k: nat)
    requires i < |chain|
  {
    && k <= m <= i && (m == 0 || IsFlashStake(chain[m].nTime) == fFlashStake) && (k == 0 || chain[k].isStake)
    && (forall j :: m < j <= i ==> IsFlashStake(chain[j].nTime) != fFlashStake)
    && forall j :: k < j <= m ==> !chain[j].isStake
  }

  /** `late`: the best block is newer than nTimeV231. */
  function KindOf(fProofOfStake: bool, nBlockTime: nat, late: bool): (k: Kind)
    ensures k.Valid() && (k.Work? <==> !fProofOfStake)
  {
    if !fProofOfStake then Work else if IsFlashStake(nBlockTime) then Flash else Stake(if late then 120 else 360)
  }

  /** What the next target is computed with: a minute's spacing over ten minutes in the flash hours, two or six minutes over two
      hours for other stake blocks, two minutes over one hour for work. `q` is the product divided, rounded down. */
  lemma NextBitsBy(fProofOfStake: bool, nBlockTime: nat, late: bool, nBits: nat, s: int, q: int)
    requires var (n, d) := if !fProofOfStake then (3480 + 2 * s, 3720) else if IsFlashStake(nBlockTime) then (540 + 2 * s, 660)
                           else if late then (7080 + 2 * s, 7320) else (6840 + 2 * s, 7560);
      d * q <= SetCompact(nBits) * n < d * q + d
    ensures var limit := if fProofOfStake then STAKE_LIMIT else WORK_LIMIT;
      NextBits(KindOf(fProofOfStake, nBlockTime, late), nBits, s) == GetCompact(if q <= 0 || q > limit then limit else q)
  {
    hide SetCompact, GetCompact, NextTarget, Kind.Limit, Kind.Numerator, Kind.Denominator, IsFlashStake;
    var k := KindOf(fProofOfStake, nBlockTime, late);
    Numbers(k, s);
    TargetByFloor(k, SetCompact(nBits), s, q);
  }

  /** There are two earlier blocks of the kind above genesis to take the spacing from. */
  predicate HasTwo(chain: Branch, fProofOfStake: bool) {
    && chain != []
    && var prev := BackTo(chain, |chain| - 1, OfKind(fProofOfStake));
       prev > 0 && BackTo(chain, prev - 1, OfKind(fProofOfStake)) > 0
  }

  /** The block changes into or out of the flash hours. */
  predicate Flips(chain: Branch, fProofOfStake: bool, nBlockTime: nat)
    requires chain != []
  {
    fProofOfStake && IsFlashStake(nBlockTime) != IsFlashStake(chain[BackTo(chain, |chain| - 1, OfKind(fProofOfStake))].nTime)
  }

  /** Without two earlier blocks of the kind the limit is required. The first block after a change into or out of the flash
      hours starts from the last block of the other side, with spacing 0; otherwise the last two blocks of the kind count, and
      a negative spacing as the target spacing before block 315065. */
  ghost function RequiredV1(chain: Branch, fProofOfStake: bool, nBlockTime: nat, late: bool): nat {
    var k := KindOf(fProofOfStake, nBlockTime, late);
    if !HasTwo(chain, fProofOfStake) then GetCompact(k.Limit())
    else
      var prev := BackTo(chain, |chain| - 1, OfKind(fProofOfStake));
      var prevPrev := BackTo(chain, prev - 1, OfKind(fProofOfStake));
      var spacing := chain[prev].nTime - chain[prevPrev].nTime;
      if Flips(chain, fProofOfStake, nBlockTime) then
        NextBits(k, chain[LastOfHours(chain, prev, IsFlashStake(nBlockTime))].nBits, 0)
      else
        NextBits(k, chain[prev].nBits, if prev < 315_065 && spacing < 0 then k.TargetSpacing() else spacing)
  }

  /** Before block 817990. */
  method GetNextTargetRequiredV1(chain: Branch, fProofOfStake: bool, nBlockTime: nat, late: bool) returns (bits: nat)
    ensures bits == RequiredV1(chain, fProofOfStake, nBlockTime, late)
  {
    hide NextBits, GetCompact, Kind.Limit;
    var k := KindOf(fProofOfStake, nBlockTime, late);
    LimitOk(k);
    if chain == [] { return GetCompact(k.Limit()); }
    var pindexPrev := GetLastBlockIndex(chain, |chain| - 1, fProofOfStake);
    if pindexPrev == 0 { return GetCompact(k.Limit()); }
    var pindexPrevPrev := GetLastBlockIndex(chain, pindexPrev - 1, fProofOfStake);
    if pindexPrevPrev == 0 { return GetCompact(k.Limit()); }
    var nActualSpacing, nBits;
    if fProofOfStake && IsFlashStake(nBlockTime) != IsFlashStake(chain[pindexPrev].nTime) {
      var pPrev := GetLastBlockIndex2(chain, pindexPrev, IsFlashStake(nBlockTime));
      nActualSpacing, nBits := 0, chain[pPrev].nBits;
    } else {
      nActualSpacing, nBits := chain[pindexPrev].nTime - chain[pindexPrevPrev].nTime, chain[pindexPrev].nBits;
    }
    if pindexPrev < FORK_NEGATIVE && nActualSpacing < 0 { nActualSpacing := k.TargetSpacing(); }
    bits := Adjust(k, nBits, nActualSpacing);
  }

  /** The two blocks version 2 compares: the last two stake blocks of the hours of the new one, or the last two work blocks. */
  function Compared(chain: Branch, fProofOfStake: bool, nBlockTime: nat): (p: (nat, nat))
    requires chain != []
    ensures p.1 <= p.0 < |chain| && (p.1 == p.0 ==> p.0 == 0)
  {
    var prev := BackTo(chain, |chain| - 1, OfKind(fProofOfStake));
    var last := if fProofOfStake then LastOfHours(chain, prev, IsFlashStake(nBlockTime)) else prev;
    if last == 0 then (0, 0)
    else if fProofOfStake then (last, LastOfHours(chain, last - 1, IsFlashStake(nBlockTime)))
    else (last, BackTo(chain, last - 1, OfKind(false)))
  }

  /** The spacing of the two blocks, for stake blocks modulo one hour with its sign kept, adjusts the target of the later one. */
  ghost function RequiredV2(chain: Branch, fProofOfStake: bool, nBlockTime: nat, late: bool): nat
    requires chain != []
  {
    var (last, before) := Compared(chain, fProofOfStake, nBlockTime);
    var spacing := chain[last].nTime - chain[before].nTime;
    NextBits(KindOf(fProofOfStake, nBlockTime, late), chain[last].nBits, if fProofOfStake then RemTrunc(spacing, 3600) else spacing)
  }

  /** Since block 817990, with a first block to compare with above genesis. */
  method GetNextTargetRequiredV2(chain: Branch, fProofOfStake: bool, nBlockTime: nat, late: bool) returns (bits: nat)
    requires chain != [] && Compared(chain, fProofOfStake, nBlockTime).0 > 0
    ensures bits == RequiredV2(chain, fProofOfStake, nBlockTime, late)
  {
    hide NextBits, GetCompact, Kind.Limit, IsFlashStake, RemTrunc, BackTo, LastOfHours, LastStakeUpTo, KindOf;
    var k := KindOf(fProofOfStake, nBlockTime, late);
    var pindexPrev := GetLastBlockIndex(chain, |chain| - 1, fProofOfStake);
    var nActualSpacing, nBits;
    if fProofOfStake {
      var pPrevSame := GetLastBlockIndex2(chain, pindexPrev, IsFlashStake(nBlockTime));
      var pPrevPrevSame := GetLastBlockIndex2(chain, pPrevSame - 1, IsFlashStake(nBlockTime));
      nActualSpacing := RemTrunc(chain[pPrevSame].nTime - chain[pPrevPrevSame].nTime, 3600);
      nBits := chain[pPrevSame].nBits;
    } else {
      var pindexPrevPrev := GetLastBlockIndex(chain, pindexPrev - 1, false);
      nActualSpacing, nBits := chain[pindexPrev].nTime - chain[pindexPrevPrev].nTime, chain[pindexPrev].nBits;
    }
    bits := Adjust(k, nBits, nActualSpacing);
  }

  /** The bits required of the next block, in whichever version: the target they mean is positive and within the limit of
      its kind, whatever the branch holds; and a stake target outside the flash hours stays below its double in version 2
      unless the quotient vanishes. */
  method GetNextTargetRequired(chain: Branch, fProofOfStake: bool, nBlockTime: nat, late: bool) returns (bits: nat)
    requires chain != []
    requires |chain| - 1 >= FORK_V2 ==> Compared(chain, fProofOfStake, nBlockTime).0 > 0
    ensures bits == if |chain| - 1 < 817_990 then RequiredV1(chain, fProofOfStake, nBlockTime, late)
                    else RequiredV2(chain, fProofOfStake, nBlockTime, late)
    ensures 0 < SetCompact(bits) <= if fProofOfStake then STAKE_LIMIT else WORK_LIMIT
    ensures var k, (last, before) := KindOf(fProofOfStake, nBlockTime, late), Compared(chain, fProofOfStake, nBlockTime);
      var x := SetCompact(chain[last].nBits);
      |chain| - 1 >= FORK_V2 && k.Stake? && x > 0 && !Vanishes(k, x, RemTrunc(chain[last].nTime - chain[before].nTime, 3600)) ==>
        SetCompact(bits) < 2 * x
  {
    hide SetCompact, GetCompact, Kind.Limit, NextBits, BackTo, LastOfHours, Compared, Vanishes;
    var k := KindOf(fProofOfStake, nBlockTime, late);
    LimitIs(k);
    if |chain| - 1 < FORK_V2 {
      bits := GetNextTargetRequiredV1(chain, fProofOfStake, nBlockTime, late);
      LimitBits(k);
      NextInLimit(k);
    } else {
      bits := GetNextTargetRequiredV2(chain, fProofOfStake, nBlockTime, late);
      NextInLimit(k);
      var (last, before) := Compared(chain, fProofOfStake, nBlockTime);
      var s := RemTrunc(chain[last].nTime - chain[before].nTime, 3600);
      if k.Stake? && SetCompact(chain[last].nBits) > 0 && !Vanishes(k, SetCompact(chain[last].nBits), s) {
        RemSmall(chain[last].nTime - chain[before].nTime);
        Doubles(k, chain[last].nBits, s);
      }
    }
  }

  /** Less than an hour either way, on the side of the dividend, and whole hours away from it. */
  lemma RemSmall(a: int)
    ensures var r := RemTrunc(a, 3600); -3600 < r < 3600 && (r > 0 ==> a > 0) && (r < 0 ==> a < 0) && (a - r) % 3600 == 0
  {}

  lemma LimitBits(k: Kind)
    requires k.Valid()
    ensures 0 < SetCompact(GetCompact(k.Limit())) <= k.Limit()
  {
    hide SetCompact, GetCompact, Kind.Limit;
    LimitOk(k);
    CompactReadsBack(k.Limit());
    TruncError(k.Limit());
  }

  lemma NextInLimit(k: Kind)
    requires k.Valid()
    ensures forall nBits, s :: 0 < SetCompact(NextBits(k, nBits, s)) <= k.Limit()
  {
    hide SetCompact, GetCompact, Kind.Limit, NextBits;
    forall nBits, s ensures 0 < SetCompact(NextBits(k, nBits, s)) <= k.Limit() {
      InLimit(k, nBits, s);
      assert Target(k, nBits, s) == SetCompact(NextBits(k, nBits, s));
    }
  }

  lemma Doubles(k: Kind, nBits: nat, s: int)
    requires k.Valid() && k.Stake? && SetCompact(nBits) > 0 && s < 3600 && !Vanishes(k, SetCompact(nBits), s)
    ensures SetCompact(NextBits(k, nBits, s)) < 2 * SetCompact(nBits)
  {
    hide SetCompact, GetCompact, Kind.Limit, NextBits, Vanishes;
    LessThanDouble(k, nBits, s);
  }
}
