/** The stake modifier: which blocks contribute its bits, and which modifier a stake kernel uses. */
module StakeModifier {
  import opened Arith
  import opened Wrappers

  const MODIFIER_INTERVAL: nat := 300
  const MODIFIER_INTERVAL_RATIO: nat := 5

  /** A block of the best chain, as far as the modifier is concerned. */
  datatype StakeBlock = StakeBlock(
    hash: nat, nTime: int, hashProof: nat, fProofOfStake: bool, nEntropyBit: nat,
    nStakeModifier: nat, fGenerated: bool)

  /** The hash of a proof hash and the previous modifier. */
  type Mix = (nat, nat) -> nat

  /** Proof-of-stake blocks are favoured by a factor of 2^32. */
  ghost function SelectionHash(mix: Mix, b: StakeBlock, prev: nat): nat {
    if b.fProofOfStake then mix(b.hashProof, prev) / 0x1_0000_0000 else mix(b.hashProof, prev)
  }

  function Section(n: nat): nat
    requires n < 64
  {
    MODIFIER_INTERVAL * 63 / (63 + (63 - n) * (MODIFIER_INTERVAL_RATIO - 1))
  }

  function Sections(n: nat): nat
    requires n <= 64
  {
    if n == 0 then 0 else Sections(n - 1) + Section(n - 1)
  }

  /** The 63rd part of the interval scaled by its place between a fifth and the whole: the largest number of seconds
      that fits. */
  lemma SectionIs(n: nat, k: nat)
    requires n < 64
    ensures Section(n) == k <==> k * (315 - 4 * n) <= 18_900 < (k + 1) * (315 - 4 * n)
  {
    var d: nat := 315 - 4 * n;
    DivModId(18_900, d);
    Distribute(d, k, 1);
    if d * k <= 18_900 < d * k + d { DivUnique(18_900, d, k); }
  }

  method GetStakeModifierSelectionInterval() returns (n: nat)
    ensures n == Sections(64)
  {
    n := 0;
    for nSection := 0 to 64
      invariant n == Sections(nSection)
    {
      n := n + Section(nSection);
    }
  }

  // ----- candidates in order

  ghost predicate Before(a: StakeBlock, b: StakeBlock) { a.nTime < b.nTime || (a.nTime == b.nTime && a.hash <= b.hash) }

  ghost predicate Sorted(s: seq<StakeBlock>) { forall i, j :: 0 <= i < j < |s| ==> Before(s[i], s[j]) }

  ghost predicate DistinctHashes(s: seq<StakeBlock>) { forall i, j :: 0 <= i < j < |s| ==> s[i].hash != s[j].hash }

  function Insert(s: seq<StakeBlock>, b: StakeBlock): seq<StakeBlock> {
    if s == [] || b.nTime < s[0].nTime || (b.nTime == s[0].nTime && b.hash <= s[0].hash) then [b] + s else [s[0]] + Insert(s[1..], b)
  }

  function Sort(s: seq<StakeBlock>): seq<StakeBlock> { if s == [] then [] else Insert(Sort(s[1..]), s[0]) }

  lemma {:induction false} InsertSorted(s: seq<StakeBlock>, b: StakeBlock)
    requires Sorted(s)
    ensures Sorted(Insert(s, b)) && multiset(Insert(s, b)) == multiset(s) + multiset{b}
  {
    if s != [] && !Before(b, s[0]) {
      InsertSorted(s[1..], b);
      assert s == [s[0]] + s[1..];
      var r := Insert(s[1..], b);
      forall i | 0 <= i < |r| ensures Before(s[0], r[i]) {
        assert r[i] in multiset(r);
        assert r[i] in s[1..] || r[i] == b;
      }
    }
  }

  lemma {:induction false} SortSorts(s: seq<StakeBlock>)
    ensures Sorted(Sort(s)) && multiset(Sort(s)) == multiset(s)
  {
    if s != [] {
      SortSorts(s[1..]);
      InsertSorted(Sort(s[1..]), s[0]);
      assert s == [s[0]] + s[1..];
    }
  }

  /** The blocks of the chain from the first one after which all are recent enough. */
  ghost predicate Recent(chain: seq<StakeBlock>, start: int, from: nat) {
    && from <= |chain| && (forall i :: from <= i < |chain| ==> chain[i].nTime >= start)
    && (from > 0 ==> chain[from - 1].nTime < start)
  }

  lemma OneEarlier(chain: seq<StakeBlock>, n: nat, found: seq<StakeBlock>)
    requires 0 < n <= |chain| && multiset(found) == multiset(chain[n..])
    ensures multiset(found + [chain[n - 1]]) == multiset(chain[n - 1..])
  {
    assert chain[n - 1..] == [chain[n - 1]] + chain[n..];
  }

  method Candidates(chain: seq<StakeBlock>, start: int) returns (sorted: seq<StakeBlock>, ghost from: nat)
    ensures Recent(chain, start, from) && Sorted(sorted) && multiset(sorted) == multiset(chain[from..])
  {
    var n := |chain|;
    var found: seq<StakeBlock> := [];
    while n > 0 && chain[n - 1].nTime >= start
      invariant 0 <= n <= |chain| && multiset(found) == multiset(chain[n..])
      invariant forall i :: n <= i < |chain| ==> chain[i].nTime >= start
    {
      OneEarlier(chain, n, found);
      found := found + [chain[n - 1]];
      n := n - 1;
    }
    SortSorts(found);
    return Sort(found), n;
  }

  // ----- one round

  ghost predicate Unselected(b: StakeBlock, selected: seq<StakeBlock>) { forall s <- selected :: s.hash != b.hash }

  /** Position k is the first of those with the selection hash of the block there. */
  ghost predicate FirstOfHash(mix: Mix, candidates: seq<StakeBlock>, selected: seq<StakeBlock>, prev: nat, k: nat) {
    k < |candidates| && forall j :: 0 <= j < k && Unselected(candidates[j], selected) ==>
      SelectionHash(mix, candidates[k], prev) < SelectionHash(mix, candidates[j], prev)
  }

  /** The choice of a round: the first with the least selection hash up to the stop time, or the earliest if there is nothing
      up to it. */
  ghost predicate Chosen(mix: Mix, candidates: seq<StakeBlock>, selected: seq<StakeBlock>, stop: int, prev: nat, x: StakeBlock) {
    && x in candidates && Unselected(x, selected)
    && if x.nTime <= stop then
         && (exists k :: 0 <= k < |candidates| && candidates[k] == x && FirstOfHash(mix, candidates, selected, prev, k))
         && forall y <- candidates :: Unselected(y, selected) && y.nTime <= stop ==> SelectionHash(mix, x, prev) <= SelectionHash(mix, y, prev)
       else
         forall y <- candidates :: Unselected(y, selected) ==> Before(x, y)
  }

  method SelectBlockFromCandidates(mix: Mix, candidates: seq<StakeBlock>, selected: seq<StakeBlock>, stop: int, prev: nat)
    returns (r: Option<StakeBlock>)
    requires Sorted(candidates)
    ensures r.None? <==> forall y <- candidates :: !Unselected(y, selected)
    ensures r.Some? ==> Chosen(mix, candidates, selected, stop, prev, r.value)
  {
    r := None;
    var hashBest := 0;
    var i := 0;
    ghost var k: nat := 0;
    while i < |candidates|
      invariant i <= |candidates|
      invariant r.None? ==> forall j :: 0 <= j < i ==> !Unselected(candidates[j], selected)
      invariant r.Some? ==> r.value in candidates[..i] && Unselected(r.value, selected) && hashBest == SelectionHash(mix, r.value, prev)
      invariant r.Some? ==> k < i && candidates[k] == r.value && FirstOfHash(mix, candidates, selected, prev, k)
      invariant r.Some? && r.value.nTime <= stop ==> forall j :: 0 <= j < i && Unselected(candidates[j], selected) ==>
        hashBest <= SelectionHash(mix, candidates[j], prev)
      invariant r.Some? && r.value.nTime > stop ==> forall j :: 0 <= j < |candidates| && Unselected(candidates[j], selected) ==>
        Before(r.value, candidates[j])
    {
      var item := candidates[i];
      assert candidates[..i + 1] == candidates[..i] + [item];
      if r.Some? && item.nTime > stop { break; }
      if !exists s <- selected :: s.hash == item.hash {
        var hashSelection := mix(item.hashProof, prev);
        if item.fProofOfStake { hashSelection := hashSelection / 0x1_0000_0000; }
        assert hashSelection == SelectionHash(mix, item, prev);
        if r.Some? && hashSelection < hashBest {
          assert forall j :: 0 <= j < i && Unselected(candidates[j], selected) ==> candidates[j].nTime <= stop;
          hashBest := hashSelection;
          r, k := Some(item), i;
        } else if r.None? {
          hashBest := hashSelection;
          r, k := Some(item), i;
        }
      }
      i := i + 1;
    }
    if r.Some? { assert r.value in candidates; }
  }

  // ----- all rounds

  function Sum(bits: seq<nat>): nat { if bits == [] then 0 else Sum(bits[..|bits| - 1]) + bits[|bits| - 1] * Pow2(|bits| - 1) }

  ghost predicate Bits(bits: seq<nat>) { forall i :: 0 <= i < |bits| ==> bits[i] <= 1 }

  lemma {:induction false} SumBound(bits: seq<nat>)
    requires Bits(bits)
    ensures Sum(bits) < Pow2(|bits|)
  {
    if bits != [] {
      SumBound(bits[..|bits| - 1]);
      MulLe(Pow2(|bits| - 1), bits[|bits| - 1], 1);
    }
  }

  lemma {:induction false} BitOfSum(bits: seq<nat>, r: nat)
    requires Bits(bits) && r < |bits|
    ensures Sum(bits) / Pow2(r) % 2 == bits[r]
  {
    hide Pow2;
    var n := |bits| - 1;
    var init, top := bits[..n], bits[n];
    SumBound(init);
    if r == n {
      DivUnique(Sum(bits), Pow2(r), top);
    } else {
      BitOfSum(init, r);
      TopBit(Sum(init), top, r, n);
    }
  }

  /** A higher bit does not disturb a lower one. */
  lemma TopBit(low: nat, top: nat, r: nat, n: nat)
    requires r < n
    ensures (low + top * Pow2(n)) / Pow2(r) % 2 == low / Pow2(r) % 2
  {
    hide Pow2;
    PowSplit(r, n);
    var k := top * Pow2(n - r - 1);
    Shuffle(top, Pow2(r), Pow2(n - r - 1));
    DivAddMultiple(low, Pow2(r), 2 * k);
    EvenAdd(low / Pow2(r), k);
  }

  lemma EvenAdd(q: nat, k: nat)
    ensures (q + 2 * k) % 2 == q % 2
  {}

  lemma {:induction false} PowSplit(r: nat, n: nat)
    requires r < n
    ensures Pow2(n) == 2 * (Pow2(r) * Pow2(n - r - 1))
    decreases n
  {
    if r < n - 1 {
      PowSplit(r, n - 1);
      Shuffle(2, Pow2(r), Pow2(n - r - 2));
    }
  }

  lemma Shuffle(a: nat, b: nat, c: nat)
    ensures a * (2 * (b * c)) == b * (2 * (a * c)) && a * (b * c) == b * (a * c)
  {}

  function EntropyBits(s: seq<StakeBlock>): (r: seq<nat>)
    ensures |r| == |s| && forall i :: 0 <= i < |s| ==> r[i] == s[i].nEntropyBit
  {
    seq(|s|, i requires 0 <= i < |s| => s[i].nEntropyBit)
  }

  function Hashes(s: seq<StakeBlock>): set<nat> { set b <- s :: b.hash }

  /** Fewer selected blocks than candidates leave a candidate. */
  lemma SomeUnselected(candidates: seq<StakeBlock>, selected: seq<StakeBlock>) returns (x: StakeBlock)
    requires DistinctHashes(candidates) && |selected| < |candidates|
    ensures x in candidates && Unselected(x, selected)
  {
    HashCount(candidates);
    HashBound(selected);
    var h := Extra(Hashes(candidates), Hashes(selected));
    x :| x in candidates && x.hash == h;
    forall s | s in selected ensures s.hash != h { assert s.hash in Hashes(selected); }
  }

  lemma Extra(a: set<nat>, b: set<nat>) returns (x: nat)
    requires |b| < |a|
    ensures x in a && x !in b
  {
    if a - b == {} {
      NothingElse(a, b);
      assert false;
    }
    x := Member(a - b);
  }

  lemma NothingElse(a: set<nat>, b: set<nat>)
    requires a - b == {}
    ensures |a| <= |b|
  {
    forall x | x in a ensures x in b { assert x !in a - b; }
    SubsetSize(a, b);
  }

  lemma {:induction false} HashCount(s: seq<StakeBlock>)
    requires DistinctHashes(s)
    ensures |Hashes(s)| == |s|
  {
    if s == [] {
      assert Hashes(s) == {};
    } else {
      var n := |s| - 1;
      HashCount(s[..n]);
      assert s == s[..n] + [s[n]];
      assert Hashes(s) == Hashes(s[..n]) + {s[n].hash};
      assert s[n].hash !in Hashes(s[..n]);
    }
  }

  lemma {:induction false} HashBound(s: seq<StakeBlock>)
    ensures |Hashes(s)| <= |s|
  {
    if s == [] {
      assert Hashes(s) == {};
    } else {
      var n := |s| - 1;
      HashBound(s[..n]);
      assert s == s[..n] + [s[n]];
      assert Hashes(s) == Hashes(s[..n]) + {s[n].hash};
    }
  }

  /** The blocks selected, one for each round. */
  ghost predicate Selection(mix: Mix, candidates: seq<StakeBlock>, start: int, prev: nat, selected: seq<StakeBlock>) {
    && |selected| <= 64 && DistinctHashes(selected)
    && forall r :: 0 <= r < |selected| ==> Chosen(mix, candidates, selected[..r], start + Sections(r + 1), prev, selected[r])
  }

  lemma {:induction false} SelectionNext(mix: Mix, candidates: seq<StakeBlock>, start: int, prev: nat, selected: seq<StakeBlock>, x: StakeBlock)
    requires Selection(mix, candidates, start, prev, selected) && |selected| < 64
    requires Chosen(mix, candidates, selected, start + Sections(|selected| + 1), prev, x)
    ensures Selection(mix, candidates, start, prev, selected + [x])
  {
    hide Chosen, Sections;
    var now := selected + [x];
    assert Unselected(x, selected) by { ChosenFacts(mix, candidates, selected, start + Sections(|selected| + 1), prev, x); }
    forall r | 0 <= r < |now| ensures Chosen(mix, candidates, now[..r], start + Sections(r + 1), prev, now[r]) {
      if r < |selected| { assert now[..r] == selected[..r]; } else { assert now[..r] == selected; }
    }
  }

  lemma ChosenFacts(mix: Mix, candidates: seq<StakeBlock>, selected: seq<StakeBlock>, stop: int, prev: nat, x: StakeBlock)
    requires Chosen(mix, candidates, selected, stop, prev, x)
    ensures Unselected(x, selected) && x in candidates
  {}

  /** Selects the blocks and collects their entropy bits; it never runs out of candidates. */
  method SelectAll(mix: Mix, candidates: seq<StakeBlock>, start: int, prev: nat)
    returns (ok: bool, nStakeModifierNew: nat, ghost selected: seq<StakeBlock>)
    requires Sorted(candidates) && DistinctHashes(candidates) && forall b <- candidates :: b.nEntropyBit <= 1
    ensures ok && |selected| == Min(64, |candidates|) && Selection(mix, candidates, start, prev, selected)
    ensures nStakeModifierNew < Pow2(|selected|)
    ensures forall r :: 0 <= r < |selected| ==> nStakeModifierNew / Pow2(r) % 2 == selected[r].nEntropyBit
  {
    hide Sorted, DistinctHashes, Selection, Chosen, Sum, Pow2, Section, Bits;
    nStakeModifierNew := 0;
    var chosen: seq<StakeBlock> := [];
    var nSelectionIntervalStop := start;
    var nRound := 0;
    SelectionStart(mix, candidates, start, prev);
    while nRound < 64 && nRound < |candidates|
      invariant nRound <= 64 && nRound <= |candidates| && |chosen| == nRound && Selection(mix, candidates, start, prev, chosen)
      invariant nSelectionIntervalStop == start + Sections(nRound)
      invariant nStakeModifierNew == Sum(EntropyBits(chosen)) && Bits(EntropyBits(chosen))
    {
      nSelectionIntervalStop := nSelectionIntervalStop + Section(nRound);
      var r := SelectBlockFromCandidates(mix, candidates, chosen, nSelectionIntervalStop, prev);
      ghost var w := SomeUnselected(candidates, chosen);
      if r.None? { assert false; }
      var x := r.value;
      ChosenFacts(mix, candidates, chosen, nSelectionIntervalStop, prev, x);
      SelectionNext(mix, candidates, start, prev, chosen, x);
      OneMoreBit(chosen, x);
      OneMoreSum(chosen, x);
      nStakeModifierNew := nStakeModifierNew + x.nEntropyBit * Pow2(nRound);
      chosen := chosen + [x];
      nRound := nRound + 1;
    }
    SumBound(EntropyBits(chosen));
    forall r | 0 <= r < |chosen| ensures nStakeModifierNew / Pow2(r) % 2 == chosen[r].nEntropyBit {
      BitOfSum(EntropyBits(chosen), r);
    }
    return true, nStakeModifierNew, chosen;
  }

  lemma SelectionStart(mix: Mix, candidates: seq<StakeBlock>, start: int, prev: nat)
    ensures Selection(mix, candidates, start, prev, []) && Sections(0) == 0
    ensures Sum(EntropyBits([])) == 0 && Bits(EntropyBits([]))
  {}

  lemma OneMoreBit(chosen: seq<StakeBlock>, x: StakeBlock)
    requires Bits(EntropyBits(chosen)) && x.nEntropyBit <= 1
    ensures Bits(EntropyBits(chosen + [x]))
  {}

  lemma OneMoreSum(chosen: seq<StakeBlock>, x: StakeBlock)
    ensures Sum(EntropyBits(chosen + [x])) == Sum(EntropyBits(chosen)) + x.nEntropyBit * Pow2(|chosen|)
  {
    hide Pow2, Sum;
    MoreBits(chosen, x);
    SumMore(EntropyBits(chosen), x.nEntropyBit);
  }

  lemma MoreBits(chosen: seq<StakeBlock>, x: StakeBlock)
    ensures EntropyBits(chosen + [x]) == EntropyBits(chosen) + [x.nEntropyBit]
  {}

  lemma SumMore(bits: seq<nat>, bit: nat)
    ensures Sum(bits + [bit]) == Sum(bits) + bit * Pow2(|bits|)
  {}

  // ----- the two callers

  /** Block i is the last one up to the tip that generated a modifier. */
  ghost predicate LastGenerated(chain: seq<StakeBlock>, i: nat) {
    i < |chain| && chain[i].fGenerated && forall j :: i < j < |chain| ==> !chain[j].fGenerated
  }

  method GetLastStakeModifier(chain: seq<StakeBlock>) returns (ok: bool, i: nat)
    requires chain != []
    ensures ok ==> LastGenerated(chain, i)
    ensures !ok ==> forall j :: 0 <= j < |chain| ==> !chain[j].fGenerated
  {
    i := |chain| - 1;
    while i > 0 && !chain[i].fGenerated
      invariant i < |chain| && forall j :: i < j < |chain| ==> !chain[j].fGenerated
    {
      i := i - 1;
    }
    return chain[i].fGenerated, i;
  }

  lemma SuffixDistinct(chain: seq<StakeBlock>, from: nat, sorted: seq<StakeBlock>)
    requires DistinctHashes(chain) && from <= |chain| && multiset(sorted) == multiset(chain[from..])
    ensures DistinctHashes(sorted) && |sorted| == |chain| - from && forall b <- sorted :: b in chain
  {
    var tail := chain[from..];
    assert |sorted| == |multiset(sorted)|;
    forall b | b in sorted ensures b in chain { assert b in multiset(sorted); assert b in tail; }
    HashCount(tail);
    assert Hashes(sorted) == Hashes(tail) by {
      forall b ensures b in sorted <==> b in tail { assert b in multiset(sorted) <==> b in multiset(tail); }
    }
    CountDistinct(sorted);
  }

  lemma {:induction false} CountDistinct(s: seq<StakeBlock>)
    requires |Hashes(s)| == |s|
    ensures DistinctHashes(s)
  {
    if s != [] {
      var n := |s| - 1;
      assert s == s[..n] + [s[n]];
      assert Hashes(s) == Hashes(s[..n]) + {s[n].hash};
      HashBound(s[..n]);
      assert s[n].hash !in Hashes(s[..n]);
      CountDistinct(s[..n]);
      forall i | 0 <= i < n ensures s[i].hash != s[n].hash { assert s[..n][i] in s[..n]; }
    }
  }

  /** The modifier after the chain's tip: the old one while its interval lasts, else one made of the entropy
      bits of the blocks selected round by round from the recent blocks. */
  method ComputeNextStakeModifier(mix: Mix, chain: seq<StakeBlock>)
    returns (ok: bool, nStakeModifier: nat, fGenerated: bool, ghost from: nat, ghost candidates: seq<StakeBlock>,
             ghost selected: seq<StakeBlock>)
    requires DistinctHashes(chain) && forall b <- chain :: b.nEntropyBit <= 1 && b.nTime >= 0
    ensures chain == [] ==> ok && nStakeModifier == 0 && fGenerated
    ensures chain != [] ==> (ok <==> exists i :: 0 <= i < |chain| && chain[i].fGenerated)
    ensures chain != [] && ok && !fGenerated ==> exists i: nat ::
      LastGenerated(chain, i) && nStakeModifier == chain[i].nStakeModifier
      && chain[i].nTime / 300 >= chain[|chain| - 1].nTime / 300
    ensures chain != [] && ok && fGenerated ==> exists i: nat ::
      var start := chain[|chain| - 1].nTime / 300 * 300 - Sections(64);
      && LastGenerated(chain, i) && chain[i].nTime / 300 < chain[|chain| - 1].nTime / 300
      && Recent(chain, start, from) && Sorted(candidates) && multiset(candidates) == multiset(chain[from..])
      && |selected| == Min(64, |candidates|) && Selection(mix, candidates, start, chain[i].nStakeModifier, selected)
    ensures chain != [] && ok && fGenerated ==>
      && nStakeModifier < Pow2(|selected|)
      && forall r :: 0 <= r < |selected| ==> nStakeModifier / Pow2(r) % 2 == selected[r].nEntropyBit
  {
    hide Sorted, DistinctHashes, Selection, Recent, Sections, Pow2;
    ok, nStakeModifier, fGenerated, from, candidates, selected := true, 0, true, 0, [], [];
    if chain == [] { return; }
    fGenerated := false;
    var found, last := GetLastStakeModifier(chain);
    if !found { ok := false; return; }
    nStakeModifier := chain[last].nStakeModifier;
    var tip := chain[|chain| - 1];
    if chain[last].nTime / MODIFIER_INTERVAL >= tip.nTime / MODIFIER_INTERVAL { return; }
    var nSelectionInterval := GetStakeModifierSelectionInterval();
    var nSelectionIntervalStart := tip.nTime / MODIFIER_INTERVAL * MODIFIER_INTERVAL - nSelectionInterval;
    var vSortedByTimestamp;
    vSortedByTimestamp, from := Candidates(chain, nSelectionIntervalStart);
    SuffixDistinct(chain, from, vSortedByTimestamp);
    candidates := vSortedByTimestamp;
    var nStakeModifierNew;
    ok, nStakeModifierNew, selected := SelectAll(mix, vSortedByTimestamp, nSelectionIntervalStart, nStakeModifier);
    nStakeModifier := nStakeModifierNew;
    fGenerated := true;
  }

  /** Block i is the first one after `from` that generated a modifier a selection interval later or more. */
  ghost predicate KernelBlock(chain: seq<StakeBlock>, from: nat, i: nat) {
    && from < i < |chain| && LateEnough(chain, from, i)
    && forall j :: from < j < i ==> !LateEnough(chain, from, j)
  }

  ghost predicate LateEnough(chain: seq<StakeBlock>, from: nat, j: nat)
    requires from < |chain| && j < |chain|
  {
    chain[j].fGenerated && chain[j].nTime >= chain[from].nTime + Sections(64)
  }

  /** The modifier for a kernel in block `from` of the best chain, if the chain reaches far enough. */
  method GetKernelStakeModifier(chain: seq<StakeBlock>, from: nat) returns (ok: bool, nStakeModifier: nat, height: nat, nTime: int)
    requires from < |chain|
    ensures ok ==> KernelBlock(chain, from, height) && nStakeModifier == chain[height].nStakeModifier && nTime == chain[height].nTime
    ensures !ok ==> forall j :: from < j < |chain| ==> !LateEnough(chain, from, j)
  {
    hide Sections;
    ok, nStakeModifier, height, nTime := false, 0, from, chain[from].nTime;
    var interval := GetStakeModifierSelectionInterval();
    IntervalPositive();
    var pindex := from;
    while nTime < chain[from].nTime + interval
      invariant from <= pindex < |chain|
      invariant nTime < chain[from].nTime + interval ==> forall j :: from < j <= pindex ==> !LateEnough(chain, from, j)
      invariant nTime >= chain[from].nTime + interval ==> KernelBlock(chain, from, pindex) && height == pindex && nTime == chain[pindex].nTime
      decreases |chain| - pindex
    {
      if pindex == |chain| - 1 { return; }
      pindex := pindex + 1;
      if chain[pindex].fGenerated {
        height := pindex;
        nTime := chain[pindex].nTime;
      }
    }
    return true, chain[pindex].nStakeModifier, height, nTime;
  }

  lemma IntervalPositive()
    ensures Sections(64) > 0
  {}
}
