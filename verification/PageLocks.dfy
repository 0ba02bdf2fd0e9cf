/** Locked memory pages: a counter per page stands for the ranges that need the page locked. */
module PageLocks {
  import opened Arith
  import opened Wrappers

  const ADDRESS_SPACE: nat := 0x1_0000_0000_0000_0000

  datatype Range = Range(base: nat, size: nat)

  /** The address is the start of a page. */
  predicate Aligned(pageSize: nat, page: int) { pageSize > 0 && page % pageSize == 0 }

  /** The page an address lies in: the address without the bits below the page size. */
  function PageOf(pageSize: nat, a: nat): (p: nat)
    requires pageSize > 0
    ensures Aligned(pageSize, p) && p <= a < p + pageSize
  {
    PageFacts(pageSize, a);
    a - a % pageSize
  }

  lemma PageFacts(pageSize: nat, a: nat)
    requires pageSize > 0
    ensures 0 <= a % pageSize < pageSize && a % pageSize <= a && Aligned(pageSize, a - a % pageSize)
  {
    DivModId(a, pageSize);
    DivAtLeast(a, pageSize, 0);
    MulLe(pageSize, 0, a / pageSize);
    DivUnique(pageSize * (a / pageSize), pageSize, a / pageSize);
    DivModId(pageSize * (a / pageSize), pageSize);
  }

  /** The range has a byte in the page. */
  predicate Overlaps(pageSize: nat, r: Range, page: nat) { r.base < page + pageSize && page < r.base + r.size && r.size > 0 }

  /** How many of the ranges need the page. */
  function Needed(pageSize: nat, live: seq<Range>, page: nat): nat {
    if live == [] then 0 else Needed(pageSize, live[..|live| - 1], page) + if Overlaps(pageSize, live[|live| - 1], page) then 1 else 0
  }

  lemma NeededMore(pageSize: nat, live: seq<Range>, r: Range, page: nat)
    ensures Needed(pageSize, live + [r], page) == Needed(pageSize, live, page) + if Overlaps(pageSize, r, page) then 1 else 0
  {
    assert (live + [r])[..|live|] == live;
  }

  lemma {:induction false} NeededLess(pageSize: nat, live: seq<Range>, i: nat, page: nat)
    requires i < |live|
    ensures Needed(pageSize, live, page) == Needed(pageSize, DropAt(live, i), page) + if Overlaps(pageSize, live[i], page) then 1 else 0
  {
    var n := |live| - 1;
    if i == n {
      assert DropAt(live, i) == live[..n];
    } else {
      NeededLess(pageSize, live[..n], i, page);
      assert DropAt(live, i)[..n - 1] == DropAt(live[..n], i);
    }
  }

  /** The pages from the first to the last address of a range are those it overlaps. */
  lemma OverlapsBetween(pageSize: nat, r: Range, page: nat)
    requires pageSize > 0 && r.size > 0 && Aligned(pageSize, page)
    ensures Overlaps(pageSize, r, page) <==> PageOf(pageSize, r.base) <= page <= PageOf(pageSize, r.base + r.size - 1)
  {
    var first, last := PageOf(pageSize, r.base), PageOf(pageSize, r.base + r.size - 1);
    if page < first { PagesApart(pageSize, page, first); }
    if last < page { PagesApart(pageSize, last, page); }
  }

  lemma PagesApart(pageSize: nat, p: nat, q: nat)
    requires pageSize > 0 && Aligned(pageSize, p) && Aligned(pageSize, q) && p < q
    ensures p + pageSize <= q
  {
    DivModId(p, pageSize);
    DivModId(q, pageSize);
    if q / pageSize <= p / pageSize {
      MulLe(pageSize, q / pageSize, p / pageSize);
    } else {
      MulLe(pageSize, p / pageSize + 1, q / pageSize);
      Distribute(pageSize, p / pageSize, 1);
    }
  }

  lemma NextPage(pageSize: nat, page: nat)
    requires pageSize > 0 && Aligned(pageSize, page)
    ensures Aligned(pageSize, page + pageSize)
  {
    DivModId(page, pageSize);
    Distribute(pageSize, page / pageSize, 1);
    DivUnique(page + pageSize, pageSize, page / pageSize + 1);
    DivModId(page + pageSize, pageSize);
  }

  /** The counters say how often each page is needed, and a page has one exactly while it is. */
  ghost predicate Counts(pageSize: nat, histogram: map<nat, int>, live: seq<Range>)
    requires pageSize > 0
  {
    && (forall p <- histogram :: Aligned(pageSize, p))
    && forall p: nat :: Aligned(pageSize, p) ==> CountIs(pageSize, histogram, live, p)
  }

  ghost predicate CountIs(pageSize: nat, histogram: map<nat, int>, live: seq<Range>, p: nat) {
    if p in histogram then histogram[p] == Needed(pageSize, live, p) > 0 else Needed(pageSize, live, p) == 0
  }

  /** Pages below `page` are counted for `after`, the others still for `before`. */
  ghost predicate PartWay(pageSize: nat, histogram: map<nat, int>, before: seq<Range>, after: seq<Range>, page: nat)
    requires pageSize > 0
  {
    && (forall p <- histogram :: Aligned(pageSize, p))
    && forall p: nat :: Aligned(pageSize, p) ==> CountIs(pageSize, histogram, if p < page then after else before, p)
  }

  /** The next page is at most one past the last, and short of the end of the address space. */
  lemma Advance(pageSize: nat, page: nat, endPage: nat)
    requires 0 < pageSize && Aligned(pageSize, page) && Aligned(pageSize, endPage) && page <= endPage && endPage + pageSize < ADDRESS_SPACE
    ensures (page + pageSize) % ADDRESS_SPACE == page + pageSize <= endPage + pageSize && Aligned(pageSize, page + pageSize)
    ensures page < endPage ==> page + pageSize <= endPage
  {
    NextPage(pageSize, page);
    if page < endPage { PagesApart(pageSize, page, endPage); }
  }

  class LockedPageManager {
    const pageSize: nat
    var histogram: map<nat, int>
    /** The pages the system was told to lock. */
    var locked: set<nat>
    /** The ranges locked and not yet unlocked. */
    ghost var live: seq<Range>

    ghost predicate Valid()
      reads this
    {
      && 0 < pageSize < ADDRESS_SPACE && Counts(pageSize, histogram, live) && locked == histogram.Keys
    }

    constructor (k: nat)
      requires k < 64
      ensures Valid() && pageSize == Pow2(k) && live == []
    {
      Pow2Below(k);
      pageSize := Pow2(k);
      histogram, locked, live := map[], {}, [];
    }

    /** Addresses wrap at the end of the address space; a range that leaves the last page alone never gets there. */
    method LockRange(p: nat, size: nat)
      requires Valid() && (size > 0 ==> p + size + pageSize <= ADDRESS_SPACE)
      modifies this
      ensures Valid() && live == old(live) + [Range(p, size)]
    {
      hide Aligned, Needed, PageOf, CountIs, Overlaps, Counts, PartWay;
      ghost var r, before := Range(p, size), live;
      ghost var after := before + [r];
      live := after;
      if size == 0 {
        SameCounts(pageSize, histogram, before, r);
        return;
      }
      var startPage := PageOf(pageSize, p);
      var endPage := PageOf(pageSize, p + size - 1);
      var page := startPage;
      StartLock(pageSize, histogram, before, r);
      while page <= endPage
        invariant startPage <= page <= endPage + pageSize && Aligned(pageSize, page) && live == after
        invariant PartWay(pageSize, histogram, before, after, page) && locked == histogram.Keys
        decreases endPage + pageSize - page
      {
        StepLock(pageSize, histogram, before, r, page);
        if page !in histogram {
          locked := locked + {page};
          histogram := histogram[page := 1];
        } else {
          histogram := histogram[page := histogram[page] + 1];
        }
        Advance(pageSize, page, endPage);
        page := (page + pageSize) % ADDRESS_SPACE;
      }
      EndLock(pageSize, histogram, before, r, page);
    }

    /** Undoes one LockRange of the same range. */
    method UnlockRange(p: nat, size: nat)
      requires Valid() && (size > 0 ==> p + size + pageSize <= ADDRESS_SPACE) && Range(p, size) in live
      modifies this
      ensures Valid() && exists i :: 0 <= i < |old(live)| && old(live)[i] == Range(p, size) && live == DropAt(old(live), i)
    {
      hide Aligned, Needed, PageOf, CountIs, Overlaps, DropAt, Counts, PartWay;
      ghost var r, before := Range(p, size), live;
      ghost var i :| 0 <= i < |before| && before[i] == r;
      ghost var after := DropAt(before, i);
      live := after;
      if size == 0 {
        SameCountsLess(pageSize, histogram, before, i);
        return;
      }
      var startPage := PageOf(pageSize, p);
      var endPage := PageOf(pageSize, p + size - 1);
      var page := startPage;
      StartUnlock(pageSize, histogram, before, i);
      while page <= endPage
        invariant startPage <= page <= endPage + pageSize && Aligned(pageSize, page) && live == after
        invariant PartWay(pageSize, histogram, before, after, page) && locked == histogram.Keys
        decreases endPage + pageSize - page
      {
        StepUnlock(pageSize, histogram, before, i, page);
        assert page in histogram;
        ghost var was := histogram;
        histogram := histogram[page := histogram[page] - 1];
        if histogram[page] == 0 {
          locked := locked - {page};
          histogram := histogram - {page};
          assert histogram == was - {page};
        }
        Advance(pageSize, page, endPage);
        page := (page + pageSize) % ADDRESS_SPACE;
      }
      EndUnlock(pageSize, histogram, before, i, page);
    }

    method GetLockedPageCount() returns (n: nat)
      requires Valid()
      ensures n == |locked|
    {
      n := |histogram.Keys|;
    }

    /** A page is locked exactly while some live range has a byte in it. */
    lemma LockedWhileNeeded(page: nat)
      requires Valid() && Aligned(pageSize, page)
      ensures page in locked <==> exists i :: 0 <= i < |live| && Overlaps(pageSize, live[i], page)
    {
      assert CountIs(pageSize, histogram, live, page);
      NeededBySome(pageSize, live, page);
    }
  }

  lemma Pow2Below(k: nat)
    requires k < 64
    ensures 0 < Pow2(k) < ADDRESS_SPACE
  {
    hide Pow2;
    PowOf64();
    Larger(k, 64);
  }

  lemma PowOf64()
    ensures Pow2(64) == ADDRESS_SPACE
  {
    PowOf4();
    hide Pow2;
    Square(4);
    Square(8);
    Square(16);
    Square(32);
  }

  lemma PowOf4()
    ensures Pow2(4) == 16
  {}

  lemma {:induction false} Larger(k: nat, n: nat)
    requires k < n
    ensures Pow2(k) < Pow2(n)
    decreases n
  {
    if k < n - 1 { Larger(k, n - 1); }
  }

  lemma Square(n: nat)
    ensures Pow2(2 * n) == Pow2(n) * Pow2(n)
  {
    hide Pow2;
    PowerSum(n, n);
  }

  lemma {:induction false} PowerSum(a: nat, b: nat)
    ensures Pow2(a + b) == Pow2(a) * Pow2(b)
  {
    if a > 0 { PowerSum(a - 1, b); }
  }

  lemma {:induction false} NeededBySome(pageSize: nat, live: seq<Range>, page: nat)
    ensures Needed(pageSize, live, page) > 0 <==> exists i :: 0 <= i < |live| && Overlaps(pageSize, live[i], page)
  {
    if live != [] {
      var init := live[..|live| - 1];
      NeededBySome(pageSize, init, page);
      if i :| 0 <= i < |init| && Overlaps(pageSize, init[i], page) { assert Overlaps(pageSize, live[i], page); }
      if i :| 0 <= i < |live| && Overlaps(pageSize, live[i], page) {
        assert i == |live| - 1 || Overlaps(pageSize, init[i], page);
      }
    }
  }

  // ----- one page at a time

  lemma SameCounts(pageSize: nat, m: map<nat, int>, before: seq<Range>, r: Range)
    requires pageSize > 0 && Counts(pageSize, m, before) && r.size == 0
    ensures Counts(pageSize, m, before + [r])
  {
    forall p: nat | Aligned(pageSize, p) ensures CountIs(pageSize, m, before + [r], p) {
      assert CountIs(pageSize, m, before, p);
      NeededMore(pageSize, before, r, p);
    }
  }

  lemma StartLock(pageSize: nat, m: map<nat, int>, before: seq<Range>, r: Range)
    requires pageSize > 0 && Counts(pageSize, m, before) && r.size > 0
    ensures PartWay(pageSize, m, before, before + [r], PageOf(pageSize, r.base))
  {
    forall p: nat | Aligned(pageSize, p)
      ensures CountIs(pageSize, m, if p < PageOf(pageSize, r.base) then before + [r] else before, p)
    {
      assert CountIs(pageSize, m, before, p);
      NeededMore(pageSize, before, r, p);
      OverlapsBetween(pageSize, r, p);
    }
  }

  lemma StepLock(pageSize: nat, m: map<nat, int>, before: seq<Range>, r: Range, page: nat)
    requires pageSize > 0 && r.size > 0 && Aligned(pageSize, page) && PartWay(pageSize, m, before, before + [r], page)
    requires PageOf(pageSize, r.base) <= page <= PageOf(pageSize, r.base + r.size - 1)
    ensures Aligned(pageSize, page + pageSize)
    ensures PartWay(pageSize, m[page := if page in m then m[page] + 1 else 1], before, before + [r], page + pageSize)
  {
    NextPage(pageSize, page);
    var m' := m[page := if page in m then m[page] + 1 else 1];
    forall p: nat | Aligned(pageSize, p)
      ensures CountIs(pageSize, m', if p < page + pageSize then before + [r] else before, p)
    {
      assert CountIs(pageSize, m, if p < page then before + [r] else before, p);
      if p > page { PagesApart(pageSize, page, p); }
      if p == page {
        NeededMore(pageSize, before, r, p);
        OverlapsBetween(pageSize, r, p);
      }
    }
  }

  lemma EndLock(pageSize: nat, m: map<nat, int>, before: seq<Range>, r: Range, page: nat)
    requires pageSize > 0 && r.size > 0 && PartWay(pageSize, m, before, before + [r], page)
    requires page > PageOf(pageSize, r.base + r.size - 1)
    ensures Counts(pageSize, m, before + [r])
  {
    forall p: nat | Aligned(pageSize, p) ensures CountIs(pageSize, m, before + [r], p) {
      assert CountIs(pageSize, m, if p < page then before + [r] else before, p);
      NeededMore(pageSize, before, r, p);
      OverlapsBetween(pageSize, r, p);
    }
  }

  lemma SameCountsLess(pageSize: nat, m: map<nat, int>, before: seq<Range>, i: nat)
    requires pageSize > 0 && Counts(pageSize, m, before) && i < |before| && before[i].size == 0
    ensures Counts(pageSize, m, DropAt(before, i))
  {
    forall p: nat | Aligned(pageSize, p) ensures CountIs(pageSize, m, DropAt(before, i), p) {
      assert CountIs(pageSize, m, before, p);
      NeededLess(pageSize, before, i, p);
    }
  }

  lemma StartUnlock(pageSize: nat, m: map<nat, int>, before: seq<Range>, i: nat)
    requires pageSize > 0 && Counts(pageSize, m, before) && i < |before| && before[i].size > 0
    ensures PartWay(pageSize, m, before, DropAt(before, i), PageOf(pageSize, before[i].base))
  {
    forall p: nat | Aligned(pageSize, p)
      ensures CountIs(pageSize, m, if p < PageOf(pageSize, before[i].base) then DropAt(before, i) else before, p)
    {
      assert CountIs(pageSize, m, before, p);
      NeededLess(pageSize, before, i, p);
      OverlapsBetween(pageSize, before[i], p);
    }
  }

  lemma StepUnlock(pageSize: nat, m: map<nat, int>, before: seq<Range>, i: nat, page: nat)
    requires pageSize > 0 && i < |before| && before[i].size > 0 && Aligned(pageSize, page)
    requires PartWay(pageSize, m, before, DropAt(before, i), page)
    requires PageOf(pageSize, before[i].base) <= page <= PageOf(pageSize, before[i].base + before[i].size - 1)
    ensures Aligned(pageSize, page + pageSize) && page in m
    ensures PartWay(pageSize, if m[page] == 1 then m - {page} else m[page := m[page] - 1], before, DropAt(before, i), page + pageSize)
  {
    NextPage(pageSize, page);
    OverlapsBetween(pageSize, before[i], page);
    NeededLess(pageSize, before, i, page);
    assert CountIs(pageSize, m, before, page);
    var m' := if m[page] == 1 then m - {page} else m[page := m[page] - 1];
    forall p: nat | Aligned(pageSize, p)
      ensures CountIs(pageSize, m', if p < page + pageSize then DropAt(before, i) else before, p)
    {
      assert CountIs(pageSize, m, if p < page then DropAt(before, i) else before, p);
      if p > page { PagesApart(pageSize, page, p); }
    }
  }

  lemma EndUnlock(pageSize: nat, m: map<nat, int>, before: seq<Range>, i: nat, page: nat)
    requires pageSize > 0 && i < |before| && before[i].size > 0 && PartWay(pageSize, m, before, DropAt(before, i), page)
    requires page > PageOf(pageSize, before[i].base + before[i].size - 1)
    ensures Counts(pageSize, m, DropAt(before, i))
  {
    forall p: nat | Aligned(pageSize, p) ensures CountIs(pageSize, m, DropAt(before, i), p) {
      assert CountIs(pageSize, m, if p < page then DropAt(before, i) else before, p);
      NeededLess(pageSize, before, i, p);
      OverlapsBetween(pageSize, before[i], p);
    }
  }
}
