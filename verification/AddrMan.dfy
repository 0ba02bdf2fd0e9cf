/** The stochastic address manager: its tables are updated in place, entry by entry, and every
    operation keeps them consistent. */
module AddrMan {
  import opened Arith
  import opened Wrappers
  import opened AddrTable

  const TRIED_ENTRIES_INSPECT_ON_EVICT: nat := 4
  const HORIZON_DAYS: int := 30
  const RETRIES: int := 3
  const MAX_FAILURES: int := 10
  const MIN_FAIL_DAYS: int := 7
  const GETADDR_MAX_PCT: nat := 23
  const GETADDR_MAX: nat := 2500

  /** Bad enough to be deleted. */
  predicate IsTerrible(info: AddrInfo, nNow: int) {
    if info.nLastTry != 0 && info.nLastTry >= nNow - 60 then false
    else if info.nTime > nNow + 10 * 60 then true
    else if info.nTime == 0 || nNow - info.nTime > HORIZON_DAYS * 24 * 60 * 60 then true
    else if info.nLastSuccess == 0 && info.nAttempts >= RETRIES then true
    else nNow - info.nLastSuccess > MIN_FAIL_DAYS * 24 * 60 * 60 && info.nAttempts >= MAX_FAILURES
  }

  /** Tried within the last minute. */
  ghost predicate JustTried(info: AddrInfo, nNow: int) { info.nLastTry != 0 && nNow - info.nLastTry <= 60 }

  /** Seen within 30 days and not dated more than ten minutes ahead; fewer than three attempts or at least one success ever;
      fewer than ten attempts or a success within a week. */
  ghost predicate Healthy(info: AddrInfo, nNow: int) {
    && info.nTime != 0 && nNow - 2_592_000 <= info.nTime <= nNow + 600
    && (info.nAttempts < 3 || info.nLastSuccess != 0)
    && (info.nAttempts < 10 || nNow - 604_800 <= info.nLastSuccess)
  }

  /** Kept by ShrinkNew while there is something worse, and offered by GetAddr_. */
  ghost predicate Worthy(info: AddrInfo, nNow: int) { JustTried(info, nNow) || Healthy(info, nNow) }

  lemma TerribleExactly(info: AddrInfo, nNow: int)
    ensures IsTerrible(info, nNow) <==> !Worthy(info, nNow)
  {}

  predicate Least(s: set<int>, id: int) { id in s && forall x <- s :: id <= x }

  lemma {:induction false} HasLeast(s: set<int>) returns (id: int)
    requires s != {}
    ensures Least(s, id)
  {
    var a := Member(s);
    if s == {a} {
      id := a;
    } else {
      assert s - {a} != {};
      var r := HasLeast(s - {a});
      id := if r < a then r else a;
      forall x <- s ensures id <= x { assert x == a || x in s - {a}; }
    }
  }

  /** The position of `id` in the iteration order of an std::set. */
  function Rank(s: set<int>, id: int): nat { |set x <- s | x < id| }

  function SwapAt(s: seq<int>, a: nat, b: nat): seq<int>
    requires a < |s| && b < |s|
  {
    s[a := s[b]][b := s[a]]
  }

  /** The same distinct entries in some order. */
  ghost predicate Shuffled(was: seq<int>, s: seq<int>) { |s| == |was| && multiset(s) == multiset(was) && Distinct(s) }

  lemma ShuffledMember(was: seq<int>, s: seq<int>)
    requires Shuffled(was, s)
    ensures |s| == |was| && multiset(s) == multiset(was) && Distinct(s)
    ensures forall x :: x in s <==> x in was
  {
    forall x ensures x in s <==> x in was {
      assert x in multiset(s) <==> x in multiset(was);
    }
  }

  lemma OnlyThere(was: seq<int>, s: seq<int>, a: nat, b: nat)
    requires Shuffled(was, s) && a < |s| && b < |s|
    ensures s[a] == s[b] <==> a == b
  {}

  /** Entry e was tried least recently of those at the first |draws| positions, each of which came from the position drawn. */
  ghost predicate OldestInspected(m: map<int, AddrInfo>, s: seq<int>, draws: seq<nat>, e: nat) {
    && e < |draws| <= |s| && (forall j :: 0 <= j < |draws| ==> j <= draws[j] < |s|)
    && s[e] in m && forall j :: 0 <= j < |draws| ==>
         s[j] in m && m[s[e]].nLastSuccess <= m[s[j]].nLastSuccess - if j < e then 1 else 0
  }

  /** The draws of one call: in turn i a position from i on. */
  predicate DrawsOk(draws: seq<nat>, size: nat) {
    |draws| == Min(4, size) && forall j :: 0 <= j < |draws| ==> j <= draws[j] < size
  }

  /** The bucket after each entry drawn was exchanged with the one at the position of its turn. */
  function Reordered(s: seq<int>, draws: seq<nat>): (r: seq<int>)
    requires |draws| <= |s| && forall j :: 0 <= j < |draws| ==> draws[j] < |s|
    ensures |r| == |s|
  {
    if draws == [] then s else
      var n := |draws| - 1;
      SwapAt(Reordered(s, draws[..n]), draws[n], n)
  }

  /** Of a bucket of two entries with both draws 1, the second one tried less recently, that one is inspected first and then
      moved to the front; the position returned is 1, where by then the other one is. */
  lemma EvictsTheYounger(m: map<int, AddrInfo>, a: int, b: int)
    requires a in m && b in m && m[b].nLastSuccess < m[a].nLastSuccess
    ensures DrawsOk([1, 1], 2) && Reordered([a, b], [1, 1]) == [b, a]
    ensures OldestInspected(m, [b, a], [1, 1], 0) && forall e :: OldestInspected(m, [b, a], [1, 1], e) ==> e == 0
  {
    assert [1, 1][..1] == [1] && [1][..0] == [];
    assert Reordered([a, b], []) == [a, b] && Reordered([a, b], [1]) == [b, a];
  }

  lemma ReorderedStart(s: seq<int>, draws: seq<nat>)
    requires DrawsOk(draws, |s|)
    ensures Reordered(s, draws[..0]) == s
  {}

  lemma ReorderedNext(s: seq<int>, draws: seq<nat>, i: nat)
    requires DrawsOk(draws, |s|) && i < |draws|
    ensures Reordered(s, draws[..i + 1]) == SwapAt(Reordered(s, draws[..i]), draws[i], i)
    ensures draws[..i + 1] == draws[..i] + [draws[i]]
  {
    assert draws[..i + 1][..i] == draws[..i];
  }

  lemma ReorderedShuffled(h: Hashing, t: Table, k: nat, was: seq<int>, s: seq<int>, hole: Hole)
    requires Ok(h, t, hole) && k < TRIED_BUCKETS == |t.vvTried| && was == t.vvTried[k] && Shuffled(was, s)
    ensures Ok(h, t.(vvTried := t.vvTried[k := s]), hole)
  {
    hide Ok;
    TriedFacts(h, t, hole, k);
    ShuffledMember(was, s);
    ReorderedOk(h, t, k, s, hole);
  }

  /** Inspecting one more entry, drawn from position nPos and exchanged with the one at the next position. */
  lemma InspectNext(m: map<int, AddrInfo>, s: seq<int>, draws: seq<nat>, e: nat, nPos: nat)
    requires |draws| <= nPos < |s| && s[nPos] in m && (draws != [] ==> OldestInspected(m, s, draws, e))
    ensures var i, now := |draws|, SwapAt(s, nPos, |draws|);
      if draws == [] || m[s[nPos]].nLastSuccess < m[s[e]].nLastSuccess then OldestInspected(m, now, draws + [nPos], i)
      else OldestInspected(m, now, draws + [nPos], e) && now[e] == s[e]
    ensures SwapAt(s, nPos, |draws|)[|draws|] == s[nPos]
  {
    hide SwapAt;
    SwapIs(s, nPos, |draws|);
    var i, now := |draws|, SwapAt(s, nPos, |draws|);
    assert forall j :: 0 <= j < i ==> now[j] == s[j];
    assert now[i] == s[nPos];
  }

  lemma TriedFacts(h: Hashing, t: Table, hole: Hole, k: nat)
    requires Ok(h, t, hole) && k < TRIED_BUCKETS
    ensures |t.vvTried| == TRIED_BUCKETS && |t.vvTried[k]| <= BUCKET_SIZE && Shuffled(t.vvTried[k], t.vvTried[k])
    ensures forall x <- t.vvTried[k] :: x in t.mapInfo && x >= 0
  {
    assert TriedBucketOk(h, t, k);
    assert forall x <- t.vvTried[k] :: x in t.mapInfo && EntryOk(t, hole, x);
  }

  lemma SwapIs(s: seq<int>, a: nat, b: nat)
    requires a < |s| && b < |s|
    ensures SwapAt(s, a, b) == s[a := s[b]][b := s[a]]
  {}

  lemma SwapShuffles(was: seq<int>, s: seq<int>, a: nat, b: nat)
    requires Shuffled(was, s) && a < |s| && b < |s|
    ensures Shuffled(was, SwapAt(s, a, b))
  {
    assert multiset(SwapAt(s, a, b)) == multiset(s);
  }

  // ----- the moves MakeTried is made of

  lemma DropAtOnce(s: seq<int>, pos: nat, id: int)
    requires pos < |s| && Distinct(s) && id !in s
    ensures Distinct(DropAt(s, pos)) && Distinct(s[pos := id])
    ensures forall i :: i in DropAt(s, pos) <==> i != s[pos] && i in s
    ensures forall i :: i in s[pos := id] <==> i == id || i in DropAt(s, pos)
  {
    var d := DropAt(s, pos);
    forall i ensures i in d <==> i != s[pos] && i in s {
      if i != s[pos] && i in s {
        var n :| 0 <= n < |s| && s[n] == i;
        assert if n < pos then d[n] == i else d[n - 1] == i;
      }
    }
    forall i ensures i in s[pos := id] <==> i == id || i in d {
      if i in d {
        var n :| 0 <= n < |s| && n != pos && s[n] == i;
        assert s[pos := id][n] == i;
      } else if i == id {
        assert s[pos := id][pos] == i;
      }
    }
  }

  /** Where an evicted entry goes: its own new bucket, or the one the promoted entry came from. */
  function Refuge(h: Hashing, t: Table, old_id: int, nOrigin: nat): nat
    requires old_id in t.mapInfo && |t.vvNew| == NEW_BUCKETS
  {
    var b := NewBucket(h, t.nKey, t.mapInfo[old_id], t.mapInfo[old_id].source);
    if |t.vvNew[b]| < BUCKET_SIZE then b else nOrigin
  }

  /** `id`, in limbo, takes the place at `pos` in a full tried bucket. */
  function Replaced(h: Hashing, t: Table, id: int, k: nat, pos: nat, nOrigin: nat): Table
    requires id in t.mapInfo && k < |t.vvTried| && pos < |t.vvTried[k]| && t.vvTried[k][pos] in t.mapInfo
    requires |t.vvNew| == NEW_BUCKETS && nOrigin < NEW_BUCKETS
  {
    var e := t.vvTried[k][pos];
    var b := Refuge(h, t, e, nOrigin);
    var m := t.mapInfo[e := t.mapInfo[e].(fInTried := false, nRefCount := 1)];
    t.(mapInfo := m[id := m[id].(fInTried := true)],
       vvTried := t.vvTried[k := t.vvTried[k][pos := id]],
       vvNew := t.vvNew[b := t.vvNew[b] + {e}],
       nNew := t.nNew + 1)
  }

  lemma ReplacedOk(h: Hashing, t: Table, id: int, k: nat, pos: nat, nOrigin: nat)
    requires Ok(h, t, Limbo(id)) && id in t.mapInfo && t.mapInfo[id].nLastSuccess > 0
    requires k < |t.vvTried| && k == TriedBucket(h, t.nKey, t.mapInfo[id]) && pos < |t.vvTried[k]|
    requires nOrigin < NEW_BUCKETS && |t.vvNew[nOrigin]| < BUCKET_SIZE
    ensures t.vvTried[k][pos] in t.mapInfo && t.mapInfo[t.vvTried[k][pos]].fInTried && t.vvTried[k][pos] != id
    ensures Ok(h, Replaced(h, t, id, k, pos, nOrigin), NoHole)
  {
    hide RandomOk, AddrOk, EntriesOk, CountsOk;
    var s := t.vvTried[k];
    var e := s[pos];
    InTriedBucket(h, t, k, e);
    assert TriedBucketOk(h, t, k);
    DropAtOnce(s, pos, id);
    var b := Refuge(h, t, e, nOrigin);
    DemotedOk(h, t, e, k, DropAt(s, pos), b, Limbo(id));
    var t1 := Demoted(t, e, k, DropAt(s, pos), b);
    PromotedOk(h, t1, id, k, s[pos := id]);
    assert Promoted(t1, id, k, s[pos := id]) == Replaced(h, t, id, k, pos, nOrigin) by {
      assert t1.vvTried[k := s[pos := id]] == t.vvTried[k := s[pos := id]];
    }
  }

  // ----- what ShrinkNew picks

  /** `gone` is the least terrible id of the bucket. */
  ghost predicate FirstTerrible(m: map<int, AddrInfo>, bucket: set<int>, gone: int, nNow: int) {
    && gone in bucket && bucket <= m.Keys && !Worthy(m[gone], nNow)
    && forall x <- bucket :: x < gone ==> Worthy(m[x], nNow)
  }

  /** Nothing is terrible, and `gone` is the oldest of the entries whose positions were drawn. */
  ghost predicate OldestDrawn(m: map<int, AddrInfo>, bucket: set<int>, gone: int, nNow: int, n: seq<nat>) {
    && gone in bucket && bucket <= m.Keys && Rank(bucket, gone) in n
    && (forall x <- bucket :: Worthy(m[x], nNow))
    && forall x <- bucket :: Rank(bucket, x) in n ==> m[gone].nTime <= m[x].nTime
  }

  /** `rest` is still to be visited by an iteration over `all` in ascending order. */
  ghost predicate Ahead(all: set<int>, rest: set<int>) {
    rest <= all && forall x, y :: x in all && x !in rest && y in rest ==> x < y
  }

  lemma NextAhead(all: set<int>, rest: set<int>, it: int)
    requires Ahead(all, rest) && Least(rest, it)
    ensures Rank(all, it) == |all| - |rest|
    ensures Ahead(all, rest - {it}) && all - (rest - {it}) == (all - rest) + {it} && |rest - {it}| == |rest| - 1
    ensures forall x <- all - rest :: x < it
  {
    assert (set x <- all | x < it) == all - rest;
  }

  /** `nOldest` is the oldest drawn entry among those already visited, or -1. */
  ghost predicate OldestSoFar(m: map<int, AddrInfo>, all: set<int>, rest: set<int>, nOldest: int, n: seq<nat>) {
    && (nOldest != -1 ==> nOldest in all && nOldest in m && Rank(all, nOldest) in n)
    && forall x :: x in all && x !in rest && Rank(all, x) in n ==>
         nOldest != -1 && x in m && m[nOldest].nTime <= m[x].nTime
  }

  lemma OldestStart(m: map<int, AddrInfo>, all: set<int>, n: seq<nat>)
    ensures OldestSoFar(m, all, all, -1, n) && Ahead(all, all)
  {}

  lemma OldestNext(m: map<int, AddrInfo>, all: set<int>, rest: set<int>, nOldest: int, n: seq<nat>, it: int)
    requires OldestSoFar(m, all, rest, nOldest, n) && it in rest && it in all && it in m && it != -1
    ensures OldestSoFar(m, all, rest - {it},
      if Rank(all, it) in n && (nOldest == -1 || m[it].nTime < m[nOldest].nTime) then it else nOldest, n)
  {}

  lemma {:induction false} AllRanks(all: set<int>, rest: set<int>, r: nat) returns (id: int)
    requires Ahead(all, rest) && |all| - |rest| <= r < |all|
    ensures id in all && Rank(all, id) == r
    decreases rest
  {
    id := HasLeast(rest);
    NextAhead(all, rest, id);
    if |all| - |rest| < r { id := AllRanks(all, rest - {id}, r); }
  }

  lemma OldestEnd(m: map<int, AddrInfo>, all: set<int>, nOldest: int, n: seq<nat>)
    requires OldestSoFar(m, all, {}, nOldest, n) && |n| == 4 && n[0] < |all|
    ensures nOldest in all && nOldest in m && Rank(all, nOldest) in n
    ensures forall x <- all :: Rank(all, x) in n ==> x in m && m[nOldest].nTime <= m[x].nTime
  {
    var id := AllRanks(all, all, n[0]);
  }

  lemma OldestFacts(m: map<int, AddrInfo>, bucket: set<int>, gone: int, nNow: int, n: seq<nat>)
    requires OldestDrawn(m, bucket, gone, nNow, n)
    ensures gone in bucket && gone in m
  {}

  lemma NewFacts(h: Hashing, t: Table, hole: Hole, b: nat)
    requires Ok(h, t, hole) && b < NEW_BUCKETS
    ensures |t.vvNew| == NEW_BUCKETS && t.vvNew[b] <= t.mapInfo.Keys && |t.vvNew[b]| <= BUCKET_SIZE
    ensures forall x <- t.vvNew[b] :: x >= 0
  {
    assert NewOk(t);
    forall x | x in t.vvNew[b] ensures x in t.mapInfo.Keys && x >= 0 { assert EntryOk(t, hole, x); }
  }

  /** Bucket b has lost `id`, which is gone for good if that was its only reference; nothing else has changed
      but positions in vRandom. */
  ghost predicate OneLess(t: Table, t': Table, b: nat, id: int) {
    && b < |t.vvNew| && id in t.vvNew[b] && id in t.mapInfo
    && t'.vvNew == t.vvNew[b := t.vvNew[b] - {id}] && t'.vvTried == t.vvTried
    && t'.nKey == t.nKey && t'.nIdCount == t.nIdCount && t'.nTried == t.nTried
    && (id in t'.mapInfo <==> t.mapInfo[id].nRefCount > 1)
    && t'.mapInfo.Keys == (if t.mapInfo[id].nRefCount > 1 then t.mapInfo.Keys else t.mapInfo.Keys - {id})
    && forall i <- t'.mapInfo ::
         t'.mapInfo[i] == t.mapInfo[i].(nRandomPos := t'.mapInfo[i].nRandomPos, nRefCount := t'.mapInfo[i].nRefCount)
         && t'.mapInfo[i].nRefCount == t.mapInfo[i].nRefCount - if i == id then 1 else 0
  }

  lemma DroppedOneLess(h: Hashing, t: Table, b: nat, id: int, hole: Hole)
    requires Ok(h, t, hole) && b < NEW_BUCKETS && id in t.vvNew[b]
    requires id in t.mapInfo && 0 <= t.mapInfo[id].nRandomPos < |t.vRandom|
    requires t.vRandom[t.mapInfo[id].nRandomPos] == id && t.vRandom[|t.vRandom| - 1] in t.mapInfo
    ensures OneLess(t, Dropped(t, b, id), b, id)
  {
    hide Ok;
    Shape(h, t, hole);
    var t' := Dropped(t, b, id);
    forall i ensures i in t'.mapInfo <==> i in t.mapInfo && (t.mapInfo[id].nRefCount > 1 || i != id) {
    }
  }

  /** The reference count of the deleted entry is of no consequence. */
  lemma DeletedInSteps(t: Table, b: nat, id: int, info: AddrInfo)
    requires id in t.mapInfo && 0 <= t.mapInfo[id].nRandomPos < |t.vRandom| && b < |t.vvNew|
    requires t.vRandom[t.mapInfo[id].nRandomPos] == id && t.vRandom[|t.vRandom| - 1] in t.mapInfo
    requires info == t.mapInfo[id].(nRefCount := info.nRefCount) && t.mapInfo[id].nRefCount <= 1
    ensures var s := Swapped(t.(mapInfo := t.mapInfo[id := info]), info.nRandomPos, |t.vRandom| - 1);
      id in s.mapInfo && s.mapInfo[id].ip == info.ip && |s.vRandom| == |t.vRandom| && s.vvNew == t.vvNew
      && s.nNew == t.nNew &&
      Dropped(t, b, id) == s.(mapInfo := s.mapInfo - {id}, mapAddr := s.mapAddr - {info.ip},
        vRandom := s.vRandom[..|s.vRandom| - 1], nNew := s.nNew - 1, vvNew := s.vvNew[b := s.vvNew[b] - {id}])
  {}

  lemma RandomFacts(h: Hashing, t: Table, hole: Hole, id: int)
    requires Ok(h, t, hole) && id in t.mapInfo
    ensures RandomOk(t) && 0 <= t.mapInfo[id].nRandomPos < |t.vRandom|
    ensures t.vRandom[t.mapInfo[id].nRandomPos] == id && t.vRandom[|t.vRandom| - 1] in t.mapInfo
  {}

  lemma RandomKeeps(t: Table, t': Table, id: int)
    requires RandomOk(t) && id in t.mapInfo && id in t'.mapInfo && t'.vRandom == t.vRandom
    requires t'.mapInfo == t.mapInfo[id := t'.mapInfo[id]] && t'.mapInfo[id].nRandomPos == t.mapInfo[id].nRandomPos
    ensures RandomOk(t')
  {}

  // ----- what MakeTried does

  /** `id` has left the new buckets for its tried bucket; if that was full, one entry went the other way. */
  ghost predicate Moved(h: Hashing, t: Table, t': Table, id: int, nOrigin: nat, evicted: Option<int>) {
    && id in t.mapInfo && |t.vvTried| == TRIED_BUCKETS && |t.vvNew| == NEW_BUCKETS
    && t'.mapAddr == t.mapAddr && t'.vRandom == t.vRandom && t'.nIdCount == t.nIdCount && t'.nKey == t.nKey
    && var k := TriedBucket(h, t.nKey, t.mapInfo[id]);
       var m := t.mapInfo[id := t.mapInfo[id].(fInTried := true, nRefCount := 0)];
       match evicted
       case None =>
         && |t.vvTried[k]| < BUCKET_SIZE && t'.mapInfo == m
         && t'.vvTried == t.vvTried[k := t.vvTried[k] + [id]] && t'.vvNew == Without(t.vvNew, id)
         && t'.nTried == t.nTried + 1 && t'.nNew == t.nNew - 1
       case Some(e) =>
         && |t.vvTried[k]| == BUCKET_SIZE && e in t.vvTried[k] && e in t.mapInfo && e != id && t.mapInfo[e].fInTried
         && t'.mapInfo == m[e := t.mapInfo[e].(fInTried := false, nRefCount := 1)]
         && |t'.vvTried| == |t.vvTried| && t'.vvTried == t.vvTried[k := t'.vvTried[k]]
         && multiset(t'.vvTried[k]) == multiset(t.vvTried[k]) - multiset{e} + multiset{id}
         && nOrigin < NEW_BUCKETS
         && t'.nTried == t.nTried && t'.nNew == t.nNew
         && var b := Refuge(h, t.(vvNew := Without(t.vvNew, id)), e, nOrigin);
            t'.vvNew == Without(t.vvNew, id)[b := (t.vvNew[b] - {id}) + {e}]
  }

  lemma MovedKeys(h: Hashing, t: Table, t': Table, id: int, nOrigin: nat, evicted: Option<int>)
    requires Moved(h, t, t', id, nOrigin, evicted)
    ensures t'.mapInfo.Keys == t.mapInfo.Keys && t'.mapAddr == t.mapAddr
  {}

  lemma AppendOnce(h: Hashing, t: Table, id: int, k: nat)
    requires Ok(h, t, Limbo(id)) && id in t.mapInfo && k < TRIED_BUCKETS && k < |t.vvTried| && |t.vvTried[k]| < BUCKET_SIZE
    ensures Distinct(t.vvTried[k] + [id]) && forall i :: i in t.vvTried[k] + [id] <==> i == id || i in t.vvTried[k]
  {
    assert TriedBucketOk(h, t, k);
    assert EntryOk(t, Limbo(id), id);
  }

  lemma MovedIn(h: Hashing, t: Table, t1: Table, id: int, k: nat, nOrigin: nat)
    requires id in t.mapInfo && |t.vvTried| == TRIED_BUCKETS && |t.vvNew| == NEW_BUCKETS
    requires t1 == Unlisted(t, id) && k == TriedBucket(h, t.nKey, t.mapInfo[id]) && |t.vvTried[k]| < BUCKET_SIZE
    ensures Moved(h, t, Promoted(t1, id, k, t1.vvTried[k] + [id]), id, nOrigin, None)
  {}

  lemma MovedOver(h: Hashing, t: Table, t1: Table, t2: Table, id: int, k: nat, pos: nat, nOrigin: nat)
    requires id in t.mapInfo && |t.vvTried| == TRIED_BUCKETS && |t.vvNew| == NEW_BUCKETS && nOrigin < NEW_BUCKETS
    requires t1 == Unlisted(t, id) && k == TriedBucket(h, t.nKey, t.mapInfo[id]) && |t.vvTried[k]| == BUCKET_SIZE
    requires |t2.vvTried| == |t1.vvTried| && t2 == t1.(vvTried := t1.vvTried[k := t2.vvTried[k]])
    requires Shuffled(t.vvTried[k], t2.vvTried[k]) && pos < |t2.vvTried[k]|
    requires t2.vvTried[k][pos] in t1.mapInfo && t1.mapInfo[t2.vvTried[k][pos]].fInTried && t2.vvTried[k][pos] != id
    ensures Moved(h, t, Replaced(h, t2, id, k, pos, nOrigin), id, nOrigin, Some(t2.vvTried[k][pos]))
  {
    var e, t' := t2.vvTried[k][pos], Replaced(h, t2, id, k, pos, nOrigin);
    ShuffledMember(t.vvTried[k], t2.vvTried[k]);
    assert multiset(t'.vvTried[k]) == multiset(t2.vvTried[k]) - multiset{e} + multiset{id};
    assert t'.vvTried == t.vvTried[k := t'.vvTried[k]];
    assert t'.mapInfo == t.mapInfo[id := t.mapInfo[id].(fInTried := true, nRefCount := 0)][e := t.mapInfo[e].(fInTried := false, nRefCount := 1)];
  }

  // ----- what the public operations do

  predicate Known(t: Table, ip: nat, port: nat) {
    ip in t.mapAddr && t.mapAddr[ip] in t.mapInfo && t.mapInfo[t.mapAddr[ip]].port == port
  }

  /** A CAddress as announced. */
  datatype Address = Address(ip: nat, port: nat, nServices: set<nat>, nTime: int)

  function NewInfo(addr: Address, source: nat, nTimePenalty: int, pos: int): AddrInfo {
    AddrInfo(addr.ip, addr.port, addr.nServices, Max(0, addr.nTime - nTimePenalty), 0, source, 0, 0, 0, false, pos)
  }

  /** An announcement refreshes the time now and then, and adds services. */
  ghost function Refreshed(info: AddrInfo, nServices: set<nat>, nTime: int, nTimePenalty: int, nNow: int): AddrInfo {
    var nUpdateInterval := if nNow - nTime < 86_400 then 3_600 else 86_400;
    var stale := nTime != 0 && (info.nTime == 0 || info.nTime < nTime - nUpdateInterval - nTimePenalty);
    info.(nTime := if stale then Max(0, nTime - nTimePenalty) else info.nTime, nServices := info.nServices + nServices)
  }

  /** Statistics of one entry change. */
  lemma TouchedOk(h: Hashing, t: Table, id: int, info: AddrInfo, hole: Hole)
    requires Ok(h, t, hole) && id in t.mapInfo && SameEntry(t.mapInfo[id], info) && info.nRandomPos == t.mapInfo[id].nRandomPos
    ensures Ok(h, t.(mapInfo := t.mapInfo[id := info]), hole)
  {
    hide AddrOk, NewOk, TriedOk, CountsOk, HoleOk;
    var t' := t.(mapInfo := t.mapInfo[id := info]);
    RandomKeeps(t, t', id);
    forall i | i in t.mapInfo ensures SameEntry(t.mapInfo[i], t'.mapInfo[i]) { assert EntryOk(t, hole, i); }
    SameEntriesOk(h, t, t', hole);
  }

  lemma NewIsListed(h: Hashing, t: Table, id: int)
    requires Ok(h, t, NoHole) && id in t.mapInfo && !t.mapInfo[id].fInTried
    ensures exists b :: 0 <= b < |t.vvNew| && id in t.vvNew[b]
  {
    assert EntryOk(t, NoHole, id);
    CountZero(t.vvNew, id);
  }

  lemma EntryFacts(h: Hashing, t: Table, id: int)
    requires Ok(h, t, NoHole) && id in t.mapInfo
    ensures t.mapInfo[id].nLastTry >= 0 && t.mapInfo[id].nLastSuccess >= 0
    ensures t.mapInfo[id].fInTried ==> t.mapInfo[id].nLastSuccess > 0
    ensures !t.mapInfo[id].fInTried ==> 1 <= t.mapInfo[id].nRefCount <= BUCKETS_PER_ADDRESS
  {}

  /** `id` has gained a reference from bucket b; if that was full, one entry was taken out of it. */
  ghost predicate Placed(t: Table, t': Table, id: int, b: nat, gone: Option<int>, nNow: int) {
    && b < |t.vvNew| && id in t.mapInfo && id !in t.vvNew[b]
    && (gone.Some? <==> |t.vvNew[b]| == BUCKET_SIZE)
    && t'.vvTried == t.vvTried && t'.nTried == t.nTried && t'.nKey == t.nKey
    && t'.vvNew == t.vvNew[b := (if gone.Some? then t.vvNew[b] - {gone.value} else t.vvNew[b]) + {id}]
    && (forall i <- t'.mapInfo :: i in t.mapInfo && Shifted(t.mapInfo[i], t'.mapInfo[i],
          if i == id then 1 else if gone == Some(i) then -1 else 0))
    && (forall i <- t.mapInfo :: gone != Some(i) ==> i in t'.mapInfo)
    && (gone.Some? ==>
          && gone.value in t.vvNew[b] && gone.value in t.mapInfo
          && (gone.value in t'.mapInfo <==> t.mapInfo[gone.value].nRefCount > 1)
          && forall x <- t.vvNew[b] :: x in t.mapInfo && (!Worthy(t.mapInfo[x], nNow) ==> !Worthy(t.mapInfo[gone.value], nNow)))
  }

  /** Only the place in vRandom and the reference count differ. */
  predicate Shifted(a: AddrInfo, b: AddrInfo, d: int) {
    b == a.(nRandomPos := b.nRandomPos, nRefCount := a.nRefCount + d)
  }

  /** Everybody but `gone` is still known under the same id; the entry for `ip` has changed as stated. */
  ghost predicate Added(t: Table, t': Table, id: int, info: AddrInfo, gone: Option<int>) {
    && t'.vvTried == t.vvTried && t'.nTried == t.nTried && t'.nKey == t.nKey
    && id in t'.mapInfo && gone != Some(id)
    && (t'.mapInfo[id].nRefCount == info.nRefCount || t'.mapInfo[id].nRefCount == info.nRefCount + 1)
    && t'.mapInfo[id] == info.(nRandomPos := t'.mapInfo[id].nRandomPos, nRefCount := t'.mapInfo[id].nRefCount)
    && (forall i <- t.mapInfo :: i != id && gone != Some(i) ==> i in t'.mapInfo && Shifted(t.mapInfo[i], t'.mapInfo[i], 0))
    && (forall i <- t'.mapInfo :: i == id || i in t.mapInfo)
    && (gone.Some? ==>
          && gone.value in t.mapInfo && !t.mapInfo[gone.value].fInTried
          && (gone.value in t'.mapInfo <==> t.mapInfo[gone.value].nRefCount > 1))
  }

  /** A known address may be listed once more if the news is news, it is not tried, has a reference to spare,
      and passes the random test: one chance in 2^n for n references, with `rand` for the random number. */
  predicate MayGain(info: AddrInfo, nTime: int, rand: nat) {
    && nTime != 0 && (info.nTime == 0 || nTime > info.nTime)
    && !info.fInTried && info.nRefCount != BUCKETS_PER_ADDRESS && 0 <= info.nRefCount && rand % Pow2(info.nRefCount) == 0
  }

  /** What becomes of a known address: refreshed, and listed in its bucket once more if it may be and is not there yet. */
  ghost predicate Reannounced(h: Hashing, t: Table, t': Table, id: int, info: AddrInfo, source: nat, nTime: int, rand: nat,
                              gone: Option<int>, nNow: int)
  {
    var t1 := t.(mapInfo := t.mapInfo[id := info]);
    var b := NewBucket(h, t.nKey, info, source);
    if MayGain(info, nTime, rand) && b < |t.vvNew| && id !in t.vvNew[b] then Placed(t1, t', id, b, gone, nNow)
    else t' == t1 && gone == None
  }

  lemma AddedByPlacing(h: Hashing, t: Table, t1: Table, t': Table, id: int, info: AddrInfo, b: nat, gone: Option<int>, nNow: int)
    requires Ok(h, t, NoHole) && b < NEW_BUCKETS && Placed(t1, t', id, b, gone, nNow)
    requires t1.mapInfo == t.mapInfo[id := info] && t1.vvTried == t.vvTried && t1.nTried == t.nTried && t1.nKey == t.nKey
    requires t1.vvNew == t.vvNew
    ensures Added(t, t', id, info, gone)
  {
    hide Ok;
    if gone.Some? { ListedIsNew(h, t, b, gone.value, NoHole); }
  }

  lemma AddedNothing(t: Table, t': Table, id: int, info: AddrInfo)
    requires id in t.mapInfo && t' == t.(mapInfo := t.mapInfo[id := info])
    ensures Added(t, t', id, info, None)
  {}

  lemma FreshId(h: Hashing, t: Table, id: int)
    requires Ok(h, t, Limbo(id)) && id in t.mapInfo
    ensures |t.vvNew| == NEW_BUCKETS && forall b :: 0 <= b < NEW_BUCKETS ==> id !in t.vvNew[b]
  {
    assert EntryOk(t, Limbo(id), id);
    CountZero(t.vvNew, id);
  }

  lemma PlacedIp(h: Hashing, t: Table, t': Table, id: int, b: nat, gone: Option<int>, nNow: int)
    requires Placed(t, t', id, b, gone, nNow) && Ok(h, t', NoHole)
    ensures id in t'.mapInfo && t'.mapInfo[id].nRefCount == t.mapInfo[id].nRefCount + 1
    ensures t'.nKey == t.nKey && |t'.vvNew| == |t.vvNew| && b < |t'.vvNew| && id in t'.vvNew[b] && t'.mapInfo[id].ip == t.mapInfo[id].ip
    ensures t.mapInfo[id].ip in t'.mapAddr && t'.mapAddr[t.mapInfo[id].ip] == id
  {}

  ghost function AddressOf(info: AddrInfo): Address { Address(info.ip, info.port, info.nServices, info.nTime) }

  ghost predicate Offered(m: map<int, AddrInfo>, id: int, nNow: int) { id in m && Worthy(m[id], nNow) }

  ghost function Quota(size: nat): nat {
    Min(2500, 23 * size / 100)
  }

  /** What GetAddr_ has gathered from the first n positions. */
  ghost predicate Gathered(m: map<int, AddrInfo>, vRandom: seq<int>, n: nat, nNow: int, vAddr: seq<Address>, picks: seq<int>) {
    && n <= |vRandom| && |picks| == |vAddr| && Distinct(vRandom) && Distinct(picks)
    && (forall i :: 0 <= i < |picks| ==> Offered(m, picks[i], nNow) && vAddr[i] == AddressOf(m[picks[i]]) && picks[i] in vRandom[..n])
    && forall i :: 0 <= i < n && Offered(m, vRandom[i], nNow) ==> vRandom[i] in picks
  }

  lemma RandomIds(h: Hashing, t: Table)
    requires Ok(h, t, NoHole)
    ensures RandomOk(t) && Distinct(t.vRandom) && OnlyPlaces(t, t)
    ensures forall i :: 0 <= i < |t.vRandom| ==> t.vRandom[i] in t.mapInfo
  {}

  /** Only positions in vRandom have changed. */
  ghost predicate OnlyPlaces(t: Table, t': Table) {
    && t'.mapInfo.Keys == t.mapInfo.Keys
    && forall id <- t.mapInfo :: id in t'.mapInfo && t'.mapInfo[id] == t.mapInfo[id].(nRandomPos := t'.mapInfo[id].nRandomPos)
  }

  lemma SwappedPlaces(t: Table, p1: nat, p2: nat)
    requires p1 < |t.vRandom| && p2 < |t.vRandom| && t.vRandom[p1] in t.mapInfo && t.vRandom[p2] in t.mapInfo
    ensures OnlyPlaces(t, Swapped(t, p1, p2)) && Swapped(t, p1, p2).vRandom == SwapAt(t.vRandom, p1, p2)
  {}

  lemma PlacesTransitive(t: Table, t1: Table, t2: Table)
    requires OnlyPlaces(t, t1) && OnlyPlaces(t1, t2)
    ensures OnlyPlaces(t, t2)
  {}

  lemma PlaceOnly(t: Table, t': Table, id: int, nNow: int)
    requires OnlyPlaces(t, t') && id in t'.mapInfo
    ensures id in t.mapInfo && AddressOf(t'.mapInfo[id]) == AddressOf(t.mapInfo[id])
    ensures Worthy(t'.mapInfo[id], nNow) <==> Worthy(t.mapInfo[id], nNow)
  {}

  lemma GatheredStart(m: map<int, AddrInfo>, vRandom: seq<int>, nNow: int)
    requires Distinct(vRandom)
    ensures Gathered(m, vRandom, 0, nNow, [], [])
  {}

  lemma GatheredSwap(m: map<int, AddrInfo>, v: seq<int>, n: nat, p: nat, nNow: int, vAddr: seq<Address>, picks: seq<int>)
    requires Gathered(m, v, n, nNow, vAddr, picks) && n <= p < |v|
    ensures Gathered(m, SwapAt(v, n, p), n, nNow, vAddr, picks)
  {}

  lemma GatheredNext(m: map<int, AddrInfo>, v: seq<int>, n: nat, nNow: int, vAddr: seq<Address>, picks: seq<int>)
    requires Gathered(m, v, n, nNow, vAddr, picks) && n < |v| && v[n] in m
    ensures if !Worthy(m[v[n]], nNow) then Gathered(m, v, n + 1, nNow, vAddr, picks)
            else Gathered(m, v, n + 1, nNow, vAddr + [AddressOf(m[v[n]])], picks + [v[n]])
  {}

  lemma GatheredEnd(t: Table, t': Table, n: nat, nNow: int, vAddr: seq<Address>, picks: seq<int>)
    requires OnlyPlaces(t, t') && RandomOk(t') && Gathered(t.mapInfo, t'.vRandom, n, nNow, vAddr, picks)
    ensures |picks| == |vAddr| && Distinct(picks)
    ensures forall i :: 0 <= i < |picks| ==> Offered(t.mapInfo, picks[i], nNow) && vAddr[i] == AddressOf(t.mapInfo[picks[i]])
    ensures n == |t'.vRandom| ==> forall id :: Offered(t.mapInfo, id, nNow) ==> id in picks
  {}

  lemma OneLessBucket(t: Table, t': Table, b: nat, id: int)
    requires OneLess(t, t', b, id)
    ensures |t'.vvNew| == |t.vvNew| && t'.vvNew[b] == t.vvNew[b] - {id} && |t'.vvNew[b]| == |t.vvNew[b]| - 1
  {}

  lemma PlacedDirectly(t0: Table, t: Table, id: int, b: nat, isNew: bool, nNow: int)
    requires id in t.mapInfo && b < |t.vvNew| && id !in t.vvNew[b] && |t.vvNew[b]| != BUCKET_SIZE
    requires t0 == t.(nNew := t0.nNew)
    ensures Placed(t, Inserted(Referenced(t0, id, isNew), b, id), id, b, None, nNow)
  {}

  lemma PlacedShrinking(t0: Table, t: Table, t2: Table, id: int, b: nat, isNew: bool, gone: int, nNow: int, n: seq<nat>)
    requires id in t.mapInfo && b < |t.vvNew| && id !in t.vvNew[b] && |t.vvNew[b]| == BUCKET_SIZE
    requires t0 == t.(nNew := t0.nNew) && OneLess(Referenced(t0, id, isNew), t2, b, gone)
    requires FirstTerrible(Referenced(t0, id, isNew).mapInfo, t.vvNew[b], gone, nNow)
          || OldestDrawn(Referenced(t0, id, isNew).mapInfo, t.vvNew[b], gone, nNow, n)
    ensures Placed(t, Inserted(t2, b, id), id, b, Some(gone), nNow)
  {}

  class CAddrMan {
    const h: Hashing
    var nKey: seq<nat>
    var nIdCount: int
    var mapInfo: map<int, AddrInfo>
    var mapAddr: map<nat, int>
    var vRandom: seq<int>
    var nTried: int
    var vvTried: seq<seq<int>>
    var nNew: int
    var vvNew: seq<set<int>>

    ghost function State(): Table
      reads this
    {
      Table(nKey, nIdCount, mapInfo, mapAddr, vRandom, nTried, vvTried, nNew, vvNew)
    }

    ghost predicate Valid()
      reads this
    {
      Ok(h, State(), NoHole)
    }

    constructor (h: Hashing, key: seq<nat>)
      ensures Valid() && this.h == h && mapInfo == map[]
    {
      this.h := h;
      nKey := key;
      nIdCount, nTried, nNew := 0, 0, 0;
      mapInfo, mapAddr, vRandom := map[], map[], [];
      vvTried := seq(TRIED_BUCKETS, _ => []);
      vvNew := seq(NEW_BUCKETS, _ => {});
    }

    method Find(ip: nat) returns (r: Option<int>)
      requires Valid()
      ensures r.None? ==> ip !in mapAddr && forall id <- mapInfo :: mapInfo[id].ip != ip
      ensures r.Some? ==> r.value in mapInfo && mapInfo[r.value].ip == ip && ip in mapAddr && mapAddr[ip] == r.value
    {
      ghost var t := State();
      assert AddrOk(t);
      if ip !in mapAddr {
        forall id | id in mapInfo ensures mapInfo[id].ip != ip { assert t.mapInfo[id].ip in t.mapAddr; }
      } else {
        assert t.mapInfo[t.mapAddr[ip]].ip == ip;
      }
      if ip in mapAddr && mapAddr[ip] in mapInfo {
        r := Some(mapAddr[ip]);
      } else {
        r := None;
      }
    }

    method Create(info: AddrInfo) returns (id: int)
      requires Valid() && info.ip !in mapAddr
      requires info.nRefCount == 0 && !info.fInTried && info.nLastTry == 0 && info.nLastSuccess == 0
      modifies this
      ensures id == old(nIdCount) && State() == Created(old(State()), info)
      ensures Ok(h, State(), Limbo(id))
    {
      ghost var t := State();
      id := nIdCount;
      nIdCount := nIdCount + 1;
      mapInfo := mapInfo[id := info];
      mapAddr := mapAddr[info.ip := id];
      mapInfo := mapInfo[id := mapInfo[id].(nRandomPos := |vRandom|)];
      vRandom := vRandom + [id];
      CreatedOk(h, t, info);
      assert State() == Created(t, info);
    }

    method SwapRandom(nRndPos1: nat, nRndPos2: nat)
      requires RandomOk(State()) && nRndPos1 < |vRandom| && nRndPos2 < |vRandom|
      modifies this`mapInfo, this`vRandom
      ensures old(vRandom[nRndPos1] in mapInfo && vRandom[nRndPos2] in mapInfo)
      ensures State() == old(Swapped(State(), nRndPos1, nRndPos2)) && RandomOk(State())
    {
      hide RandomOk;
      SwappedRandom(State(), nRndPos1, nRndPos2);
      if nRndPos1 == nRndPos2 { return; }
      var nId1, nId2 := vRandom[nRndPos1], vRandom[nRndPos2];
      assert nId1 in mapInfo;
      assert nId2 in mapInfo;
      mapInfo := mapInfo[nId1 := mapInfo[nId1].(nRandomPos := nRndPos2)];
      mapInfo := mapInfo[nId2 := mapInfo[nId2].(nRandomPos := nRndPos1)];
      vRandom := vRandom[nRndPos1 := nId2];
      vRandom := vRandom[nRndPos2 := nId1];
    }

    /** Shuffles the first entries of a tried bucket and names a position in it. */
    method SelectTried(nKBucket: nat, draws: seq<nat>, ghost hole: Hole) returns (nOldestPos: int)
      requires Ok(h, State(), hole) && nKBucket < TRIED_BUCKETS == |vvTried| && DrawsOk(draws, |vvTried[nKBucket]|)
      modifies this`vvTried
      ensures Ok(h, State(), hole) && Shuffled(old(vvTried)[nKBucket], Reordered(old(vvTried)[nKBucket], draws))
      ensures vvTried == old(vvTried)[nKBucket := Reordered(old(vvTried)[nKBucket], draws)]
      ensures if vvTried[nKBucket] == [] then nOldestPos == -1 else 0 <= nOldestPos < |vvTried[nKBucket]|
      ensures vvTried[nKBucket] != [] ==> exists e: nat ::
                && OldestInspected(mapInfo, vvTried[nKBucket], draws, e) && nOldestPos == draws[e]
                && (vvTried[nKBucket][nOldestPos] == vvTried[nKBucket][e] <==> draws[e] == e)
    {
      hide Ok, Shuffled, OldestInspected, SwapAt, Reordered;
      ghost var t := State();
      TriedFacts(h, t, hole, nKBucket);
      ghost var was := vvTried[nKBucket];
      var vTried := vvTried[nKBucket];
      var nOldest := -1;
      nOldestPos := -1;
      ghost var e := 0;
      var i := 0;
      ReorderedStart(was, draws);
      while i < TRIED_ENTRIES_INSPECT_ON_EVICT && i < |vTried|
        modifies {}
        invariant 0 <= i <= |draws| && vTried == Reordered(was, draws[..i]) && Shuffled(was, vTried)
        invariant if i == 0 then nOldest == -1 && nOldestPos == -1 else nOldest in was && 0 <= nOldestPos < |was|
        invariant i > 0 ==> e < i && OldestInspected(mapInfo, vTried, draws[..i], e) && nOldest == vTried[e] && nOldestPos == draws[e]
      {
        ShuffledMember(was, vTried);
        var nPos := draws[i];
        var nTemp := vTried[nPos];
        SwapShuffles(was, vTried, nPos, i);
        ReorderedNext(was, draws, i);
        InspectNext(mapInfo, vTried, draws[..i], e, nPos);
        SwapIs(vTried, nPos, i);
        vTried := vTried[nPos := vTried[i]];
        vTried := vTried[i := nTemp];
        assert nOldest == -1 || nTemp in mapInfo;
        if nOldest == -1 || mapInfo[nTemp].nLastSuccess < mapInfo[nOldest].nLastSuccess {
          nOldest := nTemp;
          nOldestPos := nPos;
          e := i;
        }
        i := i + 1;
      }
      assert draws[..|draws|] == draws;
      if vTried != [] { OnlyThere(was, vTried, draws[e], e); }
      ReorderedShuffled(h, t, nKBucket, was, vTried, hole);
      vvTried := vvTried[nKBucket := vTried];
      assert State() == t.(vvTried := t.vvTried[nKBucket := vTried]);
    }

    /** The calls of GetRandInt in SelectTried. */
    method TriedDraws(size: nat) returns (draws: seq<nat>)
      ensures DrawsOk(draws, size)
    {
      draws := [];
      while |draws| < Min(TRIED_ENTRIES_INSPECT_ON_EVICT, size)
        modifies {}
        invariant |draws| <= Min(TRIED_ENTRIES_INSPECT_ON_EVICT, size) && forall j :: 0 <= j < |draws| ==> j <= draws[j] < size
      {
        var nPos :| |draws| <= nPos < size;
        draws := draws + [nPos];
      }
    }

    /** Takes `id` out of a new bucket, deleting it when that was its last reference. */
    method DropFrom(nUBucket: nat, id: int, ghost hole: Hole)
      requires Ok(h, State(), hole) && nUBucket < NEW_BUCKETS == |vvNew| && id in vvNew[nUBucket]
      requires hole != NoHole ==> hole.id != id
      modifies this
      ensures Ok(h, State(), hole) && OneLess(old(State()), State(), nUBucket, id)
    {
      hide Ok, RandomOk, Swapped, OneLess, Deleted;
      ghost var t := State();
      ListedIsNew(h, t, nUBucket, id, hole);
      RandomFacts(h, t, hole, id);
      DroppedOk(h, t, nUBucket, id, hole);
      DroppedOneLess(h, t, nUBucket, id, hole);
      mapInfo := mapInfo[id := mapInfo[id].(nRefCount := mapInfo[id].nRefCount - 1)];
      if mapInfo[id].nRefCount == 0 {
        ghost var t1 := State();
        RandomKeeps(t, t1, id);
        assert t1 == t.(mapInfo := t.mapInfo[id := mapInfo[id]]);
        DeletedInSteps(t, nUBucket, id, mapInfo[id]);
        SwapRandom(mapInfo[id].nRandomPos, |vRandom| - 1);
        vRandom := vRandom[..|vRandom| - 1];
        mapAddr := mapAddr - {mapInfo[id].ip};
        mapInfo := mapInfo - {id};
        nNew := nNew - 1;
      }
      vvNew := vvNew[nUBucket := vvNew[nUBucket] - {id}];
      assert State() == Dropped(t, nUBucket, id);
    }

    /** Makes room in a new bucket. `n` holds the four draws of GetRandInt. */
    method ShrinkNew(nUBucket: nat, nNow: int, n: seq<nat>, ghost hole: Hole) returns (r: int, ghost gone: int)
      requires Ok(h, State(), hole) && nUBucket < NEW_BUCKETS == |vvNew| && vvNew[nUBucket] != {}
      requires hole != NoHole ==> hole.id !in vvNew[nUBucket]
      requires |n| == 4 && forall i :: 0 <= i < 4 ==> n[i] < |vvNew[nUBucket]|
      modifies this
      ensures Ok(h, State(), hole) && OneLess(old(State()), State(), nUBucket, gone)
      ensures r == 0 || r == 1
      ensures r == 0 ==> FirstTerrible(old(mapInfo), old(vvNew)[nUBucket], gone, nNow)
      ensures r == 1 ==> OldestDrawn(old(mapInfo), old(vvNew)[nUBucket], gone, nNow, n)
    {
      hide Ok, OneLess, Rank, OldestDrawn;
      NewFacts(h, State(), hole, nUBucket);
      var terrible := TerribleOf(vvNew[nUBucket], nNow);
      if terrible.Some? {
        gone := terrible.value;
        DropFrom(nUBucket, terrible.value, hole);
        return 0, gone;
      }
      var nOldest := OldestOf(vvNew[nUBucket], nNow, n);
      OldestFacts(mapInfo, vvNew[nUBucket], nOldest, nNow, n);
      assert nOldest in mapInfo;
      gone := nOldest;
      DropFrom(nUBucket, nOldest, hole);
      return 1, gone;
    }

    /** The first deletable item of a bucket. */
    method TerribleOf(vNew: set<int>, nNow: int) returns (r: Option<int>)
      requires vNew <= mapInfo.Keys
      ensures r.Some? ==> FirstTerrible(mapInfo, vNew, r.value, nNow)
      ensures r.None? ==> forall x <- vNew :: Worthy(mapInfo[x], nNow)
    {
      var rest := vNew;
      while rest != {}
        invariant Ahead(vNew, rest)
        invariant forall x <- vNew - rest :: Worthy(mapInfo[x], nNow)
        decreases rest
      {
        ghost var w := HasLeast(rest);
        var it :| Least(rest, it);
        NextAhead(vNew, rest, it);
        TerribleExactly(mapInfo[it], nNow);
        if IsTerrible(mapInfo[it], nNow) { return Some(it); }
        rest := rest - {it};
      }
      assert vNew - rest == vNew;
      return None;
    }

    /** The oldest of the entries at the drawn positions. */
    method OldestOf(vNew: set<int>, nNow: int, n: seq<nat>) returns (nOldest: int)
      requires vNew <= mapInfo.Keys && |n| == 4 && forall i :: 0 <= i < 4 ==> n[i] < |vNew|
      requires forall x <- vNew :: x >= 0 && Worthy(mapInfo[x], nNow)
      ensures OldestDrawn(mapInfo, vNew, nOldest, nNow, n)
    {
      hide Rank, OldestSoFar, Ahead;
      var nI := 0;
      nOldest := -1;
      var rest := vNew;
      OldestStart(mapInfo, vNew, n);
      while rest != {}
        invariant Ahead(vNew, rest) && rest <= vNew && nI == |vNew| - |rest| && OldestSoFar(mapInfo, vNew, rest, nOldest, n)
        invariant nOldest == -1 || nOldest in mapInfo
        decreases rest
      {
        ghost var w := HasLeast(rest);
        var it :| Least(rest, it);
        NextAhead(vNew, rest, it);
        OldestNext(mapInfo, vNew, rest, nOldest, n, it);
        if nI == n[0] || nI == n[1] || nI == n[2] || nI == n[3] {
          assert nOldest == -1 || it in mapInfo;
          if nOldest == -1 || mapInfo[it].nTime < mapInfo[nOldest].nTime {
            nOldest := it;
          }
        }
        nI := nI + 1;
        rest := rest - {it};
      }
      OldestEnd(mapInfo, vNew, nOldest, n);
    }

    /** Erases `id` from every new bucket, counting its references down. */
    method Unlist(id: int)
      requires Valid() && id in mapInfo && !mapInfo[id].fInTried
      modifies this
      ensures State() == Unlisted(old(State()), id) && Ok(h, State(), Limbo(id))
    {
      hide Ok;
      ghost var t := State();
      UnlistedOk(h, t, id);
      var b := 0;
      while b < |vvNew|
        invariant b <= |vvNew| == |t.vvNew| && nNew == t.nNew
        invariant State() == t.(mapInfo := mapInfo, vvNew := vvNew)
        invariant forall i :: 0 <= i < |vvNew| ==> vvNew[i] == if i < b then t.vvNew[i] - {id} else t.vvNew[i]
        invariant id in mapInfo && mapInfo == t.mapInfo[id := mapInfo[id]]
        invariant mapInfo[id] == t.mapInfo[id].(nRefCount := t.mapInfo[id].nRefCount - Count(t.vvNew[..b], id))
      {
        assert t.vvNew[..b + 1][..b] == t.vvNew[..b];
        if id in vvNew[b] {
          vvNew := vvNew[b := vvNew[b] - {id}];
          mapInfo := mapInfo[id := mapInfo[id].(nRefCount := mapInfo[id].nRefCount - 1)];
        }
        b := b + 1;
      }
      assert t.vvNew[..b] == t.vvNew;
      nNew := nNew - 1;
      assert mapInfo[id].nRefCount == 0;
      assert vvNew == Without(t.vvNew, id);
      assert State() == Unlisted(t, id);
    }

    /** Moves an entry from the new buckets to its tried bucket. */
    method MakeTried(nId: int, nOrigin: nat) returns (ghost evicted: Option<int>)
      requires Valid() && nOrigin < NEW_BUCKETS == |vvNew| && nId in vvNew[nOrigin]
      requires nId in mapInfo && !mapInfo[nId].fInTried && mapInfo[nId].nLastSuccess > 0
      modifies this
      ensures Valid() && Moved(h, old(State()), State(), nId, nOrigin, evicted)
    {
      hide Ok, Moved, Without, OldestInspected, Reordered, Replaced;
      ghost var t := State();
      Shape(h, t, NoHole);
      NewFacts(h, t, NoHole, nOrigin);
      Unlist(nId);
      ghost var t1 := State();
      var nKBucket := TriedBucket(h, nKey, mapInfo[nId]);
      TriedFacts(h, t, NoHole, nKBucket);
      Shape(h, t1, Limbo(nId));
      if |vvTried[nKBucket]| < BUCKET_SIZE {
        AppendOnce(h, t1, nId, nKBucket);
        PromotedOk(h, t1, nId, nKBucket, vvTried[nKBucket] + [nId]);
        vvTried := vvTried[nKBucket := vvTried[nKBucket] + [nId]];
        nTried := nTried + 1;
        mapInfo := mapInfo[nId := mapInfo[nId].(fInTried := true)];
        assert State() == Promoted(t1, nId, nKBucket, t1.vvTried[nKBucket] + [nId]);
        MovedIn(h, t, t1, nId, nKBucket, nOrigin);
        return None;
      }
      var draws := TriedDraws(|vvTried[nKBucket]|);
      var nPos := SelectTried(nKBucket, draws, Limbo(nId));
      ghost var t2 := State();
      ReplacedOk(h, t2, nId, nKBucket, nPos, nOrigin);
      MovedOver(h, t, t1, t2, nId, nKBucket, nPos, nOrigin);
      var old_id := Exchange(nId, nKBucket, nPos, nOrigin);
      return Some(old_id);
    }

    /** Puts nId into the tried bucket in the place of the entry at nPos, which goes back to a new bucket. */
    method Exchange(nId: int, nKBucket: nat, nPos: nat, nOrigin: nat) returns (old_id: int)
      requires nKBucket < |vvTried| && nPos < |vvTried[nKBucket]| && vvTried[nKBucket][nPos] in mapInfo && nId in mapInfo
      requires nOrigin < NEW_BUCKETS == |vvNew|
      modifies this
      ensures old_id == old(vvTried)[nKBucket][nPos] && State() == Replaced(h, old(State()), nId, nKBucket, nPos, nOrigin)
    {
      ghost var t := State();
      old_id := vvTried[nKBucket][nPos];
      var nUBucket := NewBucket(h, nKey, mapInfo[old_id], mapInfo[old_id].source);
      mapInfo := mapInfo[old_id := mapInfo[old_id].(fInTried := false, nRefCount := 1)];
      if |vvNew[nUBucket]| < BUCKET_SIZE {
        vvNew := vvNew[nUBucket := vvNew[nUBucket] + {old_id}];
      } else {
        vvNew := vvNew[nOrigin := vvNew[nOrigin] + {old_id}];
      }
      nNew := nNew + 1;
      vvTried := vvTried[nKBucket := vvTried[nKBucket][nPos := nId]];
      mapInfo := mapInfo[nId := mapInfo[nId].(fInTried := true)];
      assert State() == Replaced(h, t, nId, nKBucket, nPos, nOrigin);
    }

    /** Marks an address good, possibly moving it from the new buckets to a tried one. No address is lost. */
    method Good_(ip: nat, port: nat, nTime: int) returns (ghost evicted: Option<int>)
      requires Valid() && nTime > 0
      modifies this
      ensures Valid() && mapAddr == old(mapAddr) && mapInfo.Keys == old(mapInfo.Keys)
      ensures !Known(old(State()), ip, port) ==> State() == old(State())
      ensures Known(old(State()), ip, port) ==>
        var id := old(mapAddr[ip]);
        var good := old(mapInfo[id]).(nLastSuccess := nTime, nLastTry := nTime, nTime := nTime, nAttempts := 0);
        var t := old(State()).(mapInfo := old(mapInfo)[id := good]);
        if good.fInTried then State() == t else exists nOrigin :: Moved(h, t, State(), id, nOrigin, evicted)
    {
      hide Ok, Moved;
      evicted := None;
      var found := Find(ip);
      if found.None? { return; }
      var nId := found.value;
      if mapInfo[nId].port != port { return; }
      ghost var t0 := State();
      EntryFacts(h, t0, nId);
      var info := mapInfo[nId].(nLastSuccess := nTime, nLastTry := nTime, nTime := nTime, nAttempts := 0);
      TouchedOk(h, t0, nId, info, NoHole);
      mapInfo := mapInfo[nId := info];
      ghost var t := State();
      assert t == t0.(mapInfo := t0.mapInfo[nId := info]);
      if info.fInTried { return; }
      Shape(h, t, NoHole);
      NewIsListed(h, t, nId);
      var nRnd :| 0 <= nRnd < |vvNew|;
      var nUBucket := BucketOf(nId, nRnd);
      assert nUBucket != -1;
      evicted := MakeTried(nId, nUBucket);
      MovedKeys(h, t, State(), nId, nUBucket, evicted);
    }

    /** A new bucket that holds `nId`, searched from a random start. */
    method BucketOf(nId: int, nRnd: nat) returns (nUBucket: int)
      requires nRnd < |vvNew|
      ensures nUBucket == -1 ==> forall b :: 0 <= b < |vvNew| ==> nId !in vvNew[b]
      ensures nUBucket != -1 ==> 0 <= nUBucket < |vvNew| && nId in vvNew[nUBucket]
    {
      var n := 0;
      while n < |vvNew|
        invariant n <= |vvNew|
        invariant forall b :: nRnd <= b < |vvNew| && b < nRnd + n ==> nId !in vvNew[b]
        invariant forall b :: 0 <= b < nRnd + n - |vvNew| ==> nId !in vvNew[b]
      {
        var nB := (n + nRnd) % |vvNew|;
        assert nB == if n + nRnd < |vvNew| then n + nRnd else n + nRnd - |vvNew|;
        if nId in vvNew[nB] { return nB; }
        n := n + 1;
      }
      return -1;
    }

    method Attempt_(ip: nat, port: nat, nTime: int)
      requires Valid()
      modifies this`mapInfo
      ensures nTime >= 0 ==> Valid()
      ensures mapInfo == if Known(old(State()), ip, port) then
          var id := old(mapAddr[ip]);
          old(mapInfo)[id := old(mapInfo[id]).(nLastTry := nTime, nAttempts := old(mapInfo[id]).nAttempts + 1)]
        else old(mapInfo)
    {
      hide Ok;
      var found := Find(ip);
      if found.None? { return; }
      var nId := found.value;
      if mapInfo[nId].port != port { return; }
      EntryFacts(h, State(), nId);
      var info := mapInfo[nId].(nLastTry := nTime, nAttempts := mapInfo[nId].nAttempts + 1);
      if nTime >= 0 { TouchedOk(h, State(), nId, info, NoHole); }
      mapInfo := mapInfo[nId := info];
    }

    method Connected_(ip: nat, port: nat, nTime: int)
      requires Valid()
      modifies this`mapInfo
      ensures Valid()
      ensures mapInfo == if Known(old(State()), ip, port) && nTime - old(mapInfo[mapAddr[ip]]).nTime > 20 * 60 then
          old(mapInfo)[old(mapAddr[ip]) := old(mapInfo[mapAddr[ip]]).(nTime := nTime)]
        else old(mapInfo)
    {
      hide Ok;
      var found := Find(ip);
      if found.None? { return; }
      var nId := found.value;
      if mapInfo[nId].port != port { return; }
      EntryFacts(h, State(), nId);
      if nTime - mapInfo[nId].nTime > 20 * 60 {
        var info := mapInfo[nId].(nTime := nTime);
        TouchedOk(h, State(), nId, info, NoHole);
        mapInfo := mapInfo[nId := info];
      }
    }

    /** Lists an entry in a new bucket, unless it is there already. */
    method Place(nId: int, nUBucket: nat, isNew: bool, nNow: int) returns (ghost gone: Option<int>)
      requires Ok(h, State().(nNew := nNew - if isNew then 1 else 0), if isNew then Limbo(nId) else NoHole)
      requires nId in mapInfo && !mapInfo[nId].fInTried && mapInfo[nId].nRefCount < BUCKETS_PER_ADDRESS
      requires nUBucket < NEW_BUCKETS == |vvNew| && (isNew ==> nId !in vvNew[nUBucket])
      modifies this
      ensures Valid()
      ensures if nId in old(vvNew)[nUBucket] then State() == old(State()) && gone == None
              else Placed(old(State()), State(), nId, nUBucket, gone, nNow)
    {
      hide Ok, Placed, OneLess, FirstTerrible, OldestDrawn;
      gone := None;
      ghost var t := State();
      ghost var t0 := t.(nNew := nNew - if isNew then 1 else 0);
      if nId !in vvNew[nUBucket] {
        ReferencedOk(h, t0, nId, isNew);
        mapInfo := mapInfo[nId := mapInfo[nId].(nRefCount := mapInfo[nId].nRefCount + 1)];
        assert State() == Referenced(t0, nId, isNew);
        NewFacts(h, State(), Pending(nId), nUBucket);
        if |vvNew[nUBucket]| == BUCKET_SIZE {
          var n := Draws(|vvNew[nUBucket]|);
          var r, out := ShrinkNew(nUBucket, nNow, n, Pending(nId));
          gone := Some(out);
          PlacedShrinking(t0, t, State(), nId, nUBucket, isNew, out, nNow, n);
          OneLessBucket(Referenced(t0, nId, isNew), State(), nUBucket, out);
        } else {
          PlacedDirectly(t0, t, nId, nUBucket, isNew, nNow);
        }
        ghost var t2 := State();
        InsertedOk(h, t2, nUBucket, nId);
        vvNew := vvNew[nUBucket := vvNew[nUBucket] + {nId}];
        assert State() == Inserted(t2, nUBucket, nId);
      } else {
        assert State() == t0;
      }
    }

    /** Four calls of GetRandInt. */
    method Draws(size: nat) returns (n: seq<nat>)
      requires size > 0
      ensures |n| == 4 && forall i :: 0 <= i < 4 ==> n[i] < size
    {
      var n0: nat, n1: nat, n2: nat, n3: nat :| n0 < size && n1 < size && n2 < size && n3 < size;
      n := [n0, n1, n2, n3];
    }

    /** The time and the services of a known address after an announcement. */
    method Refresh(known: AddrInfo, addr: Address, nTimePenalty: int, nNow: int) returns (info: AddrInfo)
      ensures info == Refreshed(known, addr.nServices, addr.nTime, nTimePenalty, nNow)
    {
      var nTime := known.nTime;
      var nUpdateInterval := if nNow - addr.nTime < 24 * 60 * 60 then 60 * 60 else 24 * 60 * 60;
      if addr.nTime != 0 && (nTime == 0 || nTime < addr.nTime - nUpdateInterval - nTimePenalty) {
        nTime := Max(0, addr.nTime - nTimePenalty);
      }
      info := known.(nTime := nTime, nServices := known.nServices + addr.nServices);
    }

    /** Adds an announced address to the new buckets, or refreshes what is known about it. At most one
        other entry can be lost, never a tried one. */
    method Add_(addr: Address, routable: bool, source: nat, nTimePenalty: int, nNow: int, rand: nat)
      returns (fNew: bool, ghost gone: Option<int>)
      requires Valid()
      modifies this
      ensures Valid()
      ensures !routable ==> State() == old(State()) && !fNew
      ensures routable ==> (fNew <==> addr.ip !in old(mapAddr)) && addr.ip in mapAddr
      ensures routable && fNew ==>
        Added(old(State()), State(), mapAddr[addr.ip], NewInfo(addr, source, nTimePenalty, old(|vRandom|)), gone)
        && mapInfo[mapAddr[addr.ip]].nRefCount == 1
        && |vvNew| == NEW_BUCKETS && mapAddr[addr.ip] in vvNew[NewBucket(h, nKey, mapInfo[mapAddr[addr.ip]], source)]
      ensures routable && !fNew && addr.ip in old(mapAddr) ==>
        var id := old(mapAddr[addr.ip]);
        && mapAddr[addr.ip] == id && id in old(mapInfo)
        && Added(old(State()), State(), id, Refreshed(old(mapInfo[id]), addr.nServices, addr.nTime, nTimePenalty, nNow), gone)
        && Reannounced(h, old(State()), State(), id, Refreshed(old(mapInfo[id]), addr.nServices, addr.nTime, nTimePenalty, nNow),
             source, addr.nTime, rand, gone, nNow)
    {
      hide Ok, Placed, Added;
      gone := None;
      fNew := false;
      if !routable { return; }
      ghost var t := State();
      var nId;
      var found := Find(addr.ip);
      if found.Some? {
        nId := found.value;
        EntryFacts(h, t, nId);
        var info := Refresh(mapInfo[nId], addr, nTimePenalty, nNow);
        TouchedOk(h, t, nId, info, NoHole);
        mapInfo := mapInfo[nId := info];
        assert State() == t.(mapInfo := t.mapInfo[nId := info]);
        AddedNothing(t, State(), nId, info);
        if addr.nTime == 0 || (info.nTime != 0 && addr.nTime <= info.nTime) { return; }
        if info.fInTried { return; }
        if info.nRefCount == BUCKETS_PER_ADDRESS { return; }
        var nFactor := Factor(info.nRefCount);
        if nFactor > 1 && rand % nFactor != 0 { return; }
      } else {
        nId := Create(AddrInfo(addr.ip, addr.port, addr.nServices, addr.nTime, 0, source, 0, 0, 0, false, -1));
        var info := mapInfo[nId].(nTime := Max(0, mapInfo[nId].nTime - nTimePenalty));
        TouchedOk(h, State(), nId, info, Limbo(nId));
        mapInfo := mapInfo[nId := info];
        FreshId(h, State(), nId);
        nNew := nNew + 1;
        fNew := true;
      }
      Shape(h, t, NoHole);
      ghost var t1 := State();
      var nUBucket := NewBucket(h, nKey, mapInfo[nId], source);
      gone := Place(nId, nUBucket, fNew, nNow);
      if nId !in t1.vvNew[nUBucket] {
        AddedByPlacing(h, t, t1, State(), nId, t1.mapInfo[nId], nUBucket, gone, nNow);
        PlacedIp(h, t1, State(), nId, nUBucket, gone, nNow);
      }
    }

    /** 2^n, computed by doubling. */
    method Factor(n: nat) returns (nFactor: nat)
      ensures nFactor == Pow2(n) >= 1
    {
      nFactor := 1;
      var i := 0;
      while i < n
        invariant i <= n && nFactor == Pow2(i) >= 1
      {
        nFactor := nFactor * 2;
        i := i + 1;
      }
    }

    /** A random selection of at most 23 percent of the addresses, none of them terrible. */
    method GetAddr_(nNow: int) returns (vAddr: seq<Address>, ghost picks: seq<int>)
      requires Valid()
      modifies this`mapInfo, this`vRandom
      ensures Valid() && OnlyPlaces(old(State()), State())
      ensures |picks| == |vAddr| && Distinct(picks)
      ensures forall i :: 0 <= i < |picks| ==> Offered(old(mapInfo), picks[i], nNow) && vAddr[i] == AddressOf(old(mapInfo)[picks[i]])
      ensures |vAddr| <= Quota(|vRandom|)
      ensures |vAddr| < Quota(|vRandom|) ==> forall id :: Offered(old(mapInfo), id, nNow) ==> id in picks
    {
      hide Ok, OnlyPlaces, Swapped, Gathered, RandomOk, Worthy, IsTerrible, SwapAt;
      vAddr, picks := [], [];
      ghost var t := State();
      RandomIds(h, t);
      GatheredStart(t.mapInfo, vRandom, nNow);
      var nNodes := GETADDR_MAX_PCT * |vRandom| / 100;
      if nNodes > GETADDR_MAX { nNodes := GETADDR_MAX; }
      var n := 0;
      while n < |vRandom|
        invariant n <= |vRandom| == |t.vRandom| && Valid() && OnlyPlaces(t, State())
        invariant |vAddr| <= nNodes && Gathered(t.mapInfo, vRandom, n, nNow, vAddr, picks)
      {
        if |vAddr| >= nNodes { break; }
        ghost var t1 := State();
        var ai, p := Shuffle(n);
        PlacesTransitive(t, t1, State());
        GatheredSwap(t.mapInfo, t1.vRandom, n, p, nNow, vAddr, picks);
        PlaceOnly(t, State(), vRandom[n], nNow);
        GatheredNext(t.mapInfo, vRandom, n, nNow, vAddr, picks);
        TerribleExactly(ai, nNow);
        if !IsTerrible(ai, nNow) {
          vAddr := vAddr + [Address(ai.ip, ai.port, ai.nServices, ai.nTime)];
          picks := picks + [vRandom[n]];
        }
        n := n + 1;
      }
      RandomIds(h, State());
      GatheredEnd(t, State(), n, nNow, vAddr, picks);
    }

    /** Draws an entry for position n among those not drawn yet. */
    method Shuffle(n: nat) returns (ai: AddrInfo, ghost nRndPos: nat)
      requires Valid() && n < |vRandom|
      modifies this`mapInfo, this`vRandom
      ensures Valid() && OnlyPlaces(old(State()), State())
      ensures n <= nRndPos < |old(vRandom)| == |vRandom| && vRandom == SwapAt(old(vRandom), n, nRndPos)
      ensures vRandom[n] in mapInfo && ai == mapInfo[vRandom[n]]
    {
      hide Ok, OnlyPlaces, Swapped;
      ghost var t := State();
      RandomIds(h, t);
      var p :| n <= p < |vRandom|;
      nRndPos := p;
      SwappedOk(h, t, n, p, NoHole);
      SwapRandom(n, p);
      SwappedPlaces(t, n, p);
      RandomIds(h, State());
      assert vRandom[n] in mapInfo;
      ai := mapInfo[vRandom[n]];
    }
  }
}
