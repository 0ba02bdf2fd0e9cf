/** The address tables as one value, their consistency, and the elementary moves between tables. */
module AddrTable {
  import opened Wrappers


  const NEW_BUCKETS: nat := 256
  const TRIED_BUCKETS: nat := 64
  const BUCKET_SIZE: nat := 64
  const BUCKETS_PER_ADDRESS: nat := 4
  const TRIED_BUCKETS_PER_GROUP: nat := 4
  const NEW_BUCKETS_PER_SOURCE_GROUP: nat := 32

  /** A CAddrInfo. `ip` is its CNetAddr, the key of mapAddr; the port distinguishes services.
      `nServices` lists the service bits that are set. */
  datatype AddrInfo = AddrInfo(
    ip: nat, port: nat, nServices: set<nat>, nTime: int, nLastTry: int,
    source: nat, nLastSuccess: int, nAttempts: int,
    nRefCount: int, fInTried: bool, nRandomPos: int)

  /** The hashes behind the bucket choice, keyed with nKey: of an address, of two groups, and of a group and a slot; and the
      group, or address range, of an address. */
  datatype Hashing = Hashing(
    group: nat -> nat, addressHash: (seq<nat>, nat, nat) -> nat, groupsHash: (seq<nat>, nat, nat) -> nat,
    slotHash: (seq<nat>, nat, nat) -> nat)

  datatype Table = Table(
    nKey: seq<nat>, nIdCount: int,
    mapInfo: map<int, AddrInfo>, mapAddr: map<nat, int>, vRandom: seq<int>,
    nTried: int, vvTried: seq<seq<int>>, nNew: int, vvNew: seq<set<int>>)

  /** An entry under construction: in no bucket and not counted, or one reference ahead of its buckets. */
  datatype Hole = NoHole | Limbo(id: int) | Pending(id: int)

  function TriedBucket(h: Hashing, key: seq<nat>, info: AddrInfo): nat {
    h.slotHash(key, h.group(info.ip), h.addressHash(key, info.ip, info.port) % TRIED_BUCKETS_PER_GROUP) % TRIED_BUCKETS
  }

  function NewBucket(h: Hashing, key: seq<nat>, info: AddrInfo, src: nat): nat {
    h.slotHash(key, h.group(src), h.groupsHash(key, h.group(info.ip), h.group(src)) % NEW_BUCKETS_PER_SOURCE_GROUP) % NEW_BUCKETS
  }

  /** In how many new buckets an id occurs. */
  function Count(vv: seq<set<int>>, id: int): nat {
    if vv == [] then 0 else Count(vv[..|vv| - 1], id) + if id in vv[|vv| - 1] then 1 else 0
  }

  // ----- consistency

  ghost predicate RandomOk(t: Table) {
    && (forall id <- t.mapInfo ::
          0 <= t.mapInfo[id].nRandomPos < |t.vRandom| && t.vRandom[t.mapInfo[id].nRandomPos] == id)
    && forall i :: 0 <= i < |t.vRandom| ==> t.vRandom[i] in t.mapInfo && t.mapInfo[t.vRandom[i]].nRandomPos == i
  }

  ghost predicate AddrOk(t: Table) {
    && (forall id <- t.mapInfo :: t.mapInfo[id].ip in t.mapAddr && t.mapAddr[t.mapInfo[id].ip] == id)
    && forall a <- t.mapAddr :: t.mapAddr[a] in t.mapInfo && t.mapInfo[t.mapAddr[a]].ip == a
  }

  ghost predicate EntryOk(t: Table, hole: Hole, id: int)
    requires id in t.mapInfo
  {
    var info := t.mapInfo[id];
    && 0 <= id < t.nIdCount && info.nLastTry >= 0 && info.nLastSuccess >= 0
    && if info.fInTried then
         info.nRefCount == 0 && info.nLastSuccess > 0 && Count(t.vvNew, id) == 0 && hole != Limbo(id) && hole != Pending(id)
       else if hole == Limbo(id) then
         info.nRefCount == 0 && Count(t.vvNew, id) == 0
       else
         && 1 <= info.nRefCount <= BUCKETS_PER_ADDRESS
         && info.nRefCount == Count(t.vvNew, id) + if hole == Pending(id) then 1 else 0
  }

  ghost predicate EntriesOk(t: Table, hole: Hole) { forall id <- t.mapInfo :: EntryOk(t, hole, id) }

  ghost predicate NewOk(t: Table) {
    && |t.vvNew| == NEW_BUCKETS
    && forall b :: 0 <= b < NEW_BUCKETS ==> |t.vvNew[b]| <= BUCKET_SIZE && forall id <- t.vvNew[b] :: id in t.mapInfo
  }

  /** A tried bucket holds exactly the tried entries whose hash names it, each once. */
  ghost predicate TriedBucketOk(h: Hashing, t: Table, k: nat)
    requires k < |t.vvTried|
  {
    && |t.vvTried[k]| <= BUCKET_SIZE
    && (forall i, j :: 0 <= i < j < |t.vvTried[k]| ==> t.vvTried[k][i] != t.vvTried[k][j])
    && (forall id :: id in t.vvTried[k] <==>
          id in t.mapInfo && t.mapInfo[id].fInTried && TriedBucket(h, t.nKey, t.mapInfo[id]) == k)
  }

  ghost predicate TriedOk(h: Hashing, t: Table) {
    && |t.vvTried| == TRIED_BUCKETS
    && forall k :: 0 <= k < TRIED_BUCKETS ==> TriedBucketOk(h, t, k)
  }

  function NewIds(t: Table, hole: Hole): set<int> { set id <- t.mapInfo | !t.mapInfo[id].fInTried && hole != Limbo(id) }

  function TriedIds(t: Table): set<int> { set id <- t.mapInfo | t.mapInfo[id].fInTried }

  ghost predicate CountsOk(t: Table, hole: Hole) { t.nNew == |NewIds(t, hole)| && t.nTried == |TriedIds(t)| }

  ghost predicate HoleOk(t: Table, hole: Hole) {
    hole != NoHole ==> hole.id in t.mapInfo && !t.mapInfo[hole.id].fInTried
  }

  /** The whole structure, up to one entry under construction. */
  ghost predicate Ok(h: Hashing, t: Table, hole: Hole) {
    && RandomOk(t) && AddrOk(t) && EntriesOk(t, hole) && NewOk(t) && TriedOk(h, t) && CountsOk(t, hole) && HoleOk(t, hole)
    && t.nIdCount >= 0
  }

  // ----- how far one group of addresses can spread

  /** The buckets at the first `slots` slots of a group. */
  function SlotBuckets(h: Hashing, key: seq<nat>, group: nat, slots: nat, buckets: nat): (r: set<nat>)
    requires buckets > 0
    ensures |r| <= slots && forall b <- r :: b < buckets
    ensures forall s :: 0 <= s < slots ==> h.slotHash(key, group, s) % buckets in r
  {
    if slots == 0 then {} else SlotBuckets(h, key, group, slots - 1, buckets) + {h.slotHash(key, group, slots - 1) % buckets}
  }

  /** Addresses of one group fall into at most four of the 64 tried buckets. */
  lemma FewTriedBuckets(h: Hashing, key: seq<nat>, group: nat) returns (few: set<nat>)
    ensures |few| <= 4 && (forall b <- few :: b < 64)
    ensures forall info: AddrInfo :: h.group(info.ip) == group ==> TriedBucket(h, key, info) in few
  {
    few := SlotBuckets(h, key, group, 4, 64);
  }

  /** What sources of one group announce falls into at most 32 of the 256 new buckets, and of that, addresses of one group
      into a single one. */
  lemma FewNewBuckets(h: Hashing, key: seq<nat>, group: nat) returns (few: set<nat>)
    ensures |few| <= 32 && (forall b <- few :: b < 256)
    ensures forall info: AddrInfo, src: nat :: h.group(src) == group ==> NewBucket(h, key, info, src) in few
    ensures forall a: AddrInfo, b: AddrInfo, src: nat, src': nat :: h.group(src) == h.group(src') && h.group(a.ip) == h.group(b.ip) ==>
              NewBucket(h, key, a, src) == NewBucket(h, key, b, src')
  {
    few := SlotBuckets(h, key, group, 32, 256);
  }

  /** The numbers: 256 new and 64 tried buckets of at most 64 entries, and at most four references to an address. */
  lemma Limits(h: Hashing, t: Table)
    requires Ok(h, t, NoHole)
    ensures |t.vvNew| == 256 && forall b :: 0 <= b < 256 ==> |t.vvNew[b]| <= 64
    ensures |t.vvTried| == 64 && forall k :: 0 <= k < 64 ==> |t.vvTried[k]| <= 64
    ensures forall id <- t.mapInfo :: if t.mapInfo[id].fInTried then t.mapInfo[id].nRefCount == 0 else 1 <= t.mapInfo[id].nRefCount <= 4
  {
    forall k | 0 <= k < 64 ensures |t.vvTried[k]| <= 64 { assert TriedBucketOk(h, t, k); }
    forall id | id in t.mapInfo
      ensures if t.mapInfo[id].fInTried then t.mapInfo[id].nRefCount == 0 else 1 <= t.mapInfo[id].nRefCount <= 4
    {
      assert EntryOk(t, NoHole, id);
    }
  }

  function ElementsOf(s: seq<int>): set<int> { set x <- s }

  lemma {:induction false} Elements(s: seq<int>)
    ensures |ElementsOf(s)| <= |s|
  {
    if s != [] {
      var n := |s| - 1;
      Elements(s[..n]);
      assert s == s[..n] + [s[n]];
      assert ElementsOf(s) == ElementsOf(s[..n]) + {s[n]};
    }
  }

  function Held(vv: seq<seq<int>>, b: nat): set<int> { if b < |vv| then ElementsOf(vv[b]) else {} }

  /** What the buckets hold together. */
  function HeldBy(vv: seq<seq<int>>, buckets: set<nat>): set<int> { set b <- buckets, x <- Held(vv, b) :: x }

  lemma {:induction false} HeldAtMost(vv: seq<seq<int>>, buckets: set<nat>, size: nat)
    requires forall k :: 0 <= k < |vv| ==> |vv[k]| <= size
    ensures |HeldBy(vv, buckets)| <= |buckets| * size
    decreases buckets
  {
    hide ElementsOf;
    if buckets != {} {
      var b := Member(buckets);
      HeldAtMost(vv, buckets - {b}, size);
      if b < |vv| { Elements(vv[b]); }
      HeldSplit(vv, buckets, b);
      assert |buckets| == |buckets - {b}| + 1;
    }
  }

  lemma HeldSplit(vv: seq<seq<int>>, buckets: set<nat>, b: nat)
    requires b in buckets
    ensures HeldBy(vv, buckets) == HeldBy(vv, buckets - {b}) + Held(vv, b)
  {
    hide Held;
    forall x ensures x in HeldBy(vv, buckets) <==> x in HeldBy(vv, buckets - {b}) || x in Held(vv, b) {}
  }

  function TriedOf(h: Hashing, t: Table, group: nat): set<int> {
    set id <- t.mapInfo | t.mapInfo[id].fInTried && h.group(t.mapInfo[id].ip) == group
  }

  /** However many addresses of one group are good, at most 256 of them are in the tried table. */
  lemma GroupBound(h: Hashing, t: Table, group: nat)
    requires Ok(h, t, NoHole)
    ensures |TriedOf(h, t, group)| <= 256
  {
    Limits(h, t);
    var ids := TriedOf(h, t, group);
    var few := FewTriedBuckets(h, t.nKey, group);
    forall id | id in ids ensures id in HeldBy(t.vvTried, few) {
      var b := TriedBucket(h, t.nKey, t.mapInfo[id]);
      assert b in few && TriedBucketOk(h, t, b);
      assert id in t.vvTried[b] && id in Held(t.vvTried, b);
    }
    SubsetSize(ids, HeldBy(t.vvTried, few));
    HeldAtMost(t.vvTried, few, 64);
  }

  // ----- counting

  lemma {:induction false} CountUpdate(vv: seq<set<int>>, b: nat, s: set<int>, id: int)
    requires b < |vv|
    ensures Count(vv[b := s], id) == Count(vv, id) - (if id in vv[b] then 1 else 0) + (if id in s then 1 else 0)
  {
    var n := |vv| - 1;
    if b < n {
      assert vv[b := s][..n] == vv[..n][b := s];
      CountUpdate(vv[..n], b, s, id);
    } else {
      assert vv[b := s][..n] == vv[..n];
    }
  }

  lemma {:induction false} CountZero(vv: seq<set<int>>, id: int)
    ensures Count(vv, id) == 0 <==> forall b :: 0 <= b < |vv| ==> id !in vv[b]
    ensures Count(vv, id) <= |vv|
  {
    if vv != [] {
      CountZero(vv[..|vv| - 1], id);
      if Count(vv, id) == 0 {
        forall b | 0 <= b < |vv| ensures id !in vv[b] {
          if b < |vv| - 1 { assert vv[..|vv| - 1][b] == vv[b]; }
        }
      } else if id !in vv[|vv| - 1] {
        var b :| 0 <= b < |vv| - 1 && id in vv[..|vv| - 1][b];
        assert id in vv[b];
      }
    }
  }

  function Without(vv: seq<set<int>>, id: int): (r: seq<set<int>>)
    ensures |r| == |vv| && forall b :: 0 <= b < |vv| ==> r[b] == vv[b] - {id}
  {
    seq(|vv|, b requires 0 <= b < |vv| => vv[b] - {id})
  }

  lemma {:induction false} CountWithout(vv: seq<set<int>>, id: int, other: int)
    ensures Count(Without(vv, id), other) == if other == id then 0 else Count(vv, other)
  {
    if vv != [] {
      assert Without(vv, id)[..|vv| - 1] == Without(vv[..|vv| - 1], id);
      CountWithout(vv[..|vv| - 1], id, other);
    }
  }

  // ----- what a move leaves alone

  ghost predicate IsNew(t: Table, hole: Hole, id: int) { id in t.mapInfo && !t.mapInfo[id].fInTried && hole != Limbo(id) }

  ghost predicate IsTried(t: Table, id: int) { id in t.mapInfo && t.mapInfo[id].fInTried }

  /** The tried side is untouched. */
  ghost predicate SameTried(t: Table, t': Table) {
    && t'.vvTried == t.vvTried && t'.nKey == t.nKey && t'.nTried == t.nTried
    && (forall id :: IsTried(t', id) <==> IsTried(t, id))
    && forall id :: IsTried(t, id) ==> IsTried(t', id) && t'.mapInfo[id].ip == t.mapInfo[id].ip && t'.mapInfo[id].port == t.mapInfo[id].port
  }

  lemma TriedKeeps(h: Hashing, t: Table, t': Table)
    requires TriedOk(h, t) && SameTried(t, t')
    ensures TriedOk(h, t') && TriedIds(t') == TriedIds(t)
  {
    forall k | 0 <= k < TRIED_BUCKETS ensures TriedBucketOk(h, t', k) {
      assert TriedBucketOk(h, t, k);
      forall id ensures id in t'.vvTried[k] <==> IsTried(t', id) && TriedBucket(h, t.nKey, t'.mapInfo[id]) == k {
        assert IsTried(t', id) <==> IsTried(t, id);
      }
    }
    forall id ensures id in TriedIds(t') <==> id in TriedIds(t) { assert IsTried(t', id) <==> IsTried(t, id); }
  }

  /** One bucket's contents and one entry's place change. */
  lemma TriedChanges(h: Hashing, t: Table, t': Table, k: nat, id: int)
    requires TriedOk(h, t) && k < |t.vvTried| == |t'.vvTried| && t'.nKey == t.nKey
    requires t'.vvTried == t.vvTried[k := t'.vvTried[k]]
    requires forall i :: i != id ==> (IsTried(t', i) <==> IsTried(t, i))
    requires forall i :: i != id && IsTried(t, i) ==> IsTried(t', i) && t'.mapInfo[i] == t.mapInfo[i]
    requires IsTried(t, id) ==> TriedBucket(h, t.nKey, t.mapInfo[id]) == k
    requires IsTried(t', id) ==> TriedBucket(h, t.nKey, t'.mapInfo[id]) == k
    requires |t'.vvTried[k]| <= BUCKET_SIZE
    requires forall i, j :: 0 <= i < j < |t'.vvTried[k]| ==> t'.vvTried[k][i] != t'.vvTried[k][j]
    requires forall i :: i in t'.vvTried[k] <==> if i == id then IsTried(t', id) else i in t.vvTried[k]
    ensures TriedOk(h, t')
  {
    assert TriedBucketOk(h, t, k);
    forall c | 0 <= c < TRIED_BUCKETS ensures TriedBucketOk(h, t', c) {
      assert TriedBucketOk(h, t, c);
      forall i ensures i in t'.vvTried[c] <==> IsTried(t', i) && TriedBucket(h, t.nKey, t'.mapInfo[i]) == c {
        if i != id { assert IsTried(t', i) <==> IsTried(t, i); }
      }
    }
  }

  lemma NewIdsKeep(t: Table, hole: Hole, t': Table, hole': Hole)
    requires forall id :: IsNew(t', hole', id) <==> IsNew(t, hole, id)
    ensures NewIds(t', hole') == NewIds(t, hole)
  {
    forall id ensures id in NewIds(t', hole') <==> id in NewIds(t, hole) { assert IsNew(t', hole', id) <==> IsNew(t, hole, id); }
  }

  lemma NewIdsGain(t: Table, hole: Hole, t': Table, hole': Hole, id: int)
    requires !IsNew(t, hole, id) && IsNew(t', hole', id)
    requires forall i :: i != id ==> (IsNew(t', hole', i) <==> IsNew(t, hole, i))
    ensures |NewIds(t', hole')| == |NewIds(t, hole)| + 1
  {
    forall i ensures i in NewIds(t', hole') <==> i in NewIds(t, hole) + {id} {
      if i != id { assert IsNew(t', hole', i) <==> IsNew(t, hole, i); }
    }
    assert NewIds(t', hole') == NewIds(t, hole) + {id};
  }

  lemma TriedIdsGain(t: Table, t': Table, id: int)
    requires !IsTried(t, id) && IsTried(t', id)
    requires forall i :: i != id ==> (IsTried(t', i) <==> IsTried(t, i))
    ensures |TriedIds(t')| == |TriedIds(t)| + 1
  {
    forall i ensures i in TriedIds(t') <==> i in TriedIds(t) + {id} {
      if i != id { assert IsTried(t', i) <==> IsTried(t, i); }
    }
    assert TriedIds(t') == TriedIds(t) + {id};
  }

  /** One entry changes neither its address nor its place in vRandom. */
  lemma IndexesKeep(t: Table, t': Table, id: int)
    requires RandomOk(t) && AddrOk(t) && t'.vRandom == t.vRandom && t'.mapAddr == t.mapAddr
    requires id in t.mapInfo && id in t'.mapInfo && t'.mapInfo == t.mapInfo[id := t'.mapInfo[id]]
    requires t'.mapInfo[id].ip == t.mapInfo[id].ip && t'.mapInfo[id].nRandomPos == t.mapInfo[id].nRandomPos
    ensures RandomOk(t') && AddrOk(t')
  {}

  // ----- elementary moves

  /** Create: a new entry at the end of vRandom. */
  function Created(t: Table, info: AddrInfo): Table {
    t.(nIdCount := t.nIdCount + 1,
       mapInfo := t.mapInfo[t.nIdCount := info.(nRandomPos := |t.vRandom|)],
       mapAddr := t.mapAddr[info.ip := t.nIdCount],
       vRandom := t.vRandom + [t.nIdCount])
  }

  lemma CreatedIndexes(t: Table, info: AddrInfo)
    requires RandomOk(t) && AddrOk(t) && info.ip !in t.mapAddr && t.nIdCount !in t.mapInfo
    ensures RandomOk(Created(t, info)) && AddrOk(Created(t, info))
  {}

  lemma CreatedEntries(t: Table, info: AddrInfo)
    requires EntriesOk(t, NoHole) && NewOk(t) && t.nIdCount !in t.mapInfo
    requires info.nRefCount == 0 && !info.fInTried && info.nLastTry >= 0 && info.nLastSuccess >= 0 && t.nIdCount >= 0
    ensures EntriesOk(Created(t, info), Limbo(t.nIdCount)) && NewOk(Created(t, info))
  {
    var id, t' := t.nIdCount, Created(t, info);
    CountZero(t.vvNew, id);
    forall i | i in t'.mapInfo ensures EntryOk(t', Limbo(id), i) {
      if i != id { assert EntryOk(t, NoHole, i); }
    }
  }

  lemma CreatedOk(h: Hashing, t: Table, info: AddrInfo)
    requires Ok(h, t, NoHole) && info.ip !in t.mapAddr
    requires info.nRefCount == 0 && !info.fInTried && info.nLastTry >= 0 && info.nLastSuccess >= 0
    ensures Ok(h, Created(t, info), Limbo(t.nIdCount))
  {
    hide TriedOk, NewIds, TriedIds, RandomOk, AddrOk;
    var id, t' := t.nIdCount, Created(t, info);
    forall i | i in t.mapInfo ensures i != id { assert EntryOk(t, NoHole, i); }
    CreatedIndexes(t, info);
    CreatedEntries(t, info);
    TriedKeeps(h, t, t');
    NewIdsKeep(t, NoHole, t', Limbo(id));
  }

  // ----- moves that leave the buckets alone

  /** Same entries, buckets and counters; only statistics and positions in vRandom may differ. */
  ghost predicate SameEntries(t: Table, t': Table) {
    && t' == t.(mapInfo := t'.mapInfo, vRandom := t'.vRandom)
    && t'.mapInfo.Keys == t.mapInfo.Keys
    && forall id <- t.mapInfo :: SameEntry(t.mapInfo[id], t'.mapInfo[id])
  }

  predicate SameEntry(a: AddrInfo, b: AddrInfo) {
    && b.ip == a.ip && b.port == a.port && b.nRefCount == a.nRefCount && b.fInTried == a.fInTried
    && b.nLastTry >= 0 && b.nLastSuccess >= 0 && (b.fInTried ==> b.nLastSuccess > 0)
  }

  lemma SameEntriesAddr(t: Table, t': Table)
    requires AddrOk(t) && SameEntries(t, t')
    ensures AddrOk(t')
  {}

  lemma SameEntriesOk(h: Hashing, t: Table, t': Table, hole: Hole)
    requires Ok(h, t, hole) && SameEntries(t, t') && RandomOk(t')
    ensures Ok(h, t', hole)
  {
    hide TriedOk, NewIds, TriedIds, RandomOk, AddrOk;
    assert forall id :: id in t'.mapInfo <==> id in t.mapInfo by { assert t'.mapInfo.Keys == t.mapInfo.Keys; }
    SameEntriesAddr(t, t');
    forall id | id in t'.mapInfo ensures EntryOk(t', hole, id) { assert EntryOk(t, hole, id); }
    TriedKeeps(h, t, t');
    NewIdsKeep(t, hole, t', hole);
  }

  /** SwapRandom: exchanges two positions of vRandom. */
  function Swapped(t: Table, p1: nat, p2: nat): Table
    requires p1 < |t.vRandom| && p2 < |t.vRandom| && t.vRandom[p1] in t.mapInfo && t.vRandom[p2] in t.mapInfo
  {
    if p1 == p2 then t else
      var id1, id2 := t.vRandom[p1], t.vRandom[p2];
      var m1 := t.mapInfo[id1 := t.mapInfo[id1].(nRandomPos := p2)];
      t.(mapInfo := m1[id2 := m1[id2].(nRandomPos := p1)], vRandom := t.vRandom[p1 := id2][p2 := id1])
  }

  lemma SwappedOk(h: Hashing, t: Table, p1: nat, p2: nat, hole: Hole)
    requires Ok(h, t, hole) && p1 < |t.vRandom| && p2 < |t.vRandom|
    ensures t.vRandom[p1] in t.mapInfo && t.vRandom[p2] in t.mapInfo
    ensures Ok(h, Swapped(t, p1, p2), hole)
  {
    hide TriedOk, NewOk, CountsOk, HoleOk, AddrOk;
    SwappedRandom(t, p1, p2);
    var t' := Swapped(t, p1, p2);
    forall id | id in t.mapInfo ensures SameEntry(t.mapInfo[id], t'.mapInfo[id]) { assert EntryOk(t, hole, id); }
    SameEntriesOk(h, t, t', hole);
  }

  lemma SwappedRandom(t: Table, p1: nat, p2: nat)
    requires RandomOk(t) && p1 < |t.vRandom| && p2 < |t.vRandom|
    ensures t.vRandom[p1] in t.mapInfo && t.vRandom[p2] in t.mapInfo
    ensures RandomOk(Swapped(t, p1, p2))
  {}

  // ----- moves out of and into the new buckets

  /** One reference fewer: `id` leaves new bucket b but stays in another one. */
  function Released(t: Table, b: nat, id: int): Table
    requires b < |t.vvNew| && id in t.mapInfo
  {
    t.(mapInfo := t.mapInfo[id := t.mapInfo[id].(nRefCount := t.mapInfo[id].nRefCount - 1)],
       vvNew := t.vvNew[b := t.vvNew[b] - {id}])
  }

  /** What being listed in a new bucket says about an entry. */
  lemma ListedIsNew(h: Hashing, t: Table, b: nat, id: int, hole: Hole)
    requires Ok(h, t, hole) && b < NEW_BUCKETS && id in t.vvNew[b]
    ensures id in t.mapInfo && !t.mapInfo[id].fInTried && hole != Limbo(id) && t.mapInfo[id].nRefCount >= 1
  {
    CountZero(t.vvNew, id);
    assert EntryOk(t, hole, id);
  }

  lemma ReleasedOk(h: Hashing, t: Table, b: nat, id: int, hole: Hole)
    requires Ok(h, t, hole) && b < NEW_BUCKETS && id in t.vvNew[b] && (hole != NoHole ==> hole.id != id)
    requires id in t.mapInfo && t.mapInfo[id].nRefCount > 1
    ensures Ok(h, Released(t, b, id), hole)
  {
    hide TriedOk, NewIds, TriedIds, RandomOk, AddrOk;
    ListedIsNew(h, t, b, id, hole);
    var t' := Released(t, b, id);
    IndexesKeep(t, t', id);
    forall i | i in t'.mapInfo ensures EntryOk(t', hole, i) {
      assert EntryOk(t, hole, i);
      CountUpdate(t.vvNew, b, t.vvNew[b] - {id}, i);
    }
    TriedKeeps(h, t, t');
    NewIdsKeep(t, hole, t', hole);
  }

  /** The last reference: the entry at the end of vRandom is deleted altogether. */
  function Deleted(t: Table, b: nat, id: int): Table
    requires b < |t.vvNew| && id in t.mapInfo && t.vRandom != []
  {
    t.(mapInfo := t.mapInfo - {id}, mapAddr := t.mapAddr - {t.mapInfo[id].ip}, vRandom := t.vRandom[..|t.vRandom| - 1],
       nNew := t.nNew - 1, vvNew := t.vvNew[b := t.vvNew[b] - {id}])
  }

  lemma DeletedEntries(h: Hashing, t: Table, b: nat, id: int, hole: Hole)
    requires Ok(h, t, hole) && b < NEW_BUCKETS && id in t.vvNew[b] && (hole != NoHole ==> hole.id != id)
    requires id in t.mapInfo && t.mapInfo[id].nRefCount == 1 && t.vRandom != []
    ensures EntriesOk(Deleted(t, b, id), hole) && NewOk(Deleted(t, b, id))
  {
    hide TriedOk, NewIds, TriedIds, RandomOk, AddrOk;
    var t' := Deleted(t, b, id);
    assert EntryOk(t, hole, id);
    CountUpdate(t.vvNew, b, t.vvNew[b] - {id}, id);
    CountZero(t.vvNew, id);
    CountZero(t'.vvNew, id);
    forall i | i in t'.mapInfo ensures EntryOk(t', hole, i) {
      assert EntryOk(t, hole, i);
      CountUpdate(t.vvNew, b, t.vvNew[b] - {id}, i);
    }
  }

  lemma {:induction false} DeletedOk(h: Hashing, t: Table, b: nat, id: int, hole: Hole)
    requires Ok(h, t, hole) && b < NEW_BUCKETS && id in t.vvNew[b] && (hole != NoHole ==> hole.id != id)
    requires id in t.mapInfo && t.mapInfo[id].nRefCount == 1 && t.mapInfo[id].nRandomPos == |t.vRandom| - 1
    ensures t.vRandom != [] && Ok(h, Deleted(t, b, id), hole)
  {
    hide TriedOk, NewIds, TriedIds, EntriesOk;
    ListedIsNew(h, t, b, id, hole);
    DeletedEntries(h, t, b, id, hole);
    var t' := Deleted(t, b, id);
    TriedKeeps(h, t, t');
    NewIdsGain(t', hole, t, hole, id);
  }

  /** ShrinkNew's removal: one reference fewer, and with the last one the entry itself goes. */
  function Dropped(t: Table, b: nat, id: int): Table
    requires b < |t.vvNew| && id in t.mapInfo && 0 <= t.mapInfo[id].nRandomPos < |t.vRandom|
    requires t.vRandom[t.mapInfo[id].nRandomPos] == id && t.vRandom[|t.vRandom| - 1] in t.mapInfo
  {
    if t.mapInfo[id].nRefCount > 1 then Released(t, b, id)
    else Deleted(Swapped(t, t.mapInfo[id].nRandomPos, |t.vRandom| - 1), b, id)
  }

  lemma DroppedOk(h: Hashing, t: Table, b: nat, id: int, hole: Hole)
    requires Ok(h, t, hole) && b < NEW_BUCKETS && id in t.vvNew[b] && (hole != NoHole ==> hole.id != id)
    requires id in t.mapInfo && 0 <= t.mapInfo[id].nRandomPos < |t.vRandom|
    requires t.vRandom[t.mapInfo[id].nRandomPos] == id && t.vRandom[|t.vRandom| - 1] in t.mapInfo
    ensures Ok(h, Dropped(t, b, id), hole)
  {
    hide Ok;
    ListedIsNew(h, t, b, id, hole);
    Shape(h, t, hole);
    if t.mapInfo[id].nRefCount > 1 {
      ReleasedOk(h, t, b, id, hole);
    } else {
      var p := t.mapInfo[id].nRandomPos;
      SwappedOk(h, t, p, |t.vRandom| - 1, hole);
      DeletedOk(h, Swapped(t, p, |t.vRandom| - 1), b, id, hole);
    }
  }

  lemma Shape(h: Hashing, t: Table, hole: Hole)
    requires Ok(h, t, hole)
    ensures |t.vvNew| == NEW_BUCKETS && |t.vvTried| == TRIED_BUCKETS
    ensures t.vRandom != [] ==> t.vRandom[|t.vRandom| - 1] in t.mapInfo
    ensures t.vRandom != [] ==> t.mapInfo[t.vRandom[|t.vRandom| - 1]].nRandomPos == |t.vRandom| - 1
  {}

  /** A reference about to be made: counted on the entry before the bucket knows it. */
  function Referenced(t: Table, id: int, isNew: bool): Table
    requires id in t.mapInfo
  {
    t.(mapInfo := t.mapInfo[id := t.mapInfo[id].(nRefCount := t.mapInfo[id].nRefCount + 1)],
       nNew := t.nNew + if isNew then 1 else 0)
  }

  lemma ReferencedOk(h: Hashing, t: Table, id: int, isNew: bool)
    requires Ok(h, t, if isNew then Limbo(id) else NoHole) && id in t.mapInfo
    requires !t.mapInfo[id].fInTried && t.mapInfo[id].nRefCount < BUCKETS_PER_ADDRESS
    ensures Ok(h, Referenced(t, id, isNew), Pending(id))
  {
    hide TriedOk, NewIds, TriedIds, RandomOk, AddrOk;
    var t', was := Referenced(t, id, isNew), if isNew then Limbo(id) else NoHole;
    IndexesKeep(t, t', id);
    forall i | i in t'.mapInfo ensures EntryOk(t', Pending(id), i) { assert EntryOk(t, was, i); }
    TriedKeeps(h, t, t');
    if isNew { NewIdsGain(t, was, t', Pending(id), id); } else { NewIdsKeep(t, was, t', Pending(id)); }
  }

  function Inserted(t: Table, b: nat, id: int): Table
    requires b < |t.vvNew|
  {
    t.(vvNew := t.vvNew[b := t.vvNew[b] + {id}])
  }

  lemma InsertedOk(h: Hashing, t: Table, b: nat, id: int)
    requires Ok(h, t, Pending(id)) && b < NEW_BUCKETS && id !in t.vvNew[b] && |t.vvNew[b]| < BUCKET_SIZE
    ensures Ok(h, Inserted(t, b, id), NoHole)
  {
    hide TriedOk, NewIds, TriedIds;
    var t' := Inserted(t, b, id);
    forall i | i in t'.mapInfo ensures EntryOk(t', NoHole, i) {
      assert EntryOk(t, Pending(id), i);
      CountUpdate(t.vvNew, b, t.vvNew[b] + {id}, i);
    }
    TriedKeeps(h, t, t');
    NewIdsKeep(t, Pending(id), t', NoHole);
  }

  // ----- moves between new and tried

  /** The entry leaves every new bucket. */
  function Unlisted(t: Table, id: int): Table
    requires id in t.mapInfo
  {
    t.(mapInfo := t.mapInfo[id := t.mapInfo[id].(nRefCount := 0)], vvNew := Without(t.vvNew, id), nNew := t.nNew - 1)
  }

  lemma UnlistedNew(t: Table, id: int)
    requires NewOk(t) && id in t.mapInfo
    ensures NewOk(Unlisted(t, id))
  {}

  lemma UnlistedOk(h: Hashing, t: Table, id: int)
    requires Ok(h, t, NoHole) && id in t.mapInfo && !t.mapInfo[id].fInTried
    ensures t.mapInfo[id].nRefCount == Count(t.vvNew, id)
    ensures Ok(h, Unlisted(t, id), Limbo(id))
  {
    hide TriedOk, NewIds, TriedIds, NewOk, RandomOk, AddrOk;
    var t' := Unlisted(t, id);
    IndexesKeep(t, t', id);
    assert EntryOk(t, NoHole, id);
    forall i | i in t'.mapInfo ensures EntryOk(t', Limbo(id), i) {
      assert EntryOk(t, NoHole, i);
      CountWithout(t.vvNew, id, i);
    }
    UnlistedNew(t, id);
    TriedKeeps(h, t, t');
    NewIdsGain(t', Limbo(id), t, NoHole, id);
  }

  /** The entry enters a tried bucket, whose new contents are `s`. */
  function Promoted(t: Table, id: int, k: nat, s: seq<int>): Table
    requires id in t.mapInfo && k < |t.vvTried|
  {
    t.(mapInfo := t.mapInfo[id := t.mapInfo[id].(fInTried := true)], vvTried := t.vvTried[k := s], nTried := t.nTried + 1)
  }

  lemma PromotedOk(h: Hashing, t: Table, id: int, k: nat, s: seq<int>)
    requires Ok(h, t, Limbo(id)) && id in t.mapInfo && t.mapInfo[id].nLastSuccess > 0
    requires k == TriedBucket(h, t.nKey, t.mapInfo[id]) && k < |t.vvTried|
    requires |s| <= BUCKET_SIZE && (forall i, j :: 0 <= i < j < |s| ==> s[i] != s[j])
    requires forall i :: i in s <==> i == id || i in t.vvTried[k]
    ensures Ok(h, Promoted(t, id, k, s), NoHole)
  {
    hide NewIds, TriedIds, TriedOk;
    var t' := Promoted(t, id, k, s);
    forall i | i in t'.mapInfo ensures EntryOk(t', NoHole, i) { assert EntryOk(t, Limbo(id), i); }
    TriedSize(h, t);
    TriedChanges(h, t, t', k, id);
    TriedIdsGain(t, t', id);
    NewIdsKeep(t, Limbo(id), t', NoHole);
  }

  lemma TriedSize(h: Hashing, t: Table)
    requires TriedOk(h, t)
    ensures |t.vvTried| == TRIED_BUCKETS
  {}

  /** A tried entry goes back to a new bucket with room; its tried bucket is left with `s`. */
  function Demoted(t: Table, id: int, k: nat, s: seq<int>, b: nat): Table
    requires id in t.mapInfo && k < |t.vvTried| && b < |t.vvNew|
  {
    t.(mapInfo := t.mapInfo[id := t.mapInfo[id].(fInTried := false, nRefCount := 1)],
       vvTried := t.vvTried[k := s], nTried := t.nTried - 1, vvNew := t.vvNew[b := t.vvNew[b] + {id}], nNew := t.nNew + 1)
  }

  lemma InTriedBucket(h: Hashing, t: Table, k: nat, id: int)
    requires TriedOk(h, t) && k < TRIED_BUCKETS && id in t.vvTried[k]
    ensures IsTried(t, id) && TriedBucket(h, t.nKey, t.mapInfo[id]) == k && |t.vvTried[k]| <= BUCKET_SIZE
  {
    assert TriedBucketOk(h, t, k);
  }

  lemma DemotedEntries(t: Table, id: int, k: nat, s: seq<int>, b: nat, hole: Hole)
    requires EntriesOk(t, hole) && NewOk(t) && k < |t.vvTried| && b < NEW_BUCKETS && |t.vvNew[b]| < BUCKET_SIZE
    requires IsTried(t, id)
    ensures Demoted(t, id, k, s, b).nIdCount == t.nIdCount
    ensures EntriesOk(Demoted(t, id, k, s, b), hole) && NewOk(Demoted(t, id, k, s, b))
  {
    var t' := Demoted(t, id, k, s, b);
    assert EntryOk(t, hole, id);
    forall i | i in t'.mapInfo ensures EntryOk(t', hole, i) {
      assert EntryOk(t, hole, i);
      CountUpdate(t.vvNew, b, t.vvNew[b] + {id}, i);
      CountZero(t.vvNew, id);
    }
  }

  lemma DemotedOk(h: Hashing, t: Table, id: int, k: nat, s: seq<int>, b: nat, hole: Hole)
    requires Ok(h, t, hole) && k < |t.vvTried| && b < NEW_BUCKETS && |t.vvNew[b]| < BUCKET_SIZE
    requires id in t.vvTried[k] && |s| < |t.vvTried[k]| && (forall i, j :: 0 <= i < j < |s| ==> s[i] != s[j])
    requires forall i :: i in s <==> i != id && i in t.vvTried[k]
    ensures id in t.mapInfo && Ok(h, Demoted(t, id, k, s, b), hole)
  {
    hide NewIds, TriedIds, TriedOk, RandomOk, AddrOk;
    TriedSize(h, t);
    InTriedBucket(h, t, k, id);
    assert EntryOk(t, hole, id);
    var t' := Demoted(t, id, k, s, b);
    DemotedEntries(t, id, k, s, b, hole);
    DemotedRest(h, t, id, k, s, b, hole);
    IndexesKeep(t, t', id);
  }

  lemma DemotedRest(h: Hashing, t: Table, id: int, k: nat, s: seq<int>, b: nat, hole: Hole)
    requires TriedOk(h, t) && CountsOk(t, hole) && k < |t.vvTried| && b < |t.vvNew| && HoleOk(t, hole)
    requires id in t.vvTried[k] && |s| < |t.vvTried[k]| && (forall i, j :: 0 <= i < j < |s| ==> s[i] != s[j])
    requires forall i :: i in s <==> i != id && i in t.vvTried[k]
    ensures id in t.mapInfo && TriedOk(h, Demoted(t, id, k, s, b)) && CountsOk(Demoted(t, id, k, s, b), hole)
  {
    hide NewIds, TriedIds, TriedOk;
    TriedSize(h, t);
    InTriedBucket(h, t, k, id);
    var t' := Demoted(t, id, k, s, b);
    TriedChanges(h, t, t', k, id);
    TriedIdsGain(t', t, id);
    NewIdsGain(t, hole, t', hole, id);
  }

  /** A tried bucket may be reordered freely. */
  lemma ReorderedOk(h: Hashing, t: Table, k: nat, s: seq<int>, hole: Hole)
    requires Ok(h, t, hole) && k < TRIED_BUCKETS && |s| == |t.vvTried[k]|
    requires (forall i, j :: 0 <= i < j < |s| ==> s[i] != s[j]) && forall i :: i in s <==> i in t.vvTried[k]
    ensures Ok(h, t.(vvTried := t.vvTried[k := s]), hole)
  {
    var t' := t.(vvTried := t.vvTried[k := s]);
    forall i | i in t'.mapInfo ensures EntryOk(t', hole, i) { assert EntryOk(t, hole, i); }
    forall c | 0 <= c < TRIED_BUCKETS ensures TriedBucketOk(h, t', c) { assert TriedBucketOk(h, t, c); }
    NewIdsKeep(t, hole, t', hole);
    assert TriedIds(t') == TriedIds(t);
  }
}
