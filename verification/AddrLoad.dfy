/** Loading saved address tables, and the round trip. */
module AddrLoad {
  import opened Arith
  import opened Wrappers
  import opened AddrTable
  import opened AddrMan
  import opened AddrStore

  /** A file that does not end early and names only entries it holds. */
  ghost predicate Complete(s: File) {
    && s.nNew >= 0 && s.nTried >= 0 && |s.infos| == s.nNew + s.nTried
    && s.nUBuckets == |s.buckets| <= NEW_BUCKETS
    && forall b :: 0 <= b < |s.buckets| ==> forall i <- s.buckets[b] :: 0 <= i < s.nNew
  }

  function BucketOfInfo(h: Hashing, s: File, i: nat): nat
    requires i < |s.infos|
  {
    TriedBucket(h, s.nKey, Restore(s.infos[i]))
  }

  /** How many of the tried entries before position n belong in bucket k. */
  function Tally(h: Hashing, s: File, k: nat, n: nat): nat
    requires 0 <= s.nNew <= n <= |s.infos|
    decreases n
  {
    if n == s.nNew then 0 else Tally(h, s, k, n - 1) + if BucketOfInfo(h, s, n - 1) == k then 1 else 0
  }

  function Members(s: seq<int>): set<int> { set i <- s }

  /** The new buckets as sets. */
  function Full(s: File): (vv: seq<set<int>>)
    ensures |vv| == |s.buckets| && forall b :: 0 <= b < |vv| ==> vv[b] == Members(s.buckets[b])
  {
    seq(|s.buckets|, b requires 0 <= b < |s.buckets| => Members(s.buckets[b]))
  }

  /** The bucket a new entry falls into if the buckets are not read from the file. */
  function OwnBucket(h: Hashing, s: File, i: nat): nat
    requires i < |s.infos|
  {
    NewBucket(h, s.nKey, Restore(s.infos[i]), s.infos[i].source)
  }

  /** The new buckets made of the first n entries, each in its own. */
  function Rebuilt(h: Hashing, s: File, n: nat): (vv: seq<set<int>>)
    requires n <= |s.infos|
    ensures |vv| == NEW_BUCKETS
    ensures forall b :: 0 <= b < NEW_BUCKETS ==> forall i :: i in vv[b] <==> 0 <= i < n && OwnBucket(h, s, i) == b
  {
    seq(NEW_BUCKETS, b requires 0 <= b < NEW_BUCKETS => set i | 0 <= i < n && OwnBucket(h, s, i) == b)
  }

  /** How often the lists name an entry. */
  function Times(buckets: seq<seq<int>>, i: int): nat {
    if buckets == [] then 0 else Times(buckets[..|buckets| - 1], i) + multiset(buckets[|buckets| - 1])[i]
  }

  /** Every entry has an address of its own and is good if it is tried, and the tried buckets can hold theirs. */
  ghost predicate SoundInfos(h: Hashing, s: File) {
    && Complete(s)
    && (forall i, j :: 0 <= i < j < |s.infos| ==> s.infos[i].ip != s.infos[j].ip)
    && (forall i :: 0 <= i < |s.infos| ==> s.infos[i].nLastSuccess >= 0 && (i >= s.nNew ==> s.infos[i].nLastSuccess > 0))
    && (forall k :: 0 <= k < TRIED_BUCKETS ==> Tally(h, s, k, |s.infos|) <= BUCKET_SIZE)
  }

  /** The file describes tables within their limits. */
  ghost predicate Sound(h: Hashing, s: File) {
    && SoundInfos(h, s) && s.nUBuckets == NEW_BUCKETS
    && (forall b :: 0 <= b < NEW_BUCKETS ==> |s.buckets[b]| <= BUCKET_SIZE && Distinct(s.buckets[b]))
    && forall i :: 0 <= i < s.nNew ==> 1 <= Count(Full(s), i) <= BUCKETS_PER_ADDRESS
  }

  function Entry(s: File, i: nat, nRefCount: int): AddrInfo
    requires i < |s.infos|
  {
    Restore(s.infos[i]).(nRandomPos := i, fInTried := i >= s.nNew, nRefCount := nRefCount)
  }

  // ----- what Unserialize builds

  /** The first n entries are in place; `refs` says how often each new one is listed so far. */
  ghost predicate LoadedInfos(s: File, m: map<int, AddrInfo>, mapAddr: map<nat, int>, vRandom: seq<int>, n: nat, vvNew: seq<set<int>>) {
    && n <= |s.infos|
    && (forall i :: i in m <==> 0 <= i < n)
    && (forall i :: 0 <= i < n ==> m[i] == Entry(s, i, if i < s.nNew then Count(vvNew, i) else 0))
    && (forall i :: 0 <= i < n ==> s.infos[i].ip in mapAddr && mapAddr[s.infos[i].ip] == i)
    && (forall a <- mapAddr :: 0 <= mapAddr[a] < n && s.infos[mapAddr[a]].ip == a)
    && |vRandom| == n && forall i :: 0 <= i < n ==> vRandom[i] == i
  }

  ghost predicate LoadedTried(h: Hashing, s: File, vvTried: seq<seq<int>>, n: nat) {
    && 0 <= s.nNew <= n <= |s.infos| && |vvTried| == TRIED_BUCKETS
    && forall k :: 0 <= k < TRIED_BUCKETS ==> LoadedBucket(h, s, vvTried[k], k, n)
  }

  ghost predicate LoadedBucket(h: Hashing, s: File, vTried: seq<int>, k: nat, n: nat)
    requires 0 <= s.nNew <= n <= |s.infos|
  {
    && |vTried| == Tally(h, s, k, n) && Distinct(vTried)
    && forall i :: i in vTried <==> s.nNew <= i < n && BucketOfInfo(h, s, i) == k
  }

  ghost predicate Loaded(h: Hashing, s: File, t: Table) {
    && t.nKey == s.nKey && t.nIdCount == |s.infos| && t.nNew == s.nNew && t.nTried == s.nTried
    && LoadedInfos(s, t.mapInfo, t.mapAddr, t.vRandom, |s.infos|, t.vvNew)
    && LoadedTried(h, s, t.vvTried, |s.infos|)
    && t.vvNew == if s.nUBuckets == NEW_BUCKETS then Full(s) else Rebuilt(h, s, s.nNew)
  }

  lemma LoadNext(s: File, m: map<int, AddrInfo>, mapAddr: map<nat, int>, vRandom: seq<int>, n: nat, vvNew: seq<set<int>>)
    requires LoadedInfos(s, m, mapAddr, vRandom, n, vvNew) && n < |s.infos|
    requires forall i, j :: 0 <= i < j < |s.infos| ==> s.infos[i].ip != s.infos[j].ip
    requires n < s.nNew ==> Count(vvNew, n) == 0
    ensures LoadedInfos(s, m[n := Entry(s, n, 0)], mapAddr[s.infos[n].ip := n], vRandom + [n], n + 1, vvNew)
  {}

  lemma TriedNext(h: Hashing, s: File, vvTried: seq<seq<int>>, n: nat)
    requires LoadedTried(h, s, vvTried, n) && n < |s.infos|
    ensures LoadedTried(h, s, vvTried[BucketOfInfo(h, s, n) := vvTried[BucketOfInfo(h, s, n)] + [n]], n + 1)
  {}

  lemma {:induction false} TallyGrows(h: Hashing, s: File, k: nat, n: nat)
    requires 0 <= s.nNew <= n <= |s.infos|
    ensures Tally(h, s, k, n) <= Tally(h, s, k, |s.infos|)
    decreases |s.infos| - n
  {
    if n < |s.infos| { TallyGrows(h, s, k, n + 1); }
  }

  lemma Room(h: Hashing, s: File, vvTried: seq<seq<int>>, n: nat)
    requires SoundInfos(h, s) && LoadedTried(h, s, vvTried, n) && n < |s.infos|
    ensures |vvTried[BucketOfInfo(h, s, n)]| < BUCKET_SIZE
  {
    var k := BucketOfInfo(h, s, n);
    assert LoadedBucket(h, s, vvTried[k], k, n);
    TallyGrows(h, s, k, n + 1);
  }

  // ----- the new buckets, index by index

  /** Buckets before b are read, bucket b up to position n, the others are empty. */
  ghost predicate ReadTo(s: File, vvNew: seq<set<int>>, b: nat, n: nat) {
    && b < |s.buckets| == |vvNew| && n <= |s.buckets[b]|
    && (forall c :: 0 <= c < b ==> vvNew[c] == Members(s.buckets[c]))
    && vvNew[b] == Members(s.buckets[b][..n])
    && forall c :: b < c < |vvNew| ==> vvNew[c] == {}
  }

  lemma {:induction false} CountSubsets(vv: seq<set<int>>, ww: seq<set<int>>, id: int)
    requires |vv| == |ww| && forall b :: 0 <= b < |vv| ==> vv[b] <= ww[b]
    ensures Count(vv, id) <= Count(ww, id)
  {
    if vv != [] { CountSubsets(vv[..|vv| - 1], ww[..|ww| - 1], id); }
  }

  /** The next index is fresh in its bucket and below its limit of references. */
  lemma ReadNext(h: Hashing, s: File, vvNew: seq<set<int>>, b: nat, n: nat)
    requires Sound(h, s) && ReadTo(s, vvNew, b, n) && n < |s.buckets[b]|
    ensures var i := s.buckets[b][n];
      && 0 <= i < s.nNew && Count(vvNew, i) < BUCKETS_PER_ADDRESS
      && ReadTo(s, vvNew[b := vvNew[b] + {i}], b, n + 1)
      && forall j :: Count(vvNew[b := vvNew[b] + {i}], j) == Count(vvNew, j) + if j == i then 1 else 0
  {
    var i := s.buckets[b][n];
    var next := vvNew[b := vvNew[b] + {i}];
    assert i in s.buckets[b];
    assert s.buckets[b][..n + 1] == s.buckets[b][..n] + [i];
    assert Distinct(s.buckets[b]);
    assert i !in s.buckets[b][..n];
    forall j ensures Count(next, j) == Count(vvNew, j) + if j == i then 1 else 0 {
      CountUpdate(vvNew, b, vvNew[b] + {i}, j);
    }
    CountSubsets(next, Full(s), i);
  }

  lemma ReadBucket(s: File, vvNew: seq<set<int>>, b: nat)
    requires b < |s.buckets| && ReadTo(s, vvNew, b, |s.buckets[b]|)
    ensures if b + 1 < |s.buckets| then ReadTo(s, vvNew, b + 1, 0) else vvNew == Full(s)
  {
    assert s.buckets[b][..|s.buckets[b]|] == s.buckets[b];
    if b + 1 == |s.buckets| {
      assert forall c :: 0 <= c < |vvNew| ==> vvNew[c] == Full(s)[c];
    }
  }

  lemma {:induction false} NoneListed(vv: seq<set<int>>, id: int)
    requires forall b :: 0 <= b < |vv| ==> vv[b] == {}
    ensures Count(vv, id) == 0
  {
    CountZero(vv, id);
  }

  /** Each tried bucket keeps what belongs in it, up to its limit. */
  ghost predicate TriedKept(h: Hashing, s: File, vvTried: seq<seq<int>>, n: nat)
    requires 0 <= s.nNew <= n <= |s.infos| && |vvTried| == TRIED_BUCKETS
  {
    forall k :: 0 <= k < TRIED_BUCKETS ==> |vvTried[k]| == Min(BUCKET_SIZE, Tally(h, s, k, n))
  }

  /** No bucket is due more than its limit. */
  ghost predicate NoneOver(h: Hashing, s: File, n: nat)
    requires 0 <= s.nNew <= n <= |s.infos|
  {
    forall k :: 0 <= k < TRIED_BUCKETS ==> Tally(h, s, k, n) <= BUCKET_SIZE
  }

  lemma KeptNext(h: Hashing, s: File, vvTried: seq<seq<int>>, n: nat, id: int)
    requires 0 <= s.nNew <= n < |s.infos| && |vvTried| == TRIED_BUCKETS && TriedKept(h, s, vvTried, n)
    ensures var k := BucketOfInfo(h, s, n);
      if |vvTried[k]| < BUCKET_SIZE then
        TriedKept(h, s, vvTried[k := vvTried[k] + [id]], n + 1) && (NoneOver(h, s, n + 1) <==> NoneOver(h, s, n))
      else TriedKept(h, s, vvTried, n + 1) && !NoneOver(h, s, n + 1)
  {
    assert forall k :: 0 <= k < TRIED_BUCKETS ==>
      Tally(h, s, k, n + 1) == Tally(h, s, k, n) + if BucketOfInfo(h, s, n) == k then 1 else 0;
  }

  lemma KeptStart(h: Hashing, s: File, vvTried: seq<seq<int>>)
    requires Complete(s) && |vvTried| == TRIED_BUCKETS && forall k :: 0 <= k < TRIED_BUCKETS ==> vvTried[k] == []
    ensures TriedKept(h, s, vvTried, s.nNew) && NoneOver(h, s, s.nNew)
  {}

  /** Whatever a complete file holds, what becomes of its new entries: restored and numbered in order. With the number of
      buckets unchanged an entry keeps the first four of the references listed for it; otherwise it is in its own bucket. */
  ghost predicate NewLoaded(h: Hashing, s: File, m: map<int, AddrInfo>, vvNew: seq<set<int>>)
    requires Complete(s)
  {
    && |vvNew| == NEW_BUCKETS
    && (forall i :: 0 <= i < s.nNew ==>
          i in m && m[i] == Entry(s, i, if s.nUBuckets == NEW_BUCKETS then Min(BUCKETS_PER_ADDRESS, Times(s.buckets, i)) else 1))
    && if s.nUBuckets == NEW_BUCKETS then ListedTo(s, vvNew, NEW_BUCKETS) else vvNew == Rebuilt(h, s, s.nNew)
  }

  /** The first b lists are read: an entry is in a bucket if it is listed there and had a reference left before. */
  ghost predicate ListedTo(s: File, vv: seq<set<int>>, b: nat) {
    && b <= |s.buckets| == |vv|
    && (forall c :: 0 <= c < b ==> forall i :: i in vv[c] <==> i in s.buckets[c] && Times(s.buckets[..c], i) < BUCKETS_PER_ADDRESS)
    && forall c :: b <= c < |vv| ==> vv[c] == {}
  }

  /** The same in the middle of a list. */
  ghost predicate ListedIn(s: File, vv: seq<set<int>>, b: nat, n: nat) {
    && b < |s.buckets| == |vv| && n <= |s.buckets[b]|
    && (forall c :: 0 <= c < b ==> forall i :: i in vv[c] <==> i in s.buckets[c] && Times(s.buckets[..c], i) < BUCKETS_PER_ADDRESS)
    && (forall i :: i in vv[b] <==> i in s.buckets[b][..n] && Times(s.buckets[..b], i) < BUCKETS_PER_ADDRESS)
    && forall c :: b < c < |vv| ==> vv[c] == {}
  }

  /** The reference counts: `more` references beyond those of the first b lists. */
  ghost predicate Referred(s: File, m: map<int, AddrInfo>, b: nat, more: seq<int>)
    requires b <= |s.buckets| && s.nNew <= |s.infos|
  {
    forall i :: 0 <= i < s.nNew ==>
      i in m && m[i] == Entry(s, i, Min(BUCKETS_PER_ADDRESS, Times(s.buckets[..b], i) + multiset(more)[i]))
  }

  lemma ReferNext(s: File, m: map<int, AddrInfo>, vv: seq<set<int>>, b: nat, n: nat)
    requires b < |s.buckets| && n < |s.buckets[b]| && s.nNew <= |s.infos|
    requires Referred(s, m, b, s.buckets[b][..n]) && ListedIn(s, vv, b, n) && 0 <= s.buckets[b][n] < s.nNew
    ensures var i := s.buckets[b][n];
      && i in m
      && if m[i].nRefCount < BUCKETS_PER_ADDRESS then
           Referred(s, m[i := m[i].(nRefCount := m[i].nRefCount + 1)], b, s.buckets[b][..n + 1])
           && ListedIn(s, vv[b := vv[b] + {i}], b, n + 1)
         else Referred(s, m, b, s.buckets[b][..n + 1]) && ListedIn(s, vv, b, n + 1)
  {
    hide Times;
    var i, more := s.buckets[b][n], s.buckets[b][..n];
    assert s.buckets[b][..n + 1] == more + [i];
    assert i in more <==> multiset(more)[i] > 0;
    assert m[i].nRefCount == Min(BUCKETS_PER_ADDRESS, Times(s.buckets[..b], i) + multiset(more)[i]);
  }

  lemma ReferBucket(s: File, m: map<int, AddrInfo>, vv: seq<set<int>>, b: nat)
    requires b < |s.buckets| && s.nNew <= |s.infos|
    requires Referred(s, m, b, s.buckets[b][..|s.buckets[b]|]) && ListedIn(s, vv, b, |s.buckets[b]|)
    ensures Referred(s, m, b + 1, []) && ListedTo(s, vv, b + 1)
  {
    assert s.buckets[b][..|s.buckets[b]|] == s.buckets[b];
    assert s.buckets[..b + 1][..b] == s.buckets[..b];
  }

  lemma ListedStart(s: File, vv: seq<set<int>>, b: nat)
    requires ListedTo(s, vv, b) && b < |s.buckets|
    ensures ListedIn(s, vv, b, 0)
  {}

  method Unserialize(h: Hashing, s: File) returns (t: Table)
    requires Complete(s)
    ensures Sound(h, s) || (SoundInfos(h, s) && s.nUBuckets != NEW_BUCKETS) ==> Loaded(h, s, t)
    ensures |t.vvTried| == TRIED_BUCKETS && TriedKept(h, s, t.vvTried, |s.infos|)
    ensures t.nIdCount == s.nNew + t.nTried && t.nTried <= s.nTried
    ensures t.nTried == s.nTried <==> NoneOver(h, s, |s.infos|)
    ensures NewLoaded(h, s, t.mapInfo, t.vvNew)
  {
    hide Sound, SoundInfos, LoadedInfos, LoadedTried, ReadTo, TriedKept, NoneOver, ListedTo, Referred, Rebuilt, Times;
    ghost var sound := SoundInfos(h, s);
    var mapInfo: map<int, AddrInfo>, mapAddr: map<nat, int>, vRandom: seq<int>, vvNew: seq<set<int>>;
    mapInfo, mapAddr, vRandom, vvNew := LoadNew(h, s);
    ghost var news := mapInfo;
    var nIdCount := s.nNew;
    var nTried, nLost := s.nTried, 0;
    var vvTried: seq<seq<int>> := seq(TRIED_BUCKETS, _ => []);
    TriedStart(h, s, vvTried);
    KeptStart(h, s, vvTried);
    var n := 0;
    while n < nTried
      invariant 0 <= n <= nTried && |vvTried| == TRIED_BUCKETS
      invariant forall i :: 0 <= i < s.nNew ==> i in mapInfo && mapInfo[i] == news[i]
      invariant TriedKept(h, s, vvTried, s.nNew + n) && nIdCount == s.nNew + n - nLost && 0 <= nLost <= n
      invariant nLost == 0 <==> NoneOver(h, s, s.nNew + n)
      invariant sound ==> nIdCount == s.nNew + n && nLost == 0 && LoadedTried(h, s, vvTried, s.nNew + n)
      invariant sound ==> LoadedInfos(s, mapInfo, mapAddr, vRandom, s.nNew + n, vvNew)
    {
      var p := s.nNew + n;
      var info := Restore(s.infos[p]);
      var k := TriedBucket(h, s.nKey, info);
      KeptNext(h, s, vvTried, p, nIdCount);
      if sound {
        Room(h, s, vvTried, p);
        TriedNext(h, s, vvTried, p);
        SoundIps(h, s);
        LoadNext(s, mapInfo, mapAddr, vRandom, p, vvNew);
        RandomLength(s, mapInfo, mapAddr, vRandom, p, vvNew);
      }
      if |vvTried[k]| < BUCKET_SIZE {
        info := info.(nRandomPos := |vRandom|, fInTried := true);
        vRandom := vRandom + [nIdCount];
        mapInfo := mapInfo[nIdCount := info];
        mapAddr := mapAddr[info.ip := nIdCount];
        vvTried := vvTried[k := vvTried[k] + [nIdCount]];
        nIdCount := nIdCount + 1;
      } else {
        nLost := nLost + 1;
      }
      n := n + 1;
    }
    nTried := nTried - nLost;
    SoundIsInfos(h, s);
    mapInfo, vvNew := ListNew(h, s, mapInfo, mapAddr, vRandom, vvNew);
    t := Table(s.nKey, nIdCount, mapInfo, mapAddr, vRandom, nTried, vvTried, s.nNew, vvNew);
  }

  lemma SoundIsInfos(h: Hashing, s: File)
    ensures Sound(h, s) ==> SoundInfos(h, s) && s.nUBuckets == NEW_BUCKETS
  {}

  lemma TriedStart(h: Hashing, s: File, vvTried: seq<seq<int>>)
    requires Complete(s) && |vvTried| == TRIED_BUCKETS && forall k :: 0 <= k < TRIED_BUCKETS ==> vvTried[k] == []
    ensures LoadedTried(h, s, vvTried, s.nNew)
  {}

  lemma SoundIps(h: Hashing, s: File)
    requires SoundInfos(h, s)
    ensures forall i, j :: 0 <= i < j < |s.infos| ==> s.infos[i].ip != s.infos[j].ip
    ensures s.nUBuckets == |s.buckets|
  {}

  lemma RandomLength(s: File, m: map<int, AddrInfo>, mapAddr: map<nat, int>, vRandom: seq<int>, n: nat, vvNew: seq<set<int>>)
    requires LoadedInfos(s, m, mapAddr, vRandom, n, vvNew)
    ensures |vRandom| == n
  {}

  lemma RebuiltNext(h: Hashing, s: File, n: nat)
    requires n < |s.infos|
    ensures Rebuilt(h, s, n + 1) == Rebuilt(h, s, n)[OwnBucket(h, s, n) := Rebuilt(h, s, n)[OwnBucket(h, s, n)] + {n}]
    ensures Count(Rebuilt(h, s, n), n) == 0
    ensures forall j :: Count(Rebuilt(h, s, n + 1), j) == Count(Rebuilt(h, s, n), j) + if j == n then 1 else 0
  {
    var vv, b := Rebuilt(h, s, n), OwnBucket(h, s, n);
    CountZero(vv, n);
    forall j ensures Count(vv[b := vv[b] + {n}], j) == Count(vv, j) + if j == n then 1 else 0 { CountUpdate(vv, b, vv[b] + {n}, j); }
    var one, two := Rebuilt(h, s, n + 1), vv[b := vv[b] + {n}];
    forall c | 0 <= c < NEW_BUCKETS ensures one[c] == two[c] {
      forall i ensures i in one[c] <==> i in two[c] {}
    }
    assert one == two;
  }

  lemma RebuiltNone(h: Hashing, s: File)
    ensures forall b :: 0 <= b < NEW_BUCKETS ==> Rebuilt(h, s, 0)[b] == {}
  {}

  /** The new entries; with another number of buckets each is listed by its own source only. */
  method LoadNew(h: Hashing, s: File)
    returns (mapInfo: map<int, AddrInfo>, mapAddr: map<nat, int>, vRandom: seq<int>, vvNew: seq<set<int>>)
    requires Complete(s)
    ensures vvNew == Rebuilt(h, s, if s.nUBuckets == NEW_BUCKETS then 0 else s.nNew)
    ensures forall i :: 0 <= i < s.nNew ==> i in mapInfo && mapInfo[i] == Entry(s, i, if s.nUBuckets == NEW_BUCKETS then 0 else 1)
    ensures SoundInfos(h, s) ==> LoadedInfos(s, mapInfo, mapAddr, vRandom, s.nNew, vvNew)
  {
    hide SoundInfos, LoadedInfos, Count, Rebuilt;
    ghost var sound := SoundInfos(h, s);
    mapInfo, mapAddr, vRandom := map[], map[], [];
    vvNew := seq(NEW_BUCKETS, _ => {});
    RebuiltNone(h, s);
    assert vvNew == Rebuilt(h, s, 0);
    LoadStart(s, vvNew);
    var n := 0;
    while n < s.nNew
      invariant 0 <= n <= s.nNew && |vRandom| == n && vvNew == Rebuilt(h, s, if s.nUBuckets == NEW_BUCKETS then 0 else n)
      invariant forall i :: 0 <= i < n ==> i in mapInfo && mapInfo[i] == Entry(s, i, if s.nUBuckets == NEW_BUCKETS then 0 else 1)
      invariant sound ==> LoadedInfos(s, mapInfo, mapAddr, vRandom, n, vvNew)
    {
      RebuiltNext(h, s, n);
      NoneListed(Rebuilt(h, s, 0), n);
      ghost var b0, entry := OwnBucket(h, s, n), Entry(s, n, 0);
      if sound {
        SoundIps(h, s);
        LoadNext(s, mapInfo, mapAddr, vRandom, n, vvNew);
        if s.nUBuckets != NEW_BUCKETS {
          Relisted(s, mapInfo[n := entry], mapAddr[s.infos[n].ip := n], vRandom + [n], n + 1, vvNew, vvNew[b0 := vvNew[b0] + {n}], n);
        }
      }
      var info := Restore(s.infos[n]);
      mapAddr := mapAddr[info.ip := n];
      info := info.(nRandomPos := |vRandom|);
      vRandom := vRandom + [n];
      ghost var before := mapInfo;
      if s.nUBuckets != NEW_BUCKETS {
        var b := NewBucket(h, s.nKey, info, info.source);
        vvNew := vvNew[b := vvNew[b] + {n}];
        info := info.(nRefCount := info.nRefCount + 1);
      }
      mapInfo := mapInfo[n := info];
      assert mapInfo == before[n := entry][n := info];
      n := n + 1;
    }
  }

  lemma LoadStart(s: File, vvNew: seq<set<int>>)
    ensures LoadedInfos(s, map[], map[], [], 0, vvNew)
  {}

  /** The bucket lists, honoured when the number of buckets has not changed. */
  method ListNew(h: Hashing, s: File, mapInfo0: map<int, AddrInfo>, ghost mapAddr: map<nat, int>, ghost vRandom: seq<int>, vvNew0: seq<set<int>>)
    returns (mapInfo: map<int, AddrInfo>, vvNew: seq<set<int>>)
    requires Complete(s) && vvNew0 == Rebuilt(h, s, if s.nUBuckets == NEW_BUCKETS then 0 else s.nNew)
    requires forall i :: 0 <= i < s.nNew ==> i in mapInfo0 && mapInfo0[i] == Entry(s, i, if s.nUBuckets == NEW_BUCKETS then 0 else 1)
    requires SoundInfos(h, s) ==> LoadedInfos(s, mapInfo0, mapAddr, vRandom, |s.infos|, vvNew0)
    ensures Sound(h, s) ==> vvNew == Full(s) && LoadedInfos(s, mapInfo, mapAddr, vRandom, |s.infos|, vvNew)
    ensures s.nUBuckets != NEW_BUCKETS ==> mapInfo == mapInfo0 && vvNew == vvNew0
    ensures NewLoaded(h, s, mapInfo, vvNew)
  {
    hide Sound, SoundInfos, LoadedInfos, ReadTo, Count, Full, Times, ListedTo, ListedIn, Referred, Rebuilt;
    ghost var sound, same := Sound(h, s), s.nUBuckets == NEW_BUCKETS;
    SoundIsInfos(h, s);
    mapInfo, vvNew := mapInfo0, vvNew0;
    RebuiltNone(h, s);
    if sound { ReadStart(s, vvNew); }
    if same { ReferStart(s, mapInfo, vvNew); }
    var b := 0;
    while b < s.nUBuckets
      invariant 0 <= b <= s.nUBuckets && |vvNew| == NEW_BUCKETS && forall i :: 0 <= i < s.nNew ==> i in mapInfo
      invariant sound ==> LoadedInfos(s, mapInfo, mapAddr, vRandom, |s.infos|, vvNew)
      invariant sound ==> if b < |s.buckets| then ReadTo(s, vvNew, b, 0) else vvNew == Full(s)
      invariant if same then Referred(s, mapInfo, b, []) && ListedTo(s, vvNew, b) else mapInfo == mapInfo0 && vvNew == vvNew0
    {
      var nSize := |s.buckets[b]|;
      var n := 0;
      if same { ListedStart(s, vvNew, b); }
      assert s.buckets[b][..0] == [];
      while n < nSize
        invariant 0 <= n <= nSize && |vvNew| == NEW_BUCKETS && forall i :: 0 <= i < s.nNew ==> i in mapInfo
        invariant sound ==> LoadedInfos(s, mapInfo, mapAddr, vRandom, |s.infos|, vvNew) && ReadTo(s, vvNew, b, n)
        invariant if same then Referred(s, mapInfo, b, s.buckets[b][..n]) && ListedIn(s, vvNew, b, n)
                  else mapInfo == mapInfo0 && vvNew == vvNew0
      {
        var nIndex := s.buckets[b][n];
        assert nIndex in s.buckets[b];
        if same { ReferNext(s, mapInfo, vvNew, b, n); }
        if sound {
          ReadNext(h, s, vvNew, b, n);
          Relisted(s, mapInfo, mapAddr, vRandom, |s.infos|, vvNew, vvNew[b := vvNew[b] + {nIndex}], nIndex);
        }
        if s.nUBuckets == NEW_BUCKETS && mapInfo[nIndex].nRefCount < BUCKETS_PER_ADDRESS {
          mapInfo := mapInfo[nIndex := mapInfo[nIndex].(nRefCount := mapInfo[nIndex].nRefCount + 1)];
          vvNew := vvNew[b := vvNew[b] + {nIndex}];
        }
        n := n + 1;
      }
      if sound { ReadBucket(s, vvNew, b); }
      if same { ReferBucket(s, mapInfo, vvNew, b); }
      b := b + 1;
    }
    assert s.buckets[..|s.buckets|] == s.buckets;
    if same { ReferEnd(h, s, mapInfo, vvNew); }
  }

  lemma ReferStart(s: File, m: map<int, AddrInfo>, vv: seq<set<int>>)
    requires Complete(s) && |s.buckets| == |vv| && forall b :: 0 <= b < |vv| ==> vv[b] == {}
    requires forall i :: 0 <= i < s.nNew ==> i in m && m[i] == Entry(s, i, 0)
    ensures Referred(s, m, 0, []) && ListedTo(s, vv, 0)
  {
    assert s.buckets[..0] == [];
  }

  lemma ReferEnd(h: Hashing, s: File, m: map<int, AddrInfo>, vv: seq<set<int>>)
    requires Complete(s) && s.nUBuckets == NEW_BUCKETS && Referred(s, m, NEW_BUCKETS, []) && ListedTo(s, vv, NEW_BUCKETS)
    ensures NewLoaded(h, s, m, vv)
  {
    hide Times;
    assert s.buckets[..NEW_BUCKETS] == s.buckets;
  }

  lemma ReadStart(s: File, vvNew: seq<set<int>>)
    requires |s.buckets| == |vvNew| > 0 && forall b :: 0 <= b < |vvNew| ==> vvNew[b] == {}
    ensures ReadTo(s, vvNew, 0, 0)
  {}

  lemma Relisted(s: File, m: map<int, AddrInfo>, mapAddr: map<nat, int>, vRandom: seq<int>, n: nat,
                 vv: seq<set<int>>, vv': seq<set<int>>, i: int)
    requires LoadedInfos(s, m, mapAddr, vRandom, n, vv) && 0 <= i < n && i < s.nNew
    requires forall j :: Count(vv', j) == Count(vv, j) + if j == i then 1 else 0
    ensures i in m && m[i].nRefCount == Count(vv, i)
    ensures LoadedInfos(s, m[i := m[i].(nRefCount := m[i].nRefCount + 1)], mapAddr, vRandom, n, vv')
  {
    assert m[i] == Entry(s, i, Count(vv, i));
  }

  // ----- a loaded table is consistent

  lemma LoadedOk(h: Hashing, s: File, t: Table)
    requires Sound(h, s) && Loaded(h, s, t)
    ensures Ok(h, t, NoHole)
  {
    hide Tally, LoadedTried, LoadedInfos, Count;
    LoadedIndexes(h, s, t);
    LoadedTriedOk(h, s, t);
    LoadedNew(h, s, t);
    LoadedCounts(h, s, t);
  }

  /** With another number of buckets the table is consistent exactly if no bucket gets more entries than it can hold:
      nothing keeps them within their limit. */
  lemma RebuiltOk(h: Hashing, s: File, t: Table)
    requires SoundInfos(h, s) && s.nUBuckets != NEW_BUCKETS && Loaded(h, s, t)
    ensures Ok(h, t, NoHole) <==> forall b :: 0 <= b < NEW_BUCKETS ==> |Rebuilt(h, s, s.nNew)[b]| <= BUCKET_SIZE
  {
    hide Tally, LoadedTried, LoadedInfos, Count;
    LoadedIndexes(h, s, t);
    LoadedTriedOk(h, s, t);
    LoadedCounts(h, s, t);
    RebuiltEntries(h, s, t);
  }

  const ONE_BUCKET := Hashing(_ => 0, (_, _, _) => 0, (_, _, _) => 0, (_, _, _) => 0)

  /** 65 new entries that all fall into bucket 0, saved with no buckets. */
  function Crowd(): File { File([], 65, 0, 0, seq(65, i requires 0 <= i < 65 => Persisted(i, 8333, {}, 1, 0, 0, 0)), []) }

  /** It can happen: loading this file puts 65 entries into one bucket. */
  lemma Overfull(t: Table)
    requires Loaded(ONE_BUCKET, Crowd(), t)
    ensures SoundInfos(ONE_BUCKET, Crowd()) && !Ok(ONE_BUCKET, t, NoHole)
  {
    var s := Crowd();
    NoTallies(s);
    forall i ensures i in Rebuilt(ONE_BUCKET, s, 65)[0] <==> 0 <= i < 65 {}
    Interval(Rebuilt(ONE_BUCKET, s, 65)[0], 0, 65);
    RebuiltOk(ONE_BUCKET, s, t);
  }

  lemma NoTallies(s: File)
    requires s == Crowd()
    ensures SoundInfos(ONE_BUCKET, s)
  {
    assert |s.infos| == s.nNew;
    forall k | 0 <= k < TRIED_BUCKETS ensures Tally(ONE_BUCKET, s, k, |s.infos|) == 0 {}
  }

  lemma RebuiltEntries(h: Hashing, s: File, t: Table)
    requires SoundInfos(h, s) && s.nUBuckets != NEW_BUCKETS && Loaded(h, s, t)
    ensures EntriesOk(t, NoHole) && t.vvNew == Rebuilt(h, s, s.nNew)
    ensures forall b :: 0 <= b < NEW_BUCKETS ==> forall id <- t.vvNew[b] :: id in t.mapInfo
  {
    hide Tally, LoadedTried, Count;
    forall i | i in t.mapInfo ensures EntryOk(t, NoHole, i) {
      assert t.mapInfo[i] == Entry(s, i, if i < s.nNew then Count(t.vvNew, i) else 0);
      if i >= s.nNew { CountZero(t.vvNew, i); } else { RebuiltOnce(h, s, i, s.nNew); }
    }
  }

  lemma {:induction false} RebuiltOnce(h: Hashing, s: File, i: nat, n: nat)
    requires i < n <= |s.infos|
    ensures Count(Rebuilt(h, s, n), i) == 1
  {
    hide Count, Rebuilt;
    RebuiltNext(h, s, n - 1);
    if i < n - 1 { RebuiltOnce(h, s, i, n - 1); }
  }

  lemma LoadedIndexes(h: Hashing, s: File, t: Table)
    requires SoundInfos(h, s) && Loaded(h, s, t)
    ensures RandomOk(t) && AddrOk(t)
  {}

  lemma LoadedTriedOk(h: Hashing, s: File, t: Table)
    requires SoundInfos(h, s) && Loaded(h, s, t)
    ensures TriedOk(h, t)
  {}

  lemma {:induction false} SetOfSeq(s: seq<int>)
    ensures |Members(s)| <= |s|
  {
    if s != [] {
      var n := |s| - 1;
      assert s == s[..n] + [s[n]];
      SetOfSeq(s[..n]);
      assert Members(s) == Members(s[..n]) + {s[n]};
    } else {
      assert Members(s) == {};
    }
  }

  lemma LoadedNew(h: Hashing, s: File, t: Table)
    requires Sound(h, s) && Loaded(h, s, t)
    ensures NewOk(t) && EntriesOk(t, NoHole)
  {
    hide Tally, LoadedTried;
    forall b | 0 <= b < NEW_BUCKETS ensures |t.vvNew[b]| <= BUCKET_SIZE && forall id <- t.vvNew[b] :: 0 <= id < s.nNew && id in t.mapInfo {
      SetOfSeq(s.buckets[b]);
      assert t.vvNew[b] == Members(s.buckets[b]);
    }
    forall i | i in t.mapInfo ensures EntryOk(t, NoHole, i) {
      assert t.mapInfo[i] == Entry(s, i, if i < s.nNew then Count(t.vvNew, i) else 0);
      if i >= s.nNew { CountZero(t.vvNew, i); }
    }
  }

  lemma {:induction false} Interval(s: set<int>, a: int, b: int)
    requires a <= b && forall i :: i in s <==> a <= i < b
    ensures |s| == b - a
    decreases b - a
  {
    if a == b {
      if s != {} {
        var w := Member(s);
        assert false;
      }
    } else {
      Interval(s - {b - 1}, a, b - 1);
    }
  }

  lemma LoadedCounts(h: Hashing, s: File, t: Table)
    requires SoundInfos(h, s) && Loaded(h, s, t)
    ensures CountsOk(t, NoHole)
  {
    hide Tally, LoadedTried, Count;
    Interval(NewIds(t, NoHole), 0, s.nNew);
    Interval(TriedIds(t), s.nNew, |s.infos|);
  }

  // ----- the round trip

  /** The loaded table is the saved one with `order[i]` renamed to i: same addresses and statistics, same
      membership of every bucket, same counters. Only the time of the last try is not kept. */
  ghost predicate Renumbered(t: Table, t': Table, order: seq<int>) {
    && Distinct(order) && (forall id :: id in t.mapInfo <==> id in order)
    && (forall i :: i in t'.mapInfo <==> 0 <= i < |order|)
    && t'.nKey == t.nKey && t'.nNew == t.nNew && t'.nTried == t.nTried
    && |t'.vvNew| == |t.vvNew| && |t'.vvTried| == |t.vvTried|
    && forall i :: 0 <= i < |order| ==>
         && order[i] in t.mapInfo && i in t'.mapInfo
         && t'.mapInfo[i] == t.mapInfo[order[i]].(nLastTry := 0, nRandomPos := i)
         && (forall b :: 0 <= b < |t.vvNew| ==> (i in t'.vvNew[b] <==> order[i] in t.vvNew[b]))
         && forall k :: 0 <= k < |t.vvTried| ==> (i in t'.vvTried[k] <==> order[i] in t.vvTried[k])
  }

  lemma OrderCovers(t: Table, newIds: seq<int>, triedIds: seq<int>)
    requires Lists(newIds, NewIds(t, NoHole)) && Lists(triedIds, TriedIds(t))
    ensures Distinct(newIds + triedIds) && forall id :: id in t.mapInfo <==> id in newIds + triedIds
    ensures forall i :: 0 <= i < |newIds| + |triedIds| ==>
      var id := (newIds + triedIds)[i];
      id in t.mapInfo && (t.mapInfo[id].fInTried <==> i >= |newIds|)
  {
    var order := newIds + triedIds;
    forall i | 0 <= i < |order| ensures order[i] in t.mapInfo && (t.mapInfo[order[i]].fInTried <==> i >= |newIds|) {
      if i < |newIds| {
        ListsMember(newIds, NewIds(t, NoHole), i);
      } else {
        ListsMember(triedIds, TriedIds(t), i - |newIds|);
      }
    }
    forall i, j | 0 <= i < j < |order| ensures order[i] != order[j] {
      assert t.mapInfo[order[i]].fInTried <==> i >= |newIds|;
      assert t.mapInfo[order[j]].fInTried <==> j >= |newIds|;
      if j < |newIds| { assert newIds[i] != newIds[j]; }
      if i >= |newIds| { assert triedIds[i - |newIds|] != triedIds[j - |newIds|]; }
    }
    forall id ensures id in t.mapInfo <==> id in order {
      if id in t.mapInfo { assert id in NewIds(t, NoHole) || id in TriedIds(t); }
    }
  }

  /** Each id is listed in as many written buckets as before. */
  lemma {:induction false} SameCount(vv: seq<set<int>>, ww: seq<set<int>>, id: int, i: int)
    requires |vv| == |ww| && forall b :: 0 <= b < |vv| ==> (id in vv[b] <==> i in ww[b])
    ensures Count(vv, id) == Count(ww, i)
  {
    if vv != [] { SameCount(vv[..|vv| - 1], ww[..|ww| - 1], id, i); }
  }

  lemma WrittenCount(h: Hashing, t: Table, s: File, newIds: seq<int>, triedIds: seq<int>, i: nat)
    requires Written(t, s, newIds, triedIds) && i < |newIds|
    ensures Count(Full(s), i) == Count(t.vvNew, newIds[i])
  {
    hide Lists, NewIds, TriedIds;
    forall b | 0 <= b < |t.vvNew| ensures newIds[i] in t.vvNew[b] <==> i in Full(s)[b] {
      assert WrittenBucket(newIds, t.vvNew[b], s.buckets[b]);
    }
    SameCount(t.vvNew, Full(s), newIds[i], i);
  }

  /** The tried entries up to position n that hash to bucket k, by their old ids. */
  lemma {:induction false} TallyIsSet(h: Hashing, t: Table, s: File, order: seq<int>, k: nat, n: nat)
    requires WrittenInfos(t, order, s.infos) && s.nKey == t.nKey && Distinct(order) && 0 <= s.nNew <= n <= |order|
    ensures |OldIds(h, t, s, order, k, n)| == Tally(h, s, k, n)
    decreases n
  {
    if n > s.nNew {
      hide TriedBucket;
      TallyIsSet(h, t, s, order, k, n - 1);
      OldIdsNext(h, t, s, order, k, n - 1);
      assert BucketOfInfo(h, s, n - 1) == TriedBucket(h, t.nKey, t.mapInfo[order[n - 1]]);
    }
  }

  lemma OldIdsNext(h: Hashing, t: Table, s: File, order: seq<int>, k: nat, n: nat)
    requires 0 <= s.nNew <= n < |order| && (forall i :: 0 <= i < |order| ==> order[i] in t.mapInfo) && Distinct(order)
    ensures |OldIds(h, t, s, order, k, n + 1)|
      == |OldIds(h, t, s, order, k, n)| + if TriedBucket(h, t.nKey, t.mapInfo[order[n]]) == k then 1 else 0
  {
    hide TriedBucket;
    var was, now, id := OldIds(h, t, s, order, k, n), OldIds(h, t, s, order, k, n + 1), order[n];
    assert id !in was;
    assert now == if TriedBucket(h, t.nKey, t.mapInfo[id]) == k then was + {id} else was;
  }

  ghost function OldIds(h: Hashing, t: Table, s: File, order: seq<int>, k: nat, n: nat): set<int>
    requires 0 <= s.nNew <= n <= |order| && forall i :: 0 <= i < |order| ==> order[i] in t.mapInfo
  {
    set i | s.nNew <= i < n && TriedBucket(h, t.nKey, t.mapInfo[order[i]]) == k :: order[i]
  }

  /** No tried bucket of the saved table is too full to be loaded. */
  lemma TallyFits(h: Hashing, t: Table, s: File, newIds: seq<int>, triedIds: seq<int>, k: nat)
    requires TriedOk(h, t) && Written(t, s, newIds, triedIds) && k < TRIED_BUCKETS
    ensures Tally(h, s, k, |s.infos|) <= BUCKET_SIZE
  {
    hide WrittenBucket;
    var order := newIds + triedIds;
    OrderCovers(t, newIds, triedIds);
    TallyIsSet(h, t, s, order, k, |order|);
    assert TriedBucketOk(h, t, k);
    SetOfSeq(t.vvTried[k]);
    var ids := OldIds(h, t, s, order, k, |order|);
    forall id | id in ids ensures id in Members(t.vvTried[k]) {
      assert IsTried(t, id);
    }
    SubsetSize(ids, Members(t.vvTried[k]));
  }

  /** What Serialize writes is a file Unserialize loads without loss. */
  lemma WrittenIsSound(h: Hashing, t: Table, s: File, newIds: seq<int>, triedIds: seq<int>)
    requires Ok(h, t, NoHole) && Written(t, s, newIds, triedIds)
    ensures Sound(h, s)
  {
    WrittenEntries(h, t, s, newIds, triedIds);
    forall k | 0 <= k < TRIED_BUCKETS ensures Tally(h, s, k, |s.infos|) <= BUCKET_SIZE {
      TallyFits(h, t, s, newIds, triedIds, k);
    }
  }

  lemma WrittenEntries(h: Hashing, t: Table, s: File, newIds: seq<int>, triedIds: seq<int>)
    requires AddrOk(t) && EntriesOk(t, NoHole) && Written(t, s, newIds, triedIds)
    ensures forall i, j :: 0 <= i < j < |s.infos| ==> s.infos[i].ip != s.infos[j].ip
    ensures forall i :: 0 <= i < |s.infos| ==> s.infos[i].nLastSuccess >= 0 && (i >= s.nNew ==> s.infos[i].nLastSuccess > 0)
    ensures forall i :: 0 <= i < s.nNew ==> 1 <= Count(Full(s), i) <= BUCKETS_PER_ADDRESS
  {
    hide WrittenBucket, Lists, NewIds, TriedIds, Full;
    var order := newIds + triedIds;
    OrderCovers(t, newIds, triedIds);
    forall i | 0 <= i < |s.infos|
      ensures s.infos[i].nLastSuccess >= 0 && (i >= s.nNew ==> s.infos[i].nLastSuccess > 0)
    {
      assert EntryOk(t, NoHole, order[i]);
    }
    forall i, j | 0 <= i < j < |s.infos| ensures s.infos[i].ip != s.infos[j].ip {
      assert order[i] != order[j];
    }
    forall i | 0 <= i < s.nNew ensures 1 <= Count(Full(s), i) <= BUCKETS_PER_ADDRESS {
      WrittenCount(h, t, s, newIds, triedIds, i);
      assert order[i] == newIds[i];
      assert EntryOk(t, NoHole, newIds[i]);
    }
  }

  lemma LoadedEntry(h: Hashing, t: Table, s: File, t': Table, newIds: seq<int>, triedIds: seq<int>, i: nat)
    requires Ok(h, t, NoHole) && Written(t, s, newIds, triedIds) && Loaded(h, s, t') && i < |s.infos|
    ensures var order := newIds + triedIds;
      && |order| == |s.infos| && order[i] in t.mapInfo && i in t'.mapInfo
      && t'.mapInfo[i] == t.mapInfo[order[i]].(nLastTry := 0, nRandomPos := i)
  {
    hide WrittenBucket, Lists, NewIds, TriedIds, Full, LoadedTried;
    var order := newIds + triedIds;
    OrderCovers(t, newIds, triedIds);
    assert EntryOk(t, NoHole, order[i]);
    if i < s.nNew {
      WrittenCount(h, t, s, newIds, triedIds, i);
      assert order[i] == newIds[i];
    }
  }

  lemma LoadedMembership(h: Hashing, t: Table, s: File, t': Table, newIds: seq<int>, triedIds: seq<int>, i: nat, k: nat)
    requires Ok(h, t, NoHole) && Written(t, s, newIds, triedIds) && Loaded(h, s, t') && i < |s.infos| == |newIds + triedIds|
    requires k < TRIED_BUCKETS
    ensures |t.vvTried| == |t'.vvTried| == TRIED_BUCKETS
    ensures i in t'.vvTried[k] <==> (newIds + triedIds)[i] in t.vvTried[k]
  {
    hide WrittenBucket, Lists, NewIds, TriedIds, Full, Tally, Count;
    var order := newIds + triedIds;
    OrderCovers(t, newIds, triedIds);
    Shape(h, t, NoHole);
    assert LoadedBucket(h, s, t'.vvTried[k], k, |s.infos|);
    assert TriedBucketOk(h, t, k);
    assert IsTried(t, order[i]) <==> i >= s.nNew;
    assert BucketOfInfo(h, s, i) == TriedBucket(h, t.nKey, t.mapInfo[order[i]]);
  }

  lemma LoadedListing(h: Hashing, t: Table, s: File, t': Table, newIds: seq<int>, triedIds: seq<int>, i: nat, b: nat)
    requires Ok(h, t, NoHole) && Written(t, s, newIds, triedIds) && Loaded(h, s, t') && i < |s.infos| == |newIds + triedIds|
    requires b < NEW_BUCKETS
    ensures i in t'.vvNew[b] <==> (newIds + triedIds)[i] in t.vvNew[b]
  {
    hide Ok, Lists, NewIds, TriedIds, Tally, Count;
    OrderCovers(t, newIds, triedIds);
    assert WrittenBucket(newIds, t.vvNew[b], s.buckets[b]);
    assert t'.vvNew[b] == Members(s.buckets[b]);
    var id := (newIds + triedIds)[i];
    if i < |newIds| {
      assert id == newIds[i];
    } else if id in t.vvNew[b] {
      ListedIsNew(h, t, b, id, NoHole);
      assert false;
    }
  }

  /** Loading what was saved brings back every entry, tried or new. */
  lemma RoundTrip(h: Hashing, t: Table, s: File, t': Table, newIds: seq<int>, triedIds: seq<int>)
    requires Ok(h, t, NoHole) && Written(t, s, newIds, triedIds) && Loaded(h, s, t')
    ensures Ok(h, t', NoHole) && Renumbered(t, t', newIds + triedIds)
  {
    hide Ok, Lists, NewIds, TriedIds, Tally, Count, WrittenBucket, Ascending, LoadedTried, Sound, SoundInfos, Rebuilt, Full;
    var order := newIds + triedIds;
    WrittenIsSound(h, t, s, newIds, triedIds);
    LoadedOk(h, s, t');
    Shape(h, t, NoHole);
    Shape(h, t', NoHole);
    OrderCovers(t, newIds, triedIds);
    assert |order| == |s.infos|;
    forall i | 0 <= i < |order|
      ensures order[i] in t.mapInfo && i in t'.mapInfo && t'.mapInfo[i] == t.mapInfo[order[i]].(nLastTry := 0, nRandomPos := i)
    {
      LoadedEntry(h, t, s, t', newIds, triedIds, i);
    }
    forall i, b | 0 <= i < |order| && 0 <= b < NEW_BUCKETS ensures i in t'.vvNew[b] <==> order[i] in t.vvNew[b] {
      LoadedListing(h, t, s, t', newIds, triedIds, i, b);
    }
    forall i, k | 0 <= i < |order| && 0 <= k < TRIED_BUCKETS ensures i in t'.vvTried[k] <==> order[i] in t.vvTried[k] {
      LoadedMembership(h, t, s, t', newIds, triedIds, i, k);
    }
  }

  lemma SoundIsComplete(h: Hashing, s: File)
    requires Sound(h, s)
    ensures Complete(s)
  {}

  /** Saving and loading. */
  method SaveAndLoad(h: Hashing, t: Table) returns (t': Table, ghost order: seq<int>)
    requires Ok(h, t, NoHole)
    ensures Ok(h, t', NoHole) && Renumbered(t, t', order)
  {
    hide Ok, Written, Sound, SoundInfos, Complete, Loaded, NewLoaded, Renumbered;
    var s := Serialize(h, t);
    ghost var newIds, triedIds :| Written(t, s, newIds, triedIds);
    WrittenIsSound(h, t, s, newIds, triedIds);
    assert Complete(s) by { SoundIsComplete(h, s); }
    t' := Unserialize(h, s);
    RoundTrip(h, t, s, t', newIds, triedIds);
    order := newIds + triedIds;
  }
}
