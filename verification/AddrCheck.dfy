/** The address manager's own consistency check: exactly what it accepts, and that it accepts every
    state the operations can reach. */
module AddrCheck {
  import opened Wrappers
  import opened AddrTable
  import opened AddrMan

  /** How often an id occurs in the tried buckets. */
  function Listed(vv: seq<seq<int>>, id: int): nat {
    if vv == [] then 0 else Listed(vv[..|vv| - 1], id) + multiset(vv[|vv| - 1])[id]
  }

  /** operator[] of an std::map<_, int>. */
  ghost function Lookup(m: map<nat, int>, a: nat): int { if a in m then m[a] else 0 }

  ghost predicate EntryChecked(t: Table, n: int)
    requires n in t.mapInfo
  {
    var info := t.mapInfo[n];
    && (if info.fInTried then info.nLastSuccess != 0 && info.nRefCount == 0 else 1 <= info.nRefCount <= BUCKETS_PER_ADDRESS)
    && Lookup(t.mapAddr, info.ip) == n
    && 0 <= info.nRandomPos < |t.vRandom| && t.vRandom[info.nRandomPos] == n
    && info.nLastTry >= 0 && info.nLastSuccess >= 0
  }

  /** The code of the first test an entry fails, or 0. */
  ghost function Fault(t: Table, n: int): int
    requires n in t.mapInfo
  {
    var info := t.mapInfo[n];
    if info.fInTried && info.nLastSuccess == 0 then -1
    else if info.fInTried && info.nRefCount != 0 then -2
    else if !info.fInTried && !(0 <= info.nRefCount <= 4) then -3
    else if !info.fInTried && info.nRefCount == 0 then -4
    else if Lookup(t.mapAddr, info.ip) != n then -5
    else if !(0 <= info.nRandomPos < |t.vRandom| && t.vRandom[info.nRandomPos] == n) then -14
    else if info.nLastTry < 0 then -6
    else if info.nLastSuccess < 0 then -8
    else 0
  }

  /** How often the new buckets should hold an id. */
  function References(t: Table, id: int): int {
    if id in t.mapInfo && !t.mapInfo[id].fInTried then t.mapInfo[id].nRefCount else 0
  }

  function Places(t: Table, id: int): int { if id in TriedIds(t) then 1 else 0 }

  /** Everything Check_ looks at, said outright. */
  ghost predicate Checked(t: Table) {
    && |t.vRandom| == t.nTried + t.nNew && |TriedIds(t)| == t.nTried && |NewIds(t, NoHole)| == t.nNew
    && (forall n <- t.mapInfo :: EntryChecked(t, n))
    && (forall id :: Listed(t.vvTried, id) == Places(t, id))
    && forall id :: Count(t.vvNew, id) == References(t, id)
  }

  lemma {:induction false} ListedPart(vv: seq<seq<int>>, k: nat, i: nat, id: int)
    requires k < |vv| && i <= |vv[k]|
    ensures Listed(vv[..k], id) + multiset(vv[k][..i])[id] <= Listed(vv, id)
  {
    var n := |vv| - 1;
    if k < n {
      assert vv[..n][..k] == vv[..k];
      ListedPart(vv[..n], k, i, id);
    } else {
      assert vv[k] == vv[k][..i] + vv[k][i..];
    }
  }

  lemma ListedNext(vv: seq<seq<int>>, k: nat, id: int)
    requires k < |vv|
    ensures Listed(vv[..k + 1], id) == Listed(vv[..k], id) + multiset(vv[k])[id]
  {
    assert vv[..k + 1][..k] == vv[..k];
  }

  lemma {:induction false} CountPart(vv: seq<set<int>>, b: nat, id: int)
    requires b < |vv|
    ensures Count(vv[..b], id) + (if id in vv[b] then 1 else 0) <= Count(vv, id)
  {
    var n := |vv| - 1;
    if b < n {
      assert vv[..n][..b] == vv[..b];
      CountPart(vv[..n], b, id);
    }
  }

  lemma CountNext(vv: seq<set<int>>, b: nat, id: int)
    requires b < |vv|
    ensures Count(vv[..b + 1], id) == Count(vv[..b], id) + if id in vv[b] then 1 else 0
  {
    assert vv[..b + 1][..b] == vv[..b];
  }

  /** Sorts the entries into tried and new ones while checking each. */
  method CheckEntries(t: Table) returns (r: int, setTried: set<int>, mapNew: map<int, int>)
    ensures r == 0 <==> forall n <- t.mapInfo :: EntryChecked(t, n)
    ensures r != 0 ==> exists n <- t.mapInfo :: Fault(t, n) == r
    ensures r == 0 ==> setTried == TriedIds(t) && mapNew.Keys == NewIds(t, NoHole)
    ensures r == 0 ==> forall n <- mapNew :: n in t.mapInfo && mapNew[n] == t.mapInfo[n].nRefCount
  {
    r, setTried, mapNew := 0, {}, map[];
    var rest := t.mapInfo.Keys;
    while rest != {}
      invariant rest <= t.mapInfo.Keys
      invariant forall n <- t.mapInfo :: n in rest || EntryChecked(t, n)
      invariant setTried == set n <- t.mapInfo | t.mapInfo[n].fInTried && n !in rest
      invariant mapNew.Keys == set n <- t.mapInfo | !t.mapInfo[n].fInTried && n !in rest
      invariant forall n <- mapNew :: n in t.mapInfo && mapNew[n] == t.mapInfo[n].nRefCount
      decreases rest
    {
      ghost var w := Member(rest);
      var n :| n in rest;
      assert n in t.mapInfo;
      var info := t.mapInfo[n];
      ghost var fault := Fault(t, n);
      if info.fInTried {
        if info.nLastSuccess == 0 { return -1, setTried, mapNew; }
        if info.nRefCount != 0 { return -2, setTried, mapNew; }
        setTried := setTried + {n};
      } else {
        if info.nRefCount < 0 || info.nRefCount > BUCKETS_PER_ADDRESS { return -3, setTried, mapNew; }
        if info.nRefCount == 0 { return -4, setTried, mapNew; }
        mapNew := mapNew[n := info.nRefCount];
      }
      if (if info.ip in t.mapAddr then t.mapAddr[info.ip] else 0) != n { return -5, setTried, mapNew; }
      if info.nRandomPos < 0 || info.nRandomPos >= |t.vRandom| || t.vRandom[info.nRandomPos] != n { return -14, setTried, mapNew; }
      if info.nLastTry < 0 { return -6, setTried, mapNew; }
      if info.nLastSuccess < 0 { return -8, setTried, mapNew; }
      rest := rest - {n};
    }
  }

  /** Crosses every listed id off `setTried`. */
  method CheckTried(t: Table, tried: set<int>) returns (r: int, setTried: set<int>)
    requires tried == TriedIds(t)
    ensures r == 0 || r == -11
    ensures r == 0 ==> forall id <- setTried :: id in TriedIds(t) && Listed(t.vvTried, id) == 0
    ensures r == 0 && setTried == {} <==> forall id :: Listed(t.vvTried, id) == Places(t, id)
  {
    r, setTried := 0, tried;
    var n := 0;
    while n < |t.vvTried|
      invariant n <= |t.vvTried|
      invariant forall id :: Listed(t.vvTried[..n], id) == Places(t, id) - if id in setTried then 1 else 0
      invariant setTried <= tried
    {
      var vTried := t.vvTried[n];
      var i := 0;
      while i < |vTried|
        invariant i <= |vTried| && setTried <= tried
        invariant forall id ::
          Listed(t.vvTried[..n], id) + multiset(vTried[..i])[id] == Places(t, id) - if id in setTried then 1 else 0
      {
        assert vTried[..i + 1] == vTried[..i] + [vTried[i]];
        if vTried[i] !in setTried {
          ListedPart(t.vvTried, n, i + 1, vTried[i]);
          assert Listed(t.vvTried, vTried[i]) > Places(t, vTried[i]);
          return -11, setTried;
        }
        setTried := setTried - {vTried[i]};
        i := i + 1;
      }
      assert vTried[..i] == vTried;
      forall id ensures Listed(t.vvTried[..n + 1], id) == Places(t, id) - if id in setTried then 1 else 0 {
        ListedNext(t.vvTried, n, id);
      }
      n := n + 1;
    }
    assert t.vvTried[..n] == t.vvTried;
    if setTried != {} {
      ghost var w := Member(setTried);
      assert Listed(t.vvTried, w) != Places(t, w);
    }
  }

  function Left(m: map<int, int>, id: int): int { if id in m then m[id] else 0 }

  /** Counts every listing off `mapNew`. */
  method CheckNew(t: Table, toFind: map<int, int>) returns (r: int, mapNew: map<int, int>)
    requires forall id :: Left(toFind, id) == References(t, id)
    requires forall id <- toFind :: toFind[id] > 0
    ensures r == 0 || r == -12
    ensures r == 0 ==> forall id <- mapNew :: id in NewIds(t, NoHole) && Count(t.vvNew, id) < References(t, id)
    ensures r == 0 && mapNew == map[] <==> forall id :: Count(t.vvNew, id) == References(t, id)
  {
    r, mapNew := 0, toFind;
    var b := 0;
    while b < |t.vvNew|
      invariant b <= |t.vvNew|
      invariant forall id :: Count(t.vvNew[..b], id) == References(t, id) - Left(mapNew, id)
      invariant forall id <- mapNew :: mapNew[id] > 0
    {
      var rest := t.vvNew[b];
      while rest != {}
        invariant rest <= t.vvNew[b]
        invariant forall id ::
          Count(t.vvNew[..b], id) + (if id in t.vvNew[b] && id !in rest then 1 else 0) == References(t, id) - Left(mapNew, id)
        invariant forall id <- mapNew :: mapNew[id] > 0
        decreases rest
      {
        ghost var w := Member(rest);
        var it :| it in rest;
        if it !in mapNew {
          CountPart(t.vvNew, b, it);
          assert Count(t.vvNew, it) > References(t, it);
          return -12, mapNew;
        }
        mapNew := mapNew[it := mapNew[it] - 1];
        if mapNew[it] == 0 { mapNew := mapNew - {it}; }
        rest := rest - {it};
      }
      forall id ensures Count(t.vvNew[..b + 1], id) == References(t, id) - Left(mapNew, id) {
        CountNext(t.vvNew, b, id);
      }
      b := b + 1;
    }
    assert t.vvNew[..b] == t.vvNew;
    forall id | id in mapNew ensures id in NewIds(t, NoHole) && Count(t.vvNew, id) < References(t, id) {
      assert Left(mapNew, id) > 0;
    }
    if mapNew != map[] {
      ghost var w := Member(mapNew.Keys);
      assert Left(mapNew, w) > 0;
    }
  }

  ghost predicate AllChecked(t: Table) { forall n <- t.mapInfo :: EntryChecked(t, n) }

  /** Check_: zero exactly for the states that are consistent as described; otherwise the code of the test that failed, in the
      order the tests are made. */
  method Check_(t: Table) returns (r: int)
    ensures r == 0 <==> Checked(t)
    ensures r == -7 <==> |t.vRandom| != t.nTried + t.nNew
    ensures r != -7 && !AllChecked(t) ==> exists n <- t.mapInfo :: Fault(t, n) == r
    ensures r == -9 <==> |t.vRandom| == t.nTried + t.nNew && AllChecked(t) && |TriedIds(t)| != t.nTried
    ensures r == -10 <==>
      |t.vRandom| == t.nTried + t.nNew && AllChecked(t) && |TriedIds(t)| == t.nTried && |NewIds(t, NoHole)| != t.nNew
    ensures r == 0 || AllChecked(t) ==> r in {0, -7, -9, -10, -11, -12, -13, -15}
    ensures r == -13 ==> exists id <- TriedIds(t) :: Listed(t.vvTried, id) == 0
    ensures r == -15 ==> exists id <- NewIds(t, NoHole) :: Count(t.vvNew, id) < References(t, id)
  {
    hide NewIds, TriedIds, EntryChecked, Listed, Count;
    if |t.vRandom| != t.nTried + t.nNew { return -7; }
    var e, setTried, mapNew := CheckEntries(t);
    if e != 0 { return e; }
    if |setTried| != t.nTried { return -9; }
    if |mapNew.Keys| != t.nNew { return -10; }
    EntriesLeft(t, mapNew);
    var e1, leftTried := CheckTried(t, setTried);
    if e1 != 0 { return e1; }
    var e2, leftNew := CheckNew(t, mapNew);
    if e2 != 0 { return e2; }
    if leftTried != {} {
      ghost var w := Member(leftTried);
      assert w in leftTried;
      return -13;
    }
    if leftNew != map[] {
      ghost var w := Member(leftNew.Keys);
      assert w in leftNew;
      return -15;
    }
    return 0;
  }

  lemma EntriesLeft(t: Table, mapNew: map<int, int>)
    requires forall n <- t.mapInfo :: EntryChecked(t, n)
    requires mapNew.Keys == NewIds(t, NoHole)
    requires forall n <- mapNew :: n in t.mapInfo && mapNew[n] == t.mapInfo[n].nRefCount
    ensures forall id :: Left(mapNew, id) == References(t, id)
    ensures forall id <- mapNew :: mapNew[id] > 0
  {}

  // ----- every reachable state passes

  lemma {:induction false} ListedOnce(vv: seq<seq<int>>, id: int, k: int)
    requires forall c :: 0 <= c < |vv| ==> Distinct(vv[c]) && (id in vv[c] <==> c == k)
    ensures Listed(vv, id) == if 0 <= k < |vv| then 1 else 0
  {
    if vv != [] {
      var n := |vv| - 1;
      assert forall c :: 0 <= c < n ==> vv[..n][c] == vv[c];
      ListedOnce(vv[..n], id, k);
      DistinctOnce(vv[n], id);
    }
  }

  lemma {:induction false} DistinctOnce(s: seq<int>, id: int)
    requires Distinct(s)
    ensures multiset(s)[id] == if id in s then 1 else 0
  {
    if s != [] {
      var n := |s| - 1;
      assert s == s[..n] + [s[n]];
      DistinctOnce(s[..n], id);
      assert s[n] !in s[..n];
    }
  }

  lemma RandomCount(t: Table)
    requires RandomOk(t)
    ensures |t.vRandom| == |t.mapInfo.Keys|
  {
    forall id ensures id in t.mapInfo.Keys <==> id in t.vRandom {
      if id in t.mapInfo { assert t.vRandom[t.mapInfo[id].nRandomPos] == id; }
    }
    ListSize(t.vRandom, t.mapInfo.Keys);
  }

  lemma TriedListed(h: Hashing, t: Table, id: int)
    requires TriedOk(h, t)
    ensures Listed(t.vvTried, id) == Places(t, id)
  {
    var k := if IsTried(t, id) then TriedBucket(h, t.nKey, t.mapInfo[id]) else -1;
    forall c | 0 <= c < |t.vvTried| ensures Distinct(t.vvTried[c]) && (id in t.vvTried[c] <==> c == k) {
      assert TriedBucketOk(h, t, c);
    }
    ListedOnce(t.vvTried, id, k);
  }

  lemma OkIsChecked(h: Hashing, t: Table)
    requires Ok(h, t, NoHole)
    ensures Checked(t)
  {
    hide TriedOk, Listed, RandomOk, AddrOk, EntriesOk, NewOk, EntryChecked, Count;
    RandomCount(t);
    assert t.mapInfo.Keys == NewIds(t, NoHole) + TriedIds(t);
    assert NewIds(t, NoHole) !! TriedIds(t);
    forall id ensures Listed(t.vvTried, id) == Places(t, id) { TriedListed(h, t, id); }
    EntriesChecked(t);
    forall id ensures Count(t.vvNew, id) == References(t, id) { NewListed(t, id); }
  }

  lemma EntriesChecked(t: Table)
    requires RandomOk(t) && AddrOk(t) && EntriesOk(t, NoHole)
    ensures forall n <- t.mapInfo :: EntryChecked(t, n)
  {}

  lemma NewListed(t: Table, id: int)
    requires EntriesOk(t, NoHole) && NewOk(t)
    ensures Count(t.vvNew, id) == References(t, id)
  {
    if id in t.mapInfo { assert EntryOk(t, NoHole, id); } else { NotListed(t, id); }
  }

  lemma NotListed(t: Table, id: int)
    requires NewOk(t) && id !in t.mapInfo
    ensures Count(t.vvNew, id) == 0
  {
    CountZero(t.vvNew, id);
  }
}
