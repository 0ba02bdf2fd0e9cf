/** Saving the address tables and loading them again. */
module AddrStore {
  import opened Wrappers
  import opened AddrTable
  import opened AddrMan

  /** What of an entry is written. */
  datatype Persisted = Persisted(
    ip: nat, port: nat, nServices: set<nat>, nTime: int, source: nat, nLastSuccess: int, nAttempts: int)

  /** The saved form: the new entries, then the tried ones, then each new bucket as positions among the new entries. */
  datatype File = File(
    nKey: seq<nat>, nNew: int, nTried: int, nUBuckets: int, infos: seq<Persisted>, buckets: seq<seq<int>>)

  function Persist(a: AddrInfo): Persisted {
    Persisted(a.ip, a.port, a.nServices, a.nTime, a.source, a.nLastSuccess, a.nAttempts)
  }

  function Restore(p: Persisted): AddrInfo {
    AddrInfo(p.ip, p.port, p.nServices, p.nTime, 0, p.source, p.nLastSuccess, p.nAttempts, 0, false, -1)
  }

  // ----- what Serialize writes

  ghost predicate WrittenInfos(t: Table, order: seq<int>, infos: seq<Persisted>) {
    && |infos| == |order|
    && forall i :: 0 <= i < |order| ==> order[i] in t.mapInfo && infos[i] == Persist(t.mapInfo[order[i]])
  }

  ghost predicate Ascending(s: seq<int>) { forall i, j :: 0 <= i < j < |s| ==> s[i] < s[j] }

  ghost predicate WrittenBucket(newIds: seq<int>, bucket: set<int>, written: seq<int>) {
    && |written| == |bucket| && Distinct(written) && Ascending(written)
    && (forall i <- written :: 0 <= i < |newIds|)
    && forall i :: 0 <= i < |newIds| ==> (i in written <==> newIds[i] in bucket)
  }

  ghost predicate Written(t: Table, s: File, newIds: seq<int>, triedIds: seq<int>) {
    && s.nKey == t.nKey && s.nNew == t.nNew == |newIds| && s.nTried == t.nTried == |triedIds|
    && Lists(newIds, NewIds(t, NoHole)) && Lists(triedIds, TriedIds(t)) && Ascending(newIds) && Ascending(triedIds)
    && WrittenInfos(t, newIds + triedIds, s.infos)
    && s.nUBuckets == NEW_BUCKETS == |s.buckets| == |t.vvNew|
    && forall b :: 0 <= b < NEW_BUCKETS ==> WrittenBucket(newIds, t.vvNew[b], s.buckets[b])
  }

  /** As many distinct members as there are at all are all of them. */
  lemma AllListed(s: seq<int>, some: set<int>, ids: set<int>)
    requires Lists(s, some) && some <= ids && |s| == |ids|
    ensures Lists(s, ids)
  {
    ListSize(s, some);
    assert ids == some + (ids - some);
    assert |ids - some| == 0;
  }

  /** What the first loop over mapInfo has done with the ids outside `rest`. */
  ghost predicate Numbered(t: Table, rest: set<int>, newIds: seq<int>, unk: map<int, int>, infos: seq<Persisted>) {
    && Lists(newIds, set id <- t.mapInfo | !t.mapInfo[id].fInTried && id !in rest)
    && WrittenInfos(t, newIds, infos)
    && forall i :: 0 <= i < |newIds| ==> newIds[i] in unk && unk[newIds[i]] == i
  }

  lemma NumberedNext(t: Table, rest: set<int>, newIds: seq<int>, unk: map<int, int>, infos: seq<Persisted>, id: int)
    requires Numbered(t, rest, newIds, unk, infos) && id in rest && id in t.mapInfo
    ensures var unk' := unk[id := |newIds|];
      if t.mapInfo[id].fInTried then Numbered(t, rest - {id}, newIds, unk', infos)
      else Numbered(t, rest - {id}, newIds + [id], unk', infos + [Persist(t.mapInfo[id])])
  {
    assert forall i :: 0 <= i < |newIds| ==> newIds[i] in newIds;
    var done := set x <- t.mapInfo | !t.mapInfo[x].fInTried && x !in rest;
    var done' := set x <- t.mapInfo | !t.mapInfo[x].fInTried && x !in rest - {id};
    if t.mapInfo[id].fInTried {
      assert done' == done;
    } else {
      assert done' == done + {id};
    }
  }

  /** The ids written so far are below those still to come. */
  ghost predicate UpTo(ids: seq<int>, rest: set<int>) { Ascending(ids) && forall i :: 0 <= i < |ids| ==> forall y <- rest :: ids[i] < y }

  lemma UpToNext(ids: seq<int>, rest: set<int>, id: int)
    requires UpTo(ids, rest) && Least(rest, id)
    ensures UpTo(ids, rest - {id}) && UpTo(ids + [id], rest - {id})
  {}

  method NumberNew(h: Hashing, t: Table) returns (unk: map<int, int>, infos: seq<Persisted>, ghost newIds: seq<int>)
    requires Ok(h, t, NoHole)
    ensures Lists(newIds, NewIds(t, NoHole)) && WrittenInfos(t, newIds, infos) && |newIds| == t.nNew
    ensures forall i :: 0 <= i < |newIds| ==> newIds[i] in unk && unk[newIds[i]] == i
    ensures |infos| == t.nNew && Ascending(newIds)
    ensures forall id <- NewIds(t, NoHole) ::
      id in t.mapInfo && id in unk && 0 <= unk[id] < t.nNew && infos[unk[id]] == Persist(t.mapInfo[id])
  {
    hide Ok, Numbered, UpTo;
    unk, infos, newIds := map[], [], [];
    var nIds := 0;
    var rest := t.mapInfo.Keys;
    NumberedStart(t);
    UpToStart(rest);
    while rest != {}
      invariant rest <= t.mapInfo.Keys && Numbered(t, rest, newIds, unk, infos) && nIds == |newIds| && UpTo(newIds, rest)
      decreases rest
    {
      if nIds == t.nNew { break; }
      ghost var w := HasLeast(rest);
      var id :| id in rest && Least(rest, id);
      assert id in t.mapInfo;
      NumberedNext(t, rest, newIds, unk, infos, id);
      UpToNext(newIds, rest, id);
      EntryFacts(h, t, id);
      unk := unk[id := nIds];
      var info := t.mapInfo[id];
      TriedHasNone(h, t, id);
      if info.nRefCount != 0 {
        infos := infos + [Persist(info)];
        newIds := newIds + [id];
        nIds := nIds + 1;
      }
      rest := rest - {id};
    }
    NumberedEnd(h, t, rest, newIds, unk, infos);
    UpToAscending(newIds, rest);
  }

  lemma UpToStart(rest: set<int>)
    ensures UpTo([], rest)
  {}

  lemma UpToAscending(ids: seq<int>, rest: set<int>)
    requires UpTo(ids, rest)
    ensures Ascending(ids)
  {}

  lemma TriedHasNone(h: Hashing, t: Table, id: int)
    requires Ok(h, t, NoHole) && id in t.mapInfo
    ensures t.mapInfo[id].fInTried <==> t.mapInfo[id].nRefCount == 0
  {}

  lemma NumberedStart(t: Table)
    ensures Numbered(t, t.mapInfo.Keys, [], map[], [])
  {}

  lemma NumberedEnd(h: Hashing, t: Table, rest: set<int>, newIds: seq<int>, unk: map<int, int>, infos: seq<Persisted>)
    requires Ok(h, t, NoHole) && Numbered(t, rest, newIds, unk, infos) && (rest == {} || |newIds| == t.nNew)
    ensures Lists(newIds, NewIds(t, NoHole)) && WrittenInfos(t, newIds, infos) && |newIds| == t.nNew
    ensures forall i :: 0 <= i < |newIds| ==> newIds[i] in unk && unk[newIds[i]] == i
  {
    var done := set id <- t.mapInfo | !t.mapInfo[id].fInTried && id !in rest;
    if rest == {} {
      assert done == NewIds(t, NoHole);
      ListSize(newIds, done);
    } else {
      AllListed(newIds, done, NewIds(t, NoHole));
    }
  }

  method WriteTried(h: Hashing, t: Table) returns (infos: seq<Persisted>, ghost triedIds: seq<int>)
    requires Ok(h, t, NoHole)
    ensures Lists(triedIds, TriedIds(t)) && WrittenInfos(t, triedIds, infos) && |triedIds| == t.nTried == |infos|
    ensures Ascending(triedIds)
    ensures forall id <- TriedIds(t) :: id in t.mapInfo && Persist(t.mapInfo[id]) in infos
  {
    hide TriedOk, NewOk, AddrOk, RandomOk, EntriesOk, UpTo;
    infos, triedIds := [], [];
    var nIds := 0;
    var rest := t.mapInfo.Keys;
    UpToStart(rest);
    while rest != {}
      invariant rest <= t.mapInfo.Keys && WrittenInfos(t, triedIds, infos) && nIds == |triedIds| && UpTo(triedIds, rest)
      invariant Lists(triedIds, set id <- t.mapInfo | t.mapInfo[id].fInTried && id !in rest)
      decreases rest
    {
      if nIds == t.nTried { break; }
      ghost var w := HasLeast(rest);
      var id :| id in rest && Least(rest, id);
      assert id in t.mapInfo;
      UpToNext(triedIds, rest, id);
      var info := t.mapInfo[id];
      assert forall i :: 0 <= i < |triedIds| ==> triedIds[i] in triedIds;
      ghost var done := set x <- t.mapInfo | t.mapInfo[x].fInTried && x !in rest;
      ghost var done' := set x <- t.mapInfo | t.mapInfo[x].fInTried && x !in rest - {id};
      assert done' == if info.fInTried then done + {id} else done;
      if info.fInTried {
        infos := infos + [Persist(info)];
        triedIds := triedIds + [id];
        nIds := nIds + 1;
      }
      rest := rest - {id};
    }
    UpToAscending(triedIds, rest);
    ghost var done := set id <- t.mapInfo | t.mapInfo[id].fInTried && id !in rest;
    if rest == {} {
      assert done == TriedIds(t);
      ListSize(triedIds, done);
    } else {
      AllListed(triedIds, done, TriedIds(t));
    }
  }

  /** The numbers written are those of these ids. */
  ghost predicate NamesOf(newIds: seq<int>, written: seq<int>, ids: seq<int>) {
    |written| == |ids| && forall k :: 0 <= k < |written| ==> 0 <= written[k] < |newIds| && newIds[written[k]] == ids[k]
  }

  lemma SameOrder(newIds: seq<int>, written: seq<int>, ids: seq<int>)
    requires NamesOf(newIds, written, ids) && Ascending(newIds) && Ascending(ids)
    ensures Ascending(written)
  {}

  method WriteBucket(bucket: set<int>, unk: map<int, int>, ghost newIds: seq<int>) returns (written: seq<int>)
    requires Distinct(newIds) && forall i :: 0 <= i < |newIds| ==> newIds[i] in unk && unk[newIds[i]] == i
    requires Ascending(newIds) && forall id <- bucket :: id in newIds
    ensures WrittenBucket(newIds, bucket, written)
  {
    hide UpTo, Ascending;
    written := [];
    ghost var ids: seq<int> := [];
    var rest := bucket;
    UpToStart(rest);
    while rest != {}
      invariant rest <= bucket && |written| == |bucket| - |rest| && Distinct(written)
      invariant forall i <- written :: 0 <= i < |newIds|
      invariant UpTo(ids, rest) && NamesOf(newIds, written, ids)
      invariant forall i :: 0 <= i < |newIds| ==> (i in written <==> newIds[i] in bucket && newIds[i] !in rest)
      decreases rest
    {
      ghost var w := HasLeast(rest);
      var id :| id in rest && Least(rest, id);
      assert id in newIds;
      ghost var n :| 0 <= n < |newIds| && newIds[n] == id;
      assert unk[id] == n;
      assert n !in written;
      UpToNext(ids, rest, id);
      ids := ids + [id];
      written := written + [unk[id]];
      rest := rest - {id};
    }
    UpToAscending(ids, rest);
    SameOrder(newIds, written, ids);
  }

  method Serialize(h: Hashing, t: Table) returns (s: File)
    requires Ok(h, t, NoHole)
    ensures exists newIds, triedIds :: Written(t, s, newIds, triedIds)
  {
    hide Ok, Lists, NewIds, TriedIds, WrittenBucket;
    var unk, news, trieds;
    ghost var newIds, triedIds;
    unk, news, newIds := NumberNew(h, t);
    trieds, triedIds := WriteTried(h, t);
    var buckets := [];
    Shape(h, t, NoHole);
    var b := 0;
    while b < |t.vvNew|
      invariant b <= |t.vvNew| && |buckets| == b
      invariant forall c :: 0 <= c < b ==> WrittenBucket(newIds, t.vvNew[c], buckets[c])
    {
      BucketListed(h, t, b, newIds);
      var written := WriteBucket(t.vvNew[b], unk, newIds);
      buckets := buckets + [written];
      b := b + 1;
    }
    s := File(t.nKey, t.nNew, t.nTried, NEW_BUCKETS, news + trieds, buckets);
    assert |newIds + triedIds| == |newIds| + |triedIds|;
    assert WrittenInfos(t, newIds + triedIds, news + trieds);
    assert Written(t, s, newIds, triedIds);
  }

  lemma BucketListed(h: Hashing, t: Table, b: nat, newIds: seq<int>)
    requires Ok(h, t, NoHole) && b < NEW_BUCKETS && |t.vvNew| == NEW_BUCKETS && Lists(newIds, NewIds(t, NoHole))
    ensures Distinct(newIds) && forall id <- t.vvNew[b] :: id in newIds
  {
    hide Ok;
    forall id | id in t.vvNew[b] ensures id in newIds {
      ListedIsNew(h, t, b, id, NoHole);
      assert id in NewIds(t, NoHole);
    }
  }
}
