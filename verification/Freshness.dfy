/** No txid occurs twice along an accepted branch: a repeated transaction would spend an output that is spent already, and
    a coinbase carries its height. */
module Freshness {
  import opened Wrappers
  import opened Ledger
  import opened ScriptNumber
  import opened Replay

  /** Equal txids mean equal transactions. */
  ghost predicate NoCollisions(disk: Disk) {
    forall t, u {:trigger Holds(disk, t), Holds(disk, u)} :: Holds(disk, t) && Holds(disk, u) && t.hash == u.hash ==> t == u
  }

  /** The transaction is in one of the blocks. */
  ghost predicate Holds(disk: Disk, t: Tx) { exists b :: b in disk && t in disk[b].vtx }

  /** The coinbase starts with the height of the block. */
  predicate HeightInCoinbase(block: Block, nHeight: nat) {
    block.vtx != [] && StartsWithHeight(block.vtx[0].scriptSig, nHeight)
  }

  ghost predicate HeightsTo(disk: Disk, chain: seq<Hash>, n: nat)
    requires HasBlocks(disk, chain) && n <= |chain|
  {
    forall k :: 1 <= k < n ==> HeightInCoinbase(disk[chain[k]], k)
  }

  /** An accepted branch under these two conditions. */
  ghost predicate Sane(disk: Disk, chain: seq<Hash>, n: nat)
    requires HasBlocks(disk, chain) && n <= |chain|
  {
    AcceptedTo(disk, chain, n) && HeightsTo(disk, chain, n) && NoCollisions(disk)
  }

  /** The view of transaction q of block j. */
  ghost function ViewAt(disk: Disk, chain: seq<Hash>, j: nat, q: nat): Index
    requires HasBlocks(disk, chain) && j < |chain| && q <= |disk[chain[j]].vtx|
  {
    ConnectTxs(ReplayTo(disk, chain, j), chain[j], disk[chain[j]].vtx[..q])
  }

  lemma {:induction false} NotLiveOn(idx: Index, block: Hash, vtx: seq<Tx>, o: OutPoint)
    requires !Live(idx, o) && o.hash !in TxIds(vtx)
    ensures !Live(ConnectTxs(idx, block, vtx), o)
  {
    if vtx != [] {
      var init, tx := vtx[..|vtx| - 1], vtx[|vtx| - 1];
      assert tx in vtx && forall t <- init :: t in vtx;
      NotLiveOn(idx, block, init, o);
      assert o == OutPoint(o.hash, o.n);
    }
  }

  /** What was spent in block i is not live in block j unless its txid was defined again in between. */
  lemma {:induction false} NotLiveThrough(disk: Disk, chain: seq<Hash>, i: nat, j: nat, o: OutPoint)
    requires HasBlocks(disk, chain) && 1 <= i <= j <= |chain| && !Live(ReplayTo(disk, chain, i), o)
    requires forall k :: i <= k < j ==> o.hash !in TxIds(disk[chain[k]].vtx)
    ensures !Live(ReplayTo(disk, chain, j), o)
    decreases j
  {
    hide Live, TxIds, ConnectTxs;
    if i < j {
      NotLiveThrough(disk, chain, i, j - 1, o);
      NotLiveOn(ReplayTo(disk, chain, j - 1), chain[j - 1], disk[chain[j - 1]].vtx, o);
    }
  }

  /** An output that is live when transaction p of block i is connected was defined in block i or below. */
  lemma DefinedBelow(disk: Disk, chain: seq<Hash>, i: nat, p: nat, o: OutPoint) returns (k: nat)
    requires HasBlocks(disk, chain) && 1 <= i < |chain| && p <= |disk[chain[i]].vtx| && Live(ViewAt(disk, chain, i, p), o)
    ensures 1 <= k <= i && o.hash in TxIds(disk[chain[k]].vtx)
  {
    var vtx := disk[chain[i]].vtx;
    ConnectTxsKeys(ReplayTo(disk, chain, i), chain[i], vtx[..p]);
    if o.hash in TxIds(vtx[..p]) {
      assert forall t <- vtx[..p] :: t in vtx;
      k := i;
    } else {
      ReplayKeys(disk, chain, i, o.hash);
      k :| 1 <= k < i && o.hash in TxIds(disk[chain[k]].vtx);
    }
  }

  /** The input of a transaction of block i is spent afterwards, and was live before. */
  lemma SpentBy(disk: Disk, chain: seq<Hash>, i: nat, p: nat, o: OutPoint)
    requires HasBlocks(disk, chain) && 1 <= i < |chain| && p < |disk[chain[i]].vtx| && Accepted(disk, chain, i)
    requires !disk[chain[i]].vtx[p].IsCoinBase() && o in disk[chain[i]].vtx[p].vin
    ensures Live(ViewAt(disk, chain, i, p), o) && !Live(ReplayTo(disk, chain, i + 1), o)
  {
    hide Live, ConnectTxs;
    var idx, vtx := ReplayTo(disk, chain, i), disk[chain[i]].vtx;
    SpendFacts(idx, chain[i], vtx, p);
    SpentStays(idx, chain[i], vtx, p, |vtx|, o);
    assert vtx[..|vtx|] == vtx;
  }

  /** Transaction q of block j has a txid that no block below defines. */
  lemma {:induction false} Unrepeated(disk: Disk, chain: seq<Hash>, n: nat, j: nat, q: nat)
    requires HasBlocks(disk, chain) && n <= |chain| && Sane(disk, chain, n) && 1 <= j < n && q < |disk[chain[j]].vtx|
    ensures forall i :: 1 <= i < j ==> disk[chain[j]].vtx[q].hash !in TxIds(disk[chain[i]].vtx)
    decreases j, q
  {
    hide AcceptedTo, Accepted, HeightsTo, NoCollisions, HeightInCoinbase, TxIds, Live, ViewAt, ReplayTo;
    var t := disk[chain[j]].vtx[q];
    forall i | 1 <= i < j ensures t.hash !in TxIds(disk[chain[i]].vtx) {
      if t.hash in TxIds(disk[chain[i]].vtx) {
        var p := SameTx(disk, chain, n, i, j, q);
        NotCoinBase(disk, chain, n, i, p, j, q);
        forall k | i < k < j ensures t.vin[0].hash !in TxIds(disk[chain[k]].vtx) {
          forall r | 0 <= r < |disk[chain[k]].vtx| ensures disk[chain[k]].vtx[r].hash != t.vin[0].hash {
            Unrepeated(disk, chain, n, k, r);
            DefinedOnce(disk, chain, n, i, p, k, r);
          }
          NotAmong(disk[chain[k]].vtx, t.vin[0].hash);
        }
        forall r | 0 <= r < q ensures disk[chain[j]].vtx[r].hash != t.vin[0].hash {
          Unrepeated(disk, chain, n, j, r);
          DefinedOnce(disk, chain, n, i, p, j, r);
        }
        NotAmong(disk[chain[j]].vtx[..q], t.vin[0].hash);
        AcceptedAt(disk, chain, n, i);
        AcceptedAt(disk, chain, n, j);
        StillSpent(disk, chain, i, p, j, q, t.vin[0]);
        SpentBy(disk, chain, j, q, t.vin[0]);
      }
    }
  }

  lemma AcceptedAt(disk: Disk, chain: seq<Hash>, n: nat, k: nat)
    requires HasBlocks(disk, chain) && n <= |chain| && Sane(disk, chain, n) && 1 <= k < n
    ensures Accepted(disk, chain, k)
  {}

  lemma SameTx(disk: Disk, chain: seq<Hash>, n: nat, i: nat, j: nat, q: nat) returns (p: nat)
    requires HasBlocks(disk, chain) && n <= |chain| && Sane(disk, chain, n) && 1 <= i < j < n && q < |disk[chain[j]].vtx|
    requires disk[chain[j]].vtx[q].hash in TxIds(disk[chain[i]].vtx)
    ensures p < |disk[chain[i]].vtx| && disk[chain[i]].vtx[p] == disk[chain[j]].vtx[q]
  {
    var u :| u in disk[chain[i]].vtx && u.hash == disk[chain[j]].vtx[q].hash;
    assert disk[chain[j]].vtx[q] in disk[chain[j]].vtx;
    assert Holds(disk, u) && Holds(disk, disk[chain[j]].vtx[q]);
    p :| 0 <= p < |disk[chain[i]].vtx| && disk[chain[i]].vtx[p] == u;
  }

  /** Coinbases of different heights differ. */
  lemma NotCoinBase(disk: Disk, chain: seq<Hash>, n: nat, i: nat, p: nat, j: nat, q: nat)
    requires HasBlocks(disk, chain) && n <= |chain| && Sane(disk, chain, n) && 1 <= i < j < n
    requires p < |disk[chain[i]].vtx| && q < |disk[chain[j]].vtx| && disk[chain[i]].vtx[p] == disk[chain[j]].vtx[q]
    ensures !disk[chain[j]].vtx[q].IsCoinBase() && disk[chain[j]].vtx[q].vin != []
  {
    hide StartsWithHeight;
    assert Accepted(disk, chain, i) && Accepted(disk, chain, j);
    if disk[chain[j]].vtx[q].IsCoinBase() {
      assert p == 0 && q == 0;
      OneHeight(disk[chain[j]].vtx[0].scriptSig, i, j);
    }
  }

  /** What transaction p of block i spends, a later transaction does not define if its own txid is new. */
  lemma DefinedOnce(disk: Disk, chain: seq<Hash>, n: nat, i: nat, p: nat, k: nat, r: nat)
    requires HasBlocks(disk, chain) && n <= |chain| && Sane(disk, chain, n) && 1 <= i < k < n
    requires p < |disk[chain[i]].vtx| && r < |disk[chain[k]].vtx|
    requires !disk[chain[i]].vtx[p].IsCoinBase() && disk[chain[i]].vtx[p].vin != []
    requires forall m :: 1 <= m < k ==> disk[chain[k]].vtx[r].hash !in TxIds(disk[chain[m]].vtx)
    ensures disk[chain[k]].vtx[r].hash != disk[chain[i]].vtx[p].vin[0].hash
  {
    hide TxIds, Live;
    assert Accepted(disk, chain, i);
    var o := disk[chain[i]].vtx[p].vin[0];
    SpentBy(disk, chain, i, p, o);
    var m := DefinedBelow(disk, chain, i, p, o);
  }

  lemma NotAmong(vtx: seq<Tx>, h: Hash)
    requires forall r :: 0 <= r < |vtx| ==> vtx[r].hash != h
    ensures h !in TxIds(vtx)
  {}

  /** What transaction p of block i spends is not live for transaction q of block j, unless it was defined again. */
  lemma {:induction false} StillSpent(disk: Disk, chain: seq<Hash>, i: nat, p: nat, j: nat, q: nat, o: OutPoint)
    requires HasBlocks(disk, chain) && 1 <= i < j < |chain| && p < |disk[chain[i]].vtx| && q <= |disk[chain[j]].vtx|
    requires Accepted(disk, chain, i) && !disk[chain[i]].vtx[p].IsCoinBase() && o in disk[chain[i]].vtx[p].vin
    requires forall k :: i < k < j ==> o.hash !in TxIds(disk[chain[k]].vtx)
    requires o.hash !in TxIds(disk[chain[j]].vtx[..q])
    ensures !Live(ViewAt(disk, chain, j, q), o)
  {
    hide Live, ConnectTxs, TxIds, Accepted, ReplayTo;
    SpentBy(disk, chain, i, p, o);
    NotLiveThrough(disk, chain, i + 1, j, o);
    NotLiveOn(ReplayTo(disk, chain, j), chain[j], disk[chain[j]].vtx[..q], o);
  }

  /** Along an accepted branch whose coinbases carry their heights no txid is defined twice, short of a collision. */
  lemma Fresh(disk: Disk, chain: seq<Hash>)
    requires HasBlocks(disk, chain) && AcceptedTo(disk, chain, |chain|) && HeightsTo(disk, chain, |chain|) && NoCollisions(disk)
    ensures FreshTxIds(disk, chain)
  {
    hide AcceptedTo, HeightsTo, NoCollisions;
    forall i, j | 1 <= i < j < |chain| ensures TxIds(disk[chain[i]].vtx) !! TxIds(disk[chain[j]].vtx) {
      forall t | t in disk[chain[j]].vtx ensures t.hash !in TxIds(disk[chain[i]].vtx) {
        var q :| 0 <= q < |disk[chain[j]].vtx| && disk[chain[j]].vtx[q] == t;
        Unrepeated(disk, chain, |chain|, j, q);
      }
    }
  }

  /** So it can be disconnected down to any height, and the index below is restored. */
  lemma CanUnwind(disk: Disk, chain: seq<Hash>, m: nat)
    requires HasBlocks(disk, chain) && 1 <= m <= |chain|
    requires AcceptedTo(disk, chain, |chain|) && HeightsTo(disk, chain, |chain|) && NoCollisions(disk)
    ensures Unwind(disk, chain, |chain|, m, ReplayTo(disk, chain, |chain|)) == Some(ReplayTo(disk, chain, m))
  {
    Fresh(disk, chain);
    UnwindFresh(disk, chain, |chain|, m);
  }

  lemma {:induction false} UnwindFresh(disk: Disk, chain: seq<Hash>, n: nat, m: nat)
    requires HasBlocks(disk, chain) && 1 <= m <= n <= |chain| && AcceptedTo(disk, chain, n) && FreshTxIds(disk, chain)
    ensures Unwind(disk, chain, n, m, ReplayTo(disk, chain, n)) == Some(ReplayTo(disk, chain, m))
    decreases n
  {
    hide Accepted, ReplayTo, DisconnectTxs, FreshTxIds;
    if m < n {
      assert Accepted(disk, chain, n - 1);
      ReplayDisconnect(disk, chain, n - 1);
      UnwindFresh(disk, chain, n - 1, m);
    }
  }
}
