/** Replaying a branch from genesis: the reference against which the chain state is compared. */
module Replay {
  import opened Wrappers
  import opened Ledger
  import opened BlockTree
  import opened Rewards
  import opened Supply
  import opened Connect
  import opened Blocks

  type Disk = map<Hash, Block>

  ghost predicate HasBlocks(disk: Disk, chain: seq<Hash>) { forall k :: 0 <= k < |chain| ==> chain[k] in disk }

  /** The index after connecting the first n blocks of the branch, genesis excepted, to an empty index. */
  ghost function ReplayTo(disk: Disk, chain: seq<Hash>, n: nat): Index
    requires HasBlocks(disk, chain) && n <= |chain|
  {
    if n <= 1 then map[] else ConnectTxs(ReplayTo(disk, chain, n - 1), chain[n - 1], disk[chain[n - 1]].vtx)
  }

  /** A coinbase comes first and nowhere else, and everything has an input. */
  ghost predicate Shaped(vtx: seq<Tx>) {
    vtx != [] && forall i :: 0 <= i < |vtx| ==> vtx[i].vin != [] && (vtx[i].IsCoinBase() <==> i == 0)
  }

  /** Block k of the branch spends only what the branch below it left unspent, and mints no more than its height allows. */
  ghost predicate Accepted(disk: Disk, chain: seq<Hash>, k: nat)
    requires HasBlocks(disk, chain) && 1 <= k < |chain|
  {
    var idx, block := ReplayTo(disk, chain, k), disk[chain[k]];
    && BlockSpends(idx, chain[k], block.vtx) && Shaped(block.vtx)
    && (StakeAccounted(block) ==> Created(idx, chain[k], block.vtx) <= MaxSubsidy(k))
  }

  ghost predicate AcceptedTo(disk: Disk, chain: seq<Hash>, n: nat)
    requires HasBlocks(disk, chain) && n <= |chain|
  {
    forall k :: 1 <= k < n ==> Accepted(disk, chain, k)
  }

  /** No txid occurs in two blocks of the branch. */
  ghost predicate FreshTxIds(disk: Disk, chain: seq<Hash>)
    requires HasBlocks(disk, chain)
  {
    forall i, j :: 1 <= i < j < |chain| ==> TxIds(disk[chain[i]].vtx) !! TxIds(disk[chain[j]].vtx)
  }

  lemma {:induction false} ReplayWellFormed(disk: Disk, chain: seq<Hash>, n: nat)
    requires HasBlocks(disk, chain) && n <= |chain|
    ensures WellFormed(ReplayTo(disk, chain, n))
  {
    if n > 1 {
      ReplayWellFormed(disk, chain, n - 1);
      ConnectTxsWellFormed(ReplayTo(disk, chain, n - 1), chain[n - 1], disk[chain[n - 1]].vtx);
    }
  }

  lemma {:induction false} ReplayKeys(disk: Disk, chain: seq<Hash>, n: nat, h: Hash)
    requires HasBlocks(disk, chain) && n <= |chain| && h in ReplayTo(disk, chain, n)
    ensures exists k :: 1 <= k < n && h in TxIds(disk[chain[k]].vtx)
  {
    if n > 1 {
      ConnectTxsKeys(ReplayTo(disk, chain, n - 1), chain[n - 1], disk[chain[n - 1]].vtx);
      if h in ReplayTo(disk, chain, n - 1) { ReplayKeys(disk, chain, n - 1, h); }
    }
  }

  /** The replay looks at nothing but the blocks replayed. */
  lemma {:induction false} ReplaySame(disk: Disk, a: seq<Hash>, disk': Disk, b: seq<Hash>, n: nat)
    requires HasBlocks(disk, a) && HasBlocks(disk', b) && n <= |a| && n <= |b|
    requires forall k :: 0 <= k < n ==> a[k] == b[k] && disk[a[k]] == disk'[b[k]]
    ensures ReplayTo(disk, a, n) == ReplayTo(disk', b, n)
    ensures AcceptedTo(disk, a, n) ==> AcceptedTo(disk', b, n)
  {
    if n > 1 {
      ReplaySame(disk, a, disk', b, n - 1);
      if AcceptedTo(disk, a, n) {
        assert Accepted(disk, a, n - 1);
        assert Accepted(disk', b, n - 1);
      }
    }
  }

  /** The sum of all outputs unspent after the first n blocks. */
  ghost function SupplyAt(disk: Disk, chain: seq<Hash>, n: nat): int
    requires HasBlocks(disk, chain) && n <= |chain|
  {
    ReplayWellFormed(disk, chain, n);
    Total(ReplayTo(disk, chain, n))
  }

  /** Connecting an accepted block takes the replay of the blocks below it to the replay including it. */
  lemma ReplayConnect(r: Rules, cx: Context, disk: Disk, chain: seq<Hash>, k: nat)
    requires HasBlocks(disk, chain) && 1 <= k < |chain|
    requires cx.Valid() && cx.pindex == chain[k] && cx.tree.Height(chain[k]) == k && disk[chain[k]].hash == chain[k]
    requires BlockConnects(r, cx, ReplayTo(disk, chain, k), disk[chain[k]])
    ensures Accepted(disk, chain, k)
    ensures ReplayTo(disk, chain, k + 1) == ConnectTxs(ReplayTo(disk, chain, k), chain[k], disk[chain[k]].vtx)
    ensures SupplyAt(disk, chain, k + 1)
            == SupplyAt(disk, chain, k) + Created(ReplayTo(disk, chain, k), chain[k], disk[chain[k]].vtx)
  {
    var idx := ReplayTo(disk, chain, k);
    ReplayWellFormed(disk, chain, k);
    ConnectsImpliesSpends(r, cx, idx, disk[chain[k]]);
    forall i | 0 <= i < |disk[chain[k]].vtx| ensures disk[chain[k]].vtx[i].vin != [] {
      assert TransactionOk(r, disk[chain[k]].vtx[i]);
    }
    Conservation(idx, chain[k], disk[chain[k]].vtx);
    if StakeAccounted(disk[chain[k]]) { MintAtMostSubsidy(r, cx, idx, disk[chain[k]]); }
  }

  /** Disconnecting block k of a branch without repeated txids gives back the replay of the blocks below it. */
  lemma ReplayDisconnect(disk: Disk, chain: seq<Hash>, k: nat)
    requires HasBlocks(disk, chain) && 1 <= k < |chain| && Accepted(disk, chain, k) && FreshTxIds(disk, chain)
    ensures DisconnectTxs(ReplayTo(disk, chain, k + 1), disk[chain[k]].vtx) == Some(ReplayTo(disk, chain, k))
  {
    var idx, ids := ReplayTo(disk, chain, k), TxIds(disk[chain[k]].vtx);
    Undo(idx, chain[k], disk[chain[k]].vtx);
    forall h | h in idx ensures h !in ids {
      ReplayKeys(disk, chain, k, h);
      var i :| 1 <= i < k && h in TxIds(disk[chain[i]].vtx);
      assert TxIds(disk[chain[i]].vtx) !! ids;
    }
  }

  // ----- disconnecting several blocks, with repeated txids

  /** Disconnects the blocks from height n - 1 down to m. */
  function Unwind(disk: Disk, chain: seq<Hash>, n: nat, m: nat, db: Index): Option<Index>
    requires HasBlocks(disk, chain) && n <= |chain|
  {
    if n <= m then Some(db) else
      match DisconnectTxs(db, disk[chain[n - 1]].vtx)
      case None => None
      case Some(prev) => Unwind(disk, chain, n - 1, m, prev)
  }

  /** The txids defined from height m to n - 1. */
  ghost function IdsBetween(disk: Disk, chain: seq<Hash>, m: nat, n: nat): set<Hash>
    requires HasBlocks(disk, chain) && n <= |chain|
  {
    if n <= m then {} else IdsBetween(disk, chain, m, n - 1) + TxIds(disk[chain[n - 1]].vtx)
  }

  /** No block from height m to n - 1 spends from one of these txids. */
  ghost predicate AllUntouched(disk: Disk, chain: seq<Hash>, m: nat, n: nat, ids: set<Hash>)
    requires HasBlocks(disk, chain) && n <= |chain|
  {
    forall k :: m <= k < n ==> Untouched(disk[chain[k]].vtx, ids)
  }

  /** No block from height m to n - 1 spends from a txid that a later one of them defines again. */
  ghost predicate NotRedefined(disk: Disk, chain: seq<Hash>, m: nat, n: nat)
    requires HasBlocks(disk, chain) && n <= |chain|
  {
    forall j :: m <= j < n ==> AllUntouched(disk, chain, m, j, TxIds(disk[chain[j]].vtx))
  }

  lemma UntouchedMore(disk: Disk, chain: seq<Hash>, m: nat, n: nat, ids: set<Hash>)
    requires HasBlocks(disk, chain) && m < n <= |chain|
    ensures var last := disk[chain[n - 1]].vtx;
      AllUntouched(disk, chain, m, n, ids) && NotRedefined(disk, chain, m, n) <==>
      Untouched(last, ids) && AllUntouched(disk, chain, m, n - 1, ids + TxIds(last)) && NotRedefined(disk, chain, m, n - 1)
  {
    var last := disk[chain[n - 1]].vtx;
    assert AllUntouched(disk, chain, m, n - 1, ids + TxIds(last)) <==>
      AllUntouched(disk, chain, m, n - 1, ids) && AllUntouched(disk, chain, m, n - 1, TxIds(last))
    by {
      forall k | m <= k < n - 1
        ensures Untouched(disk[chain[k]].vtx, ids + TxIds(last)) <==>
          Untouched(disk[chain[k]].vtx, ids) && Untouched(disk[chain[k]].vtx, TxIds(last))
      {}
    }
  }

  /** Disconnecting the accepted blocks down to height m succeeds exactly if none of them spends from a txid erased before
      or defined again by a later one; the index then is the replay up to there, less txids that are dead in it. */
  lemma {:induction false} UnwindFrom(disk: Disk, chain: seq<Hash>, n: nat, m: nat, erased: set<Hash>)
    requires HasBlocks(disk, chain) && 1 <= m <= n <= |chain| && AcceptedTo(disk, chain, n)
    requires forall h <- erased :: Dead(ReplayTo(disk, chain, n), h)
    ensures var u, ids := Unwind(disk, chain, n, m, ReplayTo(disk, chain, n) - erased), erased + IdsBetween(disk, chain, m, n);
      && (u.Some? <==> AllUntouched(disk, chain, m, n, erased) && NotRedefined(disk, chain, m, n))
      && (u.Some? ==> u.value == ReplayTo(disk, chain, m) - ids && forall h <- ids :: Dead(ReplayTo(disk, chain, m), h))
  {
    hide Dead, Untouched, AllUntouched, NotRedefined, TxIds, ConnectTxs, DisconnectTxs, BlockSpends;
    if n > m {
      var block := disk[chain[n - 1]];
      assert Accepted(disk, chain, n - 1);
      UndoAll(ReplayTo(disk, chain, n - 1), chain[n - 1], block.vtx, erased);
      UntouchedMore(disk, chain, m, n, erased);
      if Untouched(block.vtx, erased) {
        var idx := ReplayTo(disk, chain, n - 1);
        UnwindFrom(disk, chain, n - 1, m, erased + TxIds(block.vtx));
        assert idx - erased - TxIds(block.vtx) == idx - (erased + TxIds(block.vtx));
        assert erased + TxIds(block.vtx) + IdsBetween(disk, chain, m, n - 1) == erased + IdsBetween(disk, chain, m, n);
      }
    } else {
      NothingToUnwind(disk, chain, n, m, erased);
    }
  }

  lemma NothingToUnwind(disk: Disk, chain: seq<Hash>, n: nat, m: nat, erased: set<Hash>)
    requires HasBlocks(disk, chain) && m == n <= |chain|
    ensures AllUntouched(disk, chain, m, n, erased) && NotRedefined(disk, chain, m, n)
    ensures erased + IdsBetween(disk, chain, m, n) == erased
  {}

  /** A reorganisation can disconnect a branch exactly if no block of it spends from a txid that a later one defines again,
      and then it restores the set of unspent outputs; the whole index it restores exactly if no txid was defined before. */
  lemma UnwindExactly(disk: Disk, chain: seq<Hash>, n: nat, m: nat)
    requires HasBlocks(disk, chain) && 1 <= m <= n <= |chain| && AcceptedTo(disk, chain, n)
    ensures var u, was := Unwind(disk, chain, n, m, ReplayTo(disk, chain, n)), ReplayTo(disk, chain, m);
      && (u.Some? <==> NotRedefined(disk, chain, m, n))
      && (u.Some? ==> forall o: OutPoint :: Live(u.value, o) <==> Live(was, o))
      && (u.Some? ==> (u.value == was <==> was.Keys !! IdsBetween(disk, chain, m, n)))
  {
    hide ReplayTo, AcceptedTo, NotRedefined, Unwind, IdsBetween;
    var full, was, ids := ReplayTo(disk, chain, n), ReplayTo(disk, chain, m), IdsBetween(disk, chain, m, n);
    assert full - {} == full && {} + ids == ids;
    assert AllUntouched(disk, chain, m, n, {});
    UnwindFrom(disk, chain, n, m, {});
    if forall h <- ids :: Dead(was, h) {
      forall o: OutPoint ensures Live(was - ids, o) <==> Live(was, o) {
        assert o == OutPoint(o.hash, o.n);
        if o.hash in ids { assert Dead(was, o.hash); }
      }
    }
    assert was - ids == was <==> was.Keys !! ids by {
      if was - ids == was { assert forall h <- was.Keys :: h in (was - ids).Keys; }
    }
  }

  /** The supply along a branch whose blocks are all accounted for stays under the sum of the subsidies. */
  lemma {:induction false} SupplyAlongChain(disk: Disk, chain: seq<Hash>, n: nat)
    requires 1 <= n <= |chain| && HasBlocks(disk, chain) && AcceptedTo(disk, chain, n)
    requires forall k :: 1 <= k < n ==> StakeAccounted(disk[chain[k]])
    ensures SupplyAt(disk, chain, n) <= SumMaxSubsidy(n - 1)
  {
    hide Shaped, BlockSpends, StakeAccounted;
    if n > 1 {
      SupplyAlongChain(disk, chain, n - 1);
      assert Accepted(disk, chain, n - 1);
      ReplayWellFormed(disk, chain, n - 1);
      Conservation(ReplayTo(disk, chain, n - 1), chain[n - 1], disk[chain[n - 1]].vtx);
    }
  }

  /** No branch of accounted blocks ever holds more than the premine plus two full eras at the highest reward. */
  lemma SupplyBounded(disk: Disk, chain: seq<Hash>, n: nat)
    requires 1 <= n <= |chain| && HasBlocks(disk, chain) && AcceptedTo(disk, chain, n)
    requires forall k :: 1 <= k < n ==> StakeAccounted(disk[chain[k]])
    ensures SupplyAt(disk, chain, n) <= 364_800_000 * COIN + 2 * 846_800 * (150 * COIN)
  {
    SupplyAlongChain(disk, chain, n);
    SupplyCap(n - 1);
  }
}
