/** Transactions, the transaction index with its spent flags, and the effect of connecting
    and disconnecting transactions on that index. */
module Ledger {
  import opened Wrappers
  import opened Bytes

  /** A uint256 as a number; 0 is the null hash. */
  type Hash = nat

  const COIN: int := 100_000_000
  const MAX_MONEY: int := 500_000_000 * COIN
  const MAX_BLOCK_SIGOPS: nat := 1_000_000 / 50
  const NULL_N: nat := 0xFFFF_FFFF

  predicate MoneyRange(n: int) { 0 <= n <= MAX_MONEY }

  datatype OutPoint = OutPoint(hash: Hash, n: nat) {
    predicate IsNull() { hash == 0 && n == NULL_N }
  }

  datatype TxOut = TxOut(nValue: int, script: seq<nat>) {
    predicate IsEmpty() { nValue == 0 && script == [] }
  }

  /** A transaction. `hash` stands for GetHash(); nothing is assumed about it. `scriptSig` is the script of the first input,
      which is read of coinbases only; those of other inputs are not part of this model. */
  datatype Tx = Tx(hash: Hash, nTime: int, vin: seq<OutPoint>, vout: seq<TxOut>, scriptSig: seq<byte>) {
    predicate IsCoinBase() { |vin| == 1 && vin[0].IsNull() && |vout| >= 1 }

    predicate IsCoinStake() { |vin| > 0 && !vin[0].IsNull() && |vout| >= 2 && vout[0].IsEmpty() }
  }

  /** What the kinds of transaction and the money range are, in plain values. A transaction is of one kind at most. */
  lemma Kinds(tx: Tx, n: int)
    ensures tx.IsCoinBase() <==> tx.vin == [OutPoint(0, 0xFFFF_FFFF)] && tx.vout != []
    ensures tx.IsCoinStake() <==>
      tx.vin != [] && tx.vin[0] != OutPoint(0, 0xFFFF_FFFF) && 2 <= |tx.vout| && tx.vout[0] == TxOut(0, [])
    ensures !(tx.IsCoinBase() && tx.IsCoinStake())
    ensures MoneyRange(n) <==> 0 <= n <= 50_000_000_000_000_000
  {}

  datatype Block = Block(hash: Hash, hashPrev: Hash, nTime: int, vtx: seq<Tx>) {
    predicate IsProofOfStake() { |vtx| > 1 && vtx[1].IsCoinStake() }
  }

  /** Where a transaction is stored. A disk position is modelled as the block and the transaction found there. */
  datatype DiskTxPos = Null | InMempool | OnDisk(block: Hash, tx: Tx)

  datatype TxIndex = TxIndex(pos: DiskTxPos, vSpent: seq<DiskTxPos>)

  type Index = map<Hash, TxIndex>

  function ValueOut(vout: seq<TxOut>): int {
    if vout == [] then 0 else ValueOut(vout[..|vout| - 1]) + vout[|vout| - 1].nValue
  }

  /** Every entry locates a transaction on disk and has one spent flag for each of its outputs. */
  ghost predicate WellFormed(idx: Index) {
    forall h <- idx :: idx[h].pos.OnDisk? && |idx[h].vSpent| == |idx[h].pos.tx.vout|
  }

  predicate Indexed(idx: Index, o: OutPoint) { o.hash in idx && o.n < |idx[o.hash].vSpent| }

  /** Output `o` exists and is unspent. */
  predicate Live(idx: Index, o: OutPoint) { Indexed(idx, o) && idx[o.hash].vSpent[o.n].Null? }

  /** No unspent output is left under this txid. */
  ghost predicate Dead(idx: Index, h: Hash) { forall n: nat :: !Live(idx, OutPoint(h, n)) }

  /** What a transaction needs of the index: every input is unspent and no output is spent twice. */
  ghost predicate Spendable(idx: Index, vin: seq<OutPoint>) {
    Distinct(vin) && forall i :: 0 <= i < |vin| ==> Live(idx, vin[i])
  }

  // ----- the effect on the index

  function MarkEntry(e: TxIndex, h: Hash, vin: seq<OutPoint>, mark: DiskTxPos): TxIndex {
    e.(vSpent := seq(|e.vSpent|, n requires 0 <= n < |e.vSpent| =>
                       if OutPoint(h, n) in vin then mark else e.vSpent[n]))
  }

  /** The index after the flags of all `vin` are set to `mark` (the spender, or `Null` for unspent). */
  function MarkAll(idx: Index, vin: seq<OutPoint>, mark: DiskTxPos): Index {
    map h | h in idx :: MarkEntry(idx[h], h, vin, mark)
  }

  function NewEntry(pos: DiskTxPos, tx: Tx): TxIndex { TxIndex(pos, seq(|tx.vout|, _ => Null)) }

  function ConnectTx(idx: Index, block: Hash, tx: Tx): Index {
    var spent := if tx.IsCoinBase() then idx else MarkAll(idx, tx.vin, OnDisk(block, tx));
    spent[tx.hash := NewEntry(OnDisk(block, tx), tx)]
  }

  function ConnectTxs(idx: Index, block: Hash, vtx: seq<Tx>): Index {
    if vtx == [] then idx
    else ConnectTx(ConnectTxs(idx, block, vtx[..|vtx| - 1]), block, vtx[|vtx| - 1])
  }

  function DisconnectTx(idx: Index, tx: Tx): Option<Index> {
    if tx.IsCoinBase() then Some(idx - {tx.hash})
    else if forall o <- tx.vin :: Indexed(idx, o) then Some(MarkAll(idx, tx.vin, Null) - {tx.hash})
    else None
  }

  /** Transactions are disconnected last first; one failure fails the block. */
  function DisconnectTxs(idx: Index, vtx: seq<Tx>): Option<Index> {
    if vtx == [] then Some(idx)
    else
      match DisconnectTx(idx, vtx[|vtx| - 1])
      case None => None
      case Some(prev) => DisconnectTxs(prev, vtx[..|vtx| - 1])
  }

  function TxIds(vtx: seq<Tx>): set<Hash> { set tx <- vtx :: tx.hash }

  /** The part of block acceptance that undo and conservation rest on. */
  ghost predicate TxSpends(idx: Index, block: Hash, vtx: seq<Tx>, i: nat)
    requires i < |vtx|
  {
    && Dead(idx, vtx[i].hash)
    && (vtx[i].IsCoinBase() || Spendable(ConnectTxs(idx, block, vtx[..i]), vtx[i].vin))
  }

  ghost predicate BlockSpends(idx: Index, block: Hash, vtx: seq<Tx>) {
    && (forall i, j :: 0 <= i < j < |vtx| ==> vtx[i].hash != vtx[j].hash)
    && forall i :: 0 <= i < |vtx| ==> TxSpends(idx, block, vtx, i)
  }

  // ----- lemmas

  lemma ConnectTxsStep(idx: Index, block: Hash, vtx: seq<Tx>, i: nat)
    requires i < |vtx|
    ensures ConnectTxs(idx, block, vtx[..i + 1]) == ConnectTx(ConnectTxs(idx, block, vtx[..i]), block, vtx[i])
  {
    assert vtx[..i + 1][..i] == vtx[..i];
  }

  lemma BlockSpendsPrefix(idx: Index, block: Hash, vtx: seq<Tx>)
    requires vtx != [] && BlockSpends(idx, block, vtx)
    ensures BlockSpends(idx, block, vtx[..|vtx| - 1])
  {
    var init := vtx[..|vtx| - 1];
    forall i | 0 <= i < |init| ensures TxSpends(idx, block, init, i) {
      assert init[..i] == vtx[..i];
      assert TxSpends(idx, block, vtx, i);
    }
  }

  lemma ConnectTxWellFormed(idx: Index, block: Hash, tx: Tx)
    requires WellFormed(idx)
    ensures WellFormed(ConnectTx(idx, block, tx))
  {}

  lemma ConnectTxsWellFormed(idx: Index, block: Hash, vtx: seq<Tx>)
    requires WellFormed(idx)
    ensures WellFormed(ConnectTxs(idx, block, vtx))
  {
    if vtx != [] {
      ConnectTxsWellFormed(idx, block, vtx[..|vtx| - 1]);
      ConnectTxWellFormed(ConnectTxs(idx, block, vtx[..|vtx| - 1]), block, vtx[|vtx| - 1]);
    }
  }

  lemma ConnectTxsKeys(idx: Index, block: Hash, vtx: seq<Tx>)
    ensures ConnectTxs(idx, block, vtx).Keys == idx.Keys + TxIds(vtx)
  {
    if vtx != [] {
      var init, tx := vtx[..|vtx| - 1], vtx[|vtx| - 1];
      ConnectTxsKeys(idx, block, init);
      assert vtx == init + [tx];
      assert TxIds(vtx) == TxIds(init) + {tx.hash};
    }
  }

  /** A dead txid that the block does not define stays dead while the block is connected. */
  lemma {:induction false} DeadStays(idx: Index, block: Hash, vtx: seq<Tx>, h: Hash)
    requires Dead(idx, h) && h !in TxIds(vtx)
    ensures Dead(ConnectTxs(idx, block, vtx), h)
  {
    if vtx != [] {
      var init, tx := vtx[..|vtx| - 1], vtx[|vtx| - 1];
      assert tx in vtx && forall t <- init :: t in vtx;
      DeadStays(idx, block, init, h);
      var prev := ConnectTxs(idx, block, init);
      forall n: nat ensures !Live(ConnectTx(prev, block, tx), OutPoint(h, n)) {
        assert !Live(prev, OutPoint(h, n));
      }
    }
  }

  /** An entry none of whose outputs is listed keeps its flags. */
  lemma MarkUntouched(e: TxIndex, h: Hash, vin: seq<OutPoint>, mark: DiskTxPos)
    requires forall o <- vin :: o.hash != h
    ensures MarkEntry(e, h, vin, mark) == e
  {
    assert MarkEntry(e, h, vin, mark).vSpent == e.vSpent;
  }

  lemma MarkRestores(idx: Index, vin: seq<OutPoint>, mark: DiskTxPos)
    requires forall i :: 0 <= i < |vin| ==> Live(idx, vin[i])
    ensures MarkAll(MarkAll(idx, vin, mark), vin, Null) == idx
  {
    forall h | h in idx ensures MarkEntry(MarkEntry(idx[h], h, vin, mark), h, vin, Null) == idx[h] {
      assert MarkEntry(MarkEntry(idx[h], h, vin, mark), h, vin, Null).vSpent == idx[h].vSpent;
    }
  }

  /** Disconnecting the transaction just connected restores the index, even after other
      txids that it does not spend from were erased from it. */
  lemma DisconnectConnect(idx: Index, block: Hash, tx: Tx, erased: set<Hash>)
    requires tx.IsCoinBase() || (Spendable(idx, tx.vin) && forall o <- tx.vin :: o.hash !in erased)
    requires Dead(idx, tx.hash)
    ensures DisconnectTx(ConnectTx(idx, block, tx) - erased, tx) == Some(idx - erased - {tx.hash})
  {
    var after := ConnectTx(idx, block, tx) - erased;
    if !tx.IsCoinBase() {
      var mark := OnDisk(block, tx);
      forall o <- tx.vin ensures Indexed(after, o) {
        assert Live(idx, OutPoint(o.hash, o.n));
        assert o.hash != tx.hash;
      }
      MarkRestores(idx, tx.vin, mark);
      var undone := MarkAll(after, tx.vin, Null) - {tx.hash};
      assert undone.Keys == (idx - erased - {tx.hash}).Keys;
      forall h | h in undone ensures undone[h] == idx[h] {
        assert after[h] == MarkAll(idx, tx.vin, mark)[h];
        assert MarkAll(MarkAll(idx, tx.vin, mark), tx.vin, Null)[h] == undone[h];
      }
      assert undone == idx - erased - {tx.hash};
    } else {
      assert after - {tx.hash} == idx - erased - {tx.hash};
    }
  }

  /** None of the transactions spends from an erased txid. */
  ghost predicate Untouched(vtx: seq<Tx>, erased: set<Hash>) {
    forall tx <- vtx :: tx.IsCoinBase() || forall o <- tx.vin :: o.hash !in erased
  }

  /** One step of the undo: the last transaction of an accepted block, with some dead txids erased meanwhile. */
  lemma DisconnectLast(idx: Index, block: Hash, vtx: seq<Tx>, erased: set<Hash>)
    requires vtx != [] && BlockSpends(idx, block, vtx) && forall h <- erased :: Dead(ConnectTxs(idx, block, vtx), h)
    ensures var init, tx := vtx[..|vtx| - 1], vtx[|vtx| - 1];
            if Untouched([tx], erased) then
              && DisconnectTx(ConnectTxs(idx, block, vtx) - erased, tx) == Some(ConnectTxs(idx, block, init) - (erased + {tx.hash}))
              && forall h <- erased + {tx.hash} :: Dead(ConnectTxs(idx, block, init), h)
            else DisconnectTx(ConnectTxs(idx, block, vtx) - erased, tx).None?
  {
    var init, tx := vtx[..|vtx| - 1], vtx[|vtx| - 1];
    var prev := ConnectTxs(idx, block, init);
    assert TxSpends(idx, block, vtx, |vtx| - 1);
    assert tx in vtx && forall t <- init :: t in vtx;
    DeadStays(idx, block, init, tx.hash);
    if Untouched([tx], erased) {
      assert tx in [tx];
      DisconnectConnect(prev, block, tx, erased);
      assert prev - erased - {tx.hash} == prev - (erased + {tx.hash});
      forall h | h in erased ensures Dead(prev, h) {
        if h != tx.hash { DeadBefore(prev, block, tx, h); }
      }
    }
  }

  /** A txid that a transaction neither defines nor spends from was dead before if it is dead afterwards. */
  lemma DeadBefore(idx: Index, block: Hash, tx: Tx, h: Hash)
    requires Dead(ConnectTx(idx, block, tx), h) && h != tx.hash && (tx.IsCoinBase() || forall o <- tx.vin :: o.hash != h)
    ensures Dead(idx, h)
  {
    forall n: nat ensures !Live(idx, OutPoint(h, n)) { assert !Live(ConnectTx(idx, block, tx), OutPoint(h, n)); }
  }

  /** No transaction of an accepted block spends from one that comes later in the block. */
  lemma NotFromLater(idx: Index, block: Hash, vtx: seq<Tx>)
    requires vtx != [] && BlockSpends(idx, block, vtx)
    ensures Untouched(vtx[..|vtx| - 1], {vtx[|vtx| - 1].hash})
  {
    var init, tx := vtx[..|vtx| - 1], vtx[|vtx| - 1];
    assert TxSpends(idx, block, vtx, |vtx| - 1);
    forall i, o | 0 <= i < |init| && !init[i].IsCoinBase() && o in init[i].vin ensures o.hash != tx.hash {
      assert TxSpends(idx, block, vtx, i);
      assert forall t <- vtx[..i] :: t in init;
      DeadStays(idx, block, vtx[..i], tx.hash);
      assert o == OutPoint(o.hash, o.n);
    }
  }

  lemma UntouchedSplit(vtx: seq<Tx>, erased: set<Hash>)
    requires vtx != [] && Untouched(vtx[..|vtx| - 1], {vtx[|vtx| - 1].hash})
    ensures var init, tx := vtx[..|vtx| - 1], vtx[|vtx| - 1];
      && (Untouched(vtx, erased) <==> Untouched([tx], erased) && Untouched(init, erased + {tx.hash}))
      && TxIds(vtx) == TxIds(init) + {tx.hash}
  {
    assert vtx == vtx[..|vtx| - 1] + [vtx[|vtx| - 1]];
  }

  lemma NoTxs(idx: Index, block: Hash, erased: set<Hash>)
    ensures Untouched([], erased) && TxIds([]) == {} && ConnectTxs(idx, block, []) == idx && idx - erased - {} == idx - erased
    ensures erased + {} == erased
  {}

  /** Disconnecting the transactions of an accepted block, after some dead txids were erased from the index, succeeds
      exactly if the block spends from none of them, and then leaves the index before the block less all these txids. */
  lemma {:induction false} UndoAll(idx: Index, block: Hash, vtx: seq<Tx>, erased: set<Hash>)
    requires BlockSpends(idx, block, vtx) && forall h <- erased :: Dead(ConnectTxs(idx, block, vtx), h)
    ensures var undone := DisconnectTxs(ConnectTxs(idx, block, vtx) - erased, vtx);
            && undone == (if Untouched(vtx, erased) then Some(idx - erased - TxIds(vtx)) else None)
            && (Untouched(vtx, erased) ==> forall h <- erased + TxIds(vtx) :: Dead(idx, h))
  {
    hide Dead, ConnectTxs, BlockSpends, DisconnectTx, Untouched, TxIds;
    if vtx == [] {
      NoTxs(idx, block, erased);
    } else {
      var init, tx := vtx[..|vtx| - 1], vtx[|vtx| - 1];
      DisconnectLast(idx, block, vtx, erased);
      BlockSpendsPrefix(idx, block, vtx);
      NotFromLater(idx, block, vtx);
      UntouchedSplit(vtx, erased);
      if Untouched([tx], erased) {
        UndoAll(idx, block, init, erased + {tx.hash});
        assert idx - (erased + {tx.hash}) - TxIds(init) == idx - erased - TxIds(vtx);
        assert erased + {tx.hash} + TxIds(init) == erased + TxIds(vtx);
      }
    }
  }

  lemma BlockTxIdsDead(idx: Index, block: Hash, vtx: seq<Tx>, h: Hash)
    requires BlockSpends(idx, block, vtx) && h in TxIds(vtx)
    ensures Dead(idx, h)
  {
    var i :| 0 <= i < |vtx| && vtx[i].hash == h;
    assert TxSpends(idx, block, vtx, i);
  }

  /** Undo. Disconnecting an accepted block succeeds, restores the set of unspent outputs exactly,
      and restores the index itself up to the fully spent entries the block had overwritten. */
  lemma Undo(idx: Index, block: Hash, vtx: seq<Tx>)
    requires BlockSpends(idx, block, vtx)
    ensures DisconnectTxs(ConnectTxs(idx, block, vtx), vtx) == Some(idx - TxIds(vtx))
    ensures forall o: OutPoint :: Live(idx - TxIds(vtx), o) <==> Live(idx, o)
    ensures idx - TxIds(vtx) == idx <==> idx.Keys !! TxIds(vtx)
  {
    UndoAll(idx, block, vtx, {});
    assert Untouched(vtx, {});
    assert ConnectTxs(idx, block, vtx) - {} == ConnectTxs(idx, block, vtx);
    assert idx - {} - TxIds(vtx) == idx - TxIds(vtx);
    forall o: OutPoint ensures Live(idx - TxIds(vtx), o) <==> Live(idx, o) {
      assert o == OutPoint(o.hash, o.n);
      if o.hash in TxIds(vtx) { BlockTxIdsDead(idx, block, vtx, o.hash); }
    }
    if idx - TxIds(vtx) == idx {
      assert forall h <- idx.Keys :: h in (idx - TxIds(vtx)).Keys;
    }
    if idx.Keys !! TxIds(vtx) {
      assert idx - TxIds(vtx) == idx;
    }
  }

  // ----- spent outputs stay spent

  /** What a transaction of an accepted block has spent is not live again later in that block. */
  lemma {:induction false} SpentStays(db: Index, block: Hash, vtx: seq<Tx>, i: nat, n: nat, o: OutPoint)
    requires BlockSpends(db, block, vtx) && i < n <= |vtx| && !vtx[i].IsCoinBase() && o in vtx[i].vin
    ensures !Live(ConnectTxs(db, block, vtx[..n]), o)
    decreases n
  {
    hide Live, BlockSpends, ConnectTx;
    var was := ConnectTxs(db, block, vtx[..n - 1]);
    SpendFacts(db, block, vtx, i);
    ConnectTxsStep(db, block, vtx, n - 1);
    NotDefinedLater(db, block, vtx, i, n - 1, o);
    if i < n - 1 { SpentStays(db, block, vtx, i, n - 1, o); }
    NotLiveAfter(was, block, vtx[n - 1], o);
  }

  lemma NotLiveAfter(idx: Index, block: Hash, tx: Tx, o: OutPoint)
    requires tx.hash != o.hash && (o in tx.vin || !Live(idx, o)) && (!tx.IsCoinBase() || !Live(idx, o))
    ensures !Live(ConnectTx(idx, block, tx), o)
  {
    assert o == OutPoint(o.hash, o.n);
  }

  lemma SpendFacts(db: Index, block: Hash, vtx: seq<Tx>, i: nat)
    requires BlockSpends(db, block, vtx) && i < |vtx| && !vtx[i].IsCoinBase()
    ensures forall o <- vtx[i].vin :: Live(ConnectTxs(db, block, vtx[..i]), o)
  {
    assert TxSpends(db, block, vtx, i);
  }

  /** A live output does not belong to the transaction at hand, or to one further down. */
  lemma NotDefinedLater(db: Index, block: Hash, vtx: seq<Tx>, i: nat, k: nat, o: OutPoint)
    requires BlockSpends(db, block, vtx) && i <= k < |vtx| && Live(ConnectTxs(db, block, vtx[..i]), o)
    ensures vtx[k].hash != o.hash
  {
    assert TxSpends(db, block, vtx, k);
    assert vtx[k].hash !in TxIds(vtx[..i]);
    DeadStays(db, block, vtx[..i], vtx[k].hash);
    assert o == OutPoint(o.hash, o.n);
    assert !Live(ConnectTxs(db, block, vtx[..i]), OutPoint(vtx[k].hash, o.n));
  }
}
