/** Conservation: connecting a block changes the sum of all unspent outputs by exactly
    the outputs it creates less the outputs it spends. */
module Supply {
  import opened Ledger

  /** Value left under one index entry: its first `k` outputs that carry no spent flag. */
  function UnspentUpTo(e: TxIndex, k: nat): int
    requires e.pos.OnDisk? && k <= |e.vSpent| == |e.pos.tx.vout|
  {
    if k == 0 then 0
    else UnspentUpTo(e, k - 1) + (if e.vSpent[k - 1].Null? then e.pos.tx.vout[k - 1].nValue else 0)
  }

  function Unspent(e: TxIndex): int
    requires e.pos.OnDisk? && |e.vSpent| == |e.pos.tx.vout|
  {
    UnspentUpTo(e, |e.vSpent|)
  }

  /** The sum of all unspent output values. */
  ghost function Total(idx: Index): int
    requires WellFormed(idx)
  {
    if idx == map[] then 0 else
      var h :| h in idx;
      Unspent(idx[h]) + Total(idx - {h})
  }

  function OutValue(idx: Index, o: OutPoint): int
    requires Indexed(idx, o) && idx[o.hash].pos.OnDisk? && o.n < |idx[o.hash].pos.tx.vout|
  {
    idx[o.hash].pos.tx.vout[o.n].nValue
  }

  /** Value of the outputs spent by `vin`; unknown outputs count as nothing. */
  function ValueIn(idx: Index, vin: seq<OutPoint>): int
  {
    if vin == [] then 0 else
      var o := vin[|vin| - 1];
      ValueIn(idx, vin[..|vin| - 1]) +
      (if Indexed(idx, o) && idx[o.hash].pos.OnDisk? && o.n < |idx[o.hash].pos.tx.vout| then OutValue(idx, o) else 0)
  }

  function TxValueIn(idx: Index, tx: Tx): int { if tx.IsCoinBase() then 0 else ValueIn(idx, tx.vin) }

  /** Outputs created less outputs spent over a block, each input valued where it is spent. */
  function Created(idx: Index, block: Hash, vtx: seq<Tx>): int {
    if vtx == [] then 0 else
      var init, tx := vtx[..|vtx| - 1], vtx[|vtx| - 1];
      Created(idx, block, init) + ValueOut(tx.vout) - TxValueIn(ConnectTxs(idx, block, init), tx)
  }

  lemma {:induction false} TotalSplit(idx: Index, h: Hash)
    requires WellFormed(idx) && h in idx
    ensures Total(idx) == Unspent(idx[h]) + Total(idx - {h})
    decreases |idx|
  {
    var k :| k in idx && Total(idx) == Unspent(idx[k]) + Total(idx - {k});
    if k != h {
      TotalSplit(idx - {k}, h);
      assert idx - {k} - {h} == idx - {h} - {k};
      TotalSplit(idx - {h}, k);
    }
  }

  lemma TotalUpdate(idx: Index, h: Hash, e: TxIndex)
    requires WellFormed(idx) && e.pos.OnDisk? && |e.vSpent| == |e.pos.tx.vout|
    ensures Total(idx[h := e]) == Total(idx) + Unspent(e) - (if h in idx then Unspent(idx[h]) else 0)
  {
    TotalSplit(idx[h := e], h);
    assert idx[h := e] - {h} == idx - {h};
    if h in idx { TotalSplit(idx, h); } else { assert idx - {h} == idx; }
  }

  lemma {:induction false} UnspentSpendOne(e: TxIndex, n: nat, mark: DiskTxPos, k: nat)
    requires e.pos.OnDisk? && k <= |e.vSpent| == |e.pos.tx.vout| && n < |e.vSpent|
    requires e.vSpent[n].Null? && !mark.Null?
    ensures UnspentUpTo(e.(vSpent := e.vSpent[n := mark]), k)
            == UnspentUpTo(e, k) - (if n < k then e.pos.tx.vout[n].nValue else 0)
  {
    if k > 0 { UnspentSpendOne(e, n, mark, k - 1); }
  }

  lemma {:induction false} UnspentNew(pos: DiskTxPos, tx: Tx, k: nat)
    requires pos.OnDisk? && pos.tx == tx && k <= |tx.vout|
    ensures UnspentUpTo(NewEntry(pos, tx), k) == ValueOut(tx.vout[..k])
  {
    if k > 0 {
      UnspentNew(pos, tx, k - 1);
      assert tx.vout[..k][..k - 1] == tx.vout[..k - 1];
    }
  }

  lemma {:induction false} UnspentNone(e: TxIndex, k: nat)
    requires e.pos.OnDisk? && k <= |e.vSpent| == |e.pos.tx.vout|
    requires forall n :: 0 <= n < k ==> !e.vSpent[n].Null?
    ensures UnspentUpTo(e, k) == 0
  {
    if k > 0 { UnspentNone(e, k - 1); }
  }

  /** Marking other outputs leaves an output as it is. */
  lemma StillLive(idx: Index, vin: seq<OutPoint>, o: OutPoint, mark: DiskTxPos)
    requires WellFormed(idx) && Live(idx, o) && o !in vin
    ensures var m := MarkAll(idx, vin, mark);
      WellFormed(m) && Live(m, o) && m[o.hash].vSpent[o.n].Null? && m[o.hash].pos == idx[o.hash].pos
      && |m[o.hash].vSpent| == |idx[o.hash].vSpent|
  {
    assert o == OutPoint(o.hash, o.n);
  }

  lemma {:induction false} TotalMark(idx: Index, vin: seq<OutPoint>, mark: DiskTxPos)
    requires WellFormed(idx) && Spendable(idx, vin) && !mark.Null?
    ensures WellFormed(MarkAll(idx, vin, mark))
    ensures Total(MarkAll(idx, vin, mark)) == Total(idx) - ValueIn(idx, vin)
  {
    if vin == [] {
      forall h | h in idx ensures MarkEntry(idx[h], h, vin, mark) == idx[h] { MarkUntouched(idx[h], h, vin, mark); }
      assert MarkAll(idx, vin, mark) == idx;
    } else {
      var init, o := vin[..|vin| - 1], vin[|vin| - 1];
      assert Live(idx, o) && o !in init;
      TotalMark(idx, init, mark);
      MarkStep(idx, init, o, mark);
      StillLive(idx, init, o, mark);
      hide MarkAll, MarkEntry, Live, Spendable;
      assert vin == init + [o];
      var m := MarkAll(idx, init, mark);
      var e := m[o.hash].(vSpent := m[o.hash].vSpent[o.n := mark]);
      TotalUpdate(m, o.hash, e);
      UnspentSpendOne(m[o.hash], o.n, mark, |e.vSpent|);
    }
  }

  /** Setting one more flag changes exactly that flag. */
  lemma MarkStep(idx: Index, vin: seq<OutPoint>, o: OutPoint, mark: DiskTxPos)
    requires Indexed(idx, o)
    ensures var m := MarkAll(idx, vin, mark);
            && Indexed(m, o)
            && MarkAll(idx, vin + [o], mark) == m[o.hash := m[o.hash].(vSpent := m[o.hash].vSpent[o.n := mark])]
  {
    var m := MarkAll(idx, vin, mark);
    var m' := MarkAll(idx, vin + [o], mark);
    var e := m[o.hash].(vSpent := m[o.hash].vSpent[o.n := mark]);
    forall h | h in idx ensures m'[h] == m[o.hash := e][h] {
      assert m'[h].vSpent == m[o.hash := e][h].vSpent;
    }
  }

  /** Connecting one transaction: the txid it (re)defines had nothing left to spend. */
  lemma TotalConnectTx(idx: Index, block: Hash, tx: Tx)
    requires WellFormed(idx) && Dead(idx, tx.hash)
    requires tx.IsCoinBase() || Spendable(idx, tx.vin)
    ensures WellFormed(ConnectTx(idx, block, tx))
    ensures Total(ConnectTx(idx, block, tx)) == Total(idx) + ValueOut(tx.vout) - TxValueIn(idx, tx)
  {
    var pos := OnDisk(block, tx);
    var spent := if tx.IsCoinBase() then idx else MarkAll(idx, tx.vin, pos);
    if !tx.IsCoinBase() { TotalMark(idx, tx.vin, pos); }
    var e := NewEntry(pos, tx);
    TotalUpdate(spent, tx.hash, e);
    UnspentNew(pos, tx, |tx.vout|);
    assert tx.vout[..|tx.vout|] == tx.vout;
    if tx.hash in spent {
      forall n | 0 <= n < |spent[tx.hash].vSpent| ensures !spent[tx.hash].vSpent[n].Null? {
        assert !Live(idx, OutPoint(tx.hash, n));
      }
      UnspentNone(spent[tx.hash], |spent[tx.hash].vSpent|);
    }
  }

  /** Conservation over one block, including outputs created and spent inside it. */
  lemma {:induction false} Conservation(idx: Index, block: Hash, vtx: seq<Tx>)
    requires WellFormed(idx) && BlockSpends(idx, block, vtx)
    ensures WellFormed(ConnectTxs(idx, block, vtx))
    ensures Total(ConnectTxs(idx, block, vtx)) == Total(idx) + Created(idx, block, vtx)
  {
    if vtx != [] {
      var init, tx := vtx[..|vtx| - 1], vtx[|vtx| - 1];
      BlockSpendsPrefix(idx, block, vtx);
      Conservation(idx, block, init);
      assert TxSpends(idx, block, vtx, |vtx| - 1);
      assert tx.hash !in TxIds(init);
      DeadStays(idx, block, init, tx.hash);
      TotalConnectTx(ConnectTxs(idx, block, init), block, tx);
    }
  }
}
