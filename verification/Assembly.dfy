/** What the miner's pending index changes say about the transactions collected so far. */
module Assembly {
  import opened Wrappers
  import opened Ledger
  import opened BlockTree
  import opened Connect
  import opened Blocks

  /** The transaction behind a txid: on disk, or else in the pool. */
  function TrueTx(db: Index, mem: map<Hash, Tx>, h: Hash): Option<Tx> {
    if h in db && db[h].pos.OnDisk? then Some(db[h].pos.tx) else if h in mem then Some(mem[h]) else None
  }

  function TrueOut(db: Index, mem: map<Hash, Tx>, o: OutPoint): TxOut {
    match TrueTx(db, mem, o.hash)
    case Some(tx) => if o.n < |tx.vout| then tx.vout[o.n] else TxOut(0, [])
    case None => TxOut(0, [])
  }

  function TrueIn(db: Index, mem: map<Hash, Tx>, vin: seq<OutPoint>): int {
    if vin == [] then 0 else TrueIn(db, mem, vin[..|vin| - 1]) + TrueOut(db, mem, vin[|vin| - 1]).nValue
  }

  function TrueOuts(db: Index, mem: map<Hash, Tx>, vin: seq<OutPoint>): seq<TxOut> {
    seq(|vin|, i requires 0 <= i < |vin| => TrueOut(db, mem, vin[i]))
  }

  function Fee(db: Index, mem: map<Hash, Tx>, tx: Tx): int { TrueIn(db, mem, tx.vin) - ValueOut(tx.vout) }

  function Fees(db: Index, mem: map<Hash, Tx>, vtx: seq<Tx>): int {
    if vtx == [] then 0 else Fees(db, mem, vtx[..|vtx| - 1]) + Fee(db, mem, vtx[|vtx| - 1])
  }

  function TxSigOps(r: Rules, db: Index, mem: map<Hash, Tx>, tx: Tx): nat {
    r.legacySigOps(tx) + r.p2shSigOps(tx, TrueOuts(db, mem, tx.vin))
  }

  function SumSigOps(r: Rules, db: Index, mem: map<Hash, Tx>, vtx: seq<Tx>): nat {
    if vtx == [] then 0 else SumSigOps(r, db, mem, vtx[..|vtx| - 1]) + TxSigOps(r, db, mem, vtx[|vtx| - 1])
  }

  function SumSize(size: Tx -> nat, vtx: seq<Tx>): nat {
    if vtx == [] then 0 else SumSize(size, vtx[..|vtx| - 1]) + size(vtx[|vtx| - 1])
  }

  /** Input i is good whatever else is in the block: its transaction is known, mature and not newer, and it is signed. */
  ghost predicate SoundInput(r: Rules, cx: Context, db: Index, mem: map<Hash, Tx>, tx: Tx, i: nat)
    requires cx.Valid() && i < |tx.vin|
  {
    var o := tx.vin[i];
    match TrueTx(db, mem, o.hash)
    case None => false
    case Some(prev) =>
      && o.n < |prev.vout| && prev.nTime <= tx.nTime
      && !((prev.IsCoinBase() || prev.IsCoinStake()) && o.hash in db && db[o.hash].pos.OnDisk?
           && Recent(cx, r.maturity, db[o.hash].pos.block))
      && MoneyRange(prev.vout[o.n].nValue) && MoneyRange(TrueIn(db, mem, tx.vin[..i + 1]))
      && r.verifySignature(prev, tx, i)
  }

  /** What ConnectInputs asks of a transaction apart from its inputs being unspent. */
  ghost predicate Sound(r: Rules, cx: Context, db: Index, mem: map<Hash, Tx>, tx: Tx)
    requires cx.Valid()
  {
    && (forall i :: 0 <= i < |tx.vin| ==> SoundInput(r, cx, db, mem, tx, i))
    && Fee(db, mem, tx) >= 0 && Fee(db, mem, tx) >= r.minFee(tx) && MoneyRange(Fee(db, mem, tx))
  }

  /** The same outputs exist and the same are spent, whoever the spender is said to be. */
  ghost predicate SameFlags(a: Index, b: Index) {
    && (forall h :: h in a <==> h in b)
    && forall h <- a :: h in b && SameEntryFlags(a[h], b[h])
  }

  ghost predicate SameEntryFlags(e: TxIndex, f: TxIndex) {
    |e.vSpent| == |f.vSpent| && forall n :: 0 <= n < |e.vSpent| ==> (e.vSpent[n].Null? <==> f.vSpent[n].Null?)
  }

  /** The pending entry of h: as on disk, or that of a collected pool transaction. */
  ghost predicate PendingOk(db: Index, mem: map<Hash, Tx>, h: Hash, e: TxIndex) {
    if h in db then e.pos == db[h].pos && |e.vSpent| == |db[h].vSpent|
    else h in mem && e.pos.InMempool? && |e.vSpent| == |mem[h].vout|
  }

  /** The database with the pending changes has the flags it would have after connecting `vtx`. */
  ghost predicate TestPoolOk(db: Index, mem: map<Hash, Tx>, block: Hash, pending: Index, vtx: seq<Tx>) {
    && (forall h <- pending :: PendingOk(db, mem, h, pending[h]))
    && SameFlags(db + pending, ConnectTxs(db, block, vtx))
  }

  /** The pending changes after one more transaction. */
  function Collected(pending: Index, ins: PrevTxs, tx: Tx): Index {
    (pending + Marked(ins, tx.vin, InMempool))[tx.hash := NewEntry(InMempool, tx)]
  }

  /** The miner fetches what is really there. */
  lemma FetchedIsTrue(db: Index, mem: map<Hash, Tx>, pending: Index, h: Hash)
    requires WellFormed(db) && (forall g <- pending :: PendingOk(db, mem, g, pending[g]))
    requires Fetched(db, pending, mem, true, h).Some?
    ensures h in db + pending && Fetched(db, pending, mem, true, h).value.0 == (db + pending)[h]
    ensures TrueTx(db, mem, h) == Some(Fetched(db, pending, mem, true, h).value.1)
  {}

  lemma {:induction false} SumInIsTrue(db: Index, mem: map<Hash, Tx>, pending: Index, vin: seq<OutPoint>, ins: PrevTxs)
    requires WellFormed(db) && (forall g <- pending :: PendingOk(db, mem, g, pending[g]))
    requires forall o <- vin ::
      Fetched(db, pending, mem, true, o.hash).Some? && Has(ins, o) && ins[o.hash] == Fetched(db, pending, mem, true, o.hash).value
    ensures SumIn(ins, vin) == TrueIn(db, mem, vin)
    ensures PrevOuts(ins, vin) == TrueOuts(db, mem, vin)
  {
    forall i | 0 <= i < |vin| ensures PrevOuts(ins, vin)[i] == TrueOut(db, mem, vin[i]) {
      assert vin[i] in vin;
      FetchedIsTrue(db, mem, pending, vin[i].hash);
    }
    if vin != [] {
      var o := vin[|vin| - 1];
      assert o in vin;
      FetchedIsTrue(db, mem, pending, o.hash);
      SumInIsTrue(db, mem, pending, vin[..|vin| - 1], ins);
    }
  }

  /** A transaction that fetches and connects for the miner is sound. */
  lemma {:induction false} FitsSound(r: Rules, cx: Context, db: Index, mem: map<Hash, Tx>, pending: Index, tx: Tx)
    requires cx.Valid() && WellFormed(db) && (forall g <- pending :: PendingOk(db, mem, g, pending[g])) && !tx.IsCoinStake()
    requires AllFetched(db, pending, mem, true, tx.vin)
    requires InputsOk(r, cx.Seen(false), tx, FetchedMap(db, pending, mem, true, tx.vin))
    ensures Sound(r, cx, db, mem, tx)
  {
    var ins := FetchedMap(db, pending, mem, true, tx.vin);
    forall o | o in tx.vin ensures o.hash in ins && ins[o.hash] == Fetched(db, pending, mem, true, o.hash).value && Has(ins, o) {
      var i :| 0 <= i < |tx.vin| && tx.vin[i] == o;
      assert o.hash in InputHashes(tx.vin);
      assert SpendOk(r, cx.Seen(false), tx, ins, i);
    }
    SumInIsTrue(db, mem, pending, tx.vin, ins);
    hide CheapOk, SpendOk, SoundInput, Fetched, SumIn, TrueIn, PrevOuts, TrueOuts;
    forall i | 0 <= i < |tx.vin| ensures SoundInput(r, cx, db, mem, tx, i) { SoundOne(r, cx, db, mem, pending, tx, ins, i); }
  }

  lemma {:induction false} SoundOne(r: Rules, cx: Context, db: Index, mem: map<Hash, Tx>, pending: Index, tx: Tx, ins: PrevTxs, i: nat)
    requires cx.Valid() && WellFormed(db) && (forall g <- pending :: PendingOk(db, mem, g, pending[g])) && i < |tx.vin|
    requires forall o <- tx.vin ::
      Fetched(db, pending, mem, true, o.hash).Some? && Has(ins, o) && ins[o.hash] == Fetched(db, pending, mem, true, o.hash).value
    requires CheapOk(r, cx.Seen(false), tx, ins, i) && SpendOk(r, cx.Seen(false), tx, ins, i)
    ensures SoundInput(r, cx, db, mem, tx, i)
  {
    hide SumIn, TrueIn, PrevOuts, TrueOuts;
    assert tx.vin[i] in tx.vin;
    FetchedIsTrue(db, mem, pending, tx.vin[i].hash);
    assert forall o <- tx.vin[..i + 1] :: o in tx.vin;
    SumInIsTrue(db, mem, pending, tx.vin[..i + 1], ins);
  }

  /** A transaction that fetches and connects spends only live outputs of the block under construction. */
  lemma CollectedSpends(r: Rules, cx: Context, db: Index, mem: map<Hash, Tx>, block: Hash, pending: Index, vtx: seq<Tx>, tx: Tx)
    requires cx.Valid() && WellFormed(db) && TestPoolOk(db, mem, block, pending, vtx)
    requires AllFetched(db, pending, mem, true, tx.vin)
    requires InputsOk(r, cx.Seen(false), tx, FetchedMap(db, pending, mem, true, tx.vin))
    ensures Spendable(ConnectTxs(db, block, vtx), tx.vin)
  {
    var ins := FetchedMap(db, pending, mem, true, tx.vin);
    forall i | 0 <= i < |tx.vin| ensures Live(ConnectTxs(db, block, vtx), tx.vin[i]) {
      assert SpendOk(r, cx.Seen(false), tx, ins, i);
      assert tx.vin[i] in tx.vin;
      FetchedIsTrue(db, mem, pending, tx.vin[i].hash);
    }
    forall i, j | 0 <= i < j < |tx.vin| ensures tx.vin[i] != tx.vin[j] {
      assert SpendOk(r, cx.Seen(false), tx, ins, j);
      assert tx.vin[..j][i] == tx.vin[i];
    }
  }

  /** Collecting it keeps the pending changes in step. */
  lemma CollectedOk(db: Index, mem: map<Hash, Tx>, block: Hash, pending: Index, vtx: seq<Tx>, tx: Tx)
    requires WellFormed(db) && TestPoolOk(db, mem, block, pending, vtx)
    requires AllFetched(db, pending, mem, true, tx.vin)
    requires !tx.IsCoinBase() && tx.hash !in db && tx.hash in mem && mem[tx.hash] == tx
    ensures TestPoolOk(db, mem, block, Collected(pending, FetchedMap(db, pending, mem, true, tx.vin), tx), vtx + [tx])
  {
    var ins := FetchedMap(db, pending, mem, true, tx.vin);
    var was, view := ConnectTxs(db, block, vtx), db + pending;
    var pending' := Collected(pending, ins, tx);
    forall o | o in tx.vin ensures o.hash in ins && o.hash in view && ins[o.hash].0 == view[o.hash] {
      assert o.hash in InputHashes(tx.vin);
      FetchedIsTrue(db, mem, pending, o.hash);
    }
    assert (vtx + [tx])[..|vtx|] == vtx;
    var now := ConnectTx(was, block, tx);
    assert ConnectTxs(db, block, vtx + [tx]) == now;
    CollectedPending(db, mem, pending, tx, ins);
    CollectedFlags(view, was, db, pending, block, tx, ins);
  }

  lemma CollectedPending(db: Index, mem: map<Hash, Tx>, pending: Index, tx: Tx, ins: PrevTxs)
    requires forall h <- pending :: PendingOk(db, mem, h, pending[h])
    requires forall o <- tx.vin :: o.hash in ins && o.hash in db + pending && ins[o.hash].0 == (db + pending)[o.hash]
    requires tx.hash !in db && tx.hash in mem && mem[tx.hash] == tx
    ensures var pending' := Collected(pending, ins, tx); forall h <- pending' :: PendingOk(db, mem, h, pending'[h])
  {}

  lemma CollectedFlags(view: Index, was: Index, db: Index, pending: Index, block: Hash, tx: Tx, ins: PrevTxs)
    requires view == db + pending && SameFlags(view, was) && !tx.IsCoinBase()
    requires forall o <- tx.vin :: o.hash in ins && o.hash in view && ins[o.hash].0 == view[o.hash]
    ensures SameFlags(db + Collected(pending, ins, tx), ConnectTx(was, block, tx))
  {
    var view', now := db + Collected(pending, ins, tx), ConnectTx(was, block, tx);
    forall h ensures h in view' <==> h in now {
      if h in InputHashes(tx.vin) { assert h in view; }
    }
    forall h | h in view' ensures SameEntryFlags(view'[h], now[h]) {
      if h != tx.hash {
        assert h in view && SameEntryFlags(view[h], was[h]);
        if h !in InputHashes(tx.vin) { MarkUntouched(was[h], h, tx.vin, OnDisk(block, tx)); }
      }
    }
  }

  /** Every output a collected transaction spends was live just before it: in the chain, or of an earlier one. */
  lemma ParentFirst(db: Index, block: Hash, vtx: seq<Tx>, o: OutPoint)
    requires Live(ConnectTxs(db, block, vtx), o) && o.hash !in db
    ensures exists j :: 0 <= j < |vtx| && vtx[j].hash == o.hash
  {
    ConnectTxsKeys(db, block, vtx);
    assert o.hash in TxIds(vtx);
  }

  lemma {:induction false} CoinBaseInFront(db: Index, block: Hash, cb: Tx, vtx: seq<Tx>)
    requires cb.IsCoinBase()
    requires forall tx <- vtx :: !tx.IsCoinBase() && tx.hash != cb.hash && forall o <- tx.vin :: o.hash != cb.hash
    ensures ConnectTxs(db, block, [cb] + vtx) == ConnectTxs(db, block, vtx)[cb.hash := NewEntry(OnDisk(block, cb), cb)]
  {
    var e := NewEntry(OnDisk(block, cb), cb);
    if vtx == [] {
      assert ([cb] + vtx)[..0] == [];
    } else {
      hide ConnectTx;
      var init, tx := vtx[..|vtx| - 1], vtx[|vtx| - 1];
      assert tx in vtx && ([cb] + vtx)[..|vtx|] == [cb] + init;
      CoinBaseInFront(db, block, cb, init);
      CoinBaseStep(ConnectTxs(db, block, init), cb.hash, e, block, tx);
    }
  }

  lemma CoinBaseStep(x: Index, c: Hash, e: TxIndex, block: Hash, tx: Tx)
    requires !tx.IsCoinBase() && tx.hash != c && forall o <- tx.vin :: o.hash != c
    ensures ConnectTx(x[c := e], block, tx) == ConnectTx(x, block, tx)[c := e]
  {
    MarkUntouched(e, c, tx.vin, OnDisk(block, tx));
    assert MarkAll(x[c := e], tx.vin, OnDisk(block, tx)) == MarkAll(x, tx.vin, OnDisk(block, tx))[c := e];
  }

  lemma AddCoinBase(db: Index, block: Hash, cb: Tx, vtx: seq<Tx>)
    requires BlockSpends(db, block, vtx) && cb.IsCoinBase() && cb.hash !in db
    requires forall tx <- vtx :: !tx.IsCoinBase() && tx.hash != cb.hash
    ensures BlockSpends(db, block, [cb] + vtx)
  {
    hide ConnectTx, ConnectTxs;
    var all := [cb] + vtx;
    forall i, a | 0 <= i < |vtx| && 0 <= a < |vtx[i].vin| ensures vtx[i].vin[a].hash != cb.hash {
      assert TxSpends(db, block, vtx, i);
      ConnectTxsKeys(db, block, vtx[..i]);
    }
    forall i | 0 <= i < |all| ensures TxSpends(db, block, all, i) {
      if i > 0 {
        assert TxSpends(db, block, vtx, i - 1);
        assert all[..i] == [cb] + vtx[..i - 1];
        CoinBaseInFront(db, block, cb, vtx[..i - 1]);
      }
    }
  }
}
