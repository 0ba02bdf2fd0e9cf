/** What the miner assembles is accepted: with a coinbase in front and its proof done, the block passes every
    check of ConnectBlock on the chain it was assembled for. */
module AssembledBlock {
  import opened Wrappers
  import opened Ledger
  import opened BlockTree
  import opened Rewards
  import opened Supply
  import opened Connect
  import opened Blocks
  import opened Scheduler
  import opened Assembly
  import opened Miner

  /** `next` is the context of a new block on top of the block of `cx`. */
  ghost predicate Follows(cx: Context, next: Context) {
    && cx.Valid() && next.Valid() && Extends(cx.tree, next.tree)
    && next.pindex !in cx.tree.nodes && next.tree.nodes[next.pindex].prev == Some(cx.pindex)
  }

  /** What is mature for the miner is mature one block later. */
  lemma RecentLater(cx: Context, next: Context, maturity: nat, b: Hash)
    requires Follows(cx, next) && b != next.pindex && Recent(next, maturity, b)
    ensures Recent(cx, maturity, b)
  {
    assert next.tree.Linked(next.pindex);
    next.tree.ChainPrev(next.pindex);
    ChainExtends(cx.tree, next.tree, cx.pindex);
    cx.tree.AncestorAt(b, cx.pindex);
    assert b in cx.tree.Chain(cx.pindex);
  }

  /** An entry of the view is that of the database, or that of a pool transaction earlier in the block. */
  ghost predicate TrueEntry(db: Index, mem: map<Hash, Tx>, block: Hash, view: Index, h: Hash) {
    && h in view && view[h].pos.OnDisk?
    && if h in db then view[h].pos == db[h].pos
       else h in mem && view[h].pos == OnDisk(block, mem[h]) && !mem[h].IsCoinBase() && !mem[h].IsCoinStake()
  }

  /** Transactions the miner may collect. */
  ghost predicate FromPool(p: Policy, db: Index, mem: map<Hash, Tx>, vtx: seq<Tx>) {
    forall tx <- vtx :: tx.hash in mem && mem[tx.hash] == tx && tx.hash !in db && Candidate(p, tx)
  }

  lemma {:induction false} EntriesTrue(p: Policy, db: Index, mem: map<Hash, Tx>, block: Hash, vtx: seq<Tx>, h: Hash)
    requires WellFormed(db) && FromPool(p, db, mem, vtx) && h in ConnectTxs(db, block, vtx)
    ensures TrueEntry(db, mem, block, ConnectTxs(db, block, vtx), h)
  {
    if vtx != [] {
      var init, tx := vtx[..|vtx| - 1], vtx[|vtx| - 1];
      assert tx in vtx && forall t <- init :: t in vtx;
      if h in ConnectTxs(db, block, init) { EntriesTrue(p, db, mem, block, init, h); }
    }
  }

  lemma {:induction false} ValuesTrue(db: Index, mem: map<Hash, Tx>, block: Hash, view: Index, vin: seq<OutPoint>, all: seq<OutPoint>)
    requires WellFormed(db) && WellFormed(view) && (forall o <- all :: TrueEntry(db, mem, block, view, o.hash) && Live(view, o))
    requires forall o <- vin :: o in all
    ensures SumIn(PrevIns(view, all), vin) == TrueIn(db, mem, vin) == ValueIn(view, vin)
    ensures PrevOuts(PrevIns(view, all), vin) == TrueOuts(db, mem, vin)
  {
    forall o | o in vin ensures Has(PrevIns(view, all), o) && PrevIns(view, all)[o.hash].1 == view[o.hash].pos.tx {
      assert o.hash in InputHashes(all);
    }
    if vin != [] {
      var o := vin[|vin| - 1];
      assert o in vin && forall x <- vin[..|vin| - 1] :: x in vin;
      ValuesTrue(db, mem, block, view, vin[..|vin| - 1], all);
    }
    forall i | 0 <= i < |vin| ensures PrevOuts(PrevIns(view, all), vin)[i] == TrueOut(db, mem, vin[i]) { assert vin[i] in vin; }
  }

  /** A sound transaction with unspent inputs connects. */
  lemma {:induction false} SoundConnects(r: Rules, cx: Context, next: Context, db: Index, mem: map<Hash, Tx>, block: Hash, view: Index, tx: Tx)
    requires Follows(cx, next) && WellFormed(db) && WellFormed(view) && Sound(r, cx, db, mem, tx)
    requires forall h <- db :: db[h].pos.OnDisk? ==> db[h].pos.block != next.pindex
    requires Spendable(view, tx.vin) && forall o <- tx.vin :: TrueEntry(db, mem, block, view, o.hash)
    ensures InputsOk(r, next, tx, PrevIns(view, tx.vin))
    ensures PrevOuts(PrevIns(view, tx.vin), tx.vin) == TrueOuts(db, mem, tx.vin)
    ensures ValueIn(view, tx.vin) == TrueIn(db, mem, tx.vin)
  {
    hide Recent;
    var ins := PrevIns(view, tx.vin);
    forall o | o in tx.vin ensures Live(view, o) && o.hash in InputHashes(tx.vin) {
      var i :| 0 <= i < |tx.vin| && tx.vin[i] == o;
    }
    ValuesTrue(db, mem, block, view, tx.vin, tx.vin);
    assert next.Valid();
    hide SoundInput, TrueIn, TrueOut, TrueOuts, PrevOuts, SumIn, ValueIn, CheapOk, SpendOk, TrueEntry, Follows, PrevIns;
    forall i | 0 <= i < |tx.vin| ensures CheapOk(r, next, tx, ins, i) && SpendOk(r, next, tx, ins, i) {
      assert tx.vin[i] in tx.vin;
      SoundInputConnects(r, cx, next, db, mem, block, view, tx, i);
    }
  }

  lemma SoundInputConnects(r: Rules, cx: Context, next: Context, db: Index, mem: map<Hash, Tx>, block: Hash, view: Index, tx: Tx, i: nat)
    requires Follows(cx, next) && WellFormed(db) && WellFormed(view) && i < |tx.vin| && SoundInput(r, cx, db, mem, tx, i)
    requires forall h <- db :: db[h].pos.OnDisk? ==> db[h].pos.block != next.pindex
    requires Distinct(tx.vin) && forall o <- tx.vin :: TrueEntry(db, mem, block, view, o.hash) && Live(view, o)
    ensures CheapOk(r, next, tx, PrevIns(view, tx.vin), i) && SpendOk(r, next, tx, PrevIns(view, tx.vin), i)
  {
    hide Recent, Follows;
    var o, ins := tx.vin[i], PrevIns(view, tx.vin);
    assert o in tx.vin && o.hash in InputHashes(tx.vin);
    assert ins[o.hash] == (view[o.hash], view[o.hash].pos.tx) && TrueTx(db, mem, o.hash) == Some(view[o.hash].pos.tx);
    ValuesTrue(db, mem, block, view, tx.vin[..i + 1], tx.vin);
    assert next.Valid() by { FollowsValid(cx, next); }
    if o.hash in db && Recent(next, r.maturity, db[o.hash].pos.block) { RecentLater(cx, next, r.maturity, db[o.hash].pos.block); }
  }

  lemma FollowsValid(cx: Context, next: Context)
    requires Follows(cx, next)
    ensures cx.Valid() && next.Valid()
  {}

  /** The block in question: what was collected, behind a coinbase of a fresh txid. */
  ghost predicate Ready(p: Policy, r: Rules, cx: Context, next: Context, db: Index, mem: map<Hash, Tx>, cb: Tx, vtx: seq<Tx>) {
    && Follows(cx, next) && WellFormed(db) && Resolves(p, db, mem)
    && Assembled(p, r, cx, db, mem, next.pindex, vtx)
    && cb.IsCoinBase() && cb.hash !in db && cb.hash !in mem
    && forall h <- db :: db[h].pos.OnDisk? ==> db[h].pos.block != next.pindex
  }

  /** What transaction i finds when the coinbase and the transactions before it are connected. */
  lemma {:induction false} ViewBefore(p: Policy, r: Rules, cx: Context, next: Context, db: Index, mem: map<Hash, Tx>, cb: Tx, vtx: seq<Tx>, i: nat)
    requires Ready(p, r, cx, next, db, mem, cb, vtx) && i < |vtx|
    ensures var view := ConnectTxs(db, next.pindex, [cb] + vtx[..i]);
      && WellFormed(view) && Dead(db, vtx[i].hash) && Spendable(view, vtx[i].vin)
      && forall o <- vtx[i].vin :: TrueEntry(db, mem, next.pindex, view, o.hash)
  {
    hide Sound, Follows, Resolves, TrueEntry;
    FollowsValid(cx, next);
    var all, block := [cb] + vtx, next.pindex;
    var view, below := ConnectTxs(db, block, [cb] + vtx[..i]), ConnectTxs(db, block, vtx[..i]);
    CollectedFromPool(p, r, cx, next, db, mem, cb, vtx);
    BlockCanConnect(p, r, cx, db, mem, block, vtx, cb);
    assert TxSpends(db, block, all, i + 1) && all[i + 1] == vtx[i] && all[..i + 1] == [cb] + vtx[..i];
    assert TxSpends(db, block, vtx, i) && vtx[i] in vtx && forall t <- vtx[..i] :: t in vtx;
    ConnectTxsWellFormed(db, block, [cb] + vtx[..i]);
    InputsElsewhere(p, db, mem, block, cb, vtx, i);
    CoinBaseInFront(db, block, cb, vtx[..i]);
    forall o | o in vtx[i].vin ensures TrueEntry(db, mem, block, view, o.hash) {
      assert Live(below, o);
      EntriesTrue(p, db, mem, block, vtx[..i], o.hash);
      SameEntry(db, mem, block, below, view, o.hash);
    }
  }

  lemma SameEntry(db: Index, mem: map<Hash, Tx>, block: Hash, a: Index, b: Index, h: Hash)
    requires TrueEntry(db, mem, block, a, h) && h in b && b[h] == a[h]
    ensures TrueEntry(db, mem, block, b, h)
  {}

  /** Transaction i connects on the view left by the coinbase and the transactions before it. */
  lemma EachConnects(p: Policy, r: Rules, cx: Context, next: Context, db: Index, mem: map<Hash, Tx>, cb: Tx, vtx: seq<Tx>, i: nat)
    requires Ready(p, r, cx, next, db, mem, cb, vtx) && i < |vtx|
    ensures var view := ConnectTxs(db, next.pindex, [cb] + vtx[..i]);
      && Dead(db, vtx[i].hash) && !vtx[i].IsCoinBase() && !vtx[i].IsCoinStake()
      && InputsOk(r, next, vtx[i], PrevIns(view, vtx[i].vin))
      && PrevOuts(PrevIns(view, vtx[i].vin), vtx[i].vin) == TrueOuts(db, mem, vtx[i].vin)
      && ValueIn(view, vtx[i].vin) == TrueIn(db, mem, vtx[i].vin)
  {
    hide Sound, InputsOk, PrevIns, PrevOuts, TrueOuts, ConnectTxs, Follows, Resolves, TrueEntry, ValueIn, TrueIn, Spendable, Dead;
    FollowsValid(cx, next);
    ViewBefore(p, r, cx, next, db, mem, cb, vtx, i);
    CollectedFromPool(p, r, cx, next, db, mem, cb, vtx);
    assert vtx[i] in vtx;
    SoundConnects(r, cx, next, db, mem, next.pindex, ConnectTxs(db, next.pindex, [cb] + vtx[..i]), vtx[i]);
  }

  lemma CollectedFromPool(p: Policy, r: Rules, cx: Context, next: Context, db: Index, mem: map<Hash, Tx>, cb: Tx, vtx: seq<Tx>)
    requires Ready(p, r, cx, next, db, mem, cb, vtx)
    ensures FromPool(p, db, mem, vtx) && forall i :: 0 <= i < |vtx| ==> Sound(r, cx, db, mem, vtx[i])
  {
    hide Sound, Candidate;
  }

  /** Nothing collected spends from the coinbase. */
  lemma InputsElsewhere(p: Policy, db: Index, mem: map<Hash, Tx>, block: Hash, cb: Tx, vtx: seq<Tx>, n: nat)
    requires FromPool(p, db, mem, vtx) && BlockSpends(db, block, vtx) && cb.hash !in db && cb.hash !in mem && n <= |vtx|
    ensures forall tx <- vtx[..n] :: !tx.IsCoinBase() && tx.hash != cb.hash && forall o <- tx.vin :: o.hash != cb.hash
    ensures n < |vtx| ==> forall o <- vtx[n].vin :: o.hash != cb.hash
  {
    forall i | 0 <= i < |vtx| ensures forall o <- vtx[i].vin :: o.hash != cb.hash {
      assert vtx[i] in vtx && TxSpends(db, block, vtx, i);
      ConnectTxsKeys(db, block, vtx[..i]);
      assert forall t <- vtx[..i] :: t in vtx;
    }
  }

  /** The sums ConnectBlock keeps are those the miner kept. */
  lemma {:induction false} SumsAgree(p: Policy, r: Rules, cx: Context, next: Context, db: Index, mem: map<Hash, Tx>, cb: Tx,
                                     vtx: seq<Tx>, n: nat)
    requires Ready(p, r, cx, next, db, mem, cb, vtx) && n <= |vtx|
    ensures SigOps(r, db, next.pindex, [cb] + vtx[..n]) == r.legacySigOps(cb) + SumSigOps(r, db, mem, vtx[..n])
    ensures TallyOf(db, next.pindex, [cb] + vtx[..n]).fees == Fees(db, mem, vtx[..n])
    ensures LegacySigOps(r, [cb] + vtx[..n]) <= r.legacySigOps(cb) + SumSigOps(r, db, mem, vtx[..n])
  {
    hide Ready, ConnectTxs, InputsOk, PrevIns, PrevOuts, TrueOuts, Dead, ValueIn, TrueIn, TxSigOps, Fee,
      SigOps, SumSigOps, LegacySigOps, TallyOf, Fees;
    if n == 0 {
      ReadyFacts(p, r, cx, next, db, mem, cb, vtx);
      assert [cb] + vtx[..0] == [cb] && vtx[..0] == [];
      SumsStart(r, db, next.pindex, mem, cb);
    } else {
      SumsAgree(p, r, cx, next, db, mem, cb, vtx, n - 1);
      EachConnects(p, r, cx, next, db, mem, cb, vtx, n - 1);
      assert [cb] + vtx[..n] == ([cb] + vtx[..n - 1]) + [vtx[n - 1]] && vtx[..n] == vtx[..n - 1] + [vtx[n - 1]];
      SumsNext(r, db, next.pindex, mem, [cb] + vtx[..n - 1], vtx[..n - 1], vtx[n - 1]);
    }
  }

  lemma SumsStart(r: Rules, db: Index, block: Hash, mem: map<Hash, Tx>, cb: Tx)
    requires cb.IsCoinBase()
    ensures SigOps(r, db, block, [cb]) == r.legacySigOps(cb) == LegacySigOps(r, [cb])
    ensures TallyOf(db, block, [cb]).fees == 0
    ensures SumSigOps(r, db, mem, []) == 0 && Fees(db, mem, []) == 0
  {
    assert [cb][..0] == [];
    assert TallyOf(db, block, []) == Tally(0, 0, 0, 0);
  }

  /** One more transaction whose previous outputs are the true ones. */
  lemma SumsNext(r: Rules, db: Index, block: Hash, mem: map<Hash, Tx>, all: seq<Tx>, vtx: seq<Tx>, tx: Tx)
    requires var view := ConnectTxs(db, block, all);
      && !tx.IsCoinBase() && !tx.IsCoinStake()
      && PrevOuts(PrevIns(view, tx.vin), tx.vin) == TrueOuts(db, mem, tx.vin) && ValueIn(view, tx.vin) == TrueIn(db, mem, tx.vin)
    ensures SigOps(r, db, block, all + [tx]) == SigOps(r, db, block, all) + TxSigOps(r, db, mem, tx)
    ensures TallyOf(db, block, all + [tx]).fees == TallyOf(db, block, all).fees + Fee(db, mem, tx)
    ensures LegacySigOps(r, all + [tx]) <= LegacySigOps(r, all) + TxSigOps(r, db, mem, tx)
    ensures SumSigOps(r, db, mem, vtx + [tx]) == SumSigOps(r, db, mem, vtx) + TxSigOps(r, db, mem, tx)
    ensures Fees(db, mem, vtx + [tx]) == Fees(db, mem, vtx) + Fee(db, mem, tx)
  {
    hide ConnectTxs, PrevIns, PrevOuts, TrueOuts, ValueIn, TrueIn;
    assert (all + [tx])[..|all|] == all && (vtx + [tx])[..|vtx|] == vtx;
  }

  lemma ReadyFacts(p: Policy, r: Rules, cx: Context, next: Context, db: Index, mem: map<Hash, Tx>, cb: Tx, vtx: seq<Tx>)
    requires Ready(p, r, cx, next, db, mem, cb, vtx)
    ensures cb.IsCoinBase() && cb.hash !in db && next.Valid()
    ensures BlockSpends(db, next.pindex, [cb] + vtx)
  {
    hide Resolves, Assembled;
    BlockCanConnect(p, r, cx, db, mem, next.pindex, vtx, cb);
  }

  lemma {:induction false} SigOpsGrow(r: Rules, db: Index, mem: map<Hash, Tx>, vtx: seq<Tx>, n: nat)
    requires n <= |vtx|
    ensures SumSigOps(r, db, mem, vtx[..n]) <= SumSigOps(r, db, mem, vtx)
    decreases |vtx|
  {
    if n < |vtx| {
      SigOpsGrow(r, db, mem, vtx[..|vtx| - 1], n);
      assert vtx[..|vtx| - 1][..n] == vtx[..n];
    } else {
      assert vtx[..n] == vtx;
    }
  }

  /** The assembled block is accepted, if its coinbase takes no more than the reward and uses no more signature operations
      than were set aside for it, the pool holds checked transactions, and the proof and the header are good. */
  lemma {:induction false} AssembledConnects(p: Policy, r: Rules, cx: Context, next: Context, db: Index, mem: map<Hash, Tx>, cb: Tx,
                                             vtx: seq<Tx>, block: Block)
    requires Ready(p, r, cx, next, db, mem, cb, vtx)
    requires block.hash == next.pindex && block.vtx == [cb] + vtx && r.blockOk(block)
    requires TransactionOk(r, cb) && r.legacySigOps(cb) <= 100 && forall h <- mem :: TransactionOk(r, mem[h])
    requires 100 + SumSigOps(r, db, mem, vtx) < MAX_BLOCK_SIGOPS
    requires ValueOut(cb.vout) <= GetProofOfWorkReward(next.tree.Height(next.pindex), Fees(db, mem, vtx))
    ensures BlockConnects(r, next, db, block)
  {
    hide Ready, ConnectTxs, TransactionOk, InputsOk, SumSigOps, Fees, TallyOf, SigOps, LegacySigOps, ValueOut;
    ReadyFacts(p, r, cx, next, db, mem, cb, vtx);
    assert vtx[..|vtx|] == vtx;
    SumsAgree(p, r, cx, next, db, mem, cb, vtx, |vtx|);
    forall i | 0 < i < |block.vtx|
      ensures TxConnects(r, next, db, block, i) && TransactionOk(r, block.vtx[i])
      ensures !block.vtx[i].IsCoinBase() && !block.vtx[i].IsCoinStake()
    {
      EachConnects(p, r, cx, next, db, mem, cb, vtx, i - 1);
      SumsAgree(p, r, cx, next, db, mem, cb, vtx, i);
      SigOpsGrow(r, db, mem, vtx, i);
      InThePool(p, r, cx, next, db, mem, cb, vtx, i - 1);
      assert block.vtx[..i] == [cb] + vtx[..i - 1] && block.vtx[..i + 1] == [cb] + vtx[..i];
    }
    SumsAgree(p, r, cx, next, db, mem, cb, vtx, 0);
    SigOpsGrow(r, db, mem, vtx, 0);
    assert block.vtx[..1] == [cb] + vtx[..0];
    assert TxConnects(r, next, db, block, 0) by { assert TxSpends(db, block.hash, block.vtx, 0); }
  }

  lemma InThePool(p: Policy, r: Rules, cx: Context, next: Context, db: Index, mem: map<Hash, Tx>, cb: Tx, vtx: seq<Tx>, i: nat)
    requires Ready(p, r, cx, next, db, mem, cb, vtx) && i < |vtx|
    ensures vtx[i].hash in mem && mem[vtx[i].hash] == vtx[i]
  {}
}
