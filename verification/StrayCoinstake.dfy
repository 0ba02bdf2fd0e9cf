/** The bound on minting does not cover every accepted block: in a proof-of-work block the reward of a
    coinstake at the third place or later is checked nowhere. */
module StrayCoinstake {
  import opened Wrappers
  import opened Ledger
  import opened BlockTree
  import opened Rewards
  import opened Supply
  import opened Connect
  import opened Blocks
  import opened Replay

  const FEE: int := 10_000

  /** Every signature and proof is good, transactions pay FEE, and coinbases mature after one block. */
  const PLAIN: Rules :=
    Rules(1, _ => 0, (_, _) => 0, _ => FEE, (_, _, _) => true, _ => true, _ => true, _ => true, _ => false)

  const SMALL_TREE: Tree := Tree(1, map[1 := Node(None, 0, 1, 0), 2 := Node(Some(1), 1, 2, 0), 3 := Node(Some(2), 2, 3, 0)])
  const FIRST: Context := Context(SMALL_TREE, 2, false, false)
  const SECOND: Context := Context(SMALL_TREE, 3, false, false)

  /** The coinbase of block 2, within the subsidy of height 1. */
  const FUNDING: Tx := Tx(10, 0, [OutPoint(0, NULL_N)], [TxOut(COIN, [1]), TxOut(COIN, [1])], [0x51, 0])
  const COINBASE: Tx := Tx(20, 0, [OutPoint(0, NULL_N)], [TxOut(0, [1])], [0x52, 0])
  const PAYMENT: Tx := Tx(21, 0, [OutPoint(10, 0)], [TxOut(COIN - FEE, [1])], [])
  const COINSTAKE: Tx := Tx(22, 0, [OutPoint(10, 1)], [TxOut(0, []), TxOut(1000 * COIN, [1])], [])

  const GENESIS: Block := Block(1, 0, 0, [])
  const FUNDED: Block := Block(2, 1, 0, [FUNDING])
  const BLOCK: Block := Block(3, 2, 0, [COINBASE, PAYMENT, COINSTAKE])

  const DISK: Disk := map[1 := GENESIS, 2 := FUNDED, 3 := BLOCK]
  const CHAIN: seq<Hash> := [1, 2, 3]
  const INDEX: Index := map[10 := TxIndex(OnDisk(2, FUNDING), [Null, Null])]

  lemma TreeOk()
    ensures FIRST.Valid() && SECOND.Valid() && SMALL_TREE.Height(2) == 1 && SMALL_TREE.Height(3) == 2
    ensures SMALL_TREE.Chain(3) == CHAIN
  {
    assert SMALL_TREE.Chain(1) == [1] && SMALL_TREE.Chain(2) == [1, 2];
  }

  lemma Views()
    ensures ConnectTxs(map[], 2, []) == map[] && ConnectTxs(map[], 2, [FUNDING]) == INDEX
    ensures ConnectTxs(INDEX, 3, []) == INDEX
    ensures ConnectTxs(INDEX, 3, [COINBASE]) == ConnectTx(INDEX, 3, COINBASE)
    ensures ConnectTxs(INDEX, 3, [COINBASE, PAYMENT]) == ConnectTx(ConnectTxs(INDEX, 3, [COINBASE]), 3, PAYMENT)
    ensures FUNDED.vtx[..0] == [] && FUNDED.vtx[..1] == FUNDED.vtx
    ensures BLOCK.vtx[..0] == [] && BLOCK.vtx[..1] == [COINBASE] && BLOCK.vtx[..2] == [COINBASE, PAYMENT] && BLOCK.vtx[..3] == BLOCK.vtx
  {
    assert [FUNDING][..0] == [] && [COINBASE][..0] == [] && [COINBASE, PAYMENT][..1] == [COINBASE];
    assert NewEntry(OnDisk(2, FUNDING), FUNDING).vSpent == [Null, Null];
  }

  lemma {:induction false} NoSigOps(idx: Index, block: Hash, vtx: seq<Tx>)
    ensures SigOps(PLAIN, idx, block, vtx) == 0 && LegacySigOps(PLAIN, vtx) == 0
  {
    if vtx != [] { NoSigOps(idx, block, vtx[..|vtx| - 1]); }
  }

  lemma Values()
    ensures ValueOut(FUNDING.vout) == 2 * COIN && ValueOut(FUNDING.vout[..1]) == COIN && ValueOut([]) == 0
    ensures ValueOut(COINBASE.vout) == 0 && ValueOut(PAYMENT.vout) == COIN - FEE
    ensures ValueOut(COINSTAKE.vout) == 1000 * COIN && ValueOut(COINSTAKE.vout[..1]) == 0
    ensures FUNDING.vout[..2] == FUNDING.vout && COINSTAKE.vout[..2] == COINSTAKE.vout
    ensures COINBASE.vout[..1] == COINBASE.vout && PAYMENT.vout[..1] == PAYMENT.vout
  {
    assert FUNDING.vout[..1] == [TxOut(COIN, [1])] && COINSTAKE.vout[..1] == [TxOut(0, [])];
    assert ValueOut([TxOut(COIN, [1])]) == COIN && ValueOut([TxOut(0, [])]) == 0 by {
      assert [TxOut(COIN, [1])][..0] == [] && [TxOut(0, [])][..0] == [];
    }
    assert COINBASE.vout[..0] == [] && PAYMENT.vout[..0] == [];
    assert FUNDING.vout[..2] == FUNDING.vout && FUNDING.vout[1].nValue == COIN;
  }

  /** Block 2 is accepted on genesis, and leaves the two outputs of its coinbase. */
  lemma FundedConnects()
    ensures HasBlocks(DISK, CHAIN) && ReplayTo(DISK, CHAIN, 1) == map[] && ReplayTo(DISK, CHAIN, 2) == INDEX
    ensures FIRST.Valid() && BlockConnects(PLAIN, FIRST, map[], FUNDED)
  {
    TreeOk();
    Views();
    Values();
    NoSigOps(map[], 2, FUNDED.vtx);
    assert OutputOk(FUNDING, 0) && OutputOk(FUNDING, 1);
    assert BlockWellFormed(PLAIN, FUNDED);
    assert TxConnects(PLAIN, FIRST, map[], FUNDED, 0);
    assert TallyOf(map[], 2, []) == Tally(0, 0, 0, 0);
    assert TallyOf(map[], 2, FUNDED.vtx).fees == 0;
  }

  /** Before the second and third transaction their inputs are still unspent. */
  lemma Inputs(view: Index, tx: Tx, n: nat)
    requires (n == 0 && tx == PAYMENT && view == ConnectTxs(INDEX, 3, [COINBASE]))
          || (n == 1 && tx == COINSTAKE && view == ConnectTxs(INDEX, 3, [COINBASE, PAYMENT]))
    ensures 10 in view && view[10].pos == OnDisk(2, FUNDING) && |view[10].vSpent| == 2 && view[10].vSpent[n].Null?
    ensures ValueIn(view, tx.vin) == COIN
  {
    Views();
    var o := OutPoint(10, n);
    assert tx.vin == [o] && tx.vin[..0] == [];
    assert ValueIn(view, []) == 0;
  }

  /** The coinbase of block 2 is mature in block 3. */
  lemma Mature()
    ensures SECOND.Valid() && !Recent(SECOND, 1, 2)
  {
    TreeOk();
  }

  lemma Connects(view: Index, tx: Tx, n: nat)
    requires (n == 0 && tx == PAYMENT && view == ConnectTxs(INDEX, 3, [COINBASE]))
          || (n == 1 && tx == COINSTAKE && view == ConnectTxs(INDEX, 3, [COINBASE, PAYMENT]))
    ensures SECOND.Valid() && InputsOk(PLAIN, SECOND, tx, PrevIns(view, tx.vin))
  {
    hide Recent;
    Mature();
    Values();
    Inputs(view, tx, n);
    var ins := PrevIns(view, tx.vin);
    var o := OutPoint(10, n);
    assert tx.vin == [o] && tx.vin[..0] == [] && tx.vin[..1] == [o];
    assert 10 in InputHashes(tx.vin) by { assert o in tx.vin; }
    assert ins[10] == (view[10], FUNDING) && Has(ins, o) && PrevOut(ins, o) == COIN;
    assert SumIn(ins, []) == 0 && SumIn(ins, [o]) == COIN by { assert [o][..0] == []; }
    assert CheapOk(PLAIN, SECOND, tx, ins, 0);
    assert SpendOk(PLAIN, SECOND, tx, ins, 0);
  }

  lemma Sums()
    ensures TallyOf(INDEX, 3, BLOCK.vtx).fees == FEE
    ensures Created(INDEX, 3, BLOCK.vtx) == 999 * COIN - FEE
  {
    Views();
    Values();
    Inputs(ConnectTxs(INDEX, 3, [COINBASE]), PAYMENT, 0);
    Inputs(ConnectTxs(INDEX, 3, [COINBASE, PAYMENT]), COINSTAKE, 1);
    assert [COINBASE][..0] == [] && [COINBASE, PAYMENT][..1] == [COINBASE];
    assert TallyOf(INDEX, 3, []) == Tally(0, 0, 0, 0) && Created(INDEX, 3, []) == 0;
    assert TallyOf(INDEX, 3, [COINBASE]) == Tally(0, 0, 0, 0) && Created(INDEX, 3, [COINBASE]) == 0;
    assert TallyOf(INDEX, 3, [COINBASE, PAYMENT]).fees == FEE && Created(INDEX, 3, [COINBASE, PAYMENT]) == 0 - FEE;
  }

  lemma TxsOk()
    ensures TransactionOk(PLAIN, COINBASE) && TransactionOk(PLAIN, PAYMENT) && TransactionOk(PLAIN, COINSTAKE)
  {
    Values();
    assert OutputOk(COINBASE, 0) && OutputOk(PAYMENT, 0) && OutputOk(COINSTAKE, 0) && OutputOk(COINSTAKE, 1);
  }

  lemma BlockShape()
    ensures BlockWellFormed(PLAIN, BLOCK) && !BLOCK.IsProofOfStake() && !StakeAccounted(BLOCK)
  {
    hide TransactionOk;
    TxsOk();
    NoSigOps(INDEX, 3, BLOCK.vtx);
    assert COINSTAKE in BLOCK.vtx && COINSTAKE.IsCoinStake();
  }

  /** On the chain of accepted blocks 1 and 2, a proof-of-work block of height 2, where no subsidy is due, is
      accepted though it mints 999 coins less a fee. */
  lemma MintsMore()
    ensures HasBlocks(DISK, CHAIN) && ReplayTo(DISK, CHAIN, 2) == INDEX && SMALL_TREE.Valid() && SMALL_TREE.Chain(3) == CHAIN
    ensures SECOND.Valid() && BlockConnects(PLAIN, SECOND, INDEX, BLOCK)
    ensures !BLOCK.IsProofOfStake() && !StakeAccounted(BLOCK)
    ensures Created(INDEX, BLOCK.hash, BLOCK.vtx) > MaxSubsidy(SMALL_TREE.Height(3))
  {
    hide BlockWellFormed, InputsOk, PrevIns;
    TreeOk();
    Views();
    Values();
    Sums();
    FundedConnects();
    BlockShape();
    forall i | 0 <= i < 3 ensures TxConnects(PLAIN, SECOND, INDEX, BLOCK, i) {
      NoSigOps(INDEX, 3, BLOCK.vtx[..i + 1]);
      if i == 1 { Connects(ConnectTxs(INDEX, 3, [COINBASE]), PAYMENT, 0); }
      if i == 2 { Connects(ConnectTxs(INDEX, 3, [COINBASE, PAYMENT]), COINSTAKE, 1); }
    }
  }

  /** An accepted block stays within the subsidy of its height exactly if the checks account for its coinstakes,
      or these mint no more than the coinbase leaves of the subsidy and the fees. */
  lemma MintsWithinExactly(r: Rules, cx: Context, idx: Index, block: Block)
    requires cx.Valid() && BlockConnects(r, cx, idx, block)
    ensures var due, fees := MaxSubsidy(cx.tree.Height(cx.pindex)), TallyOf(idx, block.hash, block.vtx).fees;
      Created(idx, block.hash, block.vtx) <= due <==>
      StakeAccounted(block) || StakeMint(idx, block.hash, block.vtx) <= due + fees - ValueOut(block.vtx[0].vout)
    ensures Created(idx, block.hash, block.vtx) <= MaxSubsidy(cx.tree.Height(cx.pindex))
      + if StakeAccounted(block) then 0 else StakeMint(idx, block.hash, block.vtx)
  {
    if StakeAccounted(block) {
      MintAtMostSubsidy(r, cx, idx, block);
    }
    CreatedSplits(idx, block.hash, block.vtx);
    SubsidyAtMostMax(cx.tree.Height(cx.pindex), r.isFlashStake(block.nTime), cx.disablePow);
  }
}
