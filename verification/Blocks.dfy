/** ConnectBlock and DisconnectBlock: what a block must satisfy, what it does to the index,
    and how much it can mint. */
module Blocks {
  import opened Wrappers
  import opened Ledger
  import opened BlockTree
  import opened Rewards
  import opened Supply
  import opened Connect

  // ----- what is checked

  /** Output i is in range, and so is the sum of the outputs up to it. */
  predicate OutputOk(tx: Tx, i: nat)
    requires i < |tx.vout|
  {
    && (tx.vout[i].IsEmpty() ==> tx.IsCoinBase() || tx.IsCoinStake())
    && MoneyRange(tx.vout[i].nValue)
    && MoneyRange(ValueOut(tx.vout[..i + 1]))
  }

  predicate OutputsOk(tx: Tx) { forall i :: 0 <= i < |tx.vout| ==> OutputOk(tx, i) }

  ghost predicate TransactionOk(r: Rules, tx: Tx) {
    && r.txOk(tx) && (tx.IsCoinBase() ==> 2 <= |tx.scriptSig| <= 200)
    && tx.vin != [] && tx.vout != []
    && OutputsOk(tx)
    && Distinct(tx.vin)
    && (tx.IsCoinBase() || forall o <- tx.vin :: !o.IsNull())
  }

  function LegacySigOps(r: Rules, vtx: seq<Tx>): nat {
    if vtx == [] then 0 else LegacySigOps(r, vtx[..|vtx| - 1]) + r.legacySigOps(vtx[|vtx| - 1])
  }

  /** CheckBlock; the parts whose bodies are not part of this model are `blockOk`. */
  ghost predicate BlockWellFormed(r: Rules, block: Block) {
    && r.blockOk(block)
    && block.vtx != [] && block.vtx[0].IsCoinBase()
    && (forall i :: 0 < i < |block.vtx| ==> !block.vtx[i].IsCoinBase())
    && (|block.vtx| >= 2 && block.vtx[1].IsCoinStake() ==>
          && |block.vtx[0].vout| == 1 && block.vtx[0].vout[0].IsEmpty()
          && forall i :: 2 <= i < |block.vtx| ==> !block.vtx[i].IsCoinStake())
    && (forall i :: 0 <= i < |block.vtx| ==> TransactionOk(r, block.vtx[i]))
    && (forall i, j :: 0 <= i < j < |block.vtx| ==> block.vtx[i].hash != block.vtx[j].hash)
    && LegacySigOps(r, block.vtx) <= 20_000
  }

  /** The previous transactions as ConnectBlock sees them: pending changes of this block over the database. */
  function PrevIns(view: Index, vin: seq<OutPoint>): PrevTxs {
    map h | h in InputHashes(vin) && h in view && view[h].pos.OnDisk? :: (view[h], view[h].pos.tx)
  }

  function PrevOuts(ins: PrevTxs, vin: seq<OutPoint>): seq<TxOut> {
    seq(|vin|, i requires 0 <= i < |vin| => if Has(ins, vin[i]) then ins[vin[i].hash].1.vout[vin[i].n] else TxOut(0, []))
  }

  function P2SHSigOps(r: Rules, view: Index, tx: Tx): nat {
    if tx.IsCoinBase() then 0 else r.p2shSigOps(tx, PrevOuts(PrevIns(view, tx.vin), tx.vin))
  }

  function SigOps(r: Rules, idx: Index, block: Hash, vtx: seq<Tx>): nat {
    if vtx == [] then 0 else
      var init, tx := vtx[..|vtx| - 1], vtx[|vtx| - 1];
      SigOps(r, idx, block, init) + r.legacySigOps(tx) + P2SHSigOps(r, ConnectTxs(idx, block, init), tx)
  }

  /** What ConnectBlock checks of a transaction, given the index before the block and the view of the block so far. */
  ghost predicate TxOk(r: Rules, cx: Context, idx: Index, view: Index, tx: Tx, nSigOps: nat)
    requires cx.Valid()
  {
    && Dead(idx, tx.hash)
    && nSigOps <= 20_000
    && (tx.IsCoinBase() || InputsOk(r, cx, tx, PrevIns(view, tx.vin)))
  }

  ghost predicate TxConnects(r: Rules, cx: Context, idx: Index, block: Block, i: nat)
    requires cx.Valid() && i < |block.vtx|
  {
    TxOk(r, cx, idx, ConnectTxs(idx, block.hash, block.vtx[..i]), block.vtx[i], SigOps(r, idx, block.hash, block.vtx[..i + 1]))
  }

  // ----- the sums the loop keeps

  /** The running sums of ConnectBlock. */
  datatype Tally = Tally(valueIn: int, valueOut: int, fees: int, stakeReward: int) {
    /** Ordinary transactions pay their difference as fee; a coinstake earns it. */
    function Add(tx: Tx, nTxValueIn: int): Tally {
      var nTxValueOut := ValueOut(tx.vout);
      Tally(valueIn + nTxValueIn, valueOut + nTxValueOut,
            if tx.IsCoinBase() || tx.IsCoinStake() then fees else fees + nTxValueIn - nTxValueOut,
            if !tx.IsCoinBase() && tx.IsCoinStake() then nTxValueOut - nTxValueIn else stakeReward)
    }
  }

  function TallyOf(idx: Index, block: Hash, vtx: seq<Tx>): Tally {
    if vtx == [] then Tally(0, 0, 0, 0) else
      var init, tx := vtx[..|vtx| - 1], vtx[|vtx| - 1];
      TallyOf(idx, block, init).Add(tx, TxValueIn(ConnectTxs(idx, block, init), tx))
  }

  predicate RewardOk(r: Rules, cx: Context, block: Block, t: Tally)
    requires block.vtx != [] && cx.pindex in cx.tree.nodes
  {
    var height := cx.tree.Height(cx.pindex);
    if block.IsProofOfStake() then
      && r.coinAgeOk(block.vtx[1])
      && t.stakeReward <= GetProofOfStakeReward(height, t.fees, r.isFlashStake(block.nTime), cx.disablePow)
    else ValueOut(block.vtx[0].vout) <= GetProofOfWorkReward(height, t.fees)
  }

  /** Everything ConnectBlock checks. */
  ghost predicate BlockConnects(r: Rules, cx: Context, idx: Index, block: Block)
    requires cx.Valid()
  {
    && BlockWellFormed(r, block)
    && (forall i :: 0 <= i < |block.vtx| ==> TxConnects(r, cx, idx, block, i))
    && RewardOk(r, cx, block, TallyOf(idx, block.hash, block.vtx))
  }

  // ----- lemmas

  lemma SumInIsValueIn(view: Index, vin: seq<OutPoint>, all: seq<OutPoint>)
    requires WellFormed(view) && vin <= all
    requires forall o <- vin :: Has(PrevIns(view, all), o)
    ensures SumIn(PrevIns(view, all), vin) == ValueIn(view, vin)
  {
    if vin != [] {
      var o := vin[|vin| - 1];
      assert o in vin;
      SumInIsValueIn(view, vin[..|vin| - 1], all);
    }
  }

  lemma InputsOkSpends(r: Rules, cx: Context, tx: Tx, view: Index)
    requires cx.Valid() && WellFormed(view) && InputsOk(r, cx, tx, PrevIns(view, tx.vin))
    ensures Spendable(view, tx.vin)
    ensures SumIn(PrevIns(view, tx.vin), tx.vin) == ValueIn(view, tx.vin)
  {
    var ins := PrevIns(view, tx.vin);
    forall i | 0 <= i < |tx.vin| ensures Live(view, tx.vin[i]) && Has(ins, tx.vin[i]) {
      assert SpendOk(r, cx, tx, ins, i);
    }
    forall i, j | 0 <= i < j < |tx.vin| ensures tx.vin[i] != tx.vin[j] {
      assert SpendOk(r, cx, tx, ins, j);
      assert tx.vin[..j][i] == tx.vin[i];
    }
    SumInIsValueIn(view, tx.vin, tx.vin);
  }

  /** An accepted block satisfies what undo and conservation need. */
  lemma ConnectsImpliesSpends(r: Rules, cx: Context, idx: Index, block: Block)
    requires cx.Valid() && WellFormed(idx) && BlockConnects(r, cx, idx, block)
    ensures BlockSpends(idx, block.hash, block.vtx)
  {
    forall i | 0 <= i < |block.vtx| ensures TxSpends(idx, block.hash, block.vtx, i) {
      assert TxConnects(r, cx, idx, block, i);
      var view := ConnectTxs(idx, block.hash, block.vtx[..i]);
      ConnectTxsWellFormed(idx, block.hash, block.vtx[..i]);
      if !block.vtx[i].IsCoinBase() { InputsOkSpends(r, cx, block.vtx[i], view); }
    }
  }

  function StakeMint(idx: Index, block: Hash, vtx: seq<Tx>): int {
    if vtx == [] then 0 else
      var init, tx := vtx[..|vtx| - 1], vtx[|vtx| - 1];
      StakeMint(idx, block, init) +
      (if !tx.IsCoinBase() && tx.IsCoinStake() then ValueOut(tx.vout) - TxValueIn(ConnectTxs(idx, block, init), tx) else 0)
  }

  lemma {:induction false} TallyIsCreated(idx: Index, block: Hash, vtx: seq<Tx>)
    ensures TallyOf(idx, block, vtx).valueOut - TallyOf(idx, block, vtx).valueIn == Created(idx, block, vtx)
  {
    if vtx != [] { TallyIsCreated(idx, block, vtx[..|vtx| - 1]); }
  }

  /** The change in supply is the coinbase, plus what coinstakes mint, less the fees. */
  lemma {:induction false} CreatedSplits(idx: Index, block: Hash, vtx: seq<Tx>)
    requires vtx != [] && vtx[0].IsCoinBase() && forall i :: 0 < i < |vtx| ==> !vtx[i].IsCoinBase()
    ensures Created(idx, block, vtx) == ValueOut(vtx[0].vout) + StakeMint(idx, block, vtx) - TallyOf(idx, block, vtx).fees
  {
    var init := vtx[..|vtx| - 1];
    if |vtx| == 1 {
      assert init == [];
    } else {
      CreatedSplits(idx, block, init);
    }
  }

  lemma {:induction false} OneStake(idx: Index, block: Hash, vtx: seq<Tx>)
    requires forall i :: 0 <= i < |vtx| && i != 1 ==> !vtx[i].IsCoinStake()
    ensures StakeMint(idx, block, vtx) == TallyOf(idx, block, vtx).stakeReward
  {
    if vtx != [] {
      var init := vtx[..|vtx| - 1];
      OneStake(idx, block, init);
      if |vtx| == 2 && vtx[1].IsCoinStake() {
        assert init == [vtx[0]] && init[..0] == [];
        assert StakeMint(idx, block, init[..0]) == 0;
      }
    }
  }

  /** The kinds of block whose minting the reward checks bound. */
  predicate StakeAccounted(block: Block) {
    block.IsProofOfStake() || forall tx <- block.vtx :: !tx.IsCoinStake()
  }

  /** A proof-of-stake block has good coin age and adds at most the stake subsidy to the supply; what a work block adds,
      coinstakes aside, is at most the work subsidy. */
  ghost predicate MintDue(r: Rules, height: nat, powOver: bool, idx: Index, block: Block) {
    var created := Created(idx, block.hash, block.vtx);
    if |block.vtx| >= 2 && block.vtx[1].IsCoinStake() then
      r.coinAgeOk(block.vtx[1]) && created <= ProofOfStakeSubsidy(height, r.isFlashStake(block.nTime), powOver)
    else created - StakeMint(idx, block.hash, block.vtx) <= ProofOfWorkSubsidy(height)
  }

  /** Of the blocks that pass all else, exactly those are accepted that mint what is due. */
  lemma AcceptedExactly(r: Rules, cx: Context, idx: Index, block: Block)
    requires cx.Valid() && BlockWellFormed(r, block)
    requires forall i :: 0 <= i < |block.vtx| ==> TxConnects(r, cx, idx, block, i)
    ensures BlockConnects(r, cx, idx, block) <==> MintDue(r, cx.tree.nodes[cx.pindex].height, cx.disablePow, idx, block)
  {
    hide TxConnects, ProofOfStakeSubsidy, ProofOfWorkSubsidy;
    CreatedSplits(idx, block.hash, block.vtx);
    if block.IsProofOfStake() {
      OneStake(idx, block.hash, block.vtx);
      assert block.vtx[0].vout[..0] == [];
    }
  }

  /** Input i is signed for the transaction it spends, as the view has it. */
  predicate SignedAt(r: Rules, view: Index, tx: Tx, i: nat)
    requires i < |tx.vin|
  {
    var h := tx.vin[i].hash;
    h in view && view[h].pos.OnDisk? && r.verifySignature(view[h].pos.tx, tx, i)
  }

  predicate TxSigned(r: Rules, view: Index, tx: Tx) { tx.IsCoinBase() || forall i :: 0 <= i < |tx.vin| ==> SignedAt(r, view, tx, i) }

  /** Every input of the block is signed. */
  ghost predicate BlockSigned(r: Rules, idx: Index, block: Block) {
    forall q :: 0 <= q < |block.vtx| ==> TxSigned(r, ConnectTxs(idx, block.hash, block.vtx[..q]), block.vtx[q])
  }

  /** The checks of the transactions, signatures aside. */
  ghost predicate Unsigned(r: Rules, tree: Tree, pindex: Hash, idx: Index, block: Block)
    requires tree.Valid() && pindex in tree.nodes
  {
    forall q :: 0 <= q < |block.vtx| ==> TxConnects(r, Context(tree, pindex, true, false), idx, block, q)
  }

  lemma SignaturesApart(r: Rules, cx: Context, tx: Tx, view: Index)
    requires cx.Valid()
    ensures InputsOk(r, cx, tx, PrevIns(view, tx.vin)) <==>
      && InputsOk(r, Context(cx.tree, cx.pindex, true, false), tx, PrevIns(view, tx.vin))
      && (cx.skipSignatures || forall i :: 0 <= i < |tx.vin| ==> SignedAt(r, view, tx, i))
  {
    var ins, free := PrevIns(view, tx.vin), Context(cx.tree, cx.pindex, true, false);
    forall i | 0 <= i < |tx.vin|
      ensures CheapOk(r, cx, tx, ins, i) <==> CheapOk(r, free, tx, ins, i)
      ensures SpendOk(r, cx, tx, ins, i) <==> SpendOk(r, free, tx, ins, i) && (cx.skipSignatures || SignedAt(r, view, tx, i))
    {}
  }

  /** A block is accepted exactly if it passes the checks that depend on nothing but its place, its inputs are signed unless
      signatures are skipped, and it mints what is due. */
  lemma ConnectsExactly(r: Rules, cx: Context, idx: Index, block: Block)
    requires cx.Valid()
    ensures BlockConnects(r, cx, idx, block) <==>
      && BlockWellFormed(r, block) && Unsigned(r, cx.tree, cx.pindex, idx, block)
      && (cx.skipSignatures || BlockSigned(r, idx, block))
      && MintDue(r, cx.tree.nodes[cx.pindex].height, cx.disablePow, idx, block)
  {
    hide InputsOk, MintDue, BlockWellFormed, PrevIns, SignedAt;
    var free := Context(cx.tree, cx.pindex, true, false);
    forall q | 0 <= q < |block.vtx|
      ensures var view := ConnectTxs(idx, block.hash, block.vtx[..q]);
        TxConnects(r, cx, idx, block, q) <==>
        TxConnects(r, free, idx, block, q) && (cx.skipSignatures || TxSigned(r, view, block.vtx[q]))
    {
      SignaturesApart(r, cx, block.vtx[q], ConnectTxs(idx, block.hash, block.vtx[..q]));
    }
    if BlockWellFormed(r, block) && forall q :: 0 <= q < |block.vtx| ==> TxConnects(r, cx, idx, block, q) {
      AcceptedExactly(r, cx, idx, block);
    }
  }

  lemma {:induction false} SigOpsFree(r: Rules, f: (Tx, Tx, nat) -> bool, idx: Index, block: Hash, vtx: seq<Tx>)
    ensures LegacySigOps(r.(verifySignature := f), vtx) == LegacySigOps(r, vtx)
    ensures SigOps(r.(verifySignature := f), idx, block, vtx) == SigOps(r, idx, block, vtx)
  {
    hide ConnectTxs, PrevIns, PrevOuts;
    if vtx != [] { SigOpsFree(r, f, idx, block, vtx[..|vtx| - 1]); }
  }

  lemma InputsFree(r: Rules, f: (Tx, Tx, nat) -> bool, cx: Context, tx: Tx, ins: PrevTxs)
    requires cx.Valid() && cx.skipSignatures
    ensures InputsOk(r, cx, tx, ins) <==> InputsOk(r.(verifySignature := f), cx, tx, ins)
  {
    var r' := r.(verifySignature := f);
    forall i | 0 <= i < |tx.vin|
      ensures CheapOk(r, cx, tx, ins, i) <==> CheapOk(r', cx, tx, ins, i)
      ensures SpendOk(r, cx, tx, ins, i) <==> SpendOk(r', cx, tx, ins, i)
    {}
  }

  /** These checks read no signature. */
  lemma UnsignedFree(r: Rules, f: (Tx, Tx, nat) -> bool, tree: Tree, pindex: Hash, idx: Index, block: Block, height: nat, powOver: bool)
    requires tree.Valid() && pindex in tree.nodes
    ensures var r' := r.(verifySignature := f);
      && (BlockWellFormed(r, block) <==> BlockWellFormed(r', block))
      && (Unsigned(r, tree, pindex, idx, block) <==> Unsigned(r', tree, pindex, idx, block))
      && (MintDue(r, height, powOver, idx, block) <==> MintDue(r', height, powOver, idx, block))
  {
    hide InputsOk, PrevIns, Dead, SigOps, LegacySigOps, ConnectTxs;
    var r', cx := r.(verifySignature := f), Context(tree, pindex, true, false);
    SigOpsFree(r, f, idx, block.hash, block.vtx);
    forall q | 0 <= q < |block.vtx|
      ensures TransactionOk(r, block.vtx[q]) <==> TransactionOk(r', block.vtx[q])
      ensures TxConnects(r, cx, idx, block, q) <==> TxConnects(r', cx, idx, block, q)
    {
      SigOpsFree(r, f, idx, block.hash, block.vtx[..q + 1]);
      InputsFree(r, f, cx, block.vtx[q], PrevIns(ConnectTxs(idx, block.hash, block.vtx[..q]), block.vtx[q].vin));
    }
  }

  /** What an accepted block adds to the supply: a proof-of-stake block, or a work block without a coinstake, at most the subsidy. */
  lemma MintWithinDue(r: Rules, cx: Context, idx: Index, block: Block)
    requires cx.Valid() && BlockConnects(r, cx, idx, block)
    ensures var height, created := cx.tree.nodes[cx.pindex].height, Created(idx, block.hash, block.vtx);
      && (block.IsProofOfStake() ==> created <= ProofOfStakeSubsidy(height, r.isFlashStake(block.nTime), cx.disablePow))
      && ((forall tx <- block.vtx :: !tx.IsCoinStake()) ==> created <= ProofOfWorkSubsidy(height))
  {
    hide TxConnects, ProofOfStakeSubsidy, ProofOfWorkSubsidy;
    AcceptedExactly(r, cx, idx, block);
    if forall tx <- block.vtx :: !tx.IsCoinStake() {
      assert !block.IsProofOfStake();
      NoStakeMint(idx, block.hash, block.vtx);
    }
  }

  /** An accepted proof-of-stake block, or proof-of-work block without a coinstake,
      adds at most the subsidy of its height to the supply. */
  lemma MintAtMostSubsidy(r: Rules, cx: Context, idx: Index, block: Block)
    requires cx.Valid() && BlockConnects(r, cx, idx, block) && StakeAccounted(block)
    ensures Created(idx, block.hash, block.vtx) <= MaxSubsidy(cx.tree.Height(cx.pindex))
  {
    MintWithinDue(r, cx, idx, block);
    SubsidyAtMostMax(cx.tree.Height(cx.pindex), r.isFlashStake(block.nTime), cx.disablePow);
  }

  lemma {:induction false} NoStakeMint(idx: Index, block: Hash, vtx: seq<Tx>)
    requires forall tx <- vtx :: !tx.IsCoinStake()
    ensures StakeMint(idx, block, vtx) == 0
  {
    if vtx != [] {
      assert forall tx <- vtx[..|vtx| - 1] :: tx in vtx;
      assert vtx[|vtx| - 1] in vtx;
      NoStakeMint(idx, block, vtx[..|vtx| - 1]);
    }
  }

  // ----- the methods

  method CheckOutputs(tx: Tx) returns (ok: bool)
    ensures ok <==> OutputsOk(tx)
  {
    var nValueOut := 0;
    for i := 0 to |tx.vout|
      invariant nValueOut == ValueOut(tx.vout[..i])
      invariant forall j :: 0 <= j < i ==> OutputOk(tx, j)
    {
      ghost var good := OutputOk(tx, i);
      assert tx.vout[..i + 1][..i] == tx.vout[..i];
      if tx.vout[i].IsEmpty() && !tx.IsCoinBase() && !tx.IsCoinStake() { return false; }
      if tx.vout[i].nValue < 0 || tx.vout[i].nValue > MAX_MONEY { return false; }
      nValueOut := nValueOut + tx.vout[i].nValue;
      if !MoneyRange(nValueOut) { return false; }
    }
    return true;
  }

  /** The duplicate checks by insertion into a set. */
  method AllDistinct<T(==)>(s: seq<T>) returns (ok: bool)
    ensures ok <==> forall i, j :: 0 <= i < j < |s| ==> s[i] != s[j]
  {
    var seen: set<T> := {};
    for i := 0 to |s|
      invariant seen == set j | 0 <= j < i :: s[j]
      invariant forall j, k :: 0 <= j < k < i ==> s[j] != s[k]
    {
      if s[i] in seen { return false; }
      seen := seen + {s[i]};
    }
    return true;
  }

  method CheckTransaction(r: Rules, tx: Tx) returns (ok: bool)
    ensures ok <==> TransactionOk(r, tx)
  {
    if !r.txOk(tx) { return false; }
    if tx.vin == [] || tx.vout == [] { return false; }
    ok := CheckOutputs(tx);
    if !ok { return false; }
    ok := AllDistinct(tx.vin);
    if !ok { return false; }
    if tx.IsCoinBase() { return 2 <= |tx.scriptSig| <= 200; }
    return forall o <- tx.vin :: !o.IsNull();
  }

  method CheckTransactions(r: Rules, vtx: seq<Tx>) returns (ok: bool)
    ensures ok <==> (forall i :: 0 <= i < |vtx| ==> TransactionOk(r, vtx[i])) && LegacySigOps(r, vtx) <= MAX_BLOCK_SIGOPS
  {
    var nSigOps := 0;
    for i := 0 to |vtx|
      invariant forall j :: 0 <= j < i ==> TransactionOk(r, vtx[j])
      invariant nSigOps == LegacySigOps(r, vtx[..i])
    {
      assert vtx[..i + 1][..i] == vtx[..i];
      var good := CheckTransaction(r, vtx[i]);
      if !good { return false; }
      nSigOps := nSigOps + r.legacySigOps(vtx[i]);
    }
    assert vtx[..|vtx|] == vtx;
    return nSigOps <= MAX_BLOCK_SIGOPS;
  }

  method CheckBlock(r: Rules, block: Block) returns (ok: bool)
    ensures ok <==> BlockWellFormed(r, block)
  {
    hide TransactionOk, LegacySigOps;
    var vtx := block.vtx;
    if vtx == [] || !r.blockOk(block) || !vtx[0].IsCoinBase() { return false; }
    if exists i :: 0 < i < |vtx| && vtx[i].IsCoinBase() { return false; }
    if block.IsProofOfStake() {
      if |vtx[0].vout| != 1 || !vtx[0].vout[0].IsEmpty() { return false; }
      if exists i :: 2 <= i < |vtx| && vtx[i].IsCoinStake() { return false; }
    }
    ok := CheckTransactions(r, vtx);
    if !ok { return false; }
    var ids := seq(|vtx|, i requires 0 <= i < |vtx| => vtx[i].hash);
    ok := AllDistinct(ids);
    assert ok ==> forall i, j :: 0 <= i < j < |vtx| ==> vtx[i].hash == ids[i] && vtx[j].hash == ids[j];
    if !ok {
      ghost var i, j :| 0 <= i < j < |vtx| && ids[i] == ids[j];
      assert vtx[i].hash == vtx[j].hash;
    }
  }

  lemma FetchedIsPrevIns(db: Index, queued: Index, vin: seq<OutPoint>)
    requires WellFormed(db + queued)
    ensures AllFetched(db, queued, map[], true, vin) ==> FetchedMap(db, queued, map[], true, vin) == PrevIns(db + queued, vin)
    ensures !AllFetched(db, queued, map[], true, vin) ==> exists o <- vin :: !Has(PrevIns(db + queued, vin), o)
  {}

  lemma MissingNotOk(r: Rules, cx: Context, tx: Tx, ins: PrevTxs, o: OutPoint)
    requires cx.Valid() && o in tx.vin && !Has(ins, o)
    ensures !InputsOk(r, cx, tx, ins)
  {
    var i :| 0 <= i < |tx.vin| && tx.vin[i] == o;
    assert SpendOk(r, cx, tx, ins, i) ==> false;
  }

  /** Writing the marked entries over the view is the same as marking the view. */
  lemma {:induction false} MarkedIsMarkAll(db: Index, queued: Index, vin: seq<OutPoint>, pos: DiskTxPos)
    requires WellFormed(db + queued) && forall o <- vin :: Has(PrevIns(db + queued, vin), o)
    ensures db + (queued + Marked(PrevIns(db + queued, vin), vin, pos)) == MarkAll(db + queued, vin, pos)
  {
    var view := db + queued;
    var m := Marked(PrevIns(view, vin), vin, pos);
    assert m.Keys <= view.Keys;
    hide MarkEntry, Marked, PrevIns, WellFormed;
    forall h | h in view ensures (db + (queued + m))[h] == MarkEntry(view[h], h, vin, pos) { MarkedAt(db, queued, vin, pos, h); }
  }

  lemma {:induction false} MarkedAt(db: Index, queued: Index, vin: seq<OutPoint>, pos: DiskTxPos, h: Hash)
    requires WellFormed(db + queued) && (forall o <- vin :: Has(PrevIns(db + queued, vin), o)) && h in db + queued
    ensures (db + (queued + Marked(PrevIns(db + queued, vin), vin, pos)))[h] == MarkEntry((db + queued)[h], h, vin, pos)
  {
    if h !in Marked(PrevIns(db + queued, vin), vin, pos) { MarkUntouched((db + queued)[h], h, vin, pos); }
  }

  /** Overwriting a transaction that still has unspent outputs is refused. */
  method AlreadyHasUnspent(db: Index, h: Hash) returns (found: bool)
    ensures found <==> !Dead(db, h)
  {
    if h in db {
      for n := 0 to |db[h].vSpent|
        invariant forall k :: 0 <= k < n ==> !db[h].vSpent[k].Null?
      {
        if db[h].vSpent[n].Null? {
          assert Live(db, OutPoint(h, n));
          return true;
        }
      }
    }
    return false;
  }

  /** Fetches and connects the inputs of one transaction of the block over the pending changes. */
  method ConnectSpends(r: Rules, cx: Context, txdb: TxDb, tx: Tx, queued: Index, pos: DiskTxPos, nSigOps: nat)
    returns (ok: bool, queued': Index, nSigOps': nat, nTxValueIn: int)
    requires cx.Valid() && !tx.IsCoinBase() && !pos.Null? && WellFormed(txdb.View() + queued)
    ensures var view := txdb.View() + queued;
            && (ok <==> && InputsOk(r, cx, tx, PrevIns(view, tx.vin))
                        && nSigOps + P2SHSigOps(r, view, tx) <= MAX_BLOCK_SIGOPS)
            && (ok ==> txdb.View() + queued' == MarkAll(view, tx.vin, pos))
            && (ok ==> nSigOps' == nSigOps + P2SHSigOps(r, view, tx))
            && (ok ==> nTxValueIn == ValueIn(view, tx.vin))
  {
    ghost var view := txdb.View() + queued;
    ghost var ins := PrevIns(view, tx.vin);
    queued', nSigOps', nTxValueIn := queued, nSigOps, 0;
    FetchedIsPrevIns(txdb.View(), queued, tx.vin);
    var fetched, inputs, fInvalid := FetchInputs(tx, txdb, queued, map[], true, false);
    if !fetched {
      ghost var o :| o in tx.vin && !Has(ins, o);
      MissingNotOk(r, cx, tx, ins, o);
      return false, queued, nSigOps, 0;
    }
    nSigOps' := nSigOps + r.p2shSigOps(tx, PrevOuts(inputs, tx.vin));
    if nSigOps' > MAX_BLOCK_SIGOPS { ok := false; return; }
    nTxValueIn := SumIn(inputs, tx.vin);
    SumInIsValueIn(view, tx.vin, tx.vin);
    ok, queued' := ConnectInputs(r, cx, tx, inputs, queued, pos, true, false);
    if ok { MarkedIsMarkAll(txdb.View(), queued, tx.vin, pos); }
  }

  /** The transaction loop of ConnectBlock, one turn: the pending changes `queued` over the database are the view so far. */
  method ConnectNext(r: Rules, cx: Context, txdb: TxDb, block: Hash, tx: Tx, queued: Index, nSigOps: nat)
    returns (ok: bool, queued': Index, nSigOps': nat, nTxValueIn: int)
    requires cx.Valid() && WellFormed(txdb.View() + queued)
    ensures var view := txdb.View() + queued;
            var sig := nSigOps + r.legacySigOps(tx) + P2SHSigOps(r, view, tx);
            && (ok <==> TxOk(r, cx, txdb.View(), view, tx, sig))
            && (ok ==> txdb.View() + queued' == ConnectTx(view, block, tx))
            && (ok ==> nSigOps' == sig && nTxValueIn == TxValueIn(view, tx))
  {
    queued', nSigOps', nTxValueIn := queued, nSigOps + r.legacySigOps(tx), 0;
    var overwrites := AlreadyHasUnspent(txdb.View(), tx.hash);
    if overwrites || nSigOps' > MAX_BLOCK_SIGOPS { ok := false; return; }
    var pos := OnDisk(block, tx);
    ok := true;
    if !tx.IsCoinBase() {
      ok, queued', nSigOps', nTxValueIn := ConnectSpends(r, cx, txdb, tx, queued, pos, nSigOps');
      if !ok { return; }
    }
    ghost var spent := txdb.View() + queued';
    queued' := queued'[tx.hash := NewEntry(pos, tx)];
    assert txdb.View() + queued' == spent[tx.hash := NewEntry(pos, tx)];
  }

  lemma SigOpsStep(r: Rules, idx: Index, block: Hash, vtx: seq<Tx>, i: nat)
    requires i < |vtx|
    ensures SigOps(r, idx, block, vtx[..i + 1])
            == SigOps(r, idx, block, vtx[..i]) + r.legacySigOps(vtx[i]) + P2SHSigOps(r, ConnectTxs(idx, block, vtx[..i]), vtx[i])
  {
    assert vtx[..i + 1][..i] == vtx[..i];
  }

  lemma TallyStep(idx: Index, block: Hash, vtx: seq<Tx>, i: nat)
    requires i < |vtx|
    ensures TallyOf(idx, block, vtx[..i + 1])
            == TallyOf(idx, block, vtx[..i]).Add(vtx[i], TxValueIn(ConnectTxs(idx, block, vtx[..i]), vtx[i]))
  {
    assert vtx[..i + 1][..i] == vtx[..i];
  }

  /** What the transaction loop knows after i transactions. */
  ghost predicate SoFar(r: Rules, cx: Context, db: Index, block: Block, i: nat, queued: Index, nSigOps: nat, tally: Tally)
    requires cx.Valid() && i <= |block.vtx|
  {
    && db + queued == ConnectTxs(db, block.hash, block.vtx[..i])
    && nSigOps == SigOps(r, db, block.hash, block.vtx[..i])
    && tally == TallyOf(db, block.hash, block.vtx[..i])
    && forall j :: 0 <= j < i ==> TxConnects(r, cx, db, block, j)
  }

  lemma SoFarStart(r: Rules, cx: Context, db: Index, block: Block)
    requires cx.Valid()
    ensures SoFar(r, cx, db, block, 0, map[], 0, Tally(0, 0, 0, 0))
  {
    assert db + map[] == db;
  }

  lemma SoFarStep(r: Rules, cx: Context, db: Index, block: Block, i: nat, queued: Index, nSigOps: nat, tally: Tally, queued': Index)
    requires cx.Valid() && i < |block.vtx| && SoFar(r, cx, db, block, i, queued, nSigOps, tally)
    requires db + queued' == ConnectTx(db + queued, block.hash, block.vtx[i])
    ensures var tx, view := block.vtx[i], db + queued;
            var sig := nSigOps + r.legacySigOps(tx) + P2SHSigOps(r, view, tx);
            && (TxOk(r, cx, db, view, tx, sig) <==> TxConnects(r, cx, db, block, i))
            && (TxOk(r, cx, db, view, tx, sig) ==>
                  SoFar(r, cx, db, block, i + 1, queued', sig, tally.Add(tx, TxValueIn(view, tx))))
  {
    TallyStep(db, block.hash, block.vtx, i);
    SigOpsStep(r, db, block.hash, block.vtx, i);
    ConnectTxsStep(db, block.hash, block.vtx, i);
  }

  /** The view after one more transaction covers the database. */
  lemma ViewOver(db: Index, block: Hash, vtx: seq<Tx>, tx: Tx)
    ensures var next := ConnectTx(ConnectTxs(db, block, vtx), block, tx); db + next == next
  {
    ConnectTxsKeys(db, block, vtx);
  }

  method ConnectTransactions(r: Rules, cx: Context, txdb: TxDb, block: Block) returns (ok: bool, queued: Index, tally: Tally)
    requires cx.Valid() && WellFormed(txdb.View())
    ensures ok <==> forall i :: 0 <= i < |block.vtx| ==> TxConnects(r, cx, txdb.View(), block, i)
    ensures ok ==> txdb.View() + queued == ConnectTxs(txdb.View(), block.hash, block.vtx)
    ensures ok ==> tally == TallyOf(txdb.View(), block.hash, block.vtx)
  {
    hide ConnectTx, SigOps, TallyOf, TxOk, WellFormed;
    ghost var db := txdb.View();
    var nSigOps := 0;
    ok, queued, tally := true, map[], Tally(0, 0, 0, 0);
    SoFarStart(r, cx, db, block);
    for i := 0 to |block.vtx|
      invariant SoFar(r, cx, db, block, i, queued, nSigOps, tally)
    {
      ghost var tx, view := block.vtx[i], db + queued;
      ConnectTxsWellFormed(db, block.hash, block.vtx[..i]);
      ghost var next := ConnectTx(view, block.hash, tx);
      ViewOver(db, block.hash, block.vtx[..i], tx);
      SoFarStep(r, cx, db, block, i, queued, nSigOps, tally, next);
      var queued', nSigOps', nTxValueIn;
      ok, queued', nSigOps', nTxValueIn := ConnectNext(r, cx, txdb, block.hash, block.vtx[i], queued, nSigOps);
      if !ok { return; }
      SoFarStep(r, cx, db, block, i, queued, nSigOps, tally, queued');
      queued, nSigOps, tally := queued', nSigOps', tally.Add(block.vtx[i], nTxValueIn);
    }
    assert block.vtx[..|block.vtx|] == block.vtx;
    ok := true;
  }

  method ConnectBlock(r: Rules, cx: Context, txdb: TxDb, block: Block)
    returns (ok: bool, nMint: int, nSupply: int)
    requires cx.Valid() && WellFormed(txdb.View())
    modifies txdb
    ensures ok <==> BlockConnects(r, cx, old(txdb.View()), block)
    ensures ok <==> && BlockWellFormed(r, block) && Unsigned(r, cx.tree, cx.pindex, old(txdb.View()), block)
                    && (cx.skipSignatures || BlockSigned(r, old(txdb.View()), block))
                    && MintDue(r, cx.tree.nodes[cx.pindex].height, cx.disablePow, old(txdb.View()), block)
    ensures ok ==> txdb.View() == ConnectTxs(old(txdb.View()), block.hash, block.vtx)
    ensures ok ==> nSupply == Created(old(txdb.View()), block.hash, block.vtx)
    ensures ok ==> nMint == nSupply + TallyOf(old(txdb.View()), block.hash, block.vtx).fees
    ensures !ok ==> txdb.batch == old(txdb.batch) && txdb.committed == old(txdb.committed)
    ensures old(txdb.batch).Some? ==> txdb.batch.Some? && txdb.committed == old(txdb.committed)
  {
    hide TransactionOk, LegacySigOps, TxConnects, Unsigned, BlockSigned, MintDue;
    ConnectsExactly(r, cx, txdb.View(), block);
    nMint, nSupply := 0, 0;
    ok := CheckBlock(r, block);
    if !ok { return; }
    var queued, tally;
    ok, queued, tally := ConnectTransactions(r, cx, txdb, block);
    if !ok { return; }
    ok := RewardOk(r, cx, block, tally);
    if !ok { return; }
    TallyIsCreated(txdb.View(), block.hash, block.vtx);
    nMint := tally.valueOut - tally.valueIn + tally.fees;
    nSupply := tally.valueOut - tally.valueIn;
    txdb.Write(txdb.View() + queued);
  }

  method DisconnectInputs(tx: Tx, txdb: TxDb) returns (ok: bool)
    modifies txdb
    ensures ok <==> DisconnectTx(old(txdb.View()), tx).Some?
    ensures ok ==> txdb.View() == DisconnectTx(old(txdb.View()), tx).value
    ensures old(txdb.batch).Some? ==> txdb.batch.Some? && txdb.committed == old(txdb.committed)
  {
    var db := txdb.View();
    if !tx.IsCoinBase() {
      MarkAllNone(db);
      for i := 0 to |tx.vin|
        invariant txdb.View() == MarkAll(db, tx.vin[..i], Null)
        invariant forall o <- tx.vin[..i] :: Indexed(db, o)
        invariant old(txdb.batch).Some? ==> txdb.batch.Some? && txdb.committed == old(txdb.committed)
      {
        var o := tx.vin[i];
        assert o in tx.vin;
        var cur := txdb.View();
        if o.hash !in cur { return false; }
        if o.n >= |cur[o.hash].vSpent| { return false; }
        MarkStep(db, tx.vin[..i], o, Null);
        assert tx.vin[..i + 1] == tx.vin[..i] + [o];
        txdb.Write(cur[o.hash := cur[o.hash].(vSpent := cur[o.hash].vSpent[o.n := Null])]);
      }
      assert tx.vin[..|tx.vin|] == tx.vin;
    }
    txdb.Write(txdb.View() - {tx.hash});
    ok := true;
  }

  lemma MarkAllNone(idx: Index)
    ensures MarkAll(idx, [], Null) == idx
  {
    forall h | h in idx ensures MarkEntry(idx[h], h, [], Null) == idx[h] { MarkUntouched(idx[h], h, [], Null); }
  }

  method DisconnectBlock(txdb: TxDb, block: Block) returns (ok: bool)
    modifies txdb
    ensures ok <==> DisconnectTxs(old(txdb.View()), block.vtx).Some?
    ensures ok ==> txdb.View() == DisconnectTxs(old(txdb.View()), block.vtx).value
    ensures old(txdb.batch).Some? ==> txdb.batch.Some? && txdb.committed == old(txdb.committed)
  {
    var i := |block.vtx|;
    assert block.vtx[..i] == block.vtx;
    while i > 0
      invariant 0 <= i <= |block.vtx|
      invariant DisconnectTxs(txdb.View(), block.vtx[..i]) == DisconnectTxs(old(txdb.View()), block.vtx)
      invariant old(txdb.batch).Some? ==> txdb.batch.Some? && txdb.committed == old(txdb.committed)
    {
      i := i - 1;
      assert block.vtx[..i + 1][..i] == block.vtx[..i];
      var good := DisconnectInputs(block.vtx[i], txdb);
      if !good { return false; }
    }
    ok := true;
  }
}
