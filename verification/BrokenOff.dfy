/** A run that ends in an inconsistent state: a postponed block is refused, and yet its branch becomes the best. */
module BrokenOff {
  import opened Wrappers
  import opened Bytes
  import opened Ledger
  import opened ScriptNumber
  import opened BlockTree
  import opened Rewards
  import opened Connect
  import opened Blocks
  import opened Replay
  import opened Freshness
  import opened BestChain
  import opened StrayCoinstake

  /** A block of nothing but a coinbase that claims `v`. */
  function Mined(hash: Hash, prev: Hash, nHeight: nat, v: int): Block
    requires 1 <= nHeight <= 16
  {
    Block(hash, prev, 0, [Tx(10 + hash, 0, [OutPoint(0, NULL_N)], [TxOut(v, [1])], [0x50 + nHeight, 0])])
  }

  /** Such a block of a fresh txid is accepted exactly if it claims no more than the subsidy. */
  lemma MinedConnects(cx: Context, idx: Index, hash: Hash, prev: Hash, nHeight: nat, v: int)
    requires cx.Valid() && 1 <= nHeight <= 16 && 0 <= v <= MAX_MONEY && 10 + hash !in idx
    ensures BlockConnects(PLAIN, cx, idx, Mined(hash, prev, nHeight, v)) <==> v <= ProofOfWorkSubsidy(cx.tree.Height(cx.pindex))
  {
    var block := Mined(hash, prev, nHeight, v);
    var cb := block.vtx[0];
    assert block.vtx[..0] == [] && block.vtx[..1] == block.vtx && cb.vout[..0] == [] && cb.vout[..1] == cb.vout;
    assert ValueOut(cb.vout) == v;
    NoSigOps(idx, hash, block.vtx);
    assert OutputOk(cb, 0);
    assert BlockWellFormed(PLAIN, block);
    assert TxConnects(PLAIN, cx, idx, block, 0);
    assert TallyOf(idx, hash, []) == Tally(0, 0, 0, 0);
    assert TallyOf(idx, hash, block.vtx).fees == 0;
  }

  predicate InRun(b: Hash) { 1 <= b <= 9 }

  /** Block 3 is by far the heaviest, block 9 the lightest; the others form one branch. */
  function NodeOf(b: Hash): Node {
    if b == 1 then Node(None, 0, 1, 0) else Node(Some(Parent(b)), Depth(b), Trust(b), 0)
  }

  function Parent(b: Hash): Hash { if b in {2, 3, 9} then 1 else if b == 4 then 2 else if b > 0 then b - 1 else 0 }

  function Depth(b: Hash): nat { if b in {2, 3, 9} then 1 else if b > 2 then b - 2 else 0 }

  function Trust(b: Hash): nat {
    if b == 1 then 1 else if b == 2 then 11 else if b == 3 then 101 else if b == 9 then 2 else b + 8
  }

  /** The blocks of the run. Block 4 claims a coin where no subsidy is due. */
  function BlockOf(b: Hash): Block
    requires InRun(b) && b != 1
  {
    Mined(b, Parent(b), Depth(b), if b == 4 then 1 else 0)
  }

  /** The blocks `ids` of the run are known. */
  ghost predicate Known(tree: Tree, disk: Disk, ids: set<Hash>) {
    && Files(tree, disk) && tree.genesis == 1 && 1 in ids && tree.nodes.Keys == ids
    && forall b <- ids :: InRun(b) && tree.nodes[b] == NodeOf(b) && disk[b] == if b == 1 then GENESIS else BlockOf(b)
  }

  lemma ParentKnown(tree: Tree, disk: Disk, ids: set<Hash>, b: Hash)
    requires Known(tree, disk, ids) && b in ids && b != 1
    ensures Parent(b) in ids && tree.Chain(b) == tree.Chain(Parent(b)) + [b]
  {
    hide Tree.Chain;
    assert tree.Linked(b);
    tree.ChainPrev(b);
  }

  lemma Chains(tree: Tree, disk: Disk, ids: set<Hash>)
    requires Known(tree, disk, ids)
    ensures tree.Chain(1) == [1]
    ensures 3 in ids ==> tree.Chain(3) == [1, 3]
    ensures 9 in ids ==> tree.Chain(9) == [1, 9]
    ensures 8 in ids ==> {2, 4, 5, 6, 7} <= ids && tree.Chain(8) == [1, 2, 4, 5, 6, 7, 8]
  {
    hide Tree.Chain, Known;
    GenesisChain(tree, disk, ids);
    if 3 in ids { ParentKnown(tree, disk, ids, 3); }
    if 9 in ids { ParentKnown(tree, disk, ids, 9); }
    if 8 in ids {
      ParentKnown(tree, disk, ids, 8);
      ParentKnown(tree, disk, ids, 7);
      ParentKnown(tree, disk, ids, 6);
      ParentKnown(tree, disk, ids, 5);
      ParentKnown(tree, disk, ids, 4);
      ParentKnown(tree, disk, ids, 2);
    }
  }

  lemma GenesisChain(tree: Tree, disk: Disk, ids: set<Hash>)
    requires Known(tree, disk, ids)
    ensures tree.Valid() && 1 in tree.nodes && tree.Chain(1) == [1]
  {}

  lemma FirstBlock(tree: Tree, disk: Disk, ids: set<Hash>, tip: Hash)
    requires Known(tree, disk, ids) && tip in ids && tip in {3, 8, 9}
    ensures var chain := tree.Chain(tip); |chain| > 1 && chain[1] in disk && disk[chain[1]] == Mined(chain[1], 1, 1, 0)
  {
    hide Tree.Chain;
    Chains(tree, disk, ids);
  }

  /** The blocks connected in the run fit. */
  lemma {:induction false} FirstFits(cx: Context, disk: Disk, ids: set<Hash>, tip: Hash)
    requires cx.Valid() && Known(cx.tree, disk, ids) && tip in ids && tip in {3, 8, 9}
    ensures Fits(PLAIN, cx, disk, tip, 1)
  {
    hide BlockConnects, Tree.Chain, Mined;
    FirstBlock(cx.tree, disk, ids, tip);
    ChainHasBlocks(cx.tree, disk, tip);
    cx.tree.ChainAt(tip, 1);
    hide Known;
    var chain := cx.tree.Chain(tip);
    assert ReplayTo(disk, chain, 1) == map[];
    MinedConnects(cx.(pindex := chain[1]), map[], chain[1], 1, 1, 0);
  }

  /** The one that claims too much does not. */
  lemma {:induction false} SecondMisfits(cx: Context, disk: Disk, ids: set<Hash>)
    requires cx.Valid() && Known(cx.tree, disk, ids) && 8 in ids
    ensures !Fits(PLAIN, cx, disk, 8, 2)
  {
    hide BlockConnects, Tree.Chain;
    Chains(cx.tree, disk, ids);
    ChainHasBlocks(cx.tree, disk, 8);
    var chain := cx.tree.Chain(8);
    assert ReplayTo(disk, chain, 1) == map[];
    cx.tree.ChainAt(8, 2);
    ConnectTxsKeys(map[], 2, BlockOf(2).vtx);
    assert ReplayTo(disk, chain, 2).Keys == TxIds(BlockOf(2).vtx) == {12};
    MinedConnects(cx.(pindex := 4), ReplayTo(disk, chain, 2), 4, 2, 2, 1);
  }

  lemma Weights(tree: Tree, disk: Disk, ids: set<Hash>, tip: Hash, best: Hash)
    requires Known(tree, disk, ids) && tip in ids && best in ids && tip in {3, 8, 9} && (tip == 8 ==> best == 9)
    ensures tree.Valid() && tip in tree.nodes && !Heavier(tree, tree.Chain(tip)[0], best)
    ensures tree.Height(tip) == if tip == 8 then 6 else 1
    ensures tip == 8 ==> forall k :: 1 <= k <= 5 ==> Heavier(tree, tree.Chain(tip)[k], best)
  {
    hide Tree.Chain;
    Chains(tree, disk, ids);
  }

  /** Blocks 3 and 9 are connected at once. Against block 9 only block 2 of the branch of block 8 is. */
  lemma Turns(tree: Tree, disk: Disk, ids: set<Hash>, tip: Hash, best: Hash)
    requires Known(tree, disk, ids) && tip in ids && best in ids && tip in {3, 8, 9} && (tip == 8 ==> best == 9)
    ensures Turn(tree, tip, best) == 1
  {
    Weights(tree, disk, ids, tip, best);
    hide TurnFrom, Tree.Chain, Known, Heavier;
    TurnNext(tree, tip, 1, best);
    if tip == 8 {
      TurnNext(tree, tip, 6, best);
      TurnNext(tree, tip, 5, best);
      TurnNext(tree, tip, 4, best);
      TurnNext(tree, tip, 3, best);
      TurnNext(tree, tip, 2, best);
    }
  }

  /** Whatever the best block demands. */
  lemma {:induction false} FirstPasses(tree: Tree, disk: Disk, ids: set<Hash>, tip: Hash, signed: bool, powOver: bool)
    requires Known(tree, disk, ids) && tip in ids && tip in {3, 8, 9}
    ensures Passes(PLAIN, tree, disk, tip, 1, signed, powOver)
    ensures tip == 8 ==> !Passes(PLAIN, tree, disk, 8, 2, signed, powOver)
  {
    hide Fits, Passes, Tree.Chain;
    Chains(tree, disk, ids);
    var cx := Context(tree, tip, !signed, powOver);
    FirstFits(cx, disk, ids, tip);
    FitsExactly(PLAIN, cx, disk, tip, 1);
    if tip == 8 {
      SecondMisfits(cx, disk, ids);
      FitsExactly(PLAIN, cx, disk, 8, 2);
    }
  }

  /** The blocks can be switched to, and just the branch of block 8 does not pass as a whole. */
  lemma Switches(tree: Tree, disk: Disk, ids: set<Hash>, tip: Hash, best: Hash, signed: bool, powOver: bool)
    requires Known(tree, disk, ids) && tip in ids && best in ids && tip in {3, 8, 9} && (tip == 8 ==> best == 9)
    ensures Turn(tree, tip, best) <= tree.Height(tip)
    ensures BranchPasses(PLAIN, tree, disk, tip, Turn(tree, tip, best), best, signed, powOver)
    ensures BranchPasses(PLAIN, tree, disk, tip, tree.Height(tip), best, signed, powOver) <==> tip != 8
  {
    hide Passes, Turn, Tree.Chain;
    FirstPasses(tree, disk, ids, tip, signed, powOver);
    Turns(tree, disk, ids, tip, best);
    Chains(tree, disk, ids);
    if tip == 8 && tree.Ancestor(tree.Chain(8)[2], 9) { assert false; }
  }

  /** The coinbases of the run carry their heights, and no two transactions share a txid. */
  lemma GoodIds(tree: Tree, disk: Disk, ids: set<Hash>, b: Hash)
    requires Known(tree, disk, ids) && InRun(b) && b !in ids && b != 1 && Parent(b) in ids
    ensures Identifies(tree, disk, BlockOf(b))
  {
    hide StartsWithHeight, NoCollisions;
    HeightPushed(Depth(b), BlockOf(b).vtx[0].scriptSig);
    NoneCollide(disk[b := BlockOf(b)]);
  }

  lemma NoneCollide(disk: Disk)
    requires forall b <- disk :: InRun(b) && disk[b] == if b == 1 then GENESIS else BlockOf(b)
    ensures NoCollisions(disk)
  {
    forall t, u | Holds(disk, t) && Holds(disk, u) && t.hash == u.hash ensures t == u {
      var b, c :| b in disk && c in disk && t in disk[b].vtx && u in disk[c].vtx;
      assert t.hash == 10 + b && u.hash == 10 + c;
    }
  }

  lemma HeightPushed(n: nat, script: seq<byte>)
    requires 1 <= n <= 16
    ensures script != [] && script[0] == 0x50 + n ==> StartsWithHeight(script, n)
  {
    WordSize(n);
  }

  ghost predicate Stage(s: ChainState, ids: set<Hash>, best: Hash)
    reads s, s.txdb
  {
    s.rules == PLAIN && s.Valid() && Known(s.tree, s.disk, ids) && s.pindexBest == best
  }

  /** Enters a block of the run that is lighter than the best one, or connects at least in part. */
  method Arrives(s: ChainState, b: Hash, trust: nat, ghost ids: set<Hash>, ghost best: Hash)
    requires Stage(s, ids, best) && s.Consistent() && best in ids && InRun(b) && b !in ids && b != 1 && Parent(b) in ids
    requires Trust(Parent(b)) + trust == Trust(b)
    requires Trust(b) <= Trust(best) || b == 3 || (b == 8 && best == 9)
    modifies s, s.txdb
    ensures Stage(s, ids + {b}, if Trust(b) > Trust(best) then b else best)
    ensures s.Consistent() <==> Trust(b) <= Trust(best) || b == 3
    ensures Trust(b) > Trust(best) && b == 8 ==> s.SyncedPart(8, 2) && s.lastFound.None?
  {
    hide Passes, BranchPasses, Turn, Tree.Chain, Files, Known, Identifies, ChainState.Consistent, ChainState.Valid, FirstMisfit,
      ChainState.SyncedPart;
    FilesKept(s);
    GoodIds(s.tree, s.disk, ids, b);
    ghost var tree, disk, signed, powOver := s.tree, s.disk, s.SignaturesDue(), s.PowOver();
    KnownFacts(tree, disk, ids, b, trust, best);
    var ok := s.AddToBlockIndex(BlockOf(b), trust);
    FilesKept(s);
    KnownMore(tree, disk, ids, s.tree, s.disk, b);
    if Trust(b) > Trust(best) {
      Switches(s.tree, s.disk, ids + {b}, b, best, signed, powOver);
      if b == 8 {
        ghost var n: nat :| s.SyncedPart(8, n) && FirstMisfit(PLAIN, s.tree, s.disk, 8, Turn(s.tree, 8, best), n, signed, powOver);
        StopsAt2(s.tree, s.disk, ids + {8}, n, signed, powOver);
      }
    }
  }

  /** Of the branch of block 8 one block above genesis is connected. */
  lemma StopsAt2(tree: Tree, disk: Disk, ids: set<Hash>, n: nat, signed: bool, powOver: bool)
    requires Known(tree, disk, ids) && 8 in ids && 9 in ids
    requires FirstMisfit(PLAIN, tree, disk, 8, Turn(tree, 8, 9), n, signed, powOver)
    ensures n == 2
  {
    hide Passes, Turn, Tree.Chain;
    FirstPasses(tree, disk, ids, 8, signed, powOver);
    Turns(tree, disk, ids, 8, 9);
  }

  lemma KnownFacts(tree: Tree, disk: Disk, ids: set<Hash>, b: Hash, trust: nat, best: Hash)
    requires Known(tree, disk, ids) && best in ids && InRun(b) && b !in ids && b != 1 && Parent(b) in ids
    requires Trust(Parent(b)) + trust == Trust(b)
    ensures b !in tree.nodes && Parent(b) in tree.nodes && best in tree.nodes && tree.Valid() && tree.genesis == 1
    ensures InRun(best)
    ensures var prev := tree.nodes[Parent(b)];
      && Node(Some(Parent(b)), prev.height + 1, prev.trust + trust, 0) == NodeOf(b)
      && tree.nodes[best].trust == Trust(best)
  {}

  lemma KnownMore(tree: Tree, disk: Disk, ids: set<Hash>, tree': Tree, disk': Disk, b: Hash)
    requires Known(tree, disk, ids) && Files(tree', disk') && tree'.genesis == 1 && InRun(b) && b != 1
    requires tree'.nodes == tree.nodes[b := NodeOf(b)] && disk' == disk[b := BlockOf(b)]
    ensures Known(tree', disk', ids + {b}) && b in tree'.nodes
    ensures forall c <- ids :: c in tree'.nodes
  {}

  lemma FilesKept(s: ChainState)
    requires s.Valid()
    ensures s.Stored() && Files(s.tree, s.disk) && s.tree.Valid() && s.pindexBest in s.tree.nodes
  {}

  /** As a checkpoint message makes it. */
  method SwitchesTo9(s: ChainState, ghost ids: set<Hash>)
    requires Stage(s, ids, 3) && s.Consistent() && 9 in ids
    modifies s, s.txdb
    ensures Stage(s, ids, 9) && s.Consistent()
  {
    hide Passes, BranchPasses, Turn, Tree.Chain, ChainState.Consistent;
    Switches(s.tree, s.disk, ids, 9, 3, s.SignaturesDue(), s.PowOver());
    ghost var n;
    var ok;
    ok, n := s.SetBestChain(9);
  }

  /** Block 3 is the best block while a lighter branch grows beside it; then a checkpoint message makes the node switch to
      block 9, which is lighter still. When the next block of that branch arrives, all of it from block 4 on is postponed, and
      block 4 is refused; but the node takes block 8 for its best block, though the database and the forward links end at
      block 2. Asked for height 2 it then starts from genesis and meets a null pointer. */
  method EndsInconsistent() returns (s: ChainState)
    ensures fresh(s) && s.Valid() && s.pindexBest == 8 && !s.Consistent()
    ensures Identified(s.tree, s.disk) && s.SyncedPart(8, 2) && s.tree.Chain(8) == [1, 2, 4, 5, 6, 7, 8] && s.pnext == map[1 := 2]
    ensures !s.Reaches(2)
  {
    hide ChainState.Consistent, Stage, ChainState.SyncedPart;
    s := new ChainState(PLAIN, 0, 0, GENESIS, 1);
    Started(s);
    Arrives(s, 3, 100, {1}, 1);
    GrowsAside(s);
    SwitchesTo9(s, ASIDE);
    Arrives(s, 8, 1, ASIDE, 9);
    EndsAt2(s, ASIDE + {8});
    Staged(s, ASIDE + {8}, 8);
  }

  const ASIDE: set<Hash> := {1} + {3} + {2} + {4} + {5} + {6} + {7} + {9}

  lemma Staged(s: ChainState, ids: set<Hash>, best: Hash)
    requires Stage(s, ids, best)
    ensures s.Valid() && s.pindexBest == best
  {}

  method GrowsAside(s: ChainState)
    requires Stage(s, {1} + {3}, 3) && s.Consistent()
    modifies s, s.txdb
    ensures Stage(s, ASIDE, 3) && s.Consistent()
  {
    hide ChainState.Consistent, Stage;
    Arrives(s, 2, 10, {1} + {3}, 3);
    Arrives(s, 4, 1, {1} + {3} + {2}, 3);
    Arrives(s, 5, 1, {1} + {3} + {2} + {4}, 3);
    Arrives(s, 6, 1, {1} + {3} + {2} + {4} + {5}, 3);
    Arrives(s, 7, 1, {1} + {3} + {2} + {4} + {5} + {6}, 3);
    Arrives(s, 9, 1, {1} + {3} + {2} + {4} + {5} + {6} + {7}, 3);
  }

  lemma EndsAt2(s: ChainState, ids: set<Hash>)
    requires Stage(s, ids, 8) && 8 in ids && s.SyncedPart(8, 2) && s.lastFound.None?
    ensures s.tree.Chain(8) == [1, 2, 4, 5, 6, 7, 8] && s.pnext == map[1 := 2] && Identified(s.tree, s.disk)
    ensures !s.Reaches(2)
  {
    hide Synced, HasBlocks, Submap, WellFormed, TrustGrows, Tree.Chain, Links, Identified;
    Chains(s.tree, s.disk, ids);
    RunIdentified(s.tree, s.disk, ids);
    LinksOfTwo(s.tree.Chain(8));
    s.ReachesExactly(2, 2);
    hide Known;
  }

  lemma LinksOfTwo(chain: seq<Hash>)
    requires |chain| >= 2
    ensures Links(chain, 2) == map[chain[0] := chain[1]]
  {
    assert Links(chain, 1) == map[];
  }

  lemma RunIdentified(tree: Tree, disk: Disk, ids: set<Hash>)
    requires Known(tree, disk, ids)
    ensures Identified(tree, disk)
  {
    NoneCollide(disk);
    hide NoCollisions, StartsWithHeight;
    forall b | b in tree.nodes ensures Heighted(tree, disk, b) {
      if b > 1 { HeightPushed(Depth(b), disk[b].vtx[0].scriptSig); }
    }
  }

  lemma Started(s: ChainState)
    requires s.Consistent() && s.rules == PLAIN && s.pindexBest == 1
    requires s.tree == Tree(1, map[1 := NodeOf(1)]) && s.disk == map[1 := GENESIS]
    ensures Stage(s, {1}, 1)
  {
    hide ChainState.SyncedTo, Links, Submap, Tree.Chain;
  }
}
