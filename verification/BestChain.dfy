/** The chain state: block index, forward links, money supply and transaction index,
    and the moves that switch the best chain. */
module BestChain {
  import opened Wrappers
  import opened Ledger
  import opened BlockTree
  import opened Supply
  import opened Connect
  import opened Blocks
  import opened Replay
  import opened Freshness

  // ----- forward links

  /** The pnext links among the first n blocks of a main chain. */
  ghost function Links(chain: seq<Hash>, n: nat): map<Hash, Hash>
    requires n <= |chain|
  {
    if n <= 1 then map[] else Links(chain, n - 1)[chain[n - 2] := chain[n - 1]]
  }

  ghost predicate Submap<K, V>(m: map<K, V>, n: map<K, V>) { forall k <- m :: k in n && n[k] == m[k] }

  lemma {:induction false} LinksKeys(chain: seq<Hash>, n: nat, b: Hash)
    requires n <= |chain| && b in Links(chain, n)
    ensures exists k :: 0 <= k < n - 1 && chain[k] == b
  {
    if n > 1 && b != chain[n - 2] { LinksKeys(chain, n - 1, b); }
  }

  lemma {:induction false} LinksAt(chain: seq<Hash>, n: nat, k: nat)
    requires Distinct(chain) && k < n <= |chain|
    ensures chain[k] in Links(chain, n) <==> k + 1 < n
    ensures k + 1 < n ==> Links(chain, n)[chain[k]] == chain[k + 1]
  {
    if n > 1 {
      if k < n - 1 {
        LinksAt(chain, n - 1, k);
      } else if chain[k] in Links(chain, n - 1) {
        LinksKeys(chain, n - 1, chain[k]);
      }
    }
  }

  lemma {:induction false} LinksSame(a: seq<Hash>, b: seq<Hash>, n: nat)
    requires n <= |a| && n <= |b| && forall k :: 0 <= k < n ==> a[k] == b[k]
    ensures Links(a, n) == Links(b, n)
  {
    if n > 1 { LinksSame(a, b, n - 1); }
  }

  /** The forward links are among those of the first n blocks of the branch; all of them if `exact`. */
  ghost predicate LinkedTo(chain: seq<Hash>, n: nat, exact: bool, pnext: map<Hash, Hash>)
    requires n <= |chain|
  {
    Submap(pnext, Links(chain, n)) && (exact ==> pnext == Links(chain, n))
  }

  lemma {:induction false} LinkedOn(a: seq<Hash>, b: seq<Hash>, n: nat, exact: bool, pnext: map<Hash, Hash>)
    requires n <= |a| && n <= |b| && forall k :: 0 <= k < n ==> a[k] == b[k]
    requires LinkedTo(a, n, exact, pnext)
    ensures LinkedTo(b, n, exact, pnext)
  {
    LinksSame(a, b, n);
  }

  lemma {:induction false} UnlinkStep(tree: Tree, tip: Hash, k: nat, exact: bool, pnext: map<Hash, Hash>)
    requires tree.Valid() && tip in tree.nodes && 1 <= k <= tree.Height(tip)
    requires LinkedTo(tree.Chain(tip), k + 1, exact, pnext)
    ensures tree.Chain(tip)[k] in tree.nodes
    ensures tree.nodes[tree.Chain(tip)[k]].prev == Some(tree.Chain(tip)[k - 1])
    ensures LinkedTo(tree.Chain(tip), k, exact, pnext - {tree.Chain(tip)[k - 1]})
  {
    tree.ChainStep(tip, k);
    tree.ChainDistinct(tip);
    LinksAt(tree.Chain(tip), k, k - 1);
  }

  lemma {:induction false} LinkStep(tree: Tree, tip: Hash, k: nat, exact: bool, pnext: map<Hash, Hash>)
    requires tree.Valid() && tip in tree.nodes && 1 <= k <= tree.Height(tip)
    requires LinkedTo(tree.Chain(tip), k, exact, pnext)
    ensures tree.Chain(tip)[k] in tree.nodes
    ensures tree.nodes[tree.Chain(tip)[k]].prev == Some(tree.Chain(tip)[k - 1])
    ensures LinkedTo(tree.Chain(tip), k + 1, exact, pnext[tree.Chain(tip)[k - 1] := tree.Chain(tip)[k]])
  {
    tree.ChainStep(tip, k);
    tree.ChainDistinct(tip);
    LinksAt(tree.Chain(tip), k, k - 1);
  }

  // ----- synchronisation of database and supplies with a branch

  /** The block index and the block files agree. */
  ghost predicate Files(tree: Tree, disk: Disk) {
    && tree.Valid()
    && disk.Keys == tree.nodes.Keys
    && (forall b <- disk :: disk[b].hash == b)
    && (forall b <- disk :: tree.nodes[b].prev.Some? ==> tree.nodes[b].prev.value == disk[b].hashPrev)
  }

  lemma {:induction false} ChainHasBlocks(tree: Tree, disk: Disk, b: Hash)
    requires Files(tree, disk) && b in tree.nodes
    ensures HasBlocks(disk, tree.Chain(b))
  {
    forall k | 0 <= k < |tree.Chain(b)| ensures tree.Chain(b)[k] in disk { tree.ChainAt(b, k); }
  }

  /** Every block of the branch records the sum of all outputs unspent once it is connected. */
  ghost predicate SupplyRecorded(disk: Disk, money: map<Hash, int>, chain: seq<Hash>, n: nat)
    requires HasBlocks(disk, chain) && n <= |chain|
  {
    forall k :: 0 <= k < n ==> chain[k] in money && money[chain[k]] == SupplyAt(disk, chain, k + 1)
  }

  /** The database and the recorded supplies are what connecting the first n blocks from genesis gives. */
  ghost predicate Synced(disk: Disk, db: Index, money: map<Hash, int>, chain: seq<Hash>, n: nat)
    requires HasBlocks(disk, chain) && n <= |chain|
  {
    AcceptedTo(disk, chain, n) && db == ReplayTo(disk, chain, n) && SupplyRecorded(disk, money, chain, n)
  }

  /** Txids identify transactions, and every coinbase above genesis carries its height. */
  ghost predicate Identified(tree: Tree, disk: Disk) {
    NoCollisions(disk) && AllHeighted(tree, disk)
  }

  ghost predicate AllHeighted(tree: Tree, disk: Disk) {
    forall b {:trigger Heighted(tree, disk, b)} :: b in tree.nodes ==> Heighted(tree, disk, b)
  }

  predicate Heighted(tree: Tree, disk: Disk, b: Hash)
    requires b in tree.nodes
  {
    tree.nodes[b].height > 0 ==> b in disk && HeightInCoinbase(disk[b], tree.nodes[b].height)
  }

  /** This holds of a block that is to be added as well. */
  ghost predicate Identifies(tree: Tree, disk: Disk, block: Block) {
    && NoCollisions(disk[block.hash := block])
    && block.hashPrev in tree.nodes && HeightInCoinbase(block, tree.nodes[block.hashPrev].height + 1)
  }

  /** An accepted branch repeats no txid. */
  lemma {:induction false} BranchFresh(tree: Tree, disk: Disk, b: Hash)
    requires Files(tree, disk) && Identified(tree, disk) && b in tree.nodes
    requires HasBlocks(disk, tree.Chain(b)) && AcceptedTo(disk, tree.Chain(b), tree.Height(b) + 1)
    ensures FreshTxIds(disk, tree.Chain(b))
  {
    hide Tree.Chain, AcceptedTo, HeightInCoinbase, NoCollisions, FreshTxIds;
    forall k | 1 <= k <= tree.Height(b) ensures HeightInCoinbase(disk[tree.Chain(b)[k]], k) {
      tree.ChainAt(b, k);
      assert Heighted(tree, disk, tree.Chain(b)[k]);
    }
    Fresh(disk, tree.Chain(b));
  }

  /** In a synchronised run, the view is the replay of the first n blocks of the branch, and all of it was accepted. */
  ghost predicate ReplayedTo(disk: Disk, chain: seq<Hash>, n: nat, inSync: bool, db: Index)
    requires HasBlocks(disk, chain) && n <= |chain|
  {
    inSync ==> AcceptedTo(disk, chain, |chain|) && FreshTxIds(disk, chain) && db == ReplayTo(disk, chain, n)
  }

  lemma {:induction false} DisconnectStep(disk: Disk, chain: seq<Hash>, k: nat, inSync: bool, db: Index)
    requires HasBlocks(disk, chain) && 1 <= k < |chain| && ReplayedTo(disk, chain, k + 1, inSync, db)
    ensures var prev := DisconnectTxs(db, disk[chain[k]].vtx);
            && (inSync ==> prev.Some?)
            && (prev.Some? ==> ReplayedTo(disk, chain, k, inSync, prev.value))
  {
    if inSync {
      assert Accepted(disk, chain, k);
      ReplayDisconnect(disk, chain, k);
    }
  }

  /** Connecting block k to the replay of the blocks below it succeeds exactly if it fits there. */
  lemma {:induction false} ConnectStep(r: Rules, cx: Context, disk: Disk, tip: Hash, k: nat, inSync: bool, db: Index, money: map<Hash, int>)
    requires Files(cx.tree, disk) && tip in cx.tree.nodes && 1 <= k <= cx.tree.Height(tip)
    requires money.Keys == cx.tree.nodes.Keys && HasBlocks(disk, cx.tree.Chain(tip))
    requires inSync ==> Synced(disk, db, money, cx.tree.Chain(tip), k)
    ensures var b, prev := cx.tree.Chain(tip)[k], cx.tree.Chain(tip)[k - 1];
            && cx.tree.nodes[b].prev == Some(prev) && prev in money
            && (inSync ==> (BlockConnects(r, cx.(pindex := b), db, disk[b]) <==> Fits(r, cx, disk, tip, k)))
            && (inSync && BlockConnects(r, cx.(pindex := b), db, disk[b]) ==>
                  Synced(disk, ConnectTxs(db, b, disk[b].vtx), money[b := money[prev] + Created(db, b, disk[b].vtx)],
                         cx.tree.Chain(tip), k + 1))
  {
    hide ReplayTo, Accepted, BlockConnects, ConnectTxs, Created, SupplyAt, Tree.Chain;
    cx.tree.ChainStep(tip, k);
    var at := cx.(pindex := cx.tree.Chain(tip)[k]);
    if inSync && BlockConnects(r, at, db, disk[at.pindex]) {
      ReplayConnect(r, at, disk, cx.tree.Chain(tip), k);
      cx.tree.ChainDistinct(tip);
    }
  }

  lemma {:induction false} DisconnectWellFormed(idx: Index, vtx: seq<Tx>)
    requires WellFormed(idx) && DisconnectTxs(idx, vtx).Some?
    ensures WellFormed(DisconnectTxs(idx, vtx).value)
  {
    if vtx != [] {
      DisconnectWellFormed(DisconnectTx(idx, vtx[|vtx| - 1]).value, vtx[..|vtx| - 1]);
    }
  }

  /** Both branches are the same up to the fork. */
  lemma {:induction false} SamePrefix(tree: Tree, pfork: Hash, a: Hash, b: Hash)
    requires tree.Valid() && a in tree.nodes && b in tree.nodes && tree.IsFork(pfork, a, b)
    ensures tree.Height(pfork) <= tree.Height(a) && tree.Height(pfork) <= tree.Height(b)
    ensures forall k :: 0 <= k <= tree.Height(pfork) ==> tree.Chain(a)[k] == tree.Chain(b)[k]
  {
    tree.AncestorPrefix(pfork, a);
    tree.AncestorPrefix(pfork, b);
  }

  lemma {:induction false} SyncedSame(disk: Disk, a: seq<Hash>, m: nat, b: seq<Hash>, n: nat, money: map<Hash, int>)
    requires HasBlocks(disk, a) && HasBlocks(disk, b) && n <= m <= |a| && n <= |b|
    requires forall k :: 0 <= k < n ==> a[k] == b[k]
    requires AcceptedTo(disk, a, m) && SupplyRecorded(disk, money, a, m)
    ensures Synced(disk, ReplayTo(disk, a, n), money, b, n)
  {
    hide ReplayTo, Accepted;
    ReplaySame(disk, a, disk, b, n);
    forall k | 0 <= k < n ensures money[b[k]] == SupplyAt(disk, b, k + 1) {
      assert a[k] in money;
      ReplaySame(disk, a, disk, b, k + 1);
    }
  }

  lemma {:induction false} SyncedOn(disk: Disk, a: seq<Hash>, b: seq<Hash>, n: nat, db: Index, money: map<Hash, int>)
    requires HasBlocks(disk, a) && HasBlocks(disk, b) && n <= |a| && n <= |b|
    requires forall k :: 0 <= k < n ==> a[k] == b[k]
    requires Synced(disk, db, money, a, n)
    ensures Synced(disk, db, money, b, n)
  {
    hide ReplayTo, AcceptedTo, SupplyRecorded;
    SyncedSame(disk, a, n, b, n, money);
  }

  /** What is left after disconnecting down to the fork is the synchronised base of the new branch. */
  lemma {:induction false} ForkSynced(tree: Tree, disk: Disk, pfork: Hash, was: Hash, now: Hash, inSync: bool, db: Index, money: map<Hash, int>)
    requires Files(tree, disk) && was in tree.nodes && now in tree.nodes && tree.IsFork(pfork, was, now)
    requires HasBlocks(disk, tree.Chain(was)) && HasBlocks(disk, tree.Chain(now))
    requires pfork in tree.nodes && tree.Height(pfork) <= tree.Height(was)
    requires ReplayedTo(disk, tree.Chain(was), tree.Height(pfork) + 1, inSync, db)
    requires inSync ==> SupplyRecorded(disk, money, tree.Chain(was), tree.Height(was) + 1)
    ensures tree.Height(pfork) <= tree.Height(now)
    ensures inSync ==> Synced(disk, db, money, tree.Chain(now), tree.Height(pfork) + 1)
  {
    hide ReplayTo, AcceptedTo, FreshTxIds, SupplyRecorded, Synced, HasBlocks, Tree.Chain, Tree.IsFork;
    SamePrefix(tree, pfork, was, now);
    if inSync { SyncedSame(disk, tree.Chain(was), tree.Height(was) + 1, tree.Chain(now), tree.Height(pfork) + 1, money); }
  }

  /** Connecting the new branch leaves the supplies recorded along the old one alone. */
  lemma {:induction false} SupplyElsewhere(tree: Tree, disk: Disk, before: map<Hash, int>, after: map<Hash, int>, pfork: Hash,
                        was: Hash, now: Hash, v: seq<Hash>)
    requires tree.Valid() && was in tree.nodes && now in tree.nodes && pfork in tree.nodes && tree.IsFork(pfork, was, now)
    requires IsBranchUp(tree, v, pfork, now) && HasBlocks(disk, tree.Chain(was))
    requires SupplyRecorded(disk, before, tree.Chain(was), tree.Height(was) + 1)
    requires forall c <- before :: c !in v ==> c in after && after[c] == before[c]
    ensures SupplyRecorded(disk, after, tree.Chain(was), tree.Height(was) + 1)
  {
    hide Tree.Chain, Tree.IsFork, SupplyAt;
    forall i | 0 <= i < |v| ensures !tree.Ancestor(v[i], was) { NewAboveFork(tree, pfork, was, now, tree.Height(pfork) + 1 + i); }
    assert forall k :: 0 <= k <= tree.Height(was) ==> tree.Ancestor(tree.Chain(was)[k], was);
  }

  lemma {:induction false} GenesisSynced(tree: Tree, disk: Disk, money: map<Hash, int>)
    requires tree.nodes.Keys == {tree.genesis} && tree.nodes[tree.genesis].prev.None? && tree.nodes[tree.genesis].height == 0
    requires disk.Keys == {tree.genesis} && money == map[tree.genesis := 0]
    ensures tree.Valid()
    ensures var chain := tree.Chain(tree.genesis);
            && chain == [tree.genesis]
            && HasBlocks(disk, chain) && Synced(disk, map[], money, chain, 1)
  {
    assert tree.Valid();
    assert SupplyAt(disk, [tree.genesis], 1) == 0;
  }

  /** `v` lists the branch of `tip` down to, but not including, its ancestor `fork`. */
  ghost predicate IsBranchDown(tree: Tree, v: seq<Hash>, tip: Hash, fork: Hash)
    requires tree.Valid() && tip in tree.nodes && fork in tree.nodes
  {
    && |v| == tree.Height(tip) - tree.Height(fork)
    && forall i :: 0 <= i < |v| ==> v[i] == tree.Chain(tip)[tree.Height(tip) - i]
  }

  /** `v` lists the branch of `tip` from above its ancestor `fork` upwards. */
  ghost predicate IsBranchUp(tree: Tree, v: seq<Hash>, fork: Hash, tip: Hash)
    requires tree.Valid() && tip in tree.nodes && fork in tree.nodes
  {
    && |v| == tree.Height(tip) - tree.Height(fork)
    && forall i :: 0 <= i < |v| ==> v[i] == tree.Chain(tip)[tree.Height(fork) + 1 + i]
  }

  lemma {:induction false} BranchUp(tree: Tree, down: seq<Hash>, v: seq<Hash>, tip: Hash, fork: Hash)
    requires tree.Valid() && tip in tree.nodes && fork in tree.nodes && IsBranchDown(tree, down, tip, fork)
    requires |v| == |down| && forall i :: 0 <= i < |v| ==> v[i] == down[|down| - 1 - i]
    ensures IsBranchUp(tree, v, fork, tip)
  {}

  /** A forward link of a block of the chain leads to the next one. */
  lemma {:induction false} LinkAt(tree: Tree, tip: Hash, pnext: map<Hash, Hash>, k: nat)
    requires tree.Valid() && tip in tree.nodes && k <= tree.Height(tip)
    requires Submap(pnext, Links(tree.Chain(tip), tree.Height(tip) + 1))
    ensures tree.Chain(tip)[k] in pnext ==> k < tree.Height(tip) && pnext[tree.Chain(tip)[k]] == tree.Chain(tip)[k + 1]
  {
    tree.ChainDistinct(tip);
    LinksAt(tree.Chain(tip), tree.Height(tip) + 1, k);
  }

  // ----- when a branch connects

  /** Block k of the branch passes all checks of ConnectBlock on the replay of the blocks below it. */
  ghost predicate Fits(r: Rules, cx: Context, disk: Disk, tip: Hash, k: nat)
    requires Files(cx.tree, disk) && tip in cx.tree.nodes && k <= cx.tree.Height(tip)
  {
    var chain := cx.tree.Chain(tip);
    ChainHasBlocks(cx.tree, disk, tip);
    cx.tree.ChainAt(tip, k);
    BlockConnects(r, cx.(pindex := chain[k]), ReplayTo(disk, chain, k), disk[chain[k]])
  }

  /** Every block of the branch up to height n that is not on the best chain, the one of `cx.pindex`, fits. */
  ghost predicate BranchFits(r: Rules, cx: Context, disk: Disk, tip: Hash, n: nat)
    requires cx.Valid() && Files(cx.tree, disk) && tip in cx.tree.nodes && n <= cx.tree.Height(tip)
  {
    forall k :: 1 <= k <= n && !cx.tree.Ancestor(cx.tree.Chain(tip)[k], cx.pindex) ==> Fits(r, cx, disk, tip, k)
  }

  /** Block k of the branch passes its own checks, those of its transactions and, if they are due, of their signatures, and
      mints what is due at its height. */
  ghost predicate Passes(r: Rules, tree: Tree, disk: Disk, tip: Hash, k: nat, signed: bool, powOver: bool)
    requires Files(tree, disk) && tip in tree.nodes && k <= tree.Height(tip)
  {
    var chain := tree.Chain(tip);
    ChainHasBlocks(tree, disk, tip);
    tree.ChainAt(tip, k);
    var idx, block := ReplayTo(disk, chain, k), disk[chain[k]];
    && BlockWellFormed(r, block) && Unsigned(r, tree, chain[k], idx, block)
    && (signed ==> BlockSigned(r, idx, block))
    && MintDue(r, k, powOver, idx, block)
  }

  /** Every block of the branch up to height n that is not on the chain of `best` passes. */
  ghost predicate BranchPasses(r: Rules, tree: Tree, disk: Disk, tip: Hash, n: nat, best: Hash, signed: bool, powOver: bool)
    requires Files(tree, disk) && tip in tree.nodes && n <= tree.Height(tip) && best in tree.nodes
  {
    forall k :: 1 <= k <= n && !tree.Ancestor(tree.Chain(tip)[k], best) ==> Passes(r, tree, disk, tip, k, signed, powOver)
  }

  /** Above height m of the branch, block n is the first that does not pass, or there is none and n is one past the top. */
  ghost predicate FirstMisfit(r: Rules, tree: Tree, disk: Disk, tip: Hash, m: nat, n: nat, signed: bool, powOver: bool)
    requires Files(tree, disk) && tip in tree.nodes
  {
    && m < n <= tree.Height(tip) + 1
    && (forall k :: m < k < n ==> Passes(r, tree, disk, tip, k, signed, powOver))
    && (n <= tree.Height(tip) ==> !Passes(r, tree, disk, tip, n, signed, powOver))
  }

  /** Below height n every input of a block that is not on the chain of `best` is signed for the transaction it spends, as the
      index has it when that input is connected. */
  ghost predicate NewSigned(r: Rules, tree: Tree, disk: Disk, tip: Hash, n: nat, best: Hash)
    requires Files(tree, disk) && tip in tree.nodes && n <= tree.Height(tip) + 1 && best in tree.nodes
  {
    var chain := tree.Chain(tip);
    ChainHasBlocks(tree, disk, tip);
    forall k :: 1 <= k < n && !tree.Ancestor(chain[k], best) ==> BlockSigned(r, ReplayTo(disk, chain, k), disk[chain[k]])
  }

  /** Each of these blocks mints no more than what is due at its height. */
  ghost predicate NewDue(r: Rules, tree: Tree, disk: Disk, tip: Hash, n: nat, best: Hash, powOver: bool)
    requires Files(tree, disk) && tip in tree.nodes && n <= tree.Height(tip) + 1 && best in tree.nodes
  {
    var chain := tree.Chain(tip);
    ChainHasBlocks(tree, disk, tip);
    forall k :: 1 <= k < n && !tree.Ancestor(chain[k], best) ==> MintDue(r, k, powOver, ReplayTo(disk, chain, k), disk[chain[k]])
  }

  lemma {:induction false} NewOnes(r: Rules, tree: Tree, disk: Disk, tip: Hash, m: nat, n: nat, best: Hash, signed: bool, powOver: bool)
    requires Files(tree, disk) && tip in tree.nodes && m <= tree.Height(tip) && best in tree.nodes
    requires BranchPasses(r, tree, disk, tip, m, best, signed, powOver) && FirstMisfit(r, tree, disk, tip, m, n, signed, powOver)
    ensures signed ==> NewSigned(r, tree, disk, tip, n, best)
    ensures NewDue(r, tree, disk, tip, n, best, powOver)
  {
    hide BlockWellFormed, Unsigned, BlockSigned, MintDue, ReplayTo, Tree.Chain, Tree.Ancestor;
    forall k | 1 <= k < n && !tree.Ancestor(tree.Chain(tip)[k], best) ensures Passes(r, tree, disk, tip, k, signed, powOver) {}
  }

  lemma {:induction false} FitsExactly(r: Rules, cx: Context, disk: Disk, tip: Hash, k: nat)
    requires Files(cx.tree, disk) && tip in cx.tree.nodes && k <= cx.tree.Height(tip)
    ensures Fits(r, cx, disk, tip, k) <==> Passes(r, cx.tree, disk, tip, k, !cx.skipSignatures, cx.disablePow)
  {
    hide BlockConnects, BlockWellFormed, Unsigned, BlockSigned, MintDue, ReplayTo, Tree.Chain;
    ChainHasBlocks(cx.tree, disk, tip);
    cx.tree.ChainAt(tip, k);
    var chain := cx.tree.Chain(tip);
    ConnectsExactly(r, cx.(pindex := chain[k]), ReplayTo(disk, chain, k), disk[chain[k]]);
  }

  lemma {:induction false} BranchFitsExactly(r: Rules, cx: Context, disk: Disk, tip: Hash, n: nat)
    requires cx.Valid() && Files(cx.tree, disk) && tip in cx.tree.nodes && n <= cx.tree.Height(tip)
    ensures BranchFits(r, cx, disk, tip, n) <==>
            BranchPasses(r, cx.tree, disk, tip, n, cx.pindex, !cx.skipSignatures, cx.disablePow)
  {
    hide Fits, Passes, Tree.Chain;
    forall k | 1 <= k <= n
      ensures Fits(r, cx, disk, tip, k) <==> Passes(r, cx.tree, disk, tip, k, !cx.skipSignatures, cx.disablePow)
    {
      FitsExactly(r, cx, disk, tip, k);
    }
  }

  /** Where no signatures are due, none is looked at. */
  lemma {:induction false} SignaturesUnread(r: Rules, f: (Tx, Tx, nat) -> bool, tree: Tree, disk: Disk, tip: Hash, n: nat, best: Hash, powOver: bool)
    requires Files(tree, disk) && tip in tree.nodes && n <= tree.Height(tip) && best in tree.nodes
    ensures BranchPasses(r, tree, disk, tip, n, best, false, powOver) <==>
            BranchPasses(r.(verifySignature := f), tree, disk, tip, n, best, false, powOver)
  {
    hide BlockWellFormed, Unsigned, BlockSigned, MintDue, ReplayTo, Tree.Chain;
    forall k | 1 <= k <= n
      ensures Passes(r, tree, disk, tip, k, false, powOver) <==> Passes(r.(verifySignature := f), tree, disk, tip, k, false, powOver)
    {
      ChainHasBlocks(tree, disk, tip);
      tree.ChainAt(tip, k);
      UnsignedFree(r, f, tree, tree.Chain(tip)[k], ReplayTo(disk, tree.Chain(tip), k), disk[tree.Chain(tip)[k]], k, powOver);
    }
  }

  /** Every block carries at least the trust of its parent. */
  ghost predicate TrustGrows(tree: Tree) {
    forall b <- tree.nodes :: tree.nodes[b].prev.Some? && tree.nodes[b].prev.value in tree.nodes ==>
                                tree.nodes[tree.nodes[b].prev.value].trust <= tree.nodes[b].trust
  }

  predicate Heavier(tree: Tree, a: Hash, b: Hash) { a in tree.nodes && b in tree.nodes && tree.nodes[a].trust > tree.nodes[b].trust }

  /** From height k of the branch downwards, the first block whose parent does not outweigh `best`. */
  ghost function TurnFrom(tree: Tree, tip: Hash, k: nat, best: Hash): (m: nat)
    requires tree.Valid() && tip in tree.nodes && k <= tree.Height(tip)
    ensures m <= k && forall j :: m <= j < k ==> Heavier(tree, tree.Chain(tip)[j], best)
    ensures m > 0 ==> !Heavier(tree, tree.Chain(tip)[m - 1], best)
  {
    if k == 0 || !Heavier(tree, tree.Chain(tip)[k - 1], best) then k else TurnFrom(tree, tip, k - 1, best)
  }

  /** The height at which the branch of `tip` first outweighs `best`. */
  ghost function Turn(tree: Tree, tip: Hash, best: Hash): nat
    requires tree.Valid() && tip in tree.nodes
  {
    TurnFrom(tree, tip, tree.Height(tip), best)
  }

  lemma {:induction false} TurnNext(tree: Tree, tip: Hash, k: nat, best: Hash)
    requires tree.Valid() && tip in tree.nodes && k <= tree.Height(tip)
    ensures k > 0 && Heavier(tree, tree.Chain(tip)[k - 1], best) ==>
              TurnFrom(tree, tip, k, best) == TurnFrom(tree, tip, k - 1, best)
    ensures k == 0 || !Heavier(tree, tree.Chain(tip)[k - 1], best) ==> TurnFrom(tree, tip, k, best) == k
  {}

  lemma {:induction false} PostponedAbove(tree: Tree, v: seq<Hash>, tip: Hash, a: Hash, best: Hash)
    requires tree.Valid() && tip in tree.nodes && a in tree.nodes && IsBranchDown(tree, v, tip, a)
    requires tree.Height(a) == Turn(tree, tip, best)
    ensures forall b <- v :: b in tree.nodes && tree.nodes[b].prev.Some? && Heavier(tree, tree.nodes[b].prev.value, best)
  {
    hide Tree.Chain;
    forall i | 0 <= i < |v|
      ensures v[i] in tree.nodes && tree.nodes[v[i]].prev.Some? && Heavier(tree, tree.nodes[v[i]].prev.value, best)
    {
      tree.ChainStep(tip, tree.Height(tip) - i);
    }
  }

  lemma {:induction false} TrustAlong(tree: Tree, tip: Hash, j: nat, k: nat)
    requires tree.Valid() && TrustGrows(tree) && tip in tree.nodes && j <= k <= tree.Height(tip)
    ensures tree.Chain(tip)[j] in tree.nodes && tree.Chain(tip)[k] in tree.nodes
    ensures tree.nodes[tree.Chain(tip)[j]].trust <= tree.nodes[tree.Chain(tip)[k]].trust
    decreases k
  {
    tree.ChainAt(tip, k);
    if j < k {
      TrustAlong(tree, tip, j, k - 1);
      tree.ChainStep(tip, k);
    }
  }

  /** Above the turn no block is on the best chain. */
  lemma {:induction false} NewAboveTurn(tree: Tree, tip: Hash, best: Hash, k: nat)
    requires tree.Valid() && TrustGrows(tree) && tip in tree.nodes && best in tree.nodes
    requires Turn(tree, tip, best) < k <= tree.Height(tip)
    ensures !tree.Ancestor(tree.Chain(tip)[k], best)
  {
    hide Tree.Chain;
    if tree.Ancestor(tree.Chain(tip)[k], best) {
      tree.ChainStep(tip, k);
      tree.AncestorAt(tree.Chain(tip)[k], best);
      tree.ChainStep(best, k);
      TrustAlong(tree, best, k - 1, tree.Height(best));
    }
  }

  /** The whole branch passes exactly if it does up to the turn and each block does above. */
  lemma {:induction false} PassesAboveTurn(r: Rules, tree: Tree, disk: Disk, tip: Hash, best: Hash, signed: bool, powOver: bool)
    requires Files(tree, disk) && TrustGrows(tree) && tip in tree.nodes && best in tree.nodes
    ensures Turn(tree, tip, best) <= tree.Height(tip)
    ensures BranchPasses(r, tree, disk, tip, tree.Height(tip), best, signed, powOver) <==>
            && BranchPasses(r, tree, disk, tip, Turn(tree, tip, best), best, signed, powOver)
            && forall k :: Turn(tree, tip, best) < k <= tree.Height(tip) ==> Passes(r, tree, disk, tip, k, signed, powOver)
  {
    hide Passes, Turn, Tree.Chain;
    assert Turn(tree, tip, best) <= tree.Height(tip) by { hide *; TurnBelow(tree, tip, best); }
    forall k | Turn(tree, tip, best) < k <= tree.Height(tip)
      ensures !tree.Ancestor(tree.Chain(tip)[k], best)
    {
      NewAboveTurn(tree, tip, best, k);
    }
  }

  lemma {:induction false} TurnBelow(tree: Tree, tip: Hash, best: Hash)
    requires tree.Valid() && tip in tree.nodes
    ensures Turn(tree, tip, best) <= tree.Height(tip)
  {}

  /** The blocks of one branch that are not on the other are those above the fork. */
  lemma {:induction false} NewAboveFork(tree: Tree, pfork: Hash, was: Hash, now: Hash, k: nat)
    requires tree.Valid() && was in tree.nodes && now in tree.nodes && tree.IsFork(pfork, was, now) && k <= tree.Height(now)
    ensures tree.Ancestor(tree.Chain(now)[k], was) <==> k <= tree.Height(pfork)
  {
    hide Tree.Chain;
    SamePrefix(tree, pfork, was, now);
    tree.ChainAt(now, k);
    if k <= tree.Height(pfork) { assert tree.Chain(now)[k] == tree.Chain(was)[k]; }
  }

  lemma {:induction false} FitsAboveFork(r: Rules, cx: Context, disk: Disk, pfork: Hash, tip: Hash)
    requires cx.Valid() && Files(cx.tree, disk) && tip in cx.tree.nodes
    requires pfork in cx.tree.nodes && cx.tree.IsFork(pfork, cx.pindex, tip)
    ensures BranchFits(r, cx, disk, tip, cx.tree.Height(tip)) <==>
            forall k :: cx.tree.Height(pfork) < k <= cx.tree.Height(tip) ==> Fits(r, cx, disk, tip, k)
  {
    hide Fits, Tree.Chain, Tree.IsFork;
    forall k | 1 <= k <= cx.tree.Height(tip)
      ensures cx.tree.Ancestor(cx.tree.Chain(tip)[k], cx.pindex) <==> k <= cx.tree.Height(pfork)
    {
      NewAboveFork(cx.tree, pfork, cx.pindex, tip, k);
    }
  }

  /** Whether the branch fits up to height m depends on nothing above. */
  lemma {:induction false} FitsBelow(r: Rules, cx: Context, disk: Disk, a: Hash, tip: Hash)
    requires cx.Valid() && Files(cx.tree, disk) && tip in cx.tree.nodes && a in cx.tree.nodes && cx.tree.Ancestor(a, tip)
    ensures cx.tree.Height(a) <= cx.tree.Height(tip)
    ensures BranchFits(r, cx, disk, a, cx.tree.Height(a)) <==> BranchFits(r, cx, disk, tip, cx.tree.Height(a))
  {
    hide ReplayTo, BlockConnects, Tree.Chain;
    var m := cx.tree.Height(a);
    cx.tree.AncestorPrefix(a, tip);
    ChainHasBlocks(cx.tree, disk, a);
    ChainHasBlocks(cx.tree, disk, tip);
    forall k | 1 <= k <= m
      ensures cx.tree.Chain(a)[k] == cx.tree.Chain(tip)[k] && (Fits(r, cx, disk, a, k) <==> Fits(r, cx, disk, tip, k))
    {
      ReplaySame(disk, cx.tree.Chain(a), disk, cx.tree.Chain(tip), k);
    }
  }

  /** On top of the best chain only the new block itself has to fit. */
  lemma {:induction false} OneAbove(r: Rules, cx: Context, disk: Disk, tip: Hash)
    requires cx.Valid() && Files(cx.tree, disk) && tip in cx.tree.nodes && cx.tree.nodes[tip].prev == Some(cx.pindex)
    ensures Turn(cx.tree, tip, cx.pindex) == cx.tree.Height(tip) >= 1
    ensures BranchFits(r, cx, disk, tip, cx.tree.Height(tip)) <==> Fits(r, cx, disk, tip, cx.tree.Height(tip))
  {
    hide Fits, Tree.Chain;
    var h := cx.tree.Height(tip);
    assert cx.tree.Linked(tip);
    cx.tree.ChainPrev(tip);
    cx.tree.AncestorAt(tip, cx.pindex);
    assert forall k :: 0 <= k < h ==> cx.tree.Chain(tip)[k] == cx.tree.Chain(cx.pindex)[k];
  }

  /** The block is new and its branch carries more trust than the best chain. */
  predicate Outweighs(tree: Tree, block: Block, trust: nat, best: Hash) {
    && block.hash !in tree.nodes && block.hashPrev in tree.nodes && best in tree.nodes
    && tree.nodes[block.hashPrev].trust + trust > tree.nodes[best].trust
  }

  class ChainState {
    const rules: Rules
    const totalBlocksEstimate: nat
    const nTimeV231: int
    const txdb: TxDb

    var tree: Tree
    var disk: Disk
    var pnext: map<Hash, Hash>
    var money: map<Hash, int>
    var mint: map<Hash, int>
    var pindexBest: Hash
    /** pblockindexFBBHLast */
    var lastFound: Option<Hash>

    ghost predicate Stored()
      reads this`tree, this`disk, this`money
    {
      Files(tree, disk) && money.Keys == tree.nodes.Keys
    }

    /** Holds in every reachable state, also after a postponed reconnect broke off. */
    ghost predicate Valid()
      reads this, txdb
    {
      && Stored()
      && TrustGrows(tree)
      && txdb.batch.None? && WellFormed(txdb.committed)
      && pindexBest in tree.nodes
      && Submap(pnext, Links(tree.Chain(pindexBest), tree.Height(pindexBest) + 1))
      && (lastFound.Some? ==> lastFound.value in tree.nodes && tree.Ancestor(lastFound.value, pindexBest))
    }

    /** The index, the supplies and the forward links are those of the first n blocks of the branch of `b`. */
    ghost predicate SyncedPart(b: Hash, n: nat)
      requires Stored()
      reads this, txdb
    {
      && b in tree.nodes && n <= tree.Height(b) + 1
      && HasBlocks(disk, tree.Chain(b))
      && Synced(disk, txdb.committed, money, tree.Chain(b), n)
      && pnext == Links(tree.Chain(b), n)
    }

    ghost predicate SyncedTo(tip: Hash)
      requires Stored()
      reads this, txdb
    {
      tip in tree.nodes && SyncedPart(tip, tree.Height(tip) + 1)
    }

    /** The state after a run in which every connect succeeded. */
    ghost predicate Consistent()
      reads this, txdb
    {
      Valid() && Identified(tree, disk) && SyncedTo(pindexBest)
    }

    function CxFor(b: Hash): Context
      requires pindexBest in tree.nodes
      reads this`tree, this`pindexBest
    {
      Context(tree, b, tree.Height(pindexBest) < totalBlocksEstimate, tree.nodes[pindexBest].nTime > nTimeV231)
    }

    /** The best chain has reached the last hardened checkpoint. */
    ghost predicate SignaturesDue()
      requires pindexBest in tree.nodes
      reads this`tree, this`pindexBest
    {
      tree.nodes[pindexBest].height >= totalBlocksEstimate
    }

    /** The best block is newer than the switch that ends proof of work. */
    ghost predicate PowOver()
      requires pindexBest in tree.nodes
      reads this`tree, this`pindexBest
    {
      tree.nodes[pindexBest].nTime > nTimeV231
    }

    /** The branch passes as far as it has to be connected in one go. */
    ghost predicate CanSwitch(tip: Hash)
      requires Files(tree, disk) && pindexBest in tree.nodes && tip in tree.nodes
      reads this`tree, this`disk, this`pindexBest
    {
      BranchPasses(rules, tree, disk, tip, Turn(tree, tip, pindexBest), pindexBest, SignaturesDue(), PowOver())
    }

    /** The whole branch passes. */
    ghost predicate CanConnect(tip: Hash)
      requires Files(tree, disk) && pindexBest in tree.nodes && tip in tree.nodes
      reads this`tree, this`disk, this`pindexBest
    {
      BranchPasses(rules, tree, disk, tip, tree.Height(tip), pindexBest, SignaturesDue(), PowOver())
    }

    /** Block n of the branch is the first to be refused among those above the turn. */
    ghost predicate StopsAt(tip: Hash, n: nat)
      requires Files(tree, disk) && pindexBest in tree.nodes && tip in tree.nodes
      reads this`tree, this`disk, this`pindexBest
    {
      FirstMisfit(rules, tree, disk, tip, Turn(tree, tip, pindexBest), n, SignaturesDue(), PowOver())
    }

    /** The chain after the genesis block was accepted: it is the best block, and its transactions are not indexed. */
    constructor (rules: Rules, totalBlocksEstimate: nat, nTimeV231: int, genesis: Block, trust: nat)
      requires NoCollisions(map[genesis.hash := genesis])
      ensures Consistent()
      ensures pindexBest == genesis.hash && tree == Tree(genesis.hash, map[genesis.hash := Node(None, 0, trust, genesis.nTime)])
      ensures disk == map[genesis.hash := genesis]
      ensures this.rules == rules && this.totalBlocksEstimate == totalBlocksEstimate && this.nTimeV231 == nTimeV231
      ensures fresh(txdb)
    {
      hide Synced, NoCollisions, Tree.Chain, Tree.Valid;
      this.rules, this.totalBlocksEstimate, this.nTimeV231 := rules, totalBlocksEstimate, nTimeV231;
      var db := new TxDb();
      txdb := db;
      var t := Tree(genesis.hash, map[genesis.hash := Node(None, 0, trust, genesis.nTime)]);
      tree := t;
      disk := map[genesis.hash := genesis];
      pnext := map[];
      money, mint := map[genesis.hash := 0], map[genesis.hash := 0];
      pindexBest := genesis.hash;
      lastFound := None;
      new;
      GenesisSynced(t, disk, money);
    }

    /** Reorganize's search for the last common block. */
    method FindFork(pindexNew: Hash) returns (pfork: Hash)
      requires Stored() && pindexBest in tree.nodes && pindexNew in tree.nodes
      ensures tree.IsFork(pfork, pindexBest, pindexNew)
      ensures pfork in tree.nodes && tree.Ancestor(pfork, pindexBest) && tree.Ancestor(pfork, pindexNew)
    {
      pfork := pindexBest;
      var plonger := pindexNew;
      while pfork != plonger
        invariant pfork in tree.nodes && plonger in tree.nodes
        invariant tree.Ancestor(pfork, pindexBest) && tree.Ancestor(plonger, pindexNew)
        invariant forall c <- tree.nodes :: tree.Ancestor(c, pindexBest) && tree.Ancestor(c, pindexNew) ==>
                                             tree.Ancestor(c, pfork) && tree.Ancestor(c, plonger)
        decreases tree.Height(pfork) + tree.Height(plonger)
      {
        while tree.Height(plonger) > tree.Height(pfork)
          invariant plonger in tree.nodes && tree.Ancestor(plonger, pindexNew)
          invariant forall c <- tree.nodes :: tree.Ancestor(c, pindexBest) && tree.Ancestor(c, pindexNew) ==>
                                               tree.Ancestor(c, pfork) && tree.Ancestor(c, plonger)
          decreases tree.Height(plonger)
        {
          plonger := StepBack(plonger, pfork, pindexNew);
        }
        if pfork == plonger { break; }
        pfork := StepBack(pfork, plonger, pindexBest);
      }
      forall c | c in tree.nodes && tree.Ancestor(c, pindexBest) && tree.Ancestor(c, pindexNew)
        ensures tree.Height(c) <= tree.Height(pfork)
      {
        tree.AncestorAt(c, pfork);
      }
    }

    /** Moving to the parent loses no common ancestor, as the block itself is not one: the other side is not higher. */
    method StepBack(b: Hash, other: Hash, tip: Hash) returns (p: Hash)
      requires Stored() && b in tree.nodes && other in tree.nodes && tip in tree.nodes
      requires b != other && tree.Height(other) <= tree.Height(b) && tree.Ancestor(b, tip)
      ensures tree.nodes[b].prev == Some(p) && p in tree.nodes && tree.Height(p) + 1 == tree.Height(b)
      ensures tree.Ancestor(p, tip)
      ensures forall c <- tree.nodes :: tree.Ancestor(c, b) && tree.Ancestor(c, other) ==> tree.Ancestor(c, p)
    {
      assert tree.Linked(b) && tree.Linked(other);
      tree.ChainPrev(b);
      p := tree.nodes[b].prev.value;
      tree.AncestorTransitive(p, b, tip);
      tree.AncestorAt(b, other);
    }

    /** The blocks from `tip` down to, but not including, its ancestor `fork`. */
    method BranchAbove(tip: Hash, fork: Hash) returns (v: seq<Hash>)
      requires Stored() && tip in tree.nodes && fork in tree.nodes && tree.Ancestor(fork, tip)
      ensures IsBranchDown(tree, v, tip, fork)
    {
      v := [];
      var pindex := tip;
      tree.AncestorAt(fork, tip);
      while pindex != fork
        invariant |v| <= tree.Height(tip) - tree.Height(fork)
        invariant pindex in tree.nodes && tree.Height(pindex) == tree.Height(tip) - |v|
        invariant pindex == tree.Chain(tip)[tree.Height(tip) - |v|]
        invariant forall i :: 0 <= i < |v| ==> v[i] == tree.Chain(tip)[tree.Height(tip) - i]
        decreases tree.Height(pindex)
      {
        v := v + [pindex];
        tree.ChainStep(tip, tree.Height(pindex));
        pindex := tree.nodes[pindex].prev.value;
      }
    }

    /** Connects one block over the open view, recording its supply. */
    method ConnectAt(b: Hash) returns (ok: bool)
      requires Stored() && pindexBest in tree.nodes && WellFormed(txdb.View())
      requires b in tree.nodes && tree.nodes[b].prev.Some? && tree.nodes[b].prev.value in tree.nodes
      modifies txdb, this`money, this`mint
      ensures WellFormed(txdb.View())
      ensures old(txdb.batch).Some? ==> txdb.batch.Some? && txdb.committed == old(txdb.committed)
      ensures ok <==> BlockConnects(rules, old(CxFor(b)), old(txdb.View()), disk[b])
      ensures !ok ==> txdb.committed == old(txdb.committed) && txdb.batch == old(txdb.batch) && money == old(money)
      ensures ok ==> txdb.View() == ConnectTxs(old(txdb.View()), b, disk[b].vtx)
      ensures ok ==> money == old(money)[b := old(money)[tree.nodes[b].prev.value]
                                              + Created(old(txdb.View()), b, disk[b].vtx)]
      ensures ok ==> mint == old(mint)[b := Created(old(txdb.View()), b, disk[b].vtx) + TallyOf(old(txdb.View()), b, disk[b].vtx).fees]
    {
      ghost var db := txdb.View();
      var nMint, nSupply;
      ok, nMint, nSupply := ConnectBlock(rules, CxFor(b), txdb, disk[b]);
      if !ok { return; }
      ConnectTxsWellFormed(db, b, disk[b].vtx);
      mint := mint[b := nMint];
      money := money[b := money[tree.nodes[b].prev.value] + nSupply];
    }

    /** Disconnects the blocks of the old branch, tip first. */
    method DisconnectBranch(v: seq<Hash>, pfork: Hash, ghost inSync: bool) returns (ok: bool)
      requires Stored() && txdb.batch.Some? && WellFormed(txdb.View()) && pindexBest in tree.nodes
      requires pfork in tree.nodes && IsBranchDown(tree, v, pindexBest, pfork) && HasBlocks(disk, tree.Chain(pindexBest))
      requires ReplayedTo(disk, tree.Chain(pindexBest), tree.Height(pindexBest) + 1, inSync, txdb.View())
      modifies txdb
      ensures txdb.batch.Some? && txdb.committed == old(txdb.committed)
      ensures inSync ==> ok
      ensures var undone := Unwind(disk, tree.Chain(pindexBest), tree.Height(pindexBest) + 1, tree.Height(pfork) + 1, old(txdb.View()));
              (ok <==> undone.Some?) && (ok ==> txdb.View() == undone.value)
      ensures ok ==> WellFormed(txdb.View())
      ensures ok ==> ReplayedTo(disk, tree.Chain(pindexBest), tree.Height(pfork) + 1, inSync, txdb.View())
    {
      hide ReplayTo, AcceptedTo, FreshTxIds, ReplayedTo, DisconnectTxs, Tree.Chain;
      ghost var chain, top := tree.Chain(pindexBest), tree.Height(pindexBest);
      for i := 0 to |v|
        invariant txdb.batch.Some? && txdb.committed == old(txdb.committed) && WellFormed(txdb.View())
        invariant ReplayedTo(disk, chain, top - i + 1, inSync, txdb.View())
        invariant Unwind(disk, chain, top - i + 1, top + 1 - |v|, txdb.View()) == Unwind(disk, chain, top + 1, top + 1 - |v|, old(txdb.View()))
      {
        ghost var idx := txdb.View();
        DisconnectStep(disk, chain, top - i, inSync, idx);
        ok := DisconnectBlock(txdb, disk[v[i]]);
        if !ok { return; }
        DisconnectWellFormed(idx, disk[v[i]].vtx);
      }
      ok := true;
    }

    /** Connects the blocks of the new branch, from the fork up. */
    method ConnectBranch(v: seq<Hash>, pfork: Hash, pindexNew: Hash, ghost inSync: bool) returns (ok: bool)
      requires Stored() && txdb.batch.Some? && WellFormed(txdb.View()) && pindexBest in tree.nodes
      requires pindexNew in tree.nodes && pfork in tree.nodes && IsBranchUp(tree, v, pfork, pindexNew)
      requires HasBlocks(disk, tree.Chain(pindexNew)) && tree.Height(pfork) <= tree.Height(pindexNew)
      requires inSync ==> Synced(disk, txdb.View(), money, tree.Chain(pindexNew), tree.Height(pfork) + 1)
      modifies txdb, this`money, this`mint
      ensures money.Keys == old(money.Keys)
      ensures txdb.batch.Some? && txdb.committed == old(txdb.committed) && WellFormed(txdb.View())
      ensures forall c <- old(money) :: c !in v ==> money[c] == old(money)[c]
      ensures ok && inSync ==> Synced(disk, txdb.View(), money, tree.Chain(pindexNew), tree.Height(pindexNew) + 1)
      ensures inSync ==>
                (ok <==> forall k :: tree.Height(pfork) < k <= tree.Height(pindexNew) ==>
                                       Fits(rules, CxFor(pindexBest), disk, pindexNew, k))
    {
      hide Synced, BlockConnects, ConnectTxs, Created, Tree.Chain, Fits, WellFormed;
      ghost var base, cx := tree.Height(pfork), CxFor(pindexBest);
      for i := 0 to |v|
        invariant money.Keys == old(money.Keys)
        invariant txdb.batch.Some? && txdb.committed == old(txdb.committed) && WellFormed(txdb.View())
        invariant forall c <- old(money) :: c !in v ==> money[c] == old(money)[c]
        invariant inSync ==> Synced(disk, txdb.View(), money, tree.Chain(pindexNew), base + 1 + i)
        invariant inSync ==> forall k :: base < k <= base + i ==> Fits(rules, cx, disk, pindexNew, k)
      {
        tree.ChainStep(pindexNew, base + 1 + i);
        ConnectStep(rules, cx, disk, pindexNew, base + 1 + i, inSync, txdb.View(), money);
        ok := ConnectAt(v[i]);
        if !ok {
          assert inSync ==> !Fits(rules, cx, disk, pindexNew, base + 1 + i);
          assert cx == CxFor(pindexBest);
          return;
        }
      }
      ok := true;
    }

    method Unlink(v: seq<Hash>, pfork: Hash, ghost exact: bool)
      requires Stored() && pindexBest in tree.nodes && pfork in tree.nodes && IsBranchDown(tree, v, pindexBest, pfork)
      requires LinkedTo(tree.Chain(pindexBest), tree.Height(pindexBest) + 1, exact, pnext)
      modifies this`pnext
      ensures LinkedTo(tree.Chain(pindexBest), tree.Height(pfork) + 1, exact, pnext)
    {
      hide LinkedTo, Tree.Chain;
      for i := 0 to |v|
        invariant LinkedTo(tree.Chain(pindexBest), tree.Height(pindexBest) - i + 1, exact, pnext)
      {
        UnlinkStep(tree, pindexBest, tree.Height(pindexBest) - i, exact, pnext);
        if tree.nodes[v[i]].prev.Some? { pnext := pnext - {tree.nodes[v[i]].prev.value}; }
      }
    }

    method Link(v: seq<Hash>, pfork: Hash, pindexNew: Hash, ghost exact: bool)
      requires Stored() && pindexNew in tree.nodes && pfork in tree.nodes && IsBranchUp(tree, v, pfork, pindexNew)
      requires tree.Height(pfork) <= tree.Height(pindexNew)
      requires LinkedTo(tree.Chain(pindexNew), tree.Height(pfork) + 1, exact, pnext)
      modifies this`pnext
      ensures LinkedTo(tree.Chain(pindexNew), tree.Height(pindexNew) + 1, exact, pnext)
    {
      hide LinkedTo, Tree.Chain;
      for i := 0 to |v|
        invariant LinkedTo(tree.Chain(pindexNew), tree.Height(pfork) + 1 + i, exact, pnext)
      {
        LinkStep(tree, pindexNew, tree.Height(pfork) + 1 + i, exact, pnext);
        if tree.nodes[v[i]].prev.Some? { pnext := pnext[tree.nodes[v[i]].prev.value := v[i]]; }
      }
    }

    /** The database part of a reorganisation, inside one database transaction. */
    method SwitchBranch(vDisconnect: seq<Hash>, vConnect: seq<Hash>, pfork: Hash, pindexNew: Hash, ghost inSync: bool)
      returns (ok: bool)
      requires Stored() && txdb.batch.Some? && WellFormed(txdb.View()) && pindexBest in tree.nodes && pindexNew in tree.nodes
      requires pfork in tree.nodes && tree.IsFork(pfork, pindexBest, pindexNew)
      requires HasBlocks(disk, tree.Chain(pindexBest)) && HasBlocks(disk, tree.Chain(pindexNew))
      requires IsBranchDown(tree, vDisconnect, pindexBest, pfork) && IsBranchUp(tree, vConnect, pfork, pindexNew)
      requires inSync ==> Identified(tree, disk)
      requires inSync ==> Synced(disk, txdb.View(), money, tree.Chain(pindexBest), tree.Height(pindexBest) + 1)
      modifies txdb, this`money, this`mint
      ensures money.Keys == old(money.Keys)
      ensures txdb.batch.Some? && txdb.committed == old(txdb.committed)
      ensures ok ==> WellFormed(txdb.View())
      ensures ok && inSync ==> Synced(disk, txdb.View(), money, tree.Chain(pindexNew), tree.Height(pindexNew) + 1)
      ensures inSync ==> SupplyRecorded(disk, money, tree.Chain(pindexBest), tree.Height(pindexBest) + 1)
      ensures inSync ==> (ok <==> BranchFits(rules, CxFor(pindexBest), disk, pindexNew, tree.Height(pindexNew)))
    {
      hide ReplayTo, Accepted, FreshTxIds, SupplyRecorded, IsBranchUp, HasBlocks, Tree.Chain, Tree.IsFork, SupplyAt, Fits, BranchFits,
        Identified;
      FitsAboveFork(rules, CxFor(pindexBest), disk, pfork, pindexNew);
      if inSync { BranchFresh(tree, disk, pindexBest); }
      ok := DisconnectBranch(vDisconnect, pfork, inSync);
      if !ok { return; }
      ForkSynced(tree, disk, pfork, pindexBest, pindexNew, inSync, txdb.View(), money);
      ok := ConnectBranch(vConnect, pfork, pindexNew, inSync);
      if inSync { SupplyElsewhere(tree, disk, old(money), money, pfork, pindexBest, pindexNew, vConnect); }
    }

    /** Clears the forward links of the disconnected branch, then sets those of the connected one. */
    method Relink(vDisconnect: seq<Hash>, vConnect: seq<Hash>, pfork: Hash, pindexNew: Hash, ghost exact: bool)
      requires Stored() && pindexBest in tree.nodes && pindexNew in tree.nodes
      requires pfork in tree.nodes && tree.IsFork(pfork, pindexBest, pindexNew)
      requires IsBranchDown(tree, vDisconnect, pindexBest, pfork) && IsBranchUp(tree, vConnect, pfork, pindexNew)
      requires LinkedTo(tree.Chain(pindexBest), tree.Height(pindexBest) + 1, exact, pnext)
      modifies this`pnext
      ensures LinkedTo(tree.Chain(pindexNew), tree.Height(pindexNew) + 1, exact, pnext)
    {
      hide Links, Submap, IsBranchUp, Tree.Chain, Tree.IsFork;
      SamePrefix(tree, pfork, pindexBest, pindexNew);
      Unlink(vDisconnect, pfork, exact);
      LinksSame(tree.Chain(pindexBest), tree.Chain(pindexNew), tree.Height(pfork) + 1);
      Link(vConnect, pfork, pindexNew, exact);
    }

    /** The fork, what to disconnect and what to connect. */
    method Branches(pindexNew: Hash) returns (pfork: Hash, vDisconnect: seq<Hash>, vConnect: seq<Hash>)
      requires Stored() && pindexBest in tree.nodes && pindexNew in tree.nodes
      ensures pfork in tree.nodes && tree.IsFork(pfork, pindexBest, pindexNew)
      ensures IsBranchDown(tree, vDisconnect, pindexBest, pfork) && IsBranchUp(tree, vConnect, pfork, pindexNew)
    {
      hide IsBranchUp, IsBranchDown, Tree.Chain, Tree.IsFork;
      pfork := FindFork(pindexNew);
      vDisconnect := BranchAbove(pindexBest, pfork);
      var down := BranchAbove(pindexNew, pfork);
      vConnect := seq(|down|, i requires 0 <= i < |down| => down[|down| - 1 - i]);
      BranchUp(tree, down, vConnect, pindexNew, pfork);
    }

    /** Switches from the branch of pindexBest to that of pindexNew, all or nothing. */
    method Reorganize(pindexNew: Hash) returns (ok: bool)
      requires Stored() && pindexBest in tree.nodes && pindexNew in tree.nodes
      requires txdb.batch == Some(txdb.committed) && WellFormed(txdb.committed)
      requires Submap(pnext, Links(tree.Chain(pindexBest), tree.Height(pindexBest) + 1))
      modifies txdb, this`pnext, this`money, this`mint
      ensures Stored()
      ensures !ok ==> pnext == old(pnext) && txdb.committed == old(txdb.committed)
      ensures !ok && old(Identified(tree, disk) && SyncedTo(pindexBest)) ==> SyncedTo(pindexBest)
      ensures ok ==> txdb.batch.None? && WellFormed(txdb.committed)
      ensures ok ==> Submap(pnext, Links(tree.Chain(pindexNew), tree.Height(pindexNew) + 1))
      ensures ok && old(Identified(tree, disk) && SyncedTo(pindexBest)) ==> SyncedTo(pindexNew)
      ensures old(Identified(tree, disk) && SyncedTo(pindexBest)) ==>
                (ok <==> BranchFits(rules, CxFor(pindexBest), disk, pindexNew, tree.Height(pindexNew)))
    {
      hide ReplayTo, AcceptedTo, FreshTxIds, SupplyRecorded, IsBranchUp, IsBranchDown, HasBlocks, Links, Submap,
        Tree.Chain, Tree.IsFork, BranchFits, Identified;
      ghost var inSync := Identified(tree, disk) && SyncedTo(pindexBest);
      var pfork, vDisconnect, vConnect := Branches(pindexNew);
      ChainHasBlocks(tree, disk, pindexBest);
      ChainHasBlocks(tree, disk, pindexNew);
      ok := SwitchBranch(vDisconnect, vConnect, pfork, pindexNew, inSync);
      if !ok { return; }
      txdb.TxnCommit();
      Relink(vDisconnect, vConnect, pfork, pindexNew, inSync);
    }

    /** Attaches one block whose parent is the block connected last. */
    method SetBestChainInner(b: Hash, ghost n: nat, ghost tip: Hash, ghost exact: bool) returns (ok: bool)
      requires Stored() && pindexBest in tree.nodes && WellFormed(txdb.committed) && txdb.batch == Some(txdb.committed)
      requires tip in tree.nodes && 1 <= n <= tree.Height(tip) && tree.Chain(tip)[n] == b && HasBlocks(disk, tree.Chain(tip))
      requires LinkedTo(tree.Chain(tip), n, exact, pnext)
      requires exact ==> Synced(disk, txdb.committed, money, tree.Chain(tip), n)
      modifies txdb, this`pnext, this`money, this`mint
      ensures Stored() && txdb.batch.None? && WellFormed(txdb.committed)
      ensures !ok ==> pnext == old(pnext) && txdb.committed == old(txdb.committed) && money == old(money)
      ensures ok ==> LinkedTo(tree.Chain(tip), n + 1, exact, pnext)
      ensures ok && exact ==> Synced(disk, txdb.committed, money, tree.Chain(tip), n + 1)
      ensures exact ==> (ok <==> Fits(rules, CxFor(pindexBest), disk, tip, n))
    {
      hide LinkedTo, Synced, BlockConnects, ConnectTxs, Created, HasBlocks, Tree.Chain, Fits;
      tree.ChainStep(tip, n);
      ConnectStep(rules, CxFor(pindexBest), disk, tip, n, exact, txdb.committed, money);
      LinkStep(tree, tip, n, exact, pnext);
      ok := ConnectAt(b);
      if !ok {
        txdb.TxnAbort();
        return;
      }
      txdb.TxnCommit();
      pnext := pnext[tree.nodes[b].prev.value := b];
    }

    /** The first block of the new branch that outweighs the current best block, and the blocks above it, tip first. */
    method Postpone(pindexNew: Hash) returns (pindexIntermediate: Hash, secondary: seq<Hash>)
      requires Stored() && pindexBest in tree.nodes && pindexNew in tree.nodes
      ensures pindexIntermediate in tree.nodes && IsBranchDown(tree, secondary, pindexNew, pindexIntermediate)
      ensures pindexIntermediate == tree.Chain(pindexNew)[tree.Height(pindexIntermediate)]
      ensures tree.Height(pindexIntermediate) <= tree.Height(pindexNew)
      ensures tree.Height(pindexIntermediate) == Turn(tree, pindexNew, pindexBest)
      ensures forall b <- secondary :: b in tree.nodes && tree.nodes[b].prev.Some? && Heavier(tree, tree.nodes[b].prev.value, pindexBest)
      ensures tree.nodes[pindexIntermediate].prev.Some? ==>
                tree.nodes[pindexIntermediate].prev.value in tree.nodes
                && tree.nodes[tree.nodes[pindexIntermediate].prev.value].trust <= tree.nodes[pindexBest].trust
    {
      hide Tree.Chain, TurnFrom;
      assert tree.Valid();
      pindexIntermediate, secondary := pindexNew, [];
      assert tree.Linked(pindexNew);
      while tree.nodes[pindexIntermediate].prev.Some?
            && tree.nodes[tree.nodes[pindexIntermediate].prev.value].trust > tree.nodes[pindexBest].trust
        invariant pindexIntermediate in tree.nodes && tree.Linked(pindexIntermediate)
        invariant tree.Height(pindexIntermediate) == tree.Height(pindexNew) - |secondary|
        invariant pindexIntermediate == tree.Chain(pindexNew)[tree.Height(pindexIntermediate)]
        invariant forall i :: 0 <= i < |secondary| ==> secondary[i] == tree.Chain(pindexNew)[tree.Height(pindexNew) - i]
        invariant TurnFrom(tree, pindexNew, tree.Height(pindexIntermediate), pindexBest) == Turn(tree, pindexNew, pindexBest)
        decreases tree.Height(pindexIntermediate)
      {
        tree.ChainStep(pindexNew, tree.Height(pindexIntermediate));
        TurnNext(tree, pindexNew, tree.Height(pindexIntermediate), pindexBest);
        secondary := secondary + [pindexIntermediate];
        pindexIntermediate := tree.nodes[pindexIntermediate].prev.value;
        assert tree.Linked(pindexIntermediate);
      }
      if tree.Height(pindexIntermediate) > 0 { tree.ChainStep(pindexNew, tree.Height(pindexIntermediate)); }
      TurnNext(tree, pindexNew, tree.Height(pindexIntermediate), pindexBest);
      PostponedAbove(tree, secondary, pindexNew, pindexIntermediate, pindexBest);
    }

    /** Connects the postponed blocks one database transaction each, stopping at the first that fails. */
    method ConnectSecondary(secondary: seq<Hash>, pindexNew: Hash, pindexIntermediate: Hash, ghost exact: bool)
      returns (ghost n: nat)
      requires Stored() && pindexBest in tree.nodes && WellFormed(txdb.committed) && txdb.batch.None?
      requires pindexNew in tree.nodes && pindexIntermediate in tree.nodes && HasBlocks(disk, tree.Chain(pindexNew))
      requires tree.Height(pindexIntermediate) <= tree.Height(pindexNew)
      requires IsBranchDown(tree, secondary, pindexNew, pindexIntermediate)
      requires LinkedTo(tree.Chain(pindexNew), tree.Height(pindexIntermediate) + 1, exact, pnext)
      requires exact ==> Synced(disk, txdb.committed, money, tree.Chain(pindexNew), tree.Height(pindexIntermediate) + 1)
      modifies txdb, this`pnext, this`money, this`mint
      ensures Stored() && txdb.batch.None? && WellFormed(txdb.committed)
      ensures tree.Height(pindexIntermediate) < n <= tree.Height(pindexNew) + 1
      ensures LinkedTo(tree.Chain(pindexNew), n, exact, pnext)
      ensures exact ==> Synced(disk, txdb.committed, money, tree.Chain(pindexNew), n)
      ensures exact ==> FirstMisfit(rules, tree, disk, pindexNew, tree.Height(pindexIntermediate), n, SignaturesDue(), PowOver())
    {
      hide LinkedTo, Synced, HasBlocks, Tree.Chain, Fits, Passes;
      n := tree.Height(pindexIntermediate) + 1;
      var i := |secondary|;
      while i > 0
        invariant 0 <= i <= |secondary| && n == tree.Height(pindexNew) + 1 - i
        invariant Stored() && txdb.batch.None? && WellFormed(txdb.committed)
        invariant LinkedTo(tree.Chain(pindexNew), n, exact, pnext)
        invariant exact ==> Synced(disk, txdb.committed, money, tree.Chain(pindexNew), n)
        invariant exact ==> forall k :: tree.Height(pindexIntermediate) < k < n ==>
                            Passes(rules, tree, disk, pindexNew, k, SignaturesDue(), PowOver())
      {
        i := i - 1;
        txdb.TxnBegin();
        FitsExactly(rules, CxFor(pindexBest), disk, pindexNew, n);
        var ok := SetBestChainInner(secondary[i], n, pindexNew, exact);
        if !ok { break; }
        n := n + 1;
      }
    }

    /** The links of the branch of `a`, seen on a branch of `b` that passes through it. */
    lemma {:induction false} LinksFrom(a: Hash, b: Hash, exact: bool)
      requires Stored() && b in tree.nodes && a in tree.nodes && tree.Ancestor(a, b)
      requires LinkedTo(tree.Chain(a), tree.Height(a) + 1, exact, pnext)
      ensures tree.Height(a) <= tree.Height(b) && tree.Chain(b)[tree.Height(a)] == a
      ensures LinkedTo(tree.Chain(b), tree.Height(a) + 1, exact, pnext)
    {
      hide Links, LinkedTo, Tree.Chain;
      tree.AncestorPrefix(a, b);
      LinkedOn(tree.Chain(a), tree.Chain(b), tree.Height(a) + 1, exact, pnext);
    }

    /** The same for the index and the recorded supplies. */
    lemma {:induction false} SeenFrom(a: Hash, b: Hash, exact: bool)
      requires Stored() && b in tree.nodes && a in tree.nodes && tree.Ancestor(a, b) && (exact ==> SyncedTo(a))
      ensures tree.Height(a) <= tree.Height(b) && HasBlocks(disk, tree.Chain(b))
      ensures exact ==> Synced(disk, txdb.committed, money, tree.Chain(b), tree.Height(a) + 1)
    {
      hide Synced, HasBlocks, Links, Tree.Chain;
      tree.AncestorPrefix(a, b);
      ChainHasBlocks(tree, disk, b);
      if exact { SyncedOn(disk, tree.Chain(a), tree.Chain(b), tree.Height(a) + 1, txdb.committed, money); }
    }

    /** In a chain linked up to n, the last block has its forward link exactly if all of it is linked. */
    lemma {:induction false} LinkTells(b: Hash, n: nat)
      requires Stored() && b in tree.nodes && tree.nodes[b].prev.Some? && 1 <= n <= tree.Height(b) + 1
      requires pnext == Links(tree.Chain(b), n)
      ensures tree.nodes[b].prev.value in pnext <==> n == tree.Height(b) + 1
      ensures n < tree.Height(b) + 1 ==> pnext != Links(tree.Chain(b), tree.Height(b) + 1)
    {
      assert tree.Linked(b);
      tree.ChainStep(b, tree.Height(b));
      tree.ChainDistinct(b);
      LinksAt(tree.Chain(b), tree.Height(b) + 1, tree.Height(b) - 1);
      if n == tree.Height(b) {
        LinksAt(tree.Chain(b), n, n - 1);
      } else if n < tree.Height(b) {
        if tree.Chain(b)[tree.Height(b) - 1] in Links(tree.Chain(b), n) {
          LinksKeys(tree.Chain(b), n, tree.Chain(b)[tree.Height(b) - 1]);
        }
      }
    }

    /** The new block extends the best chain. */
    method ExtendBest(pindexNew: Hash, ghost exact: bool) returns (ok: bool)
      requires Valid() && (exact ==> SyncedTo(pindexBest))
      requires pindexNew in tree.nodes && tree.nodes[pindexNew].prev == Some(pindexBest)
      modifies txdb, this`pnext, this`money, this`mint
      ensures Stored() && txdb.batch.None? && WellFormed(txdb.committed)
      ensures !ok ==> pnext == old(pnext) && txdb.committed == old(txdb.committed) && money == old(money)
      ensures ok ==> LinkedTo(tree.Chain(pindexNew), tree.Height(pindexNew) + 1, exact, pnext)
      ensures ok && exact ==> SyncedTo(pindexNew)
      ensures exact ==> (ok <==> old(CanConnect(pindexNew))) && Turn(tree, pindexNew, pindexBest) == tree.Height(pindexNew)
    {
      hide ReplayTo, AcceptedTo, FreshTxIds, Synced, HasBlocks, Links, Submap, Tree.Chain, Fits, BranchFits, Passes, BranchPasses, Turn;
      OneAbove(rules, CxFor(pindexBest), disk, pindexNew);
      BranchFitsExactly(rules, CxFor(pindexBest), disk, pindexNew, tree.Height(pindexNew));
      assert tree.Linked(pindexNew);
      tree.ChainPrev(pindexNew);
      LinksFrom(pindexBest, pindexNew, exact);
      SeenFrom(pindexBest, pindexNew, exact);
      txdb.TxnBegin();
      ok := SetBestChainInner(pindexNew, tree.Height(pindexNew), pindexNew, exact);
    }

    /** Reorganises to the first block of the branch that outweighs the best one. */
    method SwitchToTurn(pindexNew: Hash, ghost exact: bool) returns (ok: bool, pindexIntermediate: Hash, secondary: seq<Hash>)
      requires Valid() && (exact ==> Identified(tree, disk) && SyncedTo(pindexBest)) && pindexNew in tree.nodes
      modifies txdb, this`pnext, this`money, this`mint
      ensures Stored() && txdb.batch.None? && WellFormed(txdb.committed)
      ensures !ok ==> pnext == old(pnext) && txdb.committed == old(txdb.committed)
      ensures !ok && exact ==> SyncedTo(pindexBest)
      ensures exact ==> (ok <==> old(CanSwitch(pindexNew)))
      ensures pindexIntermediate in tree.nodes && tree.Ancestor(pindexIntermediate, pindexNew)
      ensures tree.Height(pindexIntermediate) == Turn(tree, pindexNew, pindexBest)
      ensures IsBranchDown(tree, secondary, pindexNew, pindexIntermediate)
      ensures ok ==> LinkedTo(tree.Chain(pindexIntermediate), tree.Height(pindexIntermediate) + 1, exact, pnext)
      ensures ok && exact ==> SyncedTo(pindexIntermediate)
    {
      hide ReplayTo, AcceptedTo, FreshTxIds, Synced, HasBlocks, Links, Submap, Tree.Chain, Fits, BranchFits, Passes, BranchPasses, Turn, WellFormed,
        TrustGrows, IsBranchDown;
      txdb.TxnBegin();
      pindexIntermediate, secondary := Postpone(pindexNew);
      assert tree.Ancestor(pindexIntermediate, pindexNew);
      FitsBelow(rules, CxFor(pindexBest), disk, pindexIntermediate, pindexNew);
      BranchFitsExactly(rules, CxFor(pindexBest), disk, pindexNew, tree.Height(pindexIntermediate));
      ok := Reorganize(pindexIntermediate);
      if !ok { txdb.TxnAbort(); }
    }

    /** The new block is on another branch: reorganise to the first block that outweighs the best one, then connect the rest. */
    method SwitchBest(pindexNew: Hash, ghost exact: bool) returns (ok: bool, ghost n: nat)
      requires Valid() && (exact ==> Identified(tree, disk) && SyncedTo(pindexBest)) && pindexNew in tree.nodes
      modifies txdb, this`pnext, this`money, this`mint
      ensures Stored() && txdb.batch.None? && WellFormed(txdb.committed)
      ensures !ok ==> pnext == old(pnext) && txdb.committed == old(txdb.committed)
      ensures !ok && exact ==> SyncedTo(pindexBest)
      ensures ok ==> 1 <= n <= tree.Height(pindexNew) + 1 && LinkedTo(tree.Chain(pindexNew), n, exact, pnext)
      ensures ok && exact ==> SyncedPart(pindexNew, n)
      ensures exact ==> (ok <==> old(CanSwitch(pindexNew)))
      ensures ok && exact ==> old(StopsAt(pindexNew, n))
    {
      hide ReplayTo, AcceptedTo, FreshTxIds, Synced, HasBlocks, Links, Submap, Tree.Chain, Fits, BranchFits, Passes, BranchPasses, WellFormed, TrustGrows, IsBranchDown;
      n := 0;
      var pindexIntermediate, secondary;
      ok, pindexIntermediate, secondary := SwitchToTurn(pindexNew, exact);
      if !ok { return; }
      LinksFrom(pindexIntermediate, pindexNew, exact);
      SeenFrom(pindexIntermediate, pindexNew, exact);
      n := ConnectSecondary(secondary, pindexNew, pindexIntermediate, exact);
    }

    /** Connects what it can of the branch of pindexNew. */
    method SwitchTo(pindexNew: Hash, ghost exact: bool) returns (ok: bool, ghost n: nat)
      requires Valid() && (exact ==> Identified(tree, disk) && SyncedTo(pindexBest)) && pindexNew in tree.nodes
      modifies txdb, this`pnext, this`money, this`mint
      ensures Stored() && txdb.batch.None? && WellFormed(txdb.committed)
      ensures !ok ==> pnext == old(pnext) && txdb.committed == old(txdb.committed)
      ensures !ok && exact ==> SyncedTo(pindexBest)
      ensures ok ==> 1 <= n <= tree.Height(pindexNew) + 1 && LinkedTo(tree.Chain(pindexNew), n, exact, pnext)
      ensures ok && exact ==> SyncedPart(pindexNew, n)
      ensures exact ==> (ok <==> old(CanSwitch(pindexNew)))
      ensures ok && exact ==> old(StopsAt(pindexNew, n))
    {
      hide ReplayTo, AcceptedTo, FreshTxIds, Synced, HasBlocks, Links, Submap, Tree.Chain, Fits, BranchFits, Passes, BranchPasses, Turn;
      // hashPrevBlock == hashBestChain
      if tree.nodes[pindexNew].prev == Some(pindexBest) {
        ok := ExtendBest(pindexNew, exact);
        n := tree.Height(pindexNew) + 1;
      } else {
        ok, n := SwitchBest(pindexNew, exact);
      }
    }

    /** Makes pindexNew the best block. `n` counts the blocks of its branch that are connected afterwards:
        fewer than all of them only if a postponed block was refused, which leaves its parent without a forward link. */
    method SetBestChain(pindexNew: Hash) returns (ok: bool, ghost n: nat)
      requires Valid() && pindexNew in tree.nodes
      modifies txdb, this`pnext, this`money, this`mint, this`pindexBest, this`lastFound
      ensures Valid()
      ensures !ok ==> pindexBest == old(pindexBest) && pnext == old(pnext) && lastFound == old(lastFound)
      ensures !ok ==> txdb.committed == old(txdb.committed)
      ensures !ok && old(Consistent()) ==> Consistent()
      ensures ok ==> pindexBest == pindexNew && lastFound.None?
      ensures old(Consistent()) ==> (ok <==> old(CanSwitch(pindexNew)))
      ensures ok && old(Consistent()) ==>
                SyncedPart(pindexNew, n) && old(StopsAt(pindexNew, n))
      ensures ok && old(Consistent()) && old(tree.nodes[pindexBest].height) >= totalBlocksEstimate ==>
                NewSigned(rules, tree, disk, pindexNew, n, old(pindexBest))
      ensures ok && old(Consistent()) ==>
                NewDue(rules, tree, disk, pindexNew, n, old(pindexBest), old(tree.nodes[pindexBest].nTime) > nTimeV231)
      ensures ok && old(Consistent()) ==> (Consistent() <==> old(CanConnect(pindexNew)))
      ensures ok && old(Consistent()) && tree.nodes[pindexNew].prev.Some? ==>
                (Consistent() <==> tree.nodes[pindexNew].prev.value in pnext)
    {
      hide ReplayTo, AcceptedTo, FreshTxIds, SupplyRecorded, Synced, HasBlocks, Identified, Links, Submap, Tree.Chain,
        Passes, BranchPasses, NewSigned, NewDue, Turn, WellFormed, TrustGrows;
      ghost var exact := Consistent();
      PassesAboveTurn(rules, tree, disk, pindexNew, pindexBest, SignaturesDue(), PowOver());
      ok, n := SwitchTo(pindexNew, exact);
      if !ok { return; }
      if exact {
        NewOnes(rules, tree, disk, pindexNew, Turn(tree, pindexNew, pindexBest), n, pindexBest, SignaturesDue(), PowOver());
      }
      pindexBest := pindexNew;
      lastFound := None;
      tree.ChainDistinct(pindexNew);
      LinksPart(tree.Chain(pindexNew), n, tree.Height(pindexNew) + 1);
      if exact && tree.nodes[pindexNew].prev.Some? { LinkTells(pindexNew, n); }
      assert tree.Linked(pindexNew);
      assert exact ==> (n == tree.Height(pindexNew) + 1 <==> old(CanConnect(pindexNew)));
      assert exact && n == tree.Height(pindexNew) + 1 ==> Consistent();
    }

    /** Inserts a block under its parent; the best chain stays. */
    method Insert(block: Block, node: Node)
      requires Valid() && block.hash !in tree.nodes && block.hashPrev in tree.nodes
      requires node.prev == Some(block.hashPrev) && node.height == tree.Height(block.hashPrev) + 1
      requires node.trust >= tree.nodes[block.hashPrev].trust
      modifies this`tree, this`disk, this`money, this`mint
      ensures Valid() && tree == old(tree.(nodes := tree.nodes[block.hash := node])) && disk == old(disk)[block.hash := block]
      ensures old(Consistent() && Identifies(tree, disk, block)) ==> Consistent()
    {
      hide ReplayTo, AcceptedTo, FreshTxIds, Synced, HasBlocks, Links, Submap, Tree.Chain, WellFormed, TrustGrows, TxIds;
      if Consistent() && Identifies(tree, disk, block) { IdentifiedMore(tree, disk, block, node); }
      Grow(tree, disk, money, block, node, pindexBest, txdb.committed, tree.Height(pindexBest) + 1);
      TrustKept(tree, block.hash, node);
      tree := tree.(nodes := tree.nodes[block.hash := node]);
      disk := disk[block.hash := block];
      money := money[block.hash := 0];
      mint := mint[block.hash := 0];
    }

    /** Enters a block whose parent is known; it becomes the best block if its branch carries more trust. */
    method AddToBlockIndex(block: Block, trust: nat) returns (ok: bool)
      requires Valid() && block.hashPrev in tree.nodes
      modifies txdb, this`tree, this`disk, this`pnext, this`money, this`mint, this`pindexBest, this`lastFound
      ensures Valid() && tree.genesis == old(tree.genesis)
      ensures block.hash in old(tree.nodes) ==> !ok && tree == old(tree) && pindexBest == old(pindexBest)
      ensures block.hash !in old(tree.nodes) ==>
                var prev := old(tree.nodes)[block.hashPrev];
                && tree.nodes == old(tree.nodes)[block.hash := Node(Some(block.hashPrev), prev.height + 1, prev.trust + trust, block.nTime)]
                && disk == old(disk)[block.hash := block]
                && (prev.trust + trust <= old(tree.nodes[pindexBest].trust) ==> ok && pindexBest == old(pindexBest))
                && (prev.trust + trust > old(tree.nodes[pindexBest].trust) ==>
                      pindexBest == if ok then block.hash else old(pindexBest))
      ensures pindexBest != old(pindexBest) ==> lastFound.None?
      ensures old(Consistent() && Identifies(tree, disk, block)) && pindexBest == old(pindexBest) ==> Consistent()
      ensures old(Consistent() && Identifies(tree, disk, block)) && pindexBest != old(pindexBest) ==>
                (Consistent() <==> block.hashPrev in pnext)
      ensures old(Consistent() && Identifies(tree, disk, block)) && Outweighs(old(tree), block, trust, old(pindexBest)) ==>
                var signed, powOver, turn := old(SignaturesDue()), old(PowOver()), Turn(tree, block.hash, old(pindexBest));
                && block.hash in tree.nodes && old(pindexBest) in tree.nodes
                && (ok <==> BranchPasses(rules, tree, disk, block.hash, turn, old(pindexBest), signed, powOver))
                && (ok ==> (Consistent() <==>
                              BranchPasses(rules, tree, disk, block.hash, tree.Height(block.hash), old(pindexBest), signed, powOver)))
                && (ok ==> exists n: nat :: SyncedPart(block.hash, n)
                             && FirstMisfit(rules, tree, disk, block.hash, turn, n, signed, powOver))
    {
      hide Consistent, Identifies, Links, Submap, Tree.Chain, BranchPasses, FirstMisfit, SyncedPart, Turn;
      if block.hash in tree.nodes { return false; }
      var prev := tree.nodes[block.hashPrev];
      var node := Node(Some(block.hashPrev), prev.height + 1, prev.trust + trust, block.nTime);
      Insert(block, node);
      ok := true;
      if node.trust > tree.nodes[pindexBest].trust {
        ghost var n;
        ok, n := SetBestChain(block.hash);
      }
    }

    function Distance(h: nat, b: Hash): (d: nat)
      requires b in tree.nodes
      ensures h + d == tree.Height(b) || h == tree.Height(b) + d
      reads this`tree
    {
      if h < tree.Height(b) then tree.Height(b) - h else h - tree.Height(b)
    }

    /** The start of the search: genesis or the tip, whichever end is nearer by height, or the block found last if that is
        nearer still. */
    function Nearest(nHeight: nat): (b: Hash)
      requires Files(tree, disk) && pindexBest in tree.nodes && (lastFound.Some? ==> lastFound.value in tree.nodes)
      ensures b in tree.nodes
      reads this`tree, this`disk, this`pindexBest, this`lastFound
    {
      var end := if nHeight < tree.Height(pindexBest) / 2 then tree.genesis else pindexBest;
      if lastFound.Some? && Distance(nHeight, end) > Distance(nHeight, lastFound.value) then lastFound.value else end
    }

    /** It is on the main chain. */
    method NearestKnown(nHeight: nat) returns (pindex: Hash)
      requires Valid()
      ensures pindex == Nearest(nHeight) && tree.Ancestor(pindex, pindexBest)
      ensures lastFound.Some? ==> Distance(nHeight, pindex) <= Distance(nHeight, lastFound.value)
    {
      hide Tree.Chain;
      assert tree.Chain(pindexBest)[0] == tree.genesis;
      assert tree.Chain(pindexBest)[tree.Height(pindexBest)] == pindexBest;
      if nHeight < tree.Height(pindexBest) / 2 { pindex := tree.genesis; } else { pindex := pindexBest; }
      if lastFound.Some? {
        tree.AncestorAt(lastFound.value, pindexBest);
        if Distance(nHeight, pindex) > Distance(nHeight, lastFound.value) { pindex := lastFound.value; }
      }
    }

    /** The upward walk from the start does not meet a null forward link. */
    ghost predicate Reaches(nHeight: nat)
      requires Valid()
      reads this, txdb
    {
      nHeight <= tree.Height(Nearest(nHeight))
      || (nHeight <= tree.Height(pindexBest)
          && forall k :: tree.Height(Nearest(nHeight)) <= k < nHeight ==> tree.Chain(pindexBest)[k] in pnext)
    }

    /** From any main-chain start, follows pprev down and then pnext up to the wanted height. None is the null pointer met on
        the way up, which happens only after a postponed block was refused, or above the tip. */
    method FindBlockByHeight(nHeight: nat) returns (pindex: Option<Hash>)
      requires Valid()
      modifies this`lastFound
      ensures Valid() && (old(Consistent()) ==> Consistent())
      ensures pindex.Some? <==> old(Reaches(nHeight))
      ensures pindex.Some? ==> nHeight <= tree.Height(pindexBest) && pindex.value == tree.Chain(pindexBest)[nHeight]
      ensures lastFound == if pindex.Some? then pindex else old(lastFound)
    {
      hide Synced, Identified, HasBlocks, Links, Submap, Tree.Chain, WellFormed, TrustGrows;
      var b := NearestKnown(nHeight);
      pindex := WalkTo(b, nHeight);
      if pindex.Some? { lastFound := pindex; }
    }

    method WalkTo(start: Hash, nHeight: nat) returns (pindex: Option<Hash>)
      requires Valid() && start in tree.nodes && tree.Ancestor(start, pindexBest)
      ensures pindex.Some? <==>
                nHeight <= tree.Height(start)
                || (nHeight <= tree.Height(pindexBest)
                    && forall k :: tree.Height(start) <= k < nHeight ==> tree.Chain(pindexBest)[k] in pnext)
      ensures pindex.Some? ==>
                && nHeight <= tree.Height(pindexBest) && pindex.value == tree.Chain(pindexBest)[nHeight]
                && pindex.value in tree.nodes && tree.Ancestor(pindex.value, pindexBest)
    {
      hide Links, Submap, Tree.Chain, WellFormed, TrustGrows;
      var b := start;
      tree.AncestorAt(b, pindexBest);
      while tree.Height(b) > nHeight
        invariant b in tree.nodes && tree.Height(b) <= tree.Height(pindexBest) && b == tree.Chain(pindexBest)[tree.Height(b)]
        invariant b == start || nHeight <= tree.Height(b) < tree.Height(start)
        decreases tree.Height(b)
      {
        tree.ChainStep(pindexBest, tree.Height(b));
        b := tree.nodes[b].prev.value;
      }
      while tree.Height(b) < nHeight
        invariant b in tree.nodes && tree.Height(b) <= tree.Height(pindexBest) && b == tree.Chain(pindexBest)[tree.Height(b)]
        invariant if nHeight <= tree.Height(start) then tree.Height(b) == nHeight else tree.Height(start) <= tree.Height(b) <= nHeight
        invariant forall k :: tree.Height(start) <= k < tree.Height(b) ==> tree.Chain(pindexBest)[k] in pnext
        decreases nHeight - tree.Height(b)
      {
        LinkAt(tree, pindexBest, pnext, tree.Height(b));
        if b !in pnext { return None; }
        tree.ChainStep(pindexBest, tree.Height(b) + 1);
        b := pnext[b];
      }
      return Some(b);
    }

    /** On a consistent chain the walk always succeeds; with n linked blocks, exactly from a start at or above the height,
        or to a height below n. */
    lemma {:induction false} ReachesExactly(nHeight: nat, n: nat)
      requires Valid() && 1 <= n <= tree.Height(pindexBest) + 1 && pnext == Links(tree.Chain(pindexBest), n)
      ensures Reaches(nHeight) <==> nHeight <= tree.Height(Nearest(nHeight)) || nHeight < n
    {
      hide Links, Submap, Tree.Chain;
      var chain, start := tree.Chain(pindexBest), tree.Height(Nearest(nHeight));
      tree.ChainDistinct(pindexBest);
      forall k | 0 <= k < |chain| ensures chain[k] in Links(chain, n) <==> k + 1 < n {
        if k < n { LinksAt(chain, n, k); } else if chain[k] in Links(chain, n) { LinksKeys(chain, n, chain[k]); }
      }
      if start < nHeight <= tree.Height(pindexBest) { assert chain[nHeight - 1] in pnext <==> nHeight < n; }
    }

    /** The supply recorded at the tip is the sum of all unspent outputs; if every block of the best chain
        is accounted for, it never exceeds the premine and two full eras of the highest reward. */
    lemma {:induction false} MoneySupply()
      requires Consistent()
      ensures pindexBest in money && money[pindexBest] == Total(txdb.committed)
      ensures (forall b <- tree.Chain(pindexBest) :: b in disk && StakeAccounted(disk[b])) ==>
                money[pindexBest] <= 364_800_000 * COIN + 2 * 846_800 * (150 * COIN)
    {
      hide ReplayTo, Accepted, Links, Tree.Chain;
      var chain := tree.Chain(pindexBest);
      assert money[chain[|chain| - 1]] == SupplyAt(disk, chain, |chain|);
      if forall b <- chain :: b in disk && StakeAccounted(disk[b]) {
        forall k | 1 <= k < |chain| ensures StakeAccounted(disk[chain[k]]) { assert chain[k] in chain; }
        SupplyBounded(disk, chain, |chain|);
      }
    }
  }

  /** Adding a block leaves every other branch, its replay and its recorded supplies as they were. */
  lemma {:induction false} Grow(tree: Tree, disk: Disk, money: map<Hash, int>, block: Block, node: Node, b: Hash, db: Index, n: nat)
    requires Files(tree, disk) && money.Keys == tree.nodes.Keys && b in tree.nodes && n <= tree.Height(b) + 1
    requires block.hash !in tree.nodes && block.hashPrev in tree.nodes
    requires node.prev == Some(block.hashPrev) && node.height == tree.Height(block.hashPrev) + 1
    ensures var tree' := tree.(nodes := tree.nodes[block.hash := node]);
            var disk' := disk[block.hash := block];
            && Files(tree', disk') && tree'.Chain(b) == tree.Chain(b)
            && HasBlocks(disk, tree.Chain(b)) && HasBlocks(disk', tree.Chain(b))
            && (Synced(disk, db, money, tree.Chain(b), n) ==>
                  Synced(disk', db, money[block.hash := 0], tree.Chain(b), n))
  {
    hide ReplayTo, Accepted, Tree.Chain;
    var tree' := tree.(nodes := tree.nodes[block.hash := node]);
    var disk' := disk[block.hash := block];
    AddNode(tree, block.hash, node);
    assert Files(tree', disk') by { assert forall c <- tree.nodes :: tree'.nodes[c] == tree.nodes[c]; }
    ChainExtends(tree, tree', b);
    ChainHasBlocks(tree, disk, b);
    var chain := tree.Chain(b);
    forall k | 0 <= k < |chain| ensures chain[k] in disk && chain[k] != block.hash && disk'[chain[k]] == disk[chain[k]] {}
    ReplaySame(disk, chain, disk', chain, n);
    if Synced(disk, db, money, chain, n) {
      forall k | 0 <= k < n ensures money[block.hash := 0][chain[k]] == SupplyAt(disk', chain, k + 1) {
        ReplaySame(disk, chain, disk', chain, k + 1);
      }
    }
  }

  lemma {:induction false} AddNode(tree: Tree, b: Hash, node: Node)
    requires tree.Valid() && b !in tree.nodes
    requires node.prev.Some? && node.prev.value in tree.nodes && node.height == tree.Height(node.prev.value) + 1
    ensures tree.(nodes := tree.nodes[b := node]).Valid()
    ensures Extends(tree, tree.(nodes := tree.nodes[b := node]))
  {
    var tree' := tree.(nodes := tree.nodes[b := node]);
    forall c | c in tree'.nodes ensures tree'.Linked(c) {
      if c != b { assert tree.Linked(c); }
    }
  }

  lemma {:induction false} TrustKept(tree: Tree, b: Hash, node: Node)
    requires tree.Valid() && TrustGrows(tree) && b !in tree.nodes
    requires node.prev.Some? && node.prev.value in tree.nodes && tree.nodes[node.prev.value].trust <= node.trust
    ensures TrustGrows(tree.(nodes := tree.nodes[b := node]))
  {
    assert forall c <- tree.nodes :: tree.Linked(c);
  }

  lemma {:induction false} HeightedMore(tree: Tree, disk: Disk, tree': Tree, disk': Disk, block: Block)
    requires Files(tree, disk) && AllHeighted(tree, disk) && block.hash !in tree.nodes && block.hashPrev in tree.nodes
    requires HeightInCoinbase(block, tree.Height(block.hashPrev) + 1)
    requires tree'.nodes.Keys == tree.nodes.Keys + {block.hash} && disk' == disk[block.hash := block]
    requires tree'.nodes[block.hash].height == tree.Height(block.hashPrev) + 1
    requires forall b <- tree.nodes :: tree'.nodes[b] == tree.nodes[b]
    ensures AllHeighted(tree', disk')
  {
    assert forall b <- tree.nodes :: Heighted(tree, disk, b);
  }

  lemma {:induction false} IdentifiedMore(tree: Tree, disk: Disk, block: Block, node: Node)
    requires Files(tree, disk) && Identified(tree, disk) && Identifies(tree, disk, block) && block.hash !in tree.nodes
    requires node.height == tree.Height(block.hashPrev) + 1
    ensures Identified(tree.(nodes := tree.nodes[block.hash := node]), disk[block.hash := block])
  {
    assert forall b <- tree.nodes :: Heighted(tree, disk, b);
  }

  lemma {:induction false} LinksPart(chain: seq<Hash>, n: nat, m: nat)
    requires n <= m <= |chain| && Distinct(chain)
    ensures Submap(Links(chain, n), Links(chain, m))
    ensures forall p: map<Hash, Hash> :: Submap(p, Links(chain, n)) ==> Submap(p, Links(chain, m))
  {
    if n < m {
      LinksPart(chain, n, m - 1);
      if m > 1 && chain[m - 2] in Links(chain, m - 1) { LinksKeys(chain, m - 1, chain[m - 2]); }
    }
  }
}
