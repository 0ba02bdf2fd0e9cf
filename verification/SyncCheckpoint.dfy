/** Synchronised checkpoints: which checkpoint messages are obeyed, which blocks they keep out,
    and that the checkpoint always lies on the best chain. */
module SyncCheckpoint {
  import opened Wrappers
  import opened Ledger
  import opened BlockTree
  import opened Connect
  import opened Replay
  import opened Freshness
  import opened BestChain

  datatype Mode = STRICT | ADVISORY | PERMISSIVE

  datatype Event =
    | BlockArrives(block: Block, trust: nat, otherChecks: bool)
    | CheckpointMessage(hash: Hash, signatureOk: bool)
    | Reset

  /** The node between two events. `consistent` tells whether every connect so far has succeeded. */
  datatype Snapshot = Snapshot(tree: Tree, disk: Disk, best: Hash, sync: Hash, pending: Hash, invalid: Hash, consistent: bool)

  /** `a` is `b` or an ancestor of it, both known. */
  ghost predicate Below(tree: Tree, a: Hash, b: Hash) {
    tree.Valid() && a in tree.nodes && b in tree.nodes && tree.Ancestor(a, b)
  }

  lemma BelowTransitive(tree: Tree, a: Hash, b: Hash, c: Hash)
    requires Below(tree, a, b) && Below(tree, b, c)
    ensures Below(tree, a, c)
  {
    tree.AncestorTransitive(a, b, c);
  }

  lemma BelowExtends(tree: Tree, tree': Tree, a: Hash, b: Hash)
    requires Below(tree, a, b) && tree'.Valid() && Extends(tree, tree')
    ensures Below(tree', a, b)
  {
    ChainExtends(tree, tree', b);
  }

  /** Only blocks of the best chain carry a forward link. */
  lemma LinkedIsBelow(tree: Tree, pnext: map<Hash, Hash>, best: Hash, b: Hash)
    requires tree.Valid() && best in tree.nodes
    requires Submap(pnext, Links(tree.Chain(best), tree.Height(best) + 1)) && b in pnext
    ensures Below(tree, b, best)
  {
    LinksKeys(tree.Chain(best), tree.Height(best) + 1, b);
    tree.AncestorAt(b, best);
  }

  /** The tree and the block files with one more block. */
  predicate OneMore(s: Snapshot, block: Block, trust: nat, t: Snapshot) {
    && block.hash !in s.tree.nodes && block.hashPrev in s.tree.nodes
    && var prev := s.tree.nodes[block.hashPrev];
    && t.tree == s.tree.(nodes := s.tree.nodes[block.hash := Node(Some(block.hashPrev), prev.height + 1, prev.trust + trust, block.nTime)])
    && t.disk == s.disk[block.hash := block]
  }

  lemma GoodBlock(tree: Tree, disk: Disk, block: Block)
    requires NoCollisions(disk[block.hash := block])
    requires block.hashPrev in tree.nodes && HeightInCoinbase(block, tree.nodes[block.hashPrev].height + 1)
    ensures Identifies(tree, disk, block)
  {}

  predicate NoReset(events: seq<Event>) { forall e <- events :: !e.Reset? }

  lemma NoResetNext(events: seq<Event>, k: nat)
    requires k < |events|
    ensures NoReset(events[..k + 1]) <==> NoReset(events[..k]) && !events[k].Reset?
  {
    assert events[..k + 1] == events[..k] + [events[k]];
  }

  lemma OnBest(tree: Tree, hash: Hash, best: Hash)
    requires Below(tree, hash, best)
    ensures forall k :: 0 <= k <= tree.Height(hash) ==> tree.Ancestor(tree.Chain(hash)[k], best)
  {
    hide Tree.Chain;
    forall k | 0 <= k <= tree.Height(hash) ensures tree.Ancestor(tree.Chain(hash)[k], best) {
      tree.AncestorPrefix(hash, best);
      assert tree.Chain(best)[k] in tree.Chain(best);
    }
  }

  lemma LinkedOnMain(tree: Tree, pnext: map<Hash, Hash>, best: Hash, b: Hash)
    requires Below(tree, b, best) && b != best && pnext == Links(tree.Chain(best), tree.Height(best) + 1)
    ensures b in pnext
  {
    hide Tree.Chain;
    tree.AncestorAt(b, best);
    tree.ChainDistinct(best);
    LinksAt(tree.Chain(best), tree.Height(best) + 1, tree.Height(b));
  }

  class SyncState {
    const chain: ChainState
    const fTestNet: bool
    const mode: Mode
    /** The hardened checkpoints, lowest first. */
    const hardened: seq<Hash>

    var hashSync: Hash
    /** 0 when there is none */
    var hashPending: Hash
    var hashInvalid: Hash

    /** The checkpoint is a known block: the assertion CheckSync makes. */
    ghost predicate Valid()
      reads this, chain, chain.txdb
    {
      chain.Valid() && hashSync in chain.tree.nodes
    }

    /** Safety: the sync-checkpoint is on the best chain. */
    ghost predicate Safe()
      reads this, chain, chain.txdb
    {
      Valid() && Below(chain.tree, hashSync, chain.pindexBest)
    }

    /** The node obeys checkpoints: main net, strict policy. */
    predicate Strict() { mode.STRICT? && !fTestNet }

    constructor (chain: ChainState, fTestNet: bool, mode: Mode, hardened: seq<Hash>)
      requires chain.Valid()
      ensures Safe() && this.chain == chain && hashSync == chain.tree.genesis
      ensures this.fTestNet == fTestNet && this.mode == mode && this.hardened == hardened
    {
      this.chain, this.fTestNet, this.mode, this.hardened := chain, fTestNet, mode, hardened;
      hashSync, hashPending, hashInvalid := chain.tree.genesis, 0, 0;
      assert chain.tree.Chain(chain.pindexBest)[0] == chain.tree.genesis;
    }

    function IsInMainChain(b: Hash): bool
      reads chain
    {
      b in chain.pnext || b == chain.pindexBest
    }

    /** A checkpoint the node can obey: a strict descendant of the current one, on the best chain or fit to become its tip. */
    ghost predicate Obeyable(hash: Hash)
      requires Valid()
      reads this, chain, chain.txdb
    {
      Below(chain.tree, hashSync, hash) && hash != hashSync && (IsInMainChain(hash) || chain.CanSwitch(hash))
    }

    ghost function Now(): Snapshot
      reads this, chain, chain.txdb
    {
      Snapshot(chain.tree, chain.disk, chain.pindexBest, hashSync, hashPending, hashInvalid, chain.Consistent())
    }

    /** The blocks of the branch up to height n that are not on the chain of `best` pass while that is the best block. */
    ghost predicate Passable(tree: Tree, disk: Disk, tip: Hash, n: nat, best: Hash) {
      && Files(tree, disk) && tip in tree.nodes && n <= tree.Height(tip) && best in tree.nodes
      && BranchPasses(chain.rules, tree, disk, tip, n, best, tree.nodes[best].height >= chain.totalBlocksEstimate,
           tree.nodes[best].nTime > chain.nTimeV231)
    }

    /** A strict descendant of the sync-checkpoint, on the best chain or fit to become its tip. */
    ghost predicate Follows(s: Snapshot, hash: Hash) {
      Below(s.tree, s.sync, hash) && hash != s.sync && s.best in s.tree.nodes
      && Passable(s.tree, s.disk, hash, Turn(s.tree, hash, s.best), s.best)
    }

    /** The checkpoint has moved to `hash`, which is on the best chain. */
    ghost predicate MovedTo(s: Snapshot, hash: Hash, t: Snapshot) {
      && t.tree == s.tree && t.disk == s.disk && t.sync == hash && t.pending == 0 && t.invalid == s.invalid
      && Below(t.tree, hash, t.best)
      && (s.consistent && hash in s.tree.nodes ==>
            && t.best == (if Below(s.tree, hash, s.best) then s.best else hash)
            && (t.consistent <==> Passable(s.tree, s.disk, hash, s.tree.Height(hash), s.best)))
    }

    /** The checkpoint is off the line of the current one. */
    ghost predicate Astray(s: Snapshot, hash: Hash) {
      hash in s.tree.nodes && !Below(s.tree, s.sync, hash) && !Below(s.tree, hash, s.sync)
    }

    /** What becomes of the pending checkpoint when it is tried: it waits for its block, is dropped if it is not a strict
        descendant of the current one, and else is obeyed or kept. */
    ghost predicate PendingTried(s: Snapshot, t: Snapshot) {
      var p := s.pending;
      if p == 0 || p !in s.tree.nodes then t == s
      else if !Below(s.tree, s.sync, p) || p == s.sync then t == s.(pending := 0, invalid := if Astray(s, p) then p else s.invalid)
      else
        && (MovedTo(s, p, t) || (t == s.(invalid := p, consistent := t.consistent) && (s.consistent ==> t.consistent)))
        && (p == s.best ==> t.sync == p)
        && (s.consistent ==> (t.sync == p <==> Follows(s, p)))
    }

    /** A block was entered; it is the best one if it weighs more and connects. */
    ghost predicate Entered(s: Snapshot, block: Block, trust: nat, t: Snapshot, ok: bool) {
      && OneMore(s, block, trust, t) && t.sync == s.sync && t.pending == s.pending && t.invalid == s.invalid
      && Files(t.tree, t.disk)
      && var heavier := Outweighs(s.tree, block, trust, s.best);
      && (!heavier ==> ok)
      && t.best == (if heavier && ok then block.hash else s.best)
      && (s.consistent && NoCollisions(t.disk) && HeightInCoinbase(block, s.tree.nodes[block.hashPrev].height + 1) ==>
            && block.hash in t.tree.nodes
            && (heavier ==> (ok <==> Passable(t.tree, t.disk, block.hash, Turn(t.tree, block.hash, s.best), s.best)))
            && (t.consistent <==> !heavier || !ok || Passable(t.tree, t.disk, block.hash, t.tree.Height(block.hash), s.best)))
    }

    lemma {:induction false} EnteredFrom(s: Snapshot, block: Block, trust: nat, t: Snapshot, ok: bool, sane: bool)
      requires OneMore(s, block, trust, t) && t.sync == s.sync && t.pending == s.pending && t.invalid == s.invalid
      requires sane == (s.consistent && NoCollisions(t.disk) && HeightInCoinbase(block, s.tree.nodes[block.hashPrev].height + 1))
      requires Files(t.tree, t.disk) && block.hash in t.tree.nodes && s.best in s.tree.nodes && s.best in t.tree.nodes
      requires t.tree.nodes[s.best] == s.tree.nodes[s.best]
      requires var heavier := Outweighs(s.tree, block, trust, s.best); (!heavier ==> ok) && t.best == if heavier && ok then block.hash else s.best
      requires sane && t.best == s.best ==> t.consistent
      requires sane && Outweighs(s.tree, block, trust, s.best) ==>
        var signed, powOver := s.tree.nodes[s.best].height >= chain.totalBlocksEstimate, s.tree.nodes[s.best].nTime > chain.nTimeV231;
        var turn, top := Turn(t.tree, block.hash, s.best), t.tree.Height(block.hash);
        && turn <= top && (ok <==> BranchPasses(chain.rules, t.tree, t.disk, block.hash, turn, s.best, signed, powOver))
        && (ok ==> (t.consistent <==> BranchPasses(chain.rules, t.tree, t.disk, block.hash, top, s.best, signed, powOver)))
      ensures Entered(s, block, trust, t, ok)
    {
      hide BranchPasses, Turn, HeightInCoinbase, NoCollisions, OneMore, Tree.Chain, HasBlocks;
      if !sane { return; }
      assert t.tree.Valid();
      hide Files, Tree.Valid;
    }

    /** A block arrives: nothing happens, or it is entered, and then, unless it was refused, the pending checkpoint is tried. */
    ghost predicate Arrived(s: Snapshot, block: Block, trust: nat, t: Snapshot) {
      if block.hash in s.tree.nodes || block.hash !in t.tree.nodes then t == s
      else
        && block.hashPrev in s.tree.nodes && HeightInCoinbase(block, s.tree.nodes[block.hashPrev].height + 1)
        && exists m: Snapshot, ok: bool :: Entered(s, block, trust, m, ok) && if ok then PendingTried(m, t) else t == m
    }

    /** A checkpoint message: without a good signature it is ignored; an unknown block becomes pending; a strict descendant of
        the current checkpoint is obeyed if it can be. */
    ghost predicate Told(s: Snapshot, hash: Hash, signatureOk: bool, t: Snapshot) {
      if !signatureOk then t == s
      else if hash !in s.tree.nodes then t == s.(pending := hash)
      else if !Below(s.tree, s.sync, hash) || hash == s.sync then t == s.(invalid := if Astray(s, hash) then hash else s.invalid)
      else
        && (MovedTo(s, hash, t) || (t == s.(invalid := hash, consistent := t.consistent) && (s.consistent ==> t.consistent)))
        && (s.consistent ==> (t.sync == hash <==> Follows(s, hash)))
    }

    /** One event. */
    ghost predicate Stepped(s: Snapshot, e: Event, t: Snapshot) {
      match e
      case BlockArrives(block, trust, _) => Arrived(s, block, trust, t)
      case CheckpointMessage(hash, signatureOk) => Told(s, hash, signatureOk, t)
      case Reset =>
        && t.tree == s.tree && t.disk == s.disk && t.invalid == s.invalid
        && (t.sync == s.sync || t.sync in hardened)
        && (hardened != [] ==>
              var last := hardened[|hardened| - 1];
              t.pending == if last in s.tree.nodes then s.pending else last)
    }

    ghost predicate IsTrace(events: seq<Event>, trace: seq<Snapshot>) {
      |trace| == |events| + 1 && forall i :: 0 <= i < |events| ==> Stepped(trace[i], events[i], trace[i + 1])
    }

    lemma TraceGrows(events: seq<Event>, k: nat, trace: seq<Snapshot>, t: Snapshot)
      requires k < |events| && IsTrace(events[..k], trace) && Stepped(trace[k], events[k], t)
      ensures IsTrace(events[..k + 1], trace + [t])
    {}

    /** What a run has recorded after k events. */
    ghost predicate Recorded(events: seq<Event>, k: nat, history: seq<Hash>, trace: seq<Snapshot>, start: Snapshot, now: Snapshot) {
      && k <= |events| && Extends(start.tree, now.tree)
      && |history| == k + 1 && history[0] == start.sync && history[k] == now.sync
      && (NoReset(events[..k]) ==> Line(now.tree, history))
      && |trace| == k + 1 && trace[0] == start && trace[k] == now && IsTrace(events[..k], trace)
    }

    lemma RecordedStart(events: seq<Event>, s: Snapshot)
      requires Below(s.tree, s.sync, s.sync)
      ensures Recorded(events, 0, [s.sync], [s], s, s)
    {
      LineStart(s.tree, s.sync);
    }

    lemma RecordedNext(events: seq<Event>, k: nat, history: seq<Hash>, trace: seq<Snapshot>, start: Snapshot, s: Snapshot, t: Snapshot)
      requires Recorded(events, k, history, trace, start, s) && k < |events| && Stepped(s, events[k], t)
      requires s.tree.Valid() && t.tree.Valid() && Extends(s.tree, t.tree) && (!events[k].Reset? ==> Below(t.tree, s.sync, t.sync))
      ensures Recorded(events, k + 1, history + [t.sync], trace + [t], start, t)
    {
      hide Stepped, Below, Line, IsTrace, NoReset, Tree.Valid;
      NoResetNext(events, k);
      TraceGrows(events, k, trace, t);
      if NoReset(events[..k + 1]) { LineGrows(s.tree, t.tree, history, t.sync); }
    }

    lemma RecordedEnd(events: seq<Event>, history: seq<Hash>, trace: seq<Snapshot>, start: Snapshot, now: Snapshot)
      requires Recorded(events, |events|, history, trace, start, now)
      ensures Extends(start.tree, now.tree)
      ensures |history| == |events| + 1 && history[0] == start.sync && history[|events|] == now.sync
      ensures NoReset(events) ==> Line(now.tree, history)
      ensures NoReset(events) && Below(now.tree, now.sync, now.best) ==>
                forall i :: 0 <= i < |history| ==> Below(now.tree, history[i], now.best)
      ensures |trace| == |events| + 1 && IsTrace(events, trace) && trace[0] == start && trace[|events|] == now
      ensures (forall e <- events :: e.BlockArrives?) && start.pending !in now.tree.nodes ==>
                now.pending == start.pending && now.sync == start.sync
    {
      hide Line, Below, IsTrace, NoReset;
      assert events[..|events|] == events;
      if (forall e <- events :: e.BlockArrives?) && start.pending !in now.tree.nodes { StaysPending(events, trace, 0); }
      if NoReset(events) && Below(now.tree, now.sync, now.best) { LineBelow(now.tree, history, now.best); }
    }

    lemma ArrivalKeeps(s: Snapshot, block: Block, trust: nat, t: Snapshot)
      requires Arrived(s, block, trust, t)
      ensures s.tree.nodes.Keys <= t.tree.nodes.Keys <= s.tree.nodes.Keys + {block.hash}
      ensures s.pending == 0 || s.pending !in t.tree.nodes ==> t.pending == s.pending && t.sync == s.sync
    {
      hide Entered, PendingTried, HeightInCoinbase;
      if block.hash !in s.tree.nodes && block.hash in t.tree.nodes {
        var m: Snapshot, ok: bool :| Entered(s, block, trust, m, ok) && if ok then PendingTried(m, t) else t == m;
        EnteredKeeps(s, block, trust, m, ok);
        if ok { TriedKeeps(m, t); }
      }
    }

    lemma EnteredKeeps(s: Snapshot, block: Block, trust: nat, m: Snapshot, ok: bool)
      requires Entered(s, block, trust, m, ok)
      ensures m.tree.nodes.Keys == s.tree.nodes.Keys + {block.hash} && m.sync == s.sync && m.pending == s.pending
    {}

    lemma TriedKeeps(m: Snapshot, t: Snapshot)
      requires PendingTried(m, t)
      ensures t.tree == m.tree && (m.pending == 0 || m.pending !in m.tree.nodes ==> t == m)
    {}

    /** While only blocks arrive, a checkpoint stays pending, and the current one stays, until its block is accepted. */
    lemma {:induction false} StaysPending(events: seq<Event>, trace: seq<Snapshot>, i: nat)
      requires IsTrace(events, trace) && i <= |events| && forall e <- events :: e.BlockArrives?
      requires trace[i].pending !in trace[|events|].tree.nodes
      ensures trace[|events|].pending == trace[i].pending && trace[|events|].sync == trace[i].sync
      ensures trace[i].tree.nodes.Keys <= trace[|events|].tree.nodes.Keys
      decreases |events| - i
    {
      hide Arrived;
      if i < |events| {
        Grows(events, trace, i + 1);
        assert events[i] in events && Stepped(trace[i], events[i], trace[i + 1]);
        ArrivalKeeps(trace[i], events[i].block, events[i].trust, trace[i + 1]);
        StaysPending(events, trace, i + 1);
      }
    }

    lemma {:induction false} Grows(events: seq<Event>, trace: seq<Snapshot>, i: nat)
      requires IsTrace(events, trace) && i <= |events| && forall e <- events :: e.BlockArrives?
      ensures trace[i].tree.nodes.Keys <= trace[|events|].tree.nodes.Keys
      decreases |events| - i
    {
      hide Arrived;
      if i < |events| {
        assert events[i] in events && Stepped(trace[i], events[i], trace[i + 1]);
        ArrivalKeeps(trace[i], events[i].block, events[i].trust, trace[i + 1]);
        Grows(events, trace, i + 1);
      }
    }

    /** When the block of the pending checkpoint is accepted on a consistent chain, a checkpoint off the line of the current one
        is dropped; one that became the best block is obeyed; one on a side branch is obeyed exactly if that branch can be
        switched to, and otherwise kept. If the block weighs more and cannot be connected nothing happens. */
    lemma {:induction false} ObeyedOnArrival(s: Snapshot, block: Block, trust: nat, t: Snapshot)
      requires Arrived(s, block, trust, t) && s.consistent && NoCollisions(t.disk)
      requires s.pending == block.hash != 0 && block.hash !in s.tree.nodes && block.hash in t.tree.nodes
      requires s.sync in s.tree.nodes && s.best in s.tree.nodes
      ensures var p, heavier := s.pending, Outweighs(s.tree, block, trust, s.best);
        && Files(t.tree, t.disk)
        && var fits := Passable(t.tree, t.disk, p, Turn(t.tree, p, s.best), s.best);
        && (heavier && !fits ==> t.sync == s.sync && t.pending == p)
        && (!heavier || fits ==>
              if !Below(t.tree, s.sync, p) then t.sync == s.sync && t.pending == 0
              else if heavier || fits then t.sync == p && t.pending == 0 && Below(t.tree, p, t.best)
              else t.sync == s.sync && t.pending == p)
    {
      hide Passable, PendingTried, HeightInCoinbase, NoCollisions, Turn, Tree.Chain, HasBlocks;
      var m: Snapshot, ok: bool :| Entered(s, block, trust, m, ok) && if ok then PendingTried(m, t) else t == m;
      assert m.tree.nodes[s.best] == s.tree.nodes[s.best];
      if ok { NewlyTried(m, t); }
    }

    /** Over a whole run of arrivals: a checkpoint that was pending at the start and whose block arrives with the last of them
        meets that fate, whatever came before. */
    lemma {:induction false} PendingInRun(events: seq<Event>, trace: seq<Snapshot>, n: nat)
      requires IsTrace(events, trace) && |events| == n + 1 && forall e <- events :: e.BlockArrives?
      requires trace[0].pending != 0 && trace[0].pending !in trace[n].tree.nodes && trace[0].pending in trace[n + 1].tree.nodes
      requires trace[n].consistent && NoCollisions(trace[n + 1].disk)
      requires trace[0].sync in trace[0].tree.nodes && trace[n].best in trace[n].tree.nodes
      ensures var p, s, t := trace[0].pending, trace[n], trace[n + 1];
        && events[n].block.hash == p && s.pending == p && s.sync == trace[0].sync && Files(t.tree, t.disk)
        && var heavier, fits := Outweighs(s.tree, events[n].block, events[n].trust, s.best), Passable(t.tree, t.disk, p, Turn(t.tree, p, s.best), s.best);
        && (heavier && !fits ==> t.sync == trace[0].sync && t.pending == p)
        && (!heavier || fits ==>
              if !Below(t.tree, trace[0].sync, p) then t.sync == trace[0].sync && t.pending == 0
              else if heavier || fits then t.sync == p && t.pending == 0 && Below(t.tree, p, t.best)
              else t.sync == trace[0].sync && t.pending == p)
    {
      hide Arrived, Passable, Below, Outweighs, NoCollisions, Files, Turn;
      var before, upTo := events[..n], trace[..n + 1];
      assert IsTrace(before, upTo) && forall e <- before :: e in events;
      StaysPending(before, upTo, 0);
      assert events[n] in events && Stepped(trace[n], events[n], trace[n + 1]);
      ArrivalKeeps(trace[n], events[n].block, events[n].trust, trace[n + 1]);
      ObeyedOnArrival(trace[n], events[n].block, events[n].trust, trace[n + 1]);
    }

    /** What becomes of it once its block is in the tree. */
    lemma {:induction false} NewlyTried(m: Snapshot, t: Snapshot)
      requires PendingTried(m, t) && Files(m.tree, m.disk) && m.pending != 0 && m.pending in m.tree.nodes && m.sync != m.pending
      ensures t.tree == m.tree && t.disk == m.disk
      ensures !Below(m.tree, m.sync, m.pending) ==> t.sync == m.sync && t.pending == 0
      ensures Below(m.tree, m.sync, m.pending) && m.pending == m.best ==> t.sync == m.pending && t.pending == 0 && Below(t.tree, t.sync, t.best)
      ensures Below(m.tree, m.sync, m.pending) && m.consistent && m.best in m.tree.nodes ==>
        if Passable(m.tree, m.disk, m.pending, Turn(m.tree, m.pending, m.best), m.best)
        then t.sync == m.pending && t.pending == 0 && Below(t.tree, t.sync, t.best)
        else t.sync == m.sync && t.pending == m.pending
    {
      hide Passable, Turn, Tree.Chain, HasBlocks, Below;
    }

    /** On a consistent chain a block that is on it carries a forward link or is the tip, and can be switched to. */
    lemma {:induction false} FollowsExactly(hash: Hash)
      requires Valid() && Below(chain.tree, hashSync, hash)
      ensures IsInMainChain(hash) ==> Below(chain.tree, hash, chain.pindexBest)
      ensures chain.Consistent() ==> (IsInMainChain(hash) <==> Below(chain.tree, hash, chain.pindexBest))
      ensures Below(chain.tree, hash, chain.pindexBest) ==> chain.CanSwitch(hash) && chain.CanConnect(hash)
      ensures Follows(Now(), hash) <==> hash != hashSync && chain.CanSwitch(hash)
      ensures Passable(chain.tree, chain.disk, hash, chain.tree.Height(hash), chain.pindexBest) <==> chain.CanConnect(hash)
    {
      hide Tree.Chain, Passes, Turn, Links, Submap, Synced, HasBlocks, Identified, WellFormed, TrustGrows;
      var tree, best := chain.tree, chain.pindexBest;
      TurnBelow(tree, hash, best);
      if hash in chain.pnext { LinkedIsBelow(tree, chain.pnext, best, hash); }
      if Below(tree, hash, best) {
        OnBest(tree, hash, best);
        if chain.Consistent() && hash != best { LinkedOnMain(tree, chain.pnext, best, hash); }
      }
    }

    /** Follows pprev from `b` down to height `h`. */
    method TraceBack(b: Hash, h: nat) returns (p: Hash)
      requires chain.Valid() && b in chain.tree.nodes && h <= chain.tree.Height(b)
      ensures p in chain.tree.nodes && chain.tree.Height(p) == h && p == chain.tree.Chain(b)[h]
    {
      hide Tree.Chain;
      p := b;
      while chain.tree.Height(p) > h
        invariant p in chain.tree.nodes && h <= chain.tree.Height(p) <= chain.tree.Height(b)
        invariant p == chain.tree.Chain(b)[chain.tree.Height(p)]
        decreases chain.tree.Height(p)
      {
        chain.tree.ChainStep(b, chain.tree.Height(p));
        p := chain.tree.nodes[p].prev.value;
      }
    }

    /** A checkpoint is new if it is a strict descendant of the current one; anything off its line is remembered as invalid. */
    method ValidateSyncCheckpoint(hash: Hash) returns (ok: bool)
      requires chain.Valid() && hashSync in chain.tree.nodes
      modifies this`hashInvalid
      ensures ok <==> Below(chain.tree, hashSync, hash) && hash != hashSync
      ensures hashInvalid ==
              if hash in chain.tree.nodes && !Below(chain.tree, hashSync, hash) && !Below(chain.tree, hash, hashSync)
              then hash else old(hashInvalid)
    {
      hide Tree.Chain;
      if hash !in chain.tree.nodes { return false; }
      chain.tree.AncestorAt(hash, hashSync);
      chain.tree.AncestorAt(hashSync, hash);
      if chain.tree.Height(hash) <= chain.tree.Height(hashSync) {
        var pindex := TraceBack(hashSync, chain.tree.Height(hash));
        if pindex != hash { hashInvalid := hash; }
        return false;
      }
      var pindex := TraceBack(hash, chain.tree.Height(hashSync));
      if pindex != hashSync {
        hashInvalid := hash;
        return false;
      }
      return true;
    }

    /** Above the checkpoint only its descendants may be added, at its height only itself, below it only known blocks. */
    ghost predicate PassesSync(hashBlock: Hash, prev: Hash)
      requires Valid() && prev in chain.tree.nodes
      reads this, chain, chain.txdb
    {
      fTestNet ||
      if chain.tree.Height(prev) + 1 > chain.tree.Height(hashSync) then Below(chain.tree, hashSync, prev)
      else if chain.tree.Height(prev) + 1 == chain.tree.Height(hashSync) then hashBlock == hashSync
      else hashBlock in chain.tree.nodes
    }

    /** Whether a block may be added under `prev`. */
    method CheckSync(hashBlock: Hash, prev: Hash) returns (ok: bool)
      requires Valid() && prev in chain.tree.nodes
      ensures ok <==> PassesSync(hashBlock, prev)
    {
      hide Tree.Chain;
      if fTestNet { return true; }
      var nHeight := chain.tree.Height(prev) + 1;
      chain.tree.AncestorAt(hashSync, prev);
      if nHeight > chain.tree.Height(hashSync) {
        var pindex := TraceBack(prev, chain.tree.Height(hashSync));
        if pindex != hashSync { return false; }
      }
      if nHeight == chain.tree.Height(hashSync) && hashBlock != hashSync { return false; }
      if nHeight < chain.tree.Height(hashSync) && hashBlock !in chain.tree.nodes { return false; }
      return true;
    }

    /** Makes a validated checkpoint part of the best chain, switching chains if it is not. */
    method BringToMainChain(hash: Hash) returns (ok: bool)
      requires Valid() && Below(chain.tree, hashSync, hash)
      modifies chain, chain.txdb
      ensures Valid() && chain.tree == old(chain.tree) && chain.disk == old(chain.disk)
      ensures ok ==> Below(chain.tree, hash, chain.pindexBest)
      ensures !ok || old(IsInMainChain(hash)) ==>
                chain.pindexBest == old(chain.pindexBest) && chain.pnext == old(chain.pnext)
                && chain.txdb.committed == old(chain.txdb.committed)
      ensures old(IsInMainChain(hash)) ==> ok
      ensures ok && !old(IsInMainChain(hash)) ==> chain.pindexBest == hash
      ensures old(chain.Consistent()) ==> (ok <==> old(chain.CanSwitch(hash)))
      ensures old(chain.Consistent()) ==> (chain.Consistent() <==> !ok || old(chain.CanConnect(hash)))
    {
      hide Tree.Chain, BranchPasses, Turn, ChainState.Consistent, Follows;
      FollowsExactly(hash);
      if IsInMainChain(hash) {
        if hash != chain.pindexBest { LinkedIsBelow(chain.tree, chain.pnext, chain.pindexBest, hash); }
        return true;
      }
      ghost var n;
      ok, n := chain.SetBestChain(hash);
    }

    /** Obeys the pending checkpoint once its block has been accepted. */
    method AcceptPendingSyncCheckpoint() returns (ok: bool)
      requires Valid()
      modifies this`hashSync, this`hashPending, this`hashInvalid, chain, chain.txdb
      ensures Valid() && chain.tree == old(chain.tree) && chain.disk == old(chain.disk)
      ensures old(Safe()) || ok ==> Safe()
      ensures Below(chain.tree, old(hashSync), hashSync)
      ensures ok ==> hashSync == old(hashPending) && hashSync != old(hashSync) && hashPending == 0
      ensures !ok ==> hashSync == old(hashSync) && chain.pindexBest == old(chain.pindexBest)
      ensures !ok ==> hashPending == if old(hashPending) in chain.tree.nodes
                && !(Below(chain.tree, hashSync, old(hashPending)) && old(hashPending) != hashSync) then 0 else old(hashPending)
      ensures PendingTried(old(Now()), Now())
      ensures old(hashPending != 0 && Below(chain.tree, hashSync, hashPending) && hashPending != hashSync) ==>
                old(IsInMainChain(hashPending)) ==> ok
      ensures old(chain.Consistent()) ==> (ok <==> old(hashPending != 0 && Obeyable(hashPending)))
    {
      hide Tree.Chain, Passable, Turn, ChainState.Consistent, ChainState.CanSwitch, ChainState.CanConnect, Links, Submap,
        TrustGrows, WellFormed, Tree.Valid;
      if Below(chain.tree, hashSync, hashPending) { FollowsExactly(hashPending); }
      if hashPending == 0 || hashPending !in chain.tree.nodes { return false; }
      ok := ValidateSyncCheckpoint(hashPending);
      if !ok {
        hashPending := 0;
        return;
      }
      ok := BringToMainChain(hashPending);
      if !ok {
        hashInvalid := hashPending;
        return;
      }
      hashSync := hashPending;
      hashPending := 0;
    }

    /** Handles a checkpoint message. */
    method ProcessSyncCheckpoint(hash: Hash, signatureOk: bool) returns (ok: bool)
      requires Valid()
      modifies this`hashSync, this`hashPending, this`hashInvalid, chain, chain.txdb
      ensures Valid() && chain.tree == old(chain.tree) && chain.disk == old(chain.disk)
      ensures old(Safe()) || ok ==> Safe()
      ensures Below(chain.tree, old(hashSync), hashSync)
      ensures ok ==> signatureOk && hashSync == hash && hash != old(hashSync) && hashPending == 0
      ensures !ok ==> hashSync == old(hashSync) && chain.pindexBest == old(chain.pindexBest)
      ensures !ok ==> hashPending == if signatureOk && hash !in chain.tree.nodes then hash else old(hashPending)
      ensures signatureOk && old(Below(chain.tree, hashSync, hash) && hash != hashSync && IsInMainChain(hash)) ==> ok
      ensures old(chain.Consistent()) ==> (ok <==> signatureOk && old(Obeyable(hash)))
      ensures Told(old(Now()), hash, signatureOk, Now())
    {
      hide Tree.Chain, Passable, Turn, ChainState.Consistent, ChainState.CanSwitch, ChainState.CanConnect, Links, Submap,
        TrustGrows, WellFormed, Tree.Valid;
      if Below(chain.tree, hashSync, hash) { FollowsExactly(hash); }
      if !signatureOk { return false; }
      if hash !in chain.tree.nodes {
        hashPending := hash;
        return false;
      }
      ok := ValidateSyncCheckpoint(hash);
      if !ok { return; }
      ok := BringToMainChain(hash);
      if !ok {
        hashInvalid := hash;
        return;
      }
      hashSync := hash;
      hashPending := 0;
    }

    predicate OnMain(b: Hash)
      reads chain
    {
      b in chain.tree.nodes && IsInMainChain(b)
    }

    /** Hardened checkpoint i is on the main chain, and none above it is. */
    predicate HighestOnMain(i: nat)
      requires i < |hardened|
      reads this, chain
    {
      OnMain(hardened[i]) && forall j :: i < j < |hardened| ==> !OnMain(hardened[j])
    }

    /** The last hardened checkpoint is known, but not on the main chain. */
    predicate LastAside()
      requires hardened != []
      reads this, chain
    {
      hardened[|hardened| - 1] in chain.tree.nodes && !IsInMainChain(hardened[|hardened| - 1])
    }

    /** Falls back to the highest hardened checkpoint on the main chain, after trying to switch to the last one. */
    method ResetSyncCheckpoint() returns (ok: bool)
      requires Valid() && hardened != []
      modifies this`hashSync, this`hashPending, chain, chain.txdb
      ensures Valid() && chain.tree == old(chain.tree) && chain.disk == old(chain.disk)
      ensures old(Safe()) || ok ==> Safe()
      ensures ok ==> exists i :: 0 <= i < |hardened| && hardened[i] == hashSync && HighestOnMain(i)
      ensures !ok ==> hashSync == old(hashSync) && chain.pindexBest == old(chain.pindexBest)
      ensures !ok ==> old(LastAside()) || forall h <- hardened :: !OnMain(h)
      ensures old(LastAside()) ==> chain.pindexBest == if ok then hardened[|hardened| - 1] else old(chain.pindexBest)
      ensures old(LastAside() && chain.Consistent()) ==> (ok <==> old(chain.CanSwitch(hardened[|hardened| - 1])))
      ensures !old(LastAside()) ==> chain.pindexBest == old(chain.pindexBest)
      ensures hashPending == if hardened[|hardened| - 1] in chain.tree.nodes then old(hashPending) else hardened[|hardened| - 1]
    {
      hide Tree.Chain, Turn, ChainState.Consistent, ChainState.CanSwitch, ChainState.CanConnect, ChainState.StopsAt, Links, Submap, TrustGrows,
        WellFormed, Tree.Valid;
      var hash := hardened[|hardened| - 1];
      if hash in chain.tree.nodes && !IsInMainChain(hash) {
        ghost var n;
        ok, n := chain.SetBestChain(hash);
        if !ok { return; }
      } else if hash !in chain.tree.nodes {
        hashPending := hash;
      }
      var i := |hardened|;
      while i > 0
        invariant 0 <= i <= |hardened|
        invariant forall j :: i <= j < |hardened| ==> !OnMain(hardened[j])
        invariant old(LastAside()) ==> i == |hardened|
      {
        i := i - 1;
        if hardened[i] in chain.tree.nodes && IsInMainChain(hardened[i]) {
          if hardened[i] != chain.pindexBest {
            LinkedIsBelow(chain.tree, chain.pnext, chain.pindexBest, hardened[i]);
          }
          hashSync := hardened[i];
          assert HighestOnMain(i);
          return true;
        }
      }
      return false;
    }

    method Enter(block: Block, trust: nat) returns (ok: bool)
      requires Valid() && block.hash !in chain.tree.nodes && block.hashPrev in chain.tree.nodes
      modifies chain, chain.txdb
      ensures Valid() && OneMore(old(Now()), block, trust, Now()) && Entered(old(Now()), block, trust, Now(), ok)
    {
      hide Tree.Chain, Links, Submap, BranchPasses, Turn, FirstMisfit, ChainState.Consistent, ChainState.SyncedPart, Identifies, TrustGrows,
        WellFormed, Entered, Tree.Valid, NoCollisions, HeightInCoinbase;
      ghost var s := Now();
      ok := chain.AddToBlockIndex(block, trust);
      TurnBelow(chain.tree, block.hash, s.best);
      ghost var sane := s.consistent && NoCollisions(chain.disk) && HeightInCoinbase(block, s.tree.nodes[block.hashPrev].height + 1);
      if sane { GoodBlock(s.tree, s.disk, block); }
      EnteredFrom(s, block, trust, Now(), ok, sane);
    }

    /** Adding a descendant of the checkpoint keeps the checkpoint on the best chain. */
    method EnterBlock(block: Block, trust: nat) returns (ok: bool)
      requires Valid() && block.hash !in chain.tree.nodes && block.hashPrev in chain.tree.nodes
      modifies chain, chain.txdb
      ensures Valid() && Extends(old(chain.tree), chain.tree) && block.hash in chain.tree.nodes
      ensures old(Safe() && Below(chain.tree, hashSync, block.hashPrev)) ==> Safe()
      ensures old(Below(chain.tree, hashSync, block.hashPrev)) ==> Below(chain.tree, hashSync, block.hash)
      ensures chain.tree.nodes.Keys == old(chain.tree.nodes.Keys) + {block.hash}
      ensures HeightInCoinbase(block, old(chain.tree.Height(block.hashPrev)) + 1) ==>
                old(AllHeighted(chain.tree, chain.disk)) ==> AllHeighted(chain.tree, chain.disk)
      ensures !Outweighs(old(chain.tree), block, trust, old(chain.pindexBest)) ==> ok && chain.pindexBest == old(chain.pindexBest)
      ensures Outweighs(old(chain.tree), block, trust, old(chain.pindexBest)) && ok ==> chain.pindexBest == block.hash
      ensures Entered(old(Now()), block, trust, Now(), ok)
    {
      hide Tree.Chain, Links, Submap, Turn, Passable, ChainState.Consistent, AllHeighted, HeightInCoinbase, NoCollisions, TrustGrows, WellFormed;
      ghost var was, disk, best := chain.tree, chain.disk, chain.pindexBest;
      ok := Enter(block, trust);
      if AllHeighted(was, disk) && HeightInCoinbase(block, was.Height(block.hashPrev) + 1) {
        HeightedMore(was, disk, chain.tree, chain.disk, block);
      }
      if Below(was, hashSync, block.hashPrev) {
        NewBelow(was, chain.tree, hashSync, block);
        if Below(was, hashSync, best) { BelowExtends(was, chain.tree, hashSync, best); }
      }
    }

    /** Accepts a block: known parent, the other acceptance checks, the checkpoint rule, its height in the coinbase; then the
        pending checkpoint is tried. */
    method AcceptBlock(block: Block, trust: nat, otherChecks: bool) returns (ok: bool)
      requires Valid()
      modifies this`hashSync, this`hashPending, this`hashInvalid, chain, chain.txdb
      ensures Valid() && Extends(old(chain.tree), chain.tree)
      ensures Strict() && old(Safe()) ==> Safe()
      ensures Below(chain.tree, old(hashSync), hashSync)
      ensures Strict() && block.hash in chain.tree.nodes && block.hash !in old(chain.tree.nodes) ==>
                otherChecks && Below(chain.tree, old(hashSync), block.hash)
      ensures block.hash in chain.tree.nodes <==>
                old(block.hash in chain.tree.nodes || (block.hashPrev in chain.tree.nodes && otherChecks
                    && (mode == STRICT ==> PassesSync(block.hash, block.hashPrev))
                    && HeightInCoinbase(block, chain.tree.Height(block.hashPrev) + 1)))
      ensures old(AllHeighted(chain.tree, chain.disk)) ==> AllHeighted(chain.tree, chain.disk)
      ensures block.hash in chain.tree.nodes && block.hash !in old(chain.tree.nodes) ==>
                ok || Outweighs(old(chain.tree), block, trust, old(chain.pindexBest))
      ensures ok && Outweighs(old(chain.tree), block, trust, old(chain.pindexBest)) && old(hashPending) == block.hash != 0
              && old(Below(chain.tree, hashSync, block.hashPrev)) ==>
                hashSync == block.hash && hashPending == 0
      ensures Arrived(old(Now()), block, trust, Now())
      ensures block.hash !in chain.tree.nodes ==>
                !ok && chain.tree == old(chain.tree) && chain.pindexBest == old(chain.pindexBest) && hashSync == old(hashSync)
    {
      hide Tree.Chain, Links, Submap, AllHeighted, HeightInCoinbase, Entered, PendingTried, Passable, Obeyable, ChainState.Consistent,
        TrustGrows, WellFormed, NoCollisions;
      if block.hash in chain.tree.nodes || block.hashPrev !in chain.tree.nodes || !otherChecks { return false; }
      var cpSatisfies := CheckSync(block.hash, block.hashPrev);
      if mode == STRICT && !cpSatisfies { return false; }
      if !HeightInCoinbase(block, chain.tree.Height(block.hashPrev) + 1) { return false; }
      ghost var was := chain.tree;
      ok := EnterBlock(block, trust);
      BelowExtends(was, chain.tree, hashSync, hashSync);
      if !ok { return; }
      var accepted := AcceptPendingSyncCheckpoint();
      ok := true;
    }

    method Step(e: Event)
      requires Valid() && hardened != []
      modifies this`hashSync, this`hashPending, this`hashInvalid, chain, chain.txdb
      ensures Valid() && Extends(old(chain.tree), chain.tree)
      ensures old(AllHeighted(chain.tree, chain.disk)) ==> AllHeighted(chain.tree, chain.disk)
      ensures Strict() && old(Safe()) ==> Safe()
      ensures !e.Reset? ==> Below(chain.tree, old(hashSync), hashSync)
      ensures Stepped(old(Now()), e, Now())
    {
      hide Tree.Chain, Links, Submap, Below, AllHeighted, Arrived, Told, ChainState.Consistent;
      var ok;
      match e {
        case BlockArrives(block, trust, otherChecks) => ok := AcceptBlock(block, trust, otherChecks);
        case CheckpointMessage(hash, signatureOk) => ok := ProcessSyncCheckpoint(hash, signatureOk);
        case Reset => ok := ResetSyncCheckpoint();
      }
    }

    /** Any sequence of arrivals, messages and resets. `history` lists the sync-checkpoint before and after every event,
        `trace` the whole state. */
    method Run(events: seq<Event>) returns (ghost history: seq<Hash>, ghost trace: seq<Snapshot>)
      requires Valid() && hardened != []
      modifies this`hashSync, this`hashPending, this`hashInvalid, chain, chain.txdb
      ensures Valid() && Extends(old(chain.tree), chain.tree)
      ensures old(AllHeighted(chain.tree, chain.disk)) ==> AllHeighted(chain.tree, chain.disk)
      ensures Strict() && old(Safe()) ==> Safe()
      ensures |history| == |events| + 1 && history[0] == old(hashSync) && history[|events|] == hashSync
      ensures NoReset(events) ==> Line(chain.tree, history)
      ensures NoReset(events) && Strict() && old(Safe()) ==>
                forall i :: 0 <= i < |history| ==> Below(chain.tree, history[i], chain.pindexBest)
      ensures |trace| == |events| + 1 && IsTrace(events, trace) && trace[0] == old(Now()) && trace[|events|] == Now()
      ensures (forall e <- events :: e.BlockArrives?) && old(hashPending) !in chain.tree.nodes ==>
                hashPending == old(hashPending) && hashSync == old(hashSync)
    {
      hide Recorded, NoReset, Tree.Chain, Links, Submap, Line, AllHeighted, Stepped, IsTrace, ChainState.Consistent, TrustGrows, WellFormed;
      ghost var start := Now();
      history, trace := [hashSync], [Now()];
      RecordedStart(events, start);
      for k := 0 to |events|
        invariant Valid()
        invariant old(AllHeighted(chain.tree, chain.disk)) ==> AllHeighted(chain.tree, chain.disk)
        invariant Strict() && old(Safe()) ==> Safe()
        invariant Recorded(events, k, history, trace, start, Now())
      {
        ghost var was := Now();
        Step(events[k]);
        RecordedNext(events, k, history, trace, start, was, Now());
        history, trace := history + [hashSync], trace + [Now()];
      }
      RecordedEnd(events, history, trace, start, Now());
    }

  }

  /** Each checkpoint is below every later one. */
  ghost predicate Line(tree: Tree, history: seq<Hash>) {
    forall i, j :: 0 <= i <= j < |history| ==> Below(tree, history[i], history[j])
  }

  lemma LineStart(tree: Tree, b: Hash)
    requires Below(tree, b, b)
    ensures Line(tree, [b])
  {}

  lemma LineGrows(tree: Tree, tree': Tree, history: seq<Hash>, next: Hash)
    requires tree.Valid() && tree'.Valid() && Extends(tree, tree') && Line(tree, history)
    requires history != [] && Below(tree', history[|history| - 1], next)
    ensures Line(tree', history + [next])
  {
    forall i, j | 0 <= i <= j < |history + [next]| ensures Below(tree', (history + [next])[i], (history + [next])[j]) {
      if j < |history| {
        BelowExtends(tree, tree', history[i], history[j]);
      } else if i < |history| {
        BelowExtends(tree, tree', history[i], history[|history| - 1]);
        BelowTransitive(tree', history[i], history[|history| - 1], next);
      }
    }
  }

  lemma LineBelow(tree: Tree, history: seq<Hash>, best: Hash)
    requires Line(tree, history) && history != [] && Below(tree, history[|history| - 1], best)
    ensures forall i :: 0 <= i < |history| ==> Below(tree, history[i], best)
  {
    forall i | 0 <= i < |history| ensures Below(tree, history[i], best) {
      BelowTransitive(tree, history[i], history[|history| - 1], best);
    }
  }

  /** A block added under a descendant of the checkpoint descends from the checkpoint. */
  lemma NewBelow(tree: Tree, tree': Tree, sync: Hash, block: Block)
    requires Below(tree, sync, block.hashPrev) && tree'.Valid() && Extends(tree, tree')
    requires block.hash in tree'.nodes && tree'.nodes[block.hash].prev == Some(block.hashPrev)
    ensures Below(tree', sync, block.hash)
  {
    BelowExtends(tree, tree', sync, block.hashPrev);
    tree'.ChainPrev(block.hash);
    BelowTransitive(tree', sync, block.hashPrev, block.hash);
  }
}
