/** Block assembly: which pool transactions go into a new block, in which order, and what they add up to. */
module Miner {
  import opened Arith
  import opened Wrappers
  import opened Ledger
  import opened BlockTree
  import opened Rewards
  import opened Connect
  import opened Blocks
  import opened Scheduler
  import opened Assembly

  const MAX_BLOCK_SIZE: nat := 1_000_000

  /** Between 1K and MAX_BLOCK_SIZE - 1K. */
  function BlockMaxSize(p: Policy): nat { Max(1000, Min(MAX_BLOCK_SIZE - 1000, p.blockMaxSizeArg)) }

  function BlockPrioritySize(p: Policy): nat { Min(BlockMaxSize(p), p.blockPrioritySizeArg) }

  function BlockMinSize(p: Policy): nat { Min(BlockMaxSize(p), p.blockMinSizeArg) }

  /** The sizes stay where their settings say they may. */
  lemma Sizes(p: Policy)
    ensures 1_000 <= BlockMaxSize(p) <= 999_000 && (1_000 <= p.blockMaxSizeArg <= 999_000 ==> BlockMaxSize(p) == p.blockMaxSizeArg)
    ensures p.blockMaxSizeArg < 1_000 ==> BlockMaxSize(p) == 1_000
    ensures p.blockMaxSizeArg > 999_000 ==> BlockMaxSize(p) == 999_000
    ensures p.blockPrioritySizeArg <= BlockMaxSize(p) ==> BlockPrioritySize(p) == p.blockPrioritySizeArg
    ensures p.blockPrioritySizeArg > BlockMaxSize(p) ==> BlockPrioritySize(p) == BlockMaxSize(p)
    ensures p.blockMinSizeArg <= BlockMaxSize(p) ==> BlockMinSize(p) == p.blockMinSizeArg
    ensures p.blockMinSizeArg > BlockMaxSize(p) ==> BlockMinSize(p) == BlockMaxSize(p)
  {}

  predicate TimeOk(p: Policy, tx: Tx) { tx.nTime <= p.nAdjustedTime && (p.fProofOfStake ==> tx.nTime <= p.nBlockTime) }

  /** What it takes to be collected, given the pending changes. */
  ghost predicate Fits(r: Rules, cx: Context, db: Index, mem: map<Hash, Tx>, pending: Index, tx: Tx)
    requires cx.Valid()
  {
    && AllFetched(db, pending, mem, true, tx.vin)
    && InputsOk(r, cx.Seen(false), tx, FetchedMap(db, pending, mem, true, tx.vin))
  }

  /** The block has room for it and it is not from the future. */
  predicate Room(p: Policy, tx: Tx, nBlockSize: nat, nSigOps: nat) {
    nBlockSize + p.size(tx) < BlockMaxSize(p) && nSigOps < MAX_BLOCK_SIGOPS && TimeOk(p, tx)
  }

  /** Past the minimum size transactions that pay too little are skipped, once the order is by fee. */
  predicate TooCheap(p: Policy, q: TxPriority, nBlockSize: nat, sorted: bool) {
    sorted && q.dFeePerKb < p.nMinTxFee as real && nBlockSize + p.size(q.tx) >= BlockMinSize(p)
  }

  /** Exactly these transactions are collected. */
  ghost predicate Wanted(p: Policy, r: Rules, cx: Context, db: Index, mem: map<Hash, Tx>, pending: Index, q: TxPriority,
                         nBlockSize: nat, nBlockSigOps: nat, sorted: bool)
    requires cx.Valid()
  {
    && Room(p, q.tx, nBlockSize, nBlockSigOps + TxSigOps(r, db, mem, q.tx)) && !TooCheap(p, q, nBlockSize, sorted)
    && Fits(r, cx, db, mem, pending, q.tx) && Fee(db, mem, q.tx) >= p.minFee(q.tx, nBlockSize)
  }

  /** The order changes to that by fee for good with the first transaction that has room but passes the
      priority size or has too little priority. */
  predicate NowByFee(p: Policy, r: Rules, q: TxPriority, nBlockSize: nat, nBlockSigOps: nat, sorted: bool) {
    sorted || (Room(p, q.tx, nBlockSize, nBlockSigOps + r.legacySigOps(q.tx))
               && (nBlockSize + p.size(q.tx) >= BlockPrioritySize(p) || q.dPriority < (COIN * 144 / 250) as real))
  }

  /** Decides about one transaction. */
  method TryAdd(p: Policy, r: Rules, cx: Context, txdb: TxDb, mem: map<Hash, Tx>, testPool: Index, q: TxPriority,
                nBlockSize: nat, nBlockSigOps: nat, sorted: bool)
    returns (added: bool, sorted': bool, testPool': Index, nTxSigOps: nat, nTxFees: int)
    requires cx.Valid() && !q.tx.IsCoinBase() && WellFormed(txdb.View())
    requires forall h <- testPool :: PendingOk(txdb.View(), mem, h, testPool[h])
    ensures added <==> Wanted(p, r, cx, txdb.View(), mem, testPool, q, nBlockSize, nBlockSigOps, sorted)
    ensures sorted' == NowByFee(p, r, q, nBlockSize, nBlockSigOps, sorted)
    ensures !added ==> testPool' == testPool
    ensures added ==>
      && testPool' == Collected(testPool, FetchedMap(txdb.View(), testPool, mem, true, q.tx.vin), q.tx)
      && nTxSigOps == TxSigOps(r, txdb.View(), mem, q.tx) && nTxFees == Fee(txdb.View(), mem, q.tx)
  {
    hide Fits;
    var tx := q.tx;
    added, sorted', testPool', nTxFees := false, sorted, testPool, 0;
    var nTxSize := p.size(tx);
    nTxSigOps := r.legacySigOps(tx);
    if nBlockSize + nTxSize >= BlockMaxSize(p) { return; }
    if nBlockSigOps + nTxSigOps >= MAX_BLOCK_SIGOPS { return; }
    if tx.nTime > p.nAdjustedTime || (p.fProofOfStake && tx.nTime > p.nBlockTime) { return; }
    var nMinFee := p.minFee(tx, nBlockSize);
    if sorted && q.dFeePerKb < p.nMinTxFee as real && nBlockSize + nTxSize >= BlockMinSize(p) { return; }
    if !sorted && (nBlockSize + nTxSize >= BlockPrioritySize(p) || q.dPriority < (COIN * 144 / 250) as real) {
      sorted' := true;
    }
    added, testPool', nTxSigOps, nTxFees := Collect(r, cx, txdb, mem, testPool, tx, nMinFee, nBlockSigOps, nTxSigOps);
  }

  /** Fetches and connects its inputs, if it pays enough and its signature operations fit. */
  method Collect(r: Rules, cx: Context, txdb: TxDb, mem: map<Hash, Tx>, testPool: Index, tx: Tx, nMinFee: int,
                 nBlockSigOps: nat, nLegacy: nat)
    returns (added: bool, testPool': Index, nTxSigOps: nat, nTxFees: int)
    requires cx.Valid() && !tx.IsCoinBase() && WellFormed(txdb.View()) && nLegacy == r.legacySigOps(tx)
    requires forall h <- testPool :: PendingOk(txdb.View(), mem, h, testPool[h])
    ensures added <==>
      && Fits(r, cx, txdb.View(), mem, testPool, tx) && Fee(txdb.View(), mem, tx) >= nMinFee
      && nBlockSigOps + TxSigOps(r, txdb.View(), mem, tx) < MAX_BLOCK_SIGOPS
    ensures !added ==> testPool' == testPool
    ensures added ==>
      && testPool' == Collected(testPool, FetchedMap(txdb.View(), testPool, mem, true, tx.vin), tx)
      && nTxSigOps == TxSigOps(r, txdb.View(), mem, tx) && nTxFees == Fee(txdb.View(), mem, tx)
  {
    added, testPool', nTxSigOps, nTxFees := false, testPool, nLegacy, 0;
    var ok, inputs, fInvalid := FetchInputs(tx, txdb, testPool, mem, false, true);
    if !ok {
      NotFetched(r, cx, txdb.View(), mem, testPool, tx);
      return;
    }
    InputsTrue(txdb.View(), mem, testPool, tx.vin, inputs);
    var nValueIn := GetValueIn(inputs, tx.vin);
    nTxFees := nValueIn - ValueOut(tx.vout);
    if nTxFees < nMinFee { return; }
    nTxSigOps := nLegacy + r.p2shSigOps(tx, PrevOuts(inputs, tx.vin));
    if nBlockSigOps + nTxSigOps >= MAX_BLOCK_SIGOPS { return; }
    var pool;
    ok, pool := ConnectInputs(r, cx, tx, inputs, testPool, InMempool, false, true);
    if !ok { return; }
    testPool' := pool[tx.hash := NewEntry(InMempool, tx)];
    added := true;
  }

  lemma NotFetched(r: Rules, cx: Context, db: Index, mem: map<Hash, Tx>, pending: Index, tx: Tx)
    requires cx.Valid()
    requires AllFetched(db, pending, mem, true, tx.vin) ==>
      exists o <- tx.vin :: !Has(FetchedMap(db, pending, mem, true, tx.vin), o)
    ensures !Fits(r, cx, db, mem, pending, tx)
  {
    if AllFetched(db, pending, mem, true, tx.vin) {
      var ins := FetchedMap(db, pending, mem, true, tx.vin);
      var o :| o in tx.vin && !Has(ins, o);
      MissingNotOk(r, cx.Seen(false), tx, ins, o);
    }
  }

  /** The value of the inputs. */
  method GetValueIn(ins: PrevTxs, vin: seq<OutPoint>) returns (n: int)
    ensures n == SumIn(ins, vin)
  {
    n := 0;
    for i := 0 to |vin|
      invariant n == SumIn(ins, vin[..i])
    {
      assert vin[..i + 1][..i] == vin[..i];
      n := n + PrevOut(ins, vin[i]);
    }
    assert vin[..|vin|] == vin;
  }

  lemma InputsTrue(db: Index, mem: map<Hash, Tx>, pending: Index, vin: seq<OutPoint>, ins: PrevTxs)
    requires WellFormed(db) && forall g <- pending :: PendingOk(db, mem, g, pending[g])
    requires AllFetched(db, pending, mem, true, vin) && ins == FetchedMap(db, pending, mem, true, vin)
    requires forall o <- vin :: Has(ins, o)
    ensures SumIn(ins, vin) == TrueIn(db, mem, vin) && PrevOuts(ins, vin) == TrueOuts(db, mem, vin)
    ensures forall o <- vin :: o.hash in ins
  {
    forall o | o in vin ensures o.hash in ins && ins[o.hash] == Fetched(db, pending, mem, true, o.hash).value {
      assert o.hash in InputHashes(vin);
    }
    SumInIsTrue(db, mem, pending, vin, ins);
  }

  /** What is true of the transactions collected so far, wherever they come from. */
  ghost predicate Assembled(p: Policy, r: Rules, cx: Context, db: Index, mem: map<Hash, Tx>, block: Hash, vtx: seq<Tx>)
    requires cx.Valid()
  {
    && (forall i :: 0 <= i < |vtx| ==> vtx[i].hash in mem && mem[vtx[i].hash] == vtx[i] && Candidate(p, vtx[i]) && TimeOk(p, vtx[i]))
    && (forall i :: 0 <= i < |vtx| ==> Sound(r, cx, db, mem, vtx[i]))
    && BlockSpends(db, block, vtx)
  }

  lemma AssembledMore(p: Policy, r: Rules, cx: Context, db: Index, mem: map<Hash, Tx>, block: Hash, vtx: seq<Tx>, tx: Tx)
    requires cx.Valid() && Assembled(p, r, cx, db, mem, block, vtx)
    requires tx.hash in mem && mem[tx.hash] == tx && Candidate(p, tx) && TimeOk(p, tx) && tx.hash !in db
    requires Spendable(ConnectTxs(db, block, vtx), tx.vin) && tx.hash !in TxIds(vtx) && Sound(r, cx, db, mem, tx)
    ensures Assembled(p, r, cx, db, mem, block, vtx + [tx]) && TxIds(vtx + [tx]) == TxIds(vtx) + {tx.hash}
  {
    var now := vtx + [tx];
    forall i | 0 <= i < |now| ensures TxSpends(db, block, now, i) {
      if i < |vtx| {
        assert now[..i] == vtx[..i];
        assert TxSpends(db, block, vtx, i);
      } else {
        assert now[..i] == vtx;
      }
    }
    forall i | 0 <= i < |vtx| ensures vtx[i].hash in TxIds(vtx) { assert vtx[i] in vtx; }
  }

  lemma SumsMore(p: Policy, r: Rules, db: Index, mem: map<Hash, Tx>, vtx: seq<Tx>, tx: Tx)
    ensures SumSize(p.size, vtx + [tx]) == SumSize(p.size, vtx) + p.size(tx)
    ensures SumSigOps(r, db, mem, vtx + [tx]) == SumSigOps(r, db, mem, vtx) + TxSigOps(r, db, mem, tx)
    ensures Fees(db, mem, vtx + [tx]) == Fees(db, mem, vtx) + Fee(db, mem, tx)
  {}

  /** All of that for one more transaction. */
  lemma Join(p: Policy, r: Rules, cx: Context, db: Index, mem: map<Hash, Tx>, block: Hash, pending: Index, vtx: seq<Tx>, tx: Tx)
    requires cx.Valid() && WellFormed(db) && Assembled(p, r, cx, db, mem, block, vtx) && TestPoolOk(db, mem, block, pending, vtx)
    requires tx.hash in mem && mem[tx.hash] == tx && Candidate(p, tx) && TimeOk(p, tx) && tx.hash !in db
    requires Fits(r, cx, db, mem, pending, tx) && tx.hash !in TxIds(vtx)
    ensures Assembled(p, r, cx, db, mem, block, vtx + [tx]) && TxIds(vtx + [tx]) == TxIds(vtx) + {tx.hash}
    ensures TestPoolOk(db, mem, block, Collected(pending, FetchedMap(db, pending, mem, true, tx.vin), tx), vtx + [tx])
    ensures SumSize(p.size, vtx + [tx]) == SumSize(p.size, vtx) + p.size(tx)
    ensures SumSigOps(r, db, mem, vtx + [tx]) == SumSigOps(r, db, mem, vtx) + TxSigOps(r, db, mem, tx)
    ensures Fees(db, mem, vtx + [tx]) == Fees(db, mem, vtx) + Fee(db, mem, tx)
  {
    hide Assembled, Sound, InputsOk, Collected;
    Pending(db, mem, block, pending, vtx);
    FitsSound(r, cx, db, mem, pending, tx);
    CollectedSpends(r, cx, db, mem, block, pending, vtx, tx);
    CollectedOk(db, mem, block, pending, vtx, tx);
    AssembledMore(p, r, cx, db, mem, block, vtx, tx);
    SumsMore(p, r, db, mem, vtx, tx);
  }

  /** The scheduler's state. */
  ghost predicate Scheduled(p: Policy, db: Index, mem: map<Hash, Tx>, orphans: seq<Orphan>, dependers: map<Hash, seq<nat>>,
                            queue: seq<TxPriority>, considered: set<Hash>, emitted: set<Hash>) {
    && QueueOk(mem, queue, considered) && Released(p, db, mem, queue, considered, emitted)
    && OrphansOk(p, db, mem, orphans, emitted) && DependersOk(db, orphans, dependers)
    && AllPriced(p, db, mem, orphans, queue)
  }

  /** One turn of the loop: the transaction considered, how the block stood, and whether it was collected. */
  datatype Decision = Decision(q: TxPriority, vtx: seq<Tx>, pending: Index, sorted: bool, added: bool)

  /** Every decision was the right one for the block as it stood, and together they give the block as it stands now. */
  ghost predicate Decided(p: Policy, r: Rules, cx: Context, db: Index, mem: map<Hash, Tx>, turns: seq<Decision>,
                          vtx: seq<Tx>, pending: Index, sorted: bool)
    requires cx.Valid()
  {
    if turns == [] then vtx == [] && pending == map[] && sorted == (BlockPrioritySize(p) == 0) else
      var d := turns[|turns| - 1];
      var nBlockSize, nBlockSigOps := 1000 + SumSize(p.size, d.vtx), 100 + SumSigOps(r, db, mem, d.vtx);
      && Decided(p, r, cx, db, mem, turns[..|turns| - 1], d.vtx, d.pending, d.sorted)
      && p.size(d.q.tx) > 0 && d.q == Priced(p, db, mem, d.q.tx)
      && (d.added <==> Wanted(p, r, cx, db, mem, d.pending, d.q, nBlockSize, nBlockSigOps, d.sorted))
      && sorted == NowByFee(p, r, d.q, nBlockSize, nBlockSigOps, d.sorted)
      && (if d.added then vtx == d.vtx + [d.q.tx] && AllFetched(db, d.pending, mem, true, d.q.tx.vin)
                          && pending == Collected(d.pending, FetchedMap(db, d.pending, mem, true, d.q.tx.vin), d.q.tx)
          else vtx == d.vtx && pending == d.pending)
  }

  lemma {:induction false} DecidedMore(p: Policy, r: Rules, cx: Context, db: Index, mem: map<Hash, Tx>, turns: seq<Decision>, d: Decision,
                    vtx: seq<Tx>, pending: Index, sorted: bool)
    requires cx.Valid() && Decided(p, r, cx, db, mem, turns, d.vtx, d.pending, d.sorted)
    requires p.size(d.q.tx) > 0 && d.q == Priced(p, db, mem, d.q.tx)
    requires var nBlockSize, nBlockSigOps := 1000 + SumSize(p.size, d.vtx), 100 + SumSigOps(r, db, mem, d.vtx);
      && (d.added <==> Wanted(p, r, cx, db, mem, d.pending, d.q, nBlockSize, nBlockSigOps, d.sorted))
      && sorted == NowByFee(p, r, d.q, nBlockSize, nBlockSigOps, d.sorted)
    requires d.added ==> vtx == d.vtx + [d.q.tx] && AllFetched(db, d.pending, mem, true, d.q.tx.vin)
    requires d.added ==> pending == Collected(d.pending, FetchedMap(db, d.pending, mem, true, d.q.tx.vin), d.q.tx)
    requires !d.added ==> vtx == d.vtx && pending == d.pending
    ensures Decided(p, r, cx, db, mem, turns + [d], vtx, pending, sorted)
    ensures Hashes(turns + [d]) == Hashes(turns) + {d.q.tx.hash}
  {
    hide Wanted, NowByFee, Priced, Collected, SumSize, SumSigOps, BlockPrioritySize, AllFetched, FetchedMap;
    assert (turns + [d])[..|turns|] == turns;
  }

  /** Which of two transactions is taken first: the one of the higher priority, value times age over size, and at equal
      priority the one of the higher fee per 1000 bytes; or the other way round. */
  ghost predicate Precedes(p: Policy, db: Index, mem: map<Hash, Tx>, byFee: bool, a: Tx, b: Tx) {
    && p.size(a) > 0 && p.size(b) > 0
    && var priorityA, priorityB := AgedValue(p, db, a.vin) / p.size(a) as real, AgedValue(p, db, b.vin) / p.size(b) as real;
    var feeA, feeB := Fee(db, mem, a) as real / (p.size(a) as real / 1000.0), Fee(db, mem, b) as real / (p.size(b) as real / 1000.0);
    if byFee then feeA > feeB || (feeA == feeB && priorityA > priorityB)
    else priorityA > priorityB || (priorityA == priorityB && feeA > feeB)
  }

  /** Nothing that was free to be taken and was not taken before came before this one. */
  ghost predicate TakenFirst(p: Policy, db: Index, mem: map<Hash, Tx>, d: Decision, before: set<Hash>) {
    forall h :: h in mem && Candidate(p, mem[h]) && Waits(db, mem[h]) <= TxIds(d.vtx) && h !in before ==>
      !Precedes(p, db, mem, d.sorted, mem[h], d.q.tx)
  }

  /** This holds of every turn. */
  ghost predicate InOrder(p: Policy, db: Index, mem: map<Hash, Tx>, turns: seq<Decision>) {
    forall k :: 0 <= k < |turns| ==> TakenFirst(p, db, mem, turns[k], Hashes(turns[..k]))
  }

  lemma NextInOrder(p: Policy, db: Index, mem: map<Hash, Tx>, turns: seq<Decision>, d: Decision)
    requires InOrder(p, db, mem, turns) && TakenFirst(p, db, mem, d, Hashes(turns))
    ensures InOrder(p, db, mem, turns + [d])
  {
    hide TakenFirst, Hashes;
    forall k | 0 <= k <= |turns| ensures TakenFirst(p, db, mem, (turns + [d])[k], Hashes((turns + [d])[..k])) {
      assert (turns + [d])[..k] == turns[..k];
      assert turns[..|turns|] == turns;
    }
  }

  /** The top of the queue is that of all that are free to be taken. */
  lemma TopOfAll(p: Policy, db: Index, mem: map<Hash, Tx>, queue: seq<TxPriority>, considered: set<Hash>, emitted: set<Hash>,
                 orphans: seq<Orphan>, sorted: bool, q: TxPriority, h: Hash)
    requires QueueOk(mem, queue, considered) && Released(p, db, mem, queue, considered, emitted) && AllPriced(p, db, mem, orphans, queue)
    requires q in queue && forall b <- queue :: !Less(sorted, q, b)
    requires h in mem && h !in considered && Candidate(p, mem[h]) && Waits(db, mem[h]) <= emitted
    ensures !Precedes(p, db, mem, sorted, mem[h], q.tx)
  {
    hide Candidate, Waits, AgedValue, Fee;
    var i :| 0 <= i < |queue| && queue[i].tx.hash == h;
    var j :| 0 <= j < |queue| && queue[j] == q;
    assert queue[i] == Priced(p, db, mem, mem[h]) && q == Priced(p, db, mem, q.tx);
    assert !Less(sorted, q, queue[i]);
  }

  function Hashes(turns: seq<Decision>): set<Hash> { set d <- turns :: d.q.tx.hash }

  /** Takes the best entry off the queue. */
  method Pop(byFee: bool, queue: seq<TxPriority>) returns (q: TxPriority, rest: seq<TxPriority>, ghost i: nat)
    requires queue != []
    ensures i < |queue| && q == queue[i] && rest == DropAt(queue, i)
    ensures forall j :: 0 <= j < |queue| ==> !Less(byFee, q, queue[j])
  {
    ghost var w := HasTop(byFee, queue);
    var n: nat :| n < |queue| && forall j :: 0 <= j < |queue| ==> !Less(byFee, queue[n], queue[j]);
    return queue[n], DropAt(queue, n), n;
  }

  /** The same for the scheduler. */
  method TakeBest(p: Policy, ghost db: Index, mem: map<Hash, Tx>, ghost dependers: map<Hash, seq<nat>>, ghost orphans: seq<Orphan>,
                  queue: seq<TxPriority>, sorted: bool, ghost considered: set<Hash>, ghost emitted: set<Hash>)
    returns (q: TxPriority, rest: seq<TxPriority>)
    requires Resolves(p, db, mem) && Scheduled(p, db, mem, orphans, dependers, queue, considered, emitted) && queue != []
    ensures q.tx.hash in mem && mem[q.tx.hash] == q.tx && q.tx.hash !in considered && Candidate(p, q.tx)
    ensures !q.tx.IsCoinBase() && q.tx.hash !in db && p.size(q.tx) > 0 && q == Priced(p, db, mem, q.tx)
    ensures Scheduled(p, db, mem, orphans, dependers, rest, considered + {q.tx.hash}, emitted)
    ensures forall h :: h in mem && Candidate(p, mem[h]) && Waits(db, mem[h]) <= emitted && h !in considered ==>
              !Precedes(p, db, mem, sorted, mem[h], q.tx)
  {
    hide Scheduled, Resolves, Candidate, Priced, Waits, Precedes;
    ghost var i;
    q, rest, i := Pop(sorted, queue);
    BestOfAll(p, db, mem, dependers, orphans, queue, considered, emitted, sorted, q);
    PoppedOk(p, db, mem, orphans, dependers, queue, considered, emitted, i);
    CandidateFacts(p, db, mem, q.tx);
  }

  lemma BestOfAll(p: Policy, db: Index, mem: map<Hash, Tx>, dependers: map<Hash, seq<nat>>, orphans: seq<Orphan>, queue: seq<TxPriority>,
                  considered: set<Hash>, emitted: set<Hash>, sorted: bool, q: TxPriority)
    requires Scheduled(p, db, mem, orphans, dependers, queue, considered, emitted) && q in queue
    requires forall j :: 0 <= j < |queue| ==> !Less(sorted, q, queue[j])
    ensures forall h :: h in mem && Candidate(p, mem[h]) && Waits(db, mem[h]) <= emitted && h !in considered ==>
              !Precedes(p, db, mem, sorted, mem[h], q.tx)
  {
    hide QueueOk, Released, OrphansOk, DependersOk, AllPriced, Candidate, Waits, Precedes, Less;
    forall h | h in mem && Candidate(p, mem[h]) && Waits(db, mem[h]) <= emitted && h !in considered
      ensures !Precedes(p, db, mem, sorted, mem[h], q.tx)
    {
      TopOfAll(p, db, mem, queue, considered, emitted, orphans, sorted, q, h);
    }
  }

  /** Lets the transactions that wait for `hash` join the queue. */
  method Admit(p: Policy, db: Index, mem: map<Hash, Tx>, hash: Hash, dependers: map<Hash, seq<nat>>, orphans0: seq<Orphan>,
               queue0: seq<TxPriority>, ghost considered: set<Hash>, ghost emitted: set<Hash>)
    returns (orphans: seq<Orphan>, queue: seq<TxPriority>)
    requires Scheduled(p, db, mem, orphans0, dependers, queue0, considered, emitted) && hash !in emitted
    ensures Scheduled(p, db, mem, orphans, dependers, queue, considered, emitted + {hash})
  {
    hide QueueOk, Released, OrphansOk, Freed, Waits, Appended, AllPriced;
    ghost var list := if hash in dependers then dependers[hash] else [];
    assert forall k <- list :: k < |orphans0|;
    orphans, queue := orphans0, queue0;
    ghost var pushed: seq<nat> := [];
    NothingAppended(queue0, orphans0);
    if hash in dependers {
      orphans, queue, pushed := Release(hash, dependers[hash], orphans0, queue0);
    }
    CrossedOffOk(p, db, mem, orphans0, orphans, dependers, list, emitted, hash);
    PricedOn(p, db, mem, orphans0, orphans, queue0, queue, list, pushed, hash);
    ReleaseOk(p, db, mem, orphans0, queue0, queue, list, pushed, considered, emitted, hash);
  }

  lemma NothingAppended(queue: seq<TxPriority>, orphans: seq<Orphan>)
    ensures Appended(queue, queue, orphans, [])
  {}

  /** The block and the scheduler between two turns of the loop. */
  datatype Progress = Progress(vtx: seq<Tx>, testPool: Index, nBlockSize: nat, nBlockSigOps: nat, nFees: int, sorted: bool,
                               orphans: seq<Orphan>, queue: seq<TxPriority>)

  /** What the loop keeps true. */
  ghost predicate Going(p: Policy, r: Rules, cx: Context, db: Index, mem: map<Hash, Tx>, block: Hash, dependers: map<Hash, seq<nat>>,
                        s: Progress, considered: set<Hash>, turns: seq<Decision>)
    requires cx.Valid()
  {
    && Scheduled(p, db, mem, s.orphans, dependers, s.queue, considered, TxIds(s.vtx))
    && Assembled(p, r, cx, db, mem, block, s.vtx) && TestPoolOk(db, mem, block, s.testPool, s.vtx)
    && s.nBlockSize == 1000 + SumSize(p.size, s.vtx) && (s.vtx != [] ==> s.nBlockSize < BlockMaxSize(p))
    && s.nBlockSigOps == 100 + SumSigOps(r, db, mem, s.vtx) && s.nBlockSigOps < MAX_BLOCK_SIGOPS
    && s.nFees == Fees(db, mem, s.vtx) && TxIds(s.vtx) <= considered <= mem.Keys
    && Decided(p, r, cx, db, mem, turns, s.vtx, s.testPool, s.sorted)
    && Hashes(turns) == considered && |turns| == |considered| && InOrder(p, db, mem, turns)
  }

  /** The state after the popped transaction was collected. */
  lemma GoingOn(p: Policy, r: Rules, cx: Context, db: Index, mem: map<Hash, Tx>, block: Hash, dependers: map<Hash, seq<nat>>,
                s: Progress, s': Progress, q: TxPriority, considered: set<Hash>, turns: seq<Decision>)
    requires cx.Valid() && WellFormed(db) && Resolves(p, db, mem)
    requires Assembled(p, r, cx, db, mem, block, s.vtx) && TestPoolOk(db, mem, block, s.testPool, s.vtx)
    requires s.nBlockSize == 1000 + SumSize(p.size, s.vtx) && s.nBlockSigOps == 100 + SumSigOps(r, db, mem, s.vtx)
    requires s.nFees == Fees(db, mem, s.vtx) && TxIds(s.vtx) <= considered - {q.tx.hash} && considered <= mem.Keys
    requires q.tx.hash in mem && mem[q.tx.hash] == q.tx && q.tx.hash in considered && Candidate(p, q.tx)
    requires Wanted(p, r, cx, db, mem, s.testPool, q, s.nBlockSize, s.nBlockSigOps, s.sorted)
      && AllFetched(db, s.testPool, mem, true, q.tx.vin)
    requires s' == Progress(s.vtx + [q.tx], Collected(s.testPool, FetchedMap(db, s.testPool, mem, true, q.tx.vin), q.tx),
      s.nBlockSize + p.size(q.tx), s.nBlockSigOps + TxSigOps(r, db, mem, q.tx), s.nFees + Fee(db, mem, q.tx), s'.sorted, s'.orphans, s'.queue)
    requires Scheduled(p, db, mem, s'.orphans, dependers, s'.queue, considered, TxIds(s.vtx) + {q.tx.hash})
    requires Decided(p, r, cx, db, mem, turns, s'.vtx, s'.testPool, s'.sorted) && Hashes(turns) == considered && |turns| == |considered|
    requires InOrder(p, db, mem, turns)
    ensures Going(p, r, cx, db, mem, block, dependers, s', considered, turns)
  {
    hide Wanted, Fits, Collected, Decided, Hashes, InOrder, Scheduled, Resolves, Assembled, TestPoolOk, Candidate, AllFetched, FetchedMap,
      SumSize, SumSigOps, Fees, TxIds, TxSigOps, Fee, BlockMaxSize, TimeOk;
    WantedFacts(p, r, cx, db, mem, s.testPool, q, s.nBlockSize, s.nBlockSigOps, s.sorted);
    CandidateFacts(p, db, mem, q.tx);
    Join(p, r, cx, db, mem, block, s.testPool, s.vtx, q.tx);
  }

  /** The block after a popped transaction was decided about; the scheduler is not told yet. */
  method Decide(p: Policy, r: Rules, cx: Context, txdb: TxDb, mem: map<Hash, Tx>, s: Progress, q: TxPriority, ghost turns: seq<Decision>)
    returns (added: bool, s': Progress, ghost turns': seq<Decision>)
    requires cx.Valid() && WellFormed(txdb.View()) && !q.tx.IsCoinBase()
    requires forall h <- s.testPool :: PendingOk(txdb.View(), mem, h, s.testPool[h])
    requires s.nBlockSize == 1000 + SumSize(p.size, s.vtx) && s.nBlockSigOps == 100 + SumSigOps(r, txdb.View(), mem, s.vtx)
    requires Decided(p, r, cx, txdb.View(), mem, turns, s.vtx, s.testPool, s.sorted)
    requires p.size(q.tx) > 0 && q == Priced(p, txdb.View(), mem, q.tx)
    ensures added <==> Wanted(p, r, cx, txdb.View(), mem, s.testPool, q, s.nBlockSize, s.nBlockSigOps, s.sorted)
    ensures !added ==> s' == s.(sorted := s'.sorted)
    ensures added ==>
      && AllFetched(txdb.View(), s.testPool, mem, true, q.tx.vin)
      && s' == Progress(s.vtx + [q.tx], Collected(s.testPool, FetchedMap(txdb.View(), s.testPool, mem, true, q.tx.vin), q.tx),
           s.nBlockSize + p.size(q.tx), s.nBlockSigOps + TxSigOps(r, txdb.View(), mem, q.tx),
           s.nFees + Fee(txdb.View(), mem, q.tx), s'.sorted, s.orphans, s.queue)
    ensures Decided(p, r, cx, txdb.View(), mem, turns', s'.vtx, s'.testPool, s'.sorted)
    ensures turns' == turns + [Decision(q, s.vtx, s.testPool, s.sorted, added)] && Hashes(turns') == Hashes(turns) + {q.tx.hash}
  {
    hide Wanted, NowByFee, Fits, Collected, Decided, Hashes, Priced, AllFetched, FetchedMap, SumSize, SumSigOps, TxSigOps, Fee,
      WellFormed, PendingOk;
    ghost var db := txdb.View();
    var sorted', testPool', nTxSigOps, nTxFees;
    added, sorted', testPool', nTxSigOps, nTxFees := TryAdd(p, r, cx, txdb, mem, s.testPool, q, s.nBlockSize, s.nBlockSigOps, s.sorted);
    ghost var d := Decision(q, s.vtx, s.testPool, s.sorted, added);
    turns' := turns + [d];
    if added { WantedFacts(p, r, cx, db, mem, s.testPool, q, s.nBlockSize, s.nBlockSigOps, s.sorted); }
    DecidedMore(p, r, cx, db, mem, turns, d, if added then s.vtx + [q.tx] else s.vtx, testPool', sorted');
    if added {
      s' := Progress(s.vtx + [q.tx], testPool', s.nBlockSize + p.size(q.tx), s.nBlockSigOps + nTxSigOps, s.nFees + nTxFees, sorted',
                     s.orphans, s.queue);
    } else {
      s' := s.(sorted := sorted');
    }
  }

  /** One turn of the loop: takes the best entry off the queue and decides about it. */
  method Consider(p: Policy, r: Rules, cx: Context, txdb: TxDb, mem: map<Hash, Tx>, dependers: map<Hash, seq<nat>>, s: Progress,
                  ghost block: Hash, ghost considered: set<Hash>, ghost turns: seq<Decision>)
    returns (s': Progress, ghost considered': set<Hash>, ghost turns': seq<Decision>)
    requires cx.Valid() && WellFormed(txdb.View()) && Resolves(p, txdb.View(), mem) && s.queue != []
    requires Going(p, r, cx, txdb.View(), mem, block, dependers, s, considered, turns)
    ensures Going(p, r, cx, txdb.View(), mem, block, dependers, s', considered', turns') && considered < considered'
  {
    hide Wanted, Collected, Decided, Hashes, InOrder, Precedes, Waits, Priced, Scheduled, Resolves, Assembled, TestPoolOk, Candidate, AllFetched, FetchedMap,
      SumSize, SumSigOps, Fees, TxIds, TxSigOps, Fee, BlockMaxSize, WellFormed, PendingOk;
    ghost var db := txdb.View();
    var q, queue := TakeBest(p, db, mem, dependers, s.orphans, s.queue, s.sorted, considered, TxIds(s.vtx));
    considered' := considered + {q.tx.hash};
    Pending(db, mem, block, s.testPool, s.vtx);
    var added;
    added, s', turns' := Decide(p, r, cx, txdb, mem, s, q, turns);
    NextInOrder(p, db, mem, turns, Decision(q, s.vtx, s.testPool, s.sorted, added));
    var orphans := s.orphans;
    if added {
      orphans, queue := Admit(p, txdb.View(), mem, q.tx.hash, dependers, s.orphans, queue, considered', TxIds(s.vtx));
    }
    s' := s'.(orphans := orphans, queue := queue);
    if added { GoingOn(p, r, cx, db, mem, block, dependers, s, s', q, considered', turns'); }
  }

  /** Collects pool transactions into a block that extends pindexPrev. */
  method CreateNewBlock(p: Policy, r: Rules, cx: Context, txdb: TxDb, mem: map<Hash, Tx>, nHeight: nat, ghost block: Hash)
    returns (vtx: seq<Tx>, nBlockSize: nat, nBlockSigOps: nat, nFees: int, nReward: int, ghost considered: set<Hash>,
             ghost turns: seq<Decision>)
    requires cx.Valid() && WellFormed(txdb.View()) && Resolves(p, txdb.View(), mem)
    ensures Assembled(p, r, cx, txdb.View(), mem, block, vtx)
    ensures nBlockSize == 1000 + SumSize(p.size, vtx) && (vtx != [] ==> nBlockSize < BlockMaxSize(p))
    ensures nBlockSigOps == 100 + SumSigOps(r, txdb.View(), mem, vtx) && nBlockSigOps < 20_000
    ensures nFees == Fees(txdb.View(), mem, vtx)
    ensures nReward == if p.fProofOfStake then 0 else ProofOfWorkSubsidy(nHeight) + nFees
    ensures TxIds(vtx) <= considered <= mem.Keys
    ensures forall h <- mem :: h in considered <==> Candidate(p, mem[h]) && Waits(txdb.View(), mem[h]) <= TxIds(vtx)
    ensures Hashes(turns) == considered && |turns| == |considered|
    ensures exists pending, sorted :: Decided(p, r, cx, txdb.View(), mem, turns, vtx, pending, sorted)
    ensures InOrder(p, txdb.View(), mem, turns)
  {
    hide Decided, Hashes, Scheduled, Resolves, Assembled, TestPoolOk, Waits, Candidate, QueueOk, Released, OrphansOk, DependersOk,
      AllPriced;
    ghost var db := txdb.View();
    var orphans, dependers, queue := BuildQueue(p, txdb.View(), mem);
    considered, turns := {}, [];
    var s := Progress([], map[], 1000, 100, 0, BlockPrioritySize(p) <= 0, orphans, queue);
    NothingDecided(p, r, cx, db, mem);
    Start(p, r, cx, db, mem, block, orphans, dependers, queue);
    while s.queue != []
      invariant Going(p, r, cx, db, mem, block, dependers, s, considered, turns)
      decreases mem.Keys - considered
    {
      s, considered, turns := Consider(p, r, cx, txdb, mem, dependers, s, block, considered, turns);
    }
    Finished(p, db, mem, s.orphans, dependers, considered, TxIds(s.vtx));
    vtx, nBlockSize, nBlockSigOps, nFees := s.vtx, s.nBlockSize, s.nBlockSigOps, s.nFees;
    nReward := if p.fProofOfStake then 0 else GetProofOfWorkReward(nHeight, nFees);
  }

  lemma NothingDecided(p: Policy, r: Rules, cx: Context, db: Index, mem: map<Hash, Tx>)
    requires cx.Valid()
    ensures Decided(p, r, cx, db, mem, [], [], map[], BlockPrioritySize(p) == 0) && Hashes([]) == {}
  {}

  lemma WantedFacts(p: Policy, r: Rules, cx: Context, db: Index, mem: map<Hash, Tx>, pending: Index, q: TxPriority,
                    nBlockSize: nat, nBlockSigOps: nat, sorted: bool)
    requires cx.Valid() && Wanted(p, r, cx, db, mem, pending, q, nBlockSize, nBlockSigOps, sorted)
    ensures nBlockSize + p.size(q.tx) < BlockMaxSize(p) && nBlockSigOps + TxSigOps(r, db, mem, q.tx) < MAX_BLOCK_SIGOPS
    ensures TimeOk(p, q.tx) && Fits(r, cx, db, mem, pending, q.tx) && AllFetched(db, pending, mem, true, q.tx.vin)
  {}

  lemma Start(p: Policy, r: Rules, cx: Context, db: Index, mem: map<Hash, Tx>, block: Hash, orphans: seq<Orphan>, dependers: map<Hash, seq<nat>>,
              queue: seq<TxPriority>)
    requires cx.Valid() && QueueOk(mem, queue, {}) && Released(p, db, mem, queue, {}, {})
    requires OrphansOk(p, db, mem, orphans, {}) && DependersOk(db, orphans, dependers) && AllPriced(p, db, mem, orphans, queue)
    ensures TxIds([]) == {} && Scheduled(p, db, mem, orphans, dependers, queue, {}, {})
    ensures Assembled(p, r, cx, db, mem, block, []) && TestPoolOk(db, mem, block, map[], [])
  {
    assert db + map[] == db;
  }

  lemma PoppedOk(p: Policy, db: Index, mem: map<Hash, Tx>, orphans: seq<Orphan>, dependers: map<Hash, seq<nat>>,
                 queue: seq<TxPriority>, considered: set<Hash>, emitted: set<Hash>, i: nat)
    requires Scheduled(p, db, mem, orphans, dependers, queue, considered, emitted) && i < |queue|
    ensures var h := queue[i].tx.hash; h in mem && mem[h] == queue[i].tx && h !in considered && Candidate(p, queue[i].tx)
    ensures Scheduled(p, db, mem, orphans, dependers, DropAt(queue, i), considered + {queue[i].tx.hash}, emitted)
    ensures p.size(queue[i].tx) > 0 && queue[i] == Priced(p, db, mem, queue[i].tx)
  {
    hide QueueOk, Released, OrphansOk, DependersOk, Candidate, Priced;
    Popped(p, db, mem, queue, considered, emitted, i);
  }

  lemma Pending(db: Index, mem: map<Hash, Tx>, block: Hash, pending: Index, vtx: seq<Tx>)
    requires TestPoolOk(db, mem, block, pending, vtx)
    ensures forall h <- pending :: PendingOk(db, mem, h, pending[h])
  {}

  lemma CandidateFacts(p: Policy, db: Index, mem: map<Hash, Tx>, tx: Tx)
    requires Resolves(p, db, mem) && tx.hash in mem && mem[tx.hash] == tx && Candidate(p, tx)
    ensures !tx.IsCoinBase() && tx.hash !in db
  {}

  lemma Finished(p: Policy, db: Index, mem: map<Hash, Tx>, orphans: seq<Orphan>, dependers: map<Hash, seq<nat>>,
                 considered: set<Hash>, emitted: set<Hash>)
    requires Scheduled(p, db, mem, orphans, dependers, [], considered, emitted)
    ensures considered <= mem.Keys
    ensures forall h <- mem :: h in considered <==> Candidate(p, mem[h]) && Waits(db, mem[h]) <= emitted
  {
    hide Waits, Candidate;
    assert forall h <- mem :: !Listed([], h);
  }

  // ----- what the assembled transactions are good for

  /** Every in-pool transaction whose output is spent comes earlier in the block. */
  lemma ParentsFirst(p: Policy, r: Rules, cx: Context, db: Index, mem: map<Hash, Tx>, block: Hash, vtx: seq<Tx>, i: nat, a: nat)
    requires cx.Valid() && Resolves(p, db, mem) && Assembled(p, r, cx, db, mem, block, vtx) && i < |vtx| && a < |vtx[i].vin|
    requires vtx[i].vin[a].hash in mem
    ensures exists j :: 0 <= j < i && vtx[j].hash == vtx[i].vin[a].hash
  {
    assert Candidate(p, vtx[i]);
    assert TxSpends(db, block, vtx, i);
    ParentFirst(db, block, vtx[..i], vtx[i].vin[a]);
  }

  /** No output is spent twice, within a transaction or across the block. */
  lemma SpentOnce(p: Policy, r: Rules, cx: Context, db: Index, mem: map<Hash, Tx>, block: Hash, vtx: seq<Tx>, i: nat, a: nat, j: nat, b: nat)
    requires cx.Valid() && Assembled(p, r, cx, db, mem, block, vtx)
    requires i < |vtx| && a < |vtx[i].vin| && j < |vtx| && b < |vtx[j].vin| && (i < j || (i == j && a < b))
    ensures vtx[i].vin[a] != vtx[j].vin[b]
  {
    assert Candidate(p, vtx[i]) && Candidate(p, vtx[j]);
    assert TxSpends(db, block, vtx, i) && TxSpends(db, block, vtx, j);
    if i < j { SpentStays(db, block, vtx, i, j, vtx[i].vin[a]); }
  }

  /** With a coinbase of a fresh txid in front, the block passes the spend checks that connecting it makes. */
  lemma BlockCanConnect(p: Policy, r: Rules, cx: Context, db: Index, mem: map<Hash, Tx>, block: Hash, vtx: seq<Tx>, coinbase: Tx)
    requires cx.Valid() && Assembled(p, r, cx, db, mem, block, vtx)
    requires coinbase.IsCoinBase() && coinbase.hash !in db && coinbase.hash !in mem
    ensures BlockSpends(db, block, [coinbase] + vtx)
  {
    forall tx | tx in vtx ensures !tx.IsCoinBase() && tx.hash != coinbase.hash {
      var i :| 0 <= i < |vtx| && vtx[i] == tx;
      assert Candidate(p, vtx[i]);
    }
    AddCoinBase(db, block, coinbase, vtx);
  }
}
