/** The order in which the miner considers pool transactions: a transaction waits until the
    pool transactions it spends are in the block. */
module Scheduler {
  import opened Wrappers
  import opened Ledger
  import opened Assembly

  /** What the miner is told about transactions, and its settings. Priorities are exact numbers here. */
  datatype Policy = Policy(
    size: Tx -> nat, isFinal: Tx -> bool, depth: TxIndex -> int, minFee: (Tx, nat) -> int,
    blockMaxSizeArg: nat, blockPrioritySizeArg: nat, blockMinSizeArg: nat, nMinTxFee: int,
    fProofOfStake: bool, nAdjustedTime: int, nBlockTime: int)

  datatype TxPriority = TxPriority(dPriority: real, dFeePerKb: real, tx: Tx)

  /** COrphan: a transaction that waits for others. */
  datatype Orphan = Orphan(tx: Tx, dependsOn: set<Hash>, dPriority: real, dFeePerKb: real)

  /** TxPriorityCompare: whether a comes after b. */
  predicate Less(byFee: bool, a: TxPriority, b: TxPriority) {
    if byFee then
      if a.dFeePerKb == b.dFeePerKb then a.dPriority < b.dPriority else a.dFeePerKb < b.dFeePerKb
    else
      if a.dPriority == b.dPriority then a.dFeePerKb < b.dFeePerKb else a.dPriority < b.dPriority
  }

  predicate Top(byFee: bool, queue: seq<TxPriority>, i: int) {
    0 <= i < |queue| && forall j :: 0 <= j < |queue| ==> !Less(byFee, queue[i], queue[j])
  }

  lemma {:induction false} HasTop(byFee: bool, queue: seq<TxPriority>) returns (i: nat)
    requires queue != []
    ensures Top(byFee, queue, i)
  {
    var n := |queue| - 1;
    if n == 0 {
      i := 0;
    } else {
      i := HasTop(byFee, queue[..n]);
      assert forall j :: 0 <= j < n ==> !Less(byFee, queue[i], queue[..n][j]);
      if Less(byFee, queue[i], queue[n]) { i := n; }
    }
  }

  ghost predicate Candidate(p: Policy, tx: Tx) { !tx.IsCoinBase() && !tx.IsCoinStake() && p.isFinal(tx) }

  /** The previous transaction is on disk and has this output. */
  ghost predicate Readable(db: Index, o: OutPoint) { o.hash in db && db[o.hash].pos.OnDisk? && o.n < |db[o.hash].pos.tx.vout| }

  /** The pool transactions that must come first. */
  ghost function Waits(db: Index, tx: Tx): set<Hash> { set o <- tx.vin | !Readable(db, o) :: o.hash }

  /** Every input of every candidate is on disk or in the pool, and the pool holds nothing that is on disk. */
  ghost predicate Resolves(p: Policy, db: Index, mem: map<Hash, Tx>) {
    forall h <- mem ::
      && mem[h].hash == h && h !in db && p.size(mem[h]) > 0
      && (Candidate(p, mem[h]) ==>
            forall o <- mem[h].vin :: Readable(db, o) || (o.hash in mem && o.n < |mem[o.hash].vout|))
  }

  predicate Listed(queue: seq<TxPriority>, h: Hash) { exists i :: 0 <= i < |queue| && queue[i].tx.hash == h }

  /** The queue holds pool transactions, each once, and none that was considered already. */
  ghost predicate QueueOk(mem: map<Hash, Tx>, queue: seq<TxPriority>, considered: set<Hash>) {
    && (forall i :: 0 <= i < |queue| ==>
          queue[i].tx.hash in mem && mem[queue[i].tx.hash] == queue[i].tx && queue[i].tx.hash !in considered)
    && forall i, j :: 0 <= i < j < |queue| ==> queue[i].tx.hash != queue[j].tx.hash
  }

  /** Exactly the candidates that need not wait any more are queued or considered. */
  ghost predicate Released(p: Policy, db: Index, mem: map<Hash, Tx>, queue: seq<TxPriority>, considered: set<Hash>, emitted: set<Hash>) {
    && considered <= mem.Keys
    && forall h <- mem :: (Listed(queue, h) || h in considered) <==> Candidate(p, mem[h]) && Waits(db, mem[h]) <= emitted
  }

  /** Every waiting candidate has one orphan record, which says what it still waits for. */
  ghost predicate OrphansOk(p: Policy, db: Index, mem: map<Hash, Tx>, orphans: seq<Orphan>, emitted: set<Hash>) {
    && (forall k :: 0 <= k < |orphans| ==> OrphanOk(p, db, mem, orphans[k], emitted))
    && (forall k, l :: 0 <= k < l < |orphans| ==> orphans[k].tx.hash != orphans[l].tx.hash)
    && forall h <- mem :: Candidate(p, mem[h]) && Waits(db, mem[h]) != {} ==> HasOrphan(orphans, h)
  }

  ghost predicate OrphanOk(p: Policy, db: Index, mem: map<Hash, Tx>, o: Orphan, emitted: set<Hash>) {
    && o.tx.hash in mem && mem[o.tx.hash] == o.tx && Candidate(p, o.tx)
    && Waits(db, o.tx) != {} && o.dependsOn == Waits(db, o.tx) - emitted
  }

  predicate HasOrphan(orphans: seq<Orphan>, h: Hash) { exists k :: 0 <= k < |orphans| && orphans[k].tx.hash == h }

  /** Under each txid, the orphans that wait for it, perhaps more than once. */
  ghost predicate DependersOk(db: Index, orphans: seq<Orphan>, dependers: map<Hash, seq<nat>>) {
    && (forall h <- dependers :: forall k <- dependers[h] :: k < |orphans| && h in Waits(db, orphans[k].tx))
    && forall k :: 0 <= k < |orphans| ==> forall h <- Waits(db, orphans[k].tx) :: h in dependers && k in dependers[h]
  }

  /** Value times age of an input that is on disk. */
  ghost function ValueAge(p: Policy, db: Index, o: OutPoint): real
    requires Readable(db, o)
  {
    db[o.hash].pos.tx.vout[o.n].nValue as real * p.depth(db[o.hash]) as real
  }

  /** The same over all inputs. */
  ghost function AgedValue(p: Policy, db: Index, vin: seq<OutPoint>): real {
    if vin == [] then 0.0 else
      var o := vin[|vin| - 1];
      AgedValue(p, db, vin[..|vin| - 1]) + if Readable(db, o) then ValueAge(p, db, o) else 0.0
  }

  lemma NoInputs(p: Policy, db: Index, mem: map<Hash, Tx>)
    ensures TrueIn(db, mem, []) == 0 && AgedValue(p, db, []) == 0.0
  {}

  lemma NextInput(p: Policy, db: Index, mem: map<Hash, Tx>, vin: seq<OutPoint>, i: nat)
    requires i < |vin|
    ensures TrueIn(db, mem, vin[..i + 1]) == TrueIn(db, mem, vin[..i]) + TrueOut(db, mem, vin[i]).nValue
    ensures AgedValue(p, db, vin[..i + 1]) == AgedValue(p, db, vin[..i]) + if Readable(db, vin[i]) then ValueAge(p, db, vin[i]) else 0.0
  {
    assert vin[..i + 1][..i] == vin[..i];
  }

  /** A transaction with the priority and the fee per 1000 bytes it is due. */
  ghost function Priced(p: Policy, db: Index, mem: map<Hash, Tx>, tx: Tx): TxPriority
    requires p.size(tx) > 0
  {
    TxPriority(AgedValue(p, db, tx.vin) / p.size(tx) as real, Fee(db, mem, tx) as real / (p.size(tx) as real / 1000.0), tx)
  }

  /** Everything in the queue and everything that waits carries its due priority and fee. */
  ghost predicate AllPriced(p: Policy, db: Index, mem: map<Hash, Tx>, orphans: seq<Orphan>, queue: seq<TxPriority>) {
    && (forall i :: 0 <= i < |queue| ==> p.size(queue[i].tx) > 0 && queue[i] == Priced(p, db, mem, queue[i].tx))
    && forall k :: 0 <= k < |orphans| ==> p.size(orphans[k].tx) > 0 && EntryOf(orphans[k]) == Priced(p, db, mem, orphans[k].tx)
  }

  // ----- filling the queue

  /** One input: what its previous transaction is worth, how it counts for priority, and whether to wait for it. */
  method ScanInputs(p: Policy, db: Index, mem: map<Hash, Tx>, tx: Tx, k: nat, dependers0: map<Hash, seq<nat>>)
    returns (dependsOn: set<Hash>, dependers: map<Hash, seq<nat>>, dPriority: real, nTotalIn: int)
    requires forall o <- tx.vin :: Readable(db, o) || (o.hash in mem && o.n < |mem[o.hash].vout|)
    requires forall h <- dependers0 :: k !in dependers0[h]
    requires forall h <- mem :: h !in db
    ensures dependsOn == Waits(db, tx)
    ensures dPriority == AgedValue(p, db, tx.vin) && nTotalIn == TrueIn(db, mem, tx.vin)
    ensures forall h <- dependers0 :: h in dependers
    ensures forall h <- dependers :: forall j :: j in dependers[h] <==>
      (h in dependers0 && j in dependers0[h]) || (j == k && h in dependsOn)
    ensures forall h <- dependsOn :: h in dependers
  {
    hide AgedValue, TrueIn;
    dependsOn, dependers, dPriority, nTotalIn := {}, dependers0, 0.0, 0;
    NoInputs(p, db, mem);
    for i := 0 to |tx.vin|
      invariant dependsOn == set o <- tx.vin[..i] | !Readable(db, o) :: o.hash
      invariant dPriority == AgedValue(p, db, tx.vin[..i]) && nTotalIn == TrueIn(db, mem, tx.vin[..i])
      invariant forall h <- dependers0 :: h in dependers
      invariant forall h <- dependers :: forall j :: j in dependers[h] <==>
        (h in dependers0 && j in dependers0[h]) || (j == k && h in dependsOn)
      invariant forall h <- dependsOn :: h in dependers
    {
      var o := tx.vin[i];
      assert o in tx.vin;
      assert tx.vin[..i + 1] == tx.vin[..i] + [o];
      NextInput(p, db, mem, tx.vin, i);
      if o.hash !in db || !db[o.hash].pos.OnDisk? || o.n >= |db[o.hash].pos.tx.vout| {
        dependers := dependers[o.hash := (if o.hash in dependers then dependers[o.hash] else []) + [k]];
        dependsOn := dependsOn + {o.hash};
        nTotalIn := nTotalIn + mem[o.hash].vout[o.n].nValue;
      } else {
        nTotalIn := nTotalIn + db[o.hash].pos.tx.vout[o.n].nValue;
        dPriority := dPriority + db[o.hash].pos.tx.vout[o.n].nValue as real * p.depth(db[o.hash]) as real;
      }
    }
    assert tx.vin[..|tx.vin|] == tx.vin;
  }

  /** The queue and the orphans after the pool transactions outside `rest` were looked at. */
  ghost predicate Built(p: Policy, db: Index, mem: map<Hash, Tx>, rest: set<Hash>,
                        orphans: seq<Orphan>, dependers: map<Hash, seq<nat>>, queue: seq<TxPriority>) {
    && QueueOk(mem, queue, {})
    && (forall h <- mem :: Listed(queue, h) <==> h !in rest && Candidate(p, mem[h]) && Waits(db, mem[h]) == {})
    && (forall k :: 0 <= k < |orphans| ==> OrphanOk(p, db, mem, orphans[k], {}))
    && (forall k, l :: 0 <= k < l < |orphans| ==> orphans[k].tx.hash != orphans[l].tx.hash)
    && (forall h <- mem :: HasOrphan(orphans, h) <==> h !in rest && Candidate(p, mem[h]) && Waits(db, mem[h]) != {})
    && DependersOk(db, orphans, dependers)
  }

  lemma BuiltSkip(p: Policy, db: Index, mem: map<Hash, Tx>, rest: set<Hash>, orphans: seq<Orphan>,
                  dependers: map<Hash, seq<nat>>, queue: seq<TxPriority>, h: Hash)
    requires Built(p, db, mem, rest, orphans, dependers, queue) && h in mem && !Candidate(p, mem[h])
    ensures Built(p, db, mem, rest - {h}, orphans, dependers, queue)
  {}

  lemma ListedMore(queue: seq<TxPriority>, q: TxPriority, h: Hash)
    ensures Listed(queue + [q], h) <==> Listed(queue, h) || q.tx.hash == h
  {
    if Listed(queue, h) {
      var i :| 0 <= i < |queue| && queue[i].tx.hash == h;
      assert (queue + [q])[i].tx.hash == h;
    }
    assert (queue + [q])[|queue|] == q;
  }

  lemma HasOrphanMore(orphans: seq<Orphan>, o: Orphan, h: Hash)
    ensures HasOrphan(orphans + [o], h) <==> HasOrphan(orphans, h) || o.tx.hash == h
  {
    if HasOrphan(orphans, h) {
      var i :| 0 <= i < |orphans| && orphans[i].tx.hash == h;
      assert (orphans + [o])[i].tx.hash == h;
    }
    assert (orphans + [o])[|orphans|] == o;
  }

  lemma BuiltQueue(p: Policy, db: Index, mem: map<Hash, Tx>, rest: set<Hash>, orphans: seq<Orphan>,
                   dependers: map<Hash, seq<nat>>, queue: seq<TxPriority>, q: TxPriority)
    requires Built(p, db, mem, rest, orphans, dependers, queue) && q.tx.hash in rest && q.tx.hash in mem && mem[q.tx.hash] == q.tx
    requires Candidate(p, q.tx) && Waits(db, q.tx) == {}
    ensures Built(p, db, mem, rest - {q.tx.hash}, orphans, dependers, queue + [q])
  {
    hide DependersOk, Listed, HasOrphan;
    var h := q.tx.hash;
    forall g | g in mem
      ensures Listed(queue + [q], g) <==> g !in rest - {h} && Candidate(p, mem[g]) && Waits(db, mem[g]) == {}
    {
      ListedMore(queue, q, g);
    }
    forall i | 0 <= i < |queue| ensures queue[i].tx.hash != h { ListedAt(queue, i); }
  }

  lemma ListedAt(queue: seq<TxPriority>, i: nat)
    requires i < |queue|
    ensures Listed(queue, queue[i].tx.hash)
  {}

  lemma HasOrphanAt(orphans: seq<Orphan>, k: nat)
    requires k < |orphans|
    ensures HasOrphan(orphans, orphans[k].tx.hash)
  {}

  lemma BuiltOrphan(p: Policy, db: Index, mem: map<Hash, Tx>, rest: set<Hash>, orphans: seq<Orphan>, dependers: map<Hash, seq<nat>>,
                    dependers': map<Hash, seq<nat>>, queue: seq<TxPriority>, o: Orphan)
    requires Built(p, db, mem, rest, orphans, dependers, queue) && o.tx.hash in rest && o.tx.hash in mem
    requires OrphanOk(p, db, mem, o, {})
    requires forall h <- dependers :: h in dependers'
    requires forall h <- dependers' :: forall j :: j in dependers'[h] <==>
      (h in dependers && j in dependers[h]) || (j == |orphans| && h in o.dependsOn)
    requires forall h <- o.dependsOn :: h in dependers'
    ensures Built(p, db, mem, rest - {o.tx.hash}, orphans + [o], dependers', queue)
  {
    hide QueueOk, Listed, HasOrphan, Readable, Waits, Candidate;
    var h := o.tx.hash;
    assert o.dependsOn == Waits(db, o.tx) by { assert o.dependsOn == Waits(db, o.tx) - {}; }
    forall g | g in mem
      ensures HasOrphan(orphans + [o], g) <==> g !in rest - {h} && Candidate(p, mem[g]) && Waits(db, mem[g]) != {}
    {
      HasOrphanMore(orphans, o, g);
    }
    forall k | 0 <= k < |orphans| ensures orphans[k].tx.hash != h { HasOrphanAt(orphans, k); }
  }

  lemma BuiltStart(p: Policy, db: Index, mem: map<Hash, Tx>)
    ensures Built(p, db, mem, mem.Keys, [], map[], [])
  {}

  lemma FreshOrphan(p: Policy, db: Index, mem: map<Hash, Tx>, rest: set<Hash>, orphans: seq<Orphan>,
                    dependers: map<Hash, seq<nat>>, queue: seq<TxPriority>)
    requires Built(p, db, mem, rest, orphans, dependers, queue)
    ensures forall h <- dependers :: |orphans| !in dependers[h]
  {
    assert DependersOk(db, orphans, dependers);
  }

  lemma NewOrphan(p: Policy, db: Index, mem: map<Hash, Tx>, o: Orphan)
    requires o.tx.hash in mem && mem[o.tx.hash] == o.tx && Candidate(p, o.tx) && o.dependsOn == Waits(db, o.tx) != {}
    ensures OrphanOk(p, db, mem, o, {})
  {}

  lemma BuiltSame(p: Policy, db: Index, mem: map<Hash, Tx>, rest: set<Hash>, orphans: seq<Orphan>, dependers: map<Hash, seq<nat>>,
                  dependers': map<Hash, seq<nat>>, queue: seq<TxPriority>)
    requires Built(p, db, mem, rest, orphans, dependers, queue)
    requires forall h <- dependers :: h in dependers'
    requires forall h <- dependers' :: forall j :: j in dependers'[h] <==> h in dependers && j in dependers[h]
    ensures Built(p, db, mem, rest, orphans, dependers', queue)
  {
    hide QueueOk, Listed, HasOrphan, Readable, Waits, Candidate, OrphanOk;
    assert DependersOk(db, orphans, dependers);
  }

  lemma BuiltEnd(p: Policy, db: Index, mem: map<Hash, Tx>, orphans: seq<Orphan>, dependers: map<Hash, seq<nat>>, queue: seq<TxPriority>)
    requires Built(p, db, mem, {}, orphans, dependers, queue)
    ensures QueueOk(mem, queue, {}) && Released(p, db, mem, queue, {}, {})
    ensures OrphansOk(p, db, mem, orphans, {}) && DependersOk(db, orphans, dependers)
  {}

  lemma NothingPriced(p: Policy, db: Index, mem: map<Hash, Tx>)
    ensures AllPriced(p, db, mem, [], [])
  {}

  lemma PricedAs(p: Policy, db: Index, mem: map<Hash, Tx>, tx: Tx, dPriority: real, nTotalIn: int)
    requires p.size(tx) > 0 && dPriority == AgedValue(p, db, tx.vin) && nTotalIn == TrueIn(db, mem, tx.vin)
    ensures Priced(p, db, mem, tx) == TxPriority(dPriority / p.size(tx) as real,
      (nTotalIn - ValueOut(tx.vout)) as real / (p.size(tx) as real / 1000.0), tx)
  {}

  lemma PricedMore(p: Policy, db: Index, mem: map<Hash, Tx>, orphans: seq<Orphan>, queue: seq<TxPriority>, q: TxPriority, o: Orphan)
    requires AllPriced(p, db, mem, orphans, queue) && p.size(q.tx) > 0 && q == EntryOf(o) == Priced(p, db, mem, q.tx)
    ensures AllPriced(p, db, mem, orphans + [o], queue) && AllPriced(p, db, mem, orphans, queue + [q])
  {
    hide Priced;
  }

  method BuildQueue(p: Policy, db: Index, mem: map<Hash, Tx>)
    returns (orphans: seq<Orphan>, dependers: map<Hash, seq<nat>>, queue: seq<TxPriority>)
    requires Resolves(p, db, mem)
    ensures QueueOk(mem, queue, {}) && Released(p, db, mem, queue, {}, {})
    ensures OrphansOk(p, db, mem, orphans, {}) && DependersOk(db, orphans, dependers)
    ensures AllPriced(p, db, mem, orphans, queue)
  {
    hide Built, Waits, OrphanOk, Priced, AllPriced, TrueIn, AgedValue;
    assert AllPriced(p, db, mem, [], []) by { NothingPriced(p, db, mem); }
    orphans, dependers, queue := [], map[], [];
    var rest := mem.Keys;
    BuiltStart(p, db, mem);
    while rest != {}
      invariant rest <= mem.Keys && Built(p, db, mem, rest, orphans, dependers, queue)
      invariant AllPriced(p, db, mem, orphans, queue)
      decreases rest
    {
      ghost var w := Member(rest);
      var h :| h in rest;
      assert h in mem.Keys;
      var tx := mem[h];
      if !(tx.IsCoinBase() || tx.IsCoinStake() || !p.isFinal(tx)) {
        FreshOrphan(p, db, mem, rest, orphans, dependers, queue);
        var dependsOn, dependers', dPriority, nTotalIn := ScanInputs(p, db, mem, tx, |orphans|, dependers);
        PricedAs(p, db, mem, tx, dPriority, nTotalIn);
        var nTxSize := p.size(tx);
        dPriority := dPriority / nTxSize as real;
        var dFeePerKb := (nTotalIn - ValueOut(tx.vout)) as real / (nTxSize as real / 1000.0);
        if dependsOn != {} {
          var o := Orphan(tx, dependsOn, dPriority, dFeePerKb);
          NewOrphan(p, db, mem, o);
          PricedMore(p, db, mem, orphans, queue, EntryOf(o), o);
          BuiltOrphan(p, db, mem, rest, orphans, dependers, dependers', queue, o);
          orphans, dependers := orphans + [o], dependers';
        } else {
          var q := TxPriority(dPriority, dFeePerKb, tx);
          BuiltSame(p, db, mem, rest, orphans, dependers, dependers', queue);
          dependers := dependers';
          PricedMore(p, db, mem, orphans, queue, q, Orphan(tx, {}, dPriority, dFeePerKb));
          BuiltQueue(p, db, mem, rest, orphans, dependers, queue, q);
          queue := queue + [q];
        }
      } else {
        BuiltSkip(p, db, mem, rest, orphans, dependers, queue, h);
      }
      rest := rest - {h};
    }
    BuiltEnd(p, db, mem, orphans, dependers, queue);
  }

  // ----- taking one out, and letting others in

  lemma Popped(p: Policy, db: Index, mem: map<Hash, Tx>, queue: seq<TxPriority>, considered: set<Hash>, emitted: set<Hash>, i: nat)
    requires QueueOk(mem, queue, considered) && Released(p, db, mem, queue, considered, emitted) && i < |queue|
    ensures queue[i].tx.hash in mem && mem[queue[i].tx.hash] == queue[i].tx && queue[i].tx.hash !in considered
    ensures Candidate(p, queue[i].tx) && Waits(db, queue[i].tx) <= emitted
    ensures QueueOk(mem, DropAt(queue, i), considered + {queue[i].tx.hash})
    ensures Released(p, db, mem, DropAt(queue, i), considered + {queue[i].tx.hash}, emitted)
  {
    hide Waits, Candidate;
    var h := queue[i].tx.hash;
    var rest := DropAt(queue, i);
    ListedAt(queue, i);
    assert forall j :: 0 <= j < |rest| ==> rest[j] == if j < i then queue[j] else queue[j + 1];
    forall g | g in mem ensures Listed(rest, g) || g in considered + {h} <==> Listed(queue, g) || g in considered {
      if Listed(queue, g) && g != h {
        var j :| 0 <= j < |queue| && queue[j].tx.hash == g;
        assert rest[if j < i then j else j - 1] == queue[j];
      }
      if Listed(rest, g) {
        var j :| 0 <= j < |rest| && rest[j].tx.hash == g;
        assert rest[j] == queue[if j < i then j else j + 1];
      }
    }
  }

  function EntryOf(o: Orphan): TxPriority { TxPriority(o.dPriority, o.dFeePerKb, o.tx) }

  /** The orphans after `hash` was crossed off those in `list`. */
  ghost predicate CrossedOff(before: seq<Orphan>, after: seq<Orphan>, list: seq<nat>, hash: Hash) {
    && |after| == |before|
    && forall k :: 0 <= k < |before| ==>
         after[k] == before[k].(dependsOn := if k in list then before[k].dependsOn - {hash} else before[k].dependsOn)
  }

  /** The queue after the orphans `pushed` were appended to it. */
  ghost predicate Appended(queue0: seq<TxPriority>, queue: seq<TxPriority>, orphans: seq<Orphan>, pushed: seq<nat>) {
    && |queue| == |queue0| + |pushed| && Distinct(pushed)
    && (forall i :: 0 <= i < |queue0| ==> queue[i] == queue0[i])
    && forall i :: 0 <= i < |pushed| ==> pushed[i] < |orphans| && queue[|queue0| + i] == EntryOf(orphans[pushed[i]])
  }

  predicate Freed(o: Orphan, hash: Hash) { o.dependsOn != {} && o.dependsOn - {hash} == {} }

  /** Crosses `hash` off every orphan that waits for it; those with nothing left to wait for join the queue. */
  method Release(hash: Hash, list: seq<nat>, orphans0: seq<Orphan>, queue0: seq<TxPriority>)
    returns (orphans: seq<Orphan>, queue: seq<TxPriority>, ghost pushed: seq<nat>)
    requires forall k <- list :: k < |orphans0|
    ensures CrossedOff(orphans0, orphans, list, hash) && Appended(queue0, queue, orphans0, pushed)
    ensures forall k :: k in pushed <==> k in list && k < |orphans0| && Freed(orphans0[k], hash)
  {
    orphans, queue, pushed := orphans0, queue0, [];
    for n := 0 to |list|
      invariant CrossedOff(orphans0, orphans, list[..n], hash) && Appended(queue0, queue, orphans0, pushed)
      invariant forall k :: k in pushed <==> k in list[..n] && k < |orphans0| && Freed(orphans0[k], hash)
    {
      var k := list[n];
      assert k in list && list[..n + 1] == list[..n] + [k];
      var o := orphans[k];
      if o.dependsOn != {} {
        o := o.(dependsOn := o.dependsOn - {hash});
        orphans := orphans[k := o];
        if o.dependsOn == {} {
          assert k !in pushed;
          queue := queue + [TxPriority(o.dPriority, o.dFeePerKb, o.tx)];
          pushed := pushed + [k];
        }
      }
    }
    assert list[..|list|] == list;
  }

  lemma CrossedOffOk(p: Policy, db: Index, mem: map<Hash, Tx>, orphans0: seq<Orphan>, orphans: seq<Orphan>,
                     dependers: map<Hash, seq<nat>>, list: seq<nat>, emitted: set<Hash>, hash: Hash)
    requires OrphansOk(p, db, mem, orphans0, emitted) && DependersOk(db, orphans0, dependers)
    requires list == if hash in dependers then dependers[hash] else []
    requires CrossedOff(orphans0, orphans, list, hash)
    ensures OrphansOk(p, db, mem, orphans, emitted + {hash}) && DependersOk(db, orphans, dependers)
    ensures forall k :: 0 <= k < |orphans0| ==> (k in list <==> hash in Waits(db, orphans0[k].tx))
  {
    hide Waits, Candidate;
    forall k | 0 <= k < |orphans| ensures OrphanOk(p, db, mem, orphans[k], emitted + {hash}) {
      assert OrphanOk(p, db, mem, orphans0[k], emitted);
      assert k in list <==> hash in Waits(db, orphans0[k].tx);
      assert Waits(db, orphans0[k].tx) - (emitted + {hash}) == Waits(db, orphans0[k].tx) - emitted - {hash};
    }
    forall h | h in mem && Candidate(p, mem[h]) && Waits(db, mem[h]) != {} ensures HasOrphan(orphans, h) {
      var k :| 0 <= k < |orphans0| && orphans0[k].tx.hash == h;
      assert orphans[k].tx.hash == h;
    }
  }

  lemma ListedAppended(queue0: seq<TxPriority>, queue: seq<TxPriority>, orphans: seq<Orphan>, pushed: seq<nat>, h: Hash)
    requires Appended(queue0, queue, orphans, pushed)
    ensures Listed(queue, h) <==> Listed(queue0, h) || exists k <- pushed :: orphans[k].tx.hash == h
  {
    if Listed(queue, h) {
      var i :| 0 <= i < |queue| && queue[i].tx.hash == h;
      if i < |queue0| { assert queue0[i].tx.hash == h; } else { assert pushed[i - |queue0|] in pushed; }
    }
    if Listed(queue0, h) {
      var i :| 0 <= i < |queue0| && queue0[i].tx.hash == h;
      assert queue[i].tx.hash == h;
    }
    if k :| k in pushed && orphans[k].tx.hash == h {
      var i :| 0 <= i < |pushed| && pushed[i] == k;
      assert queue[|queue0| + i].tx.hash == h;
    }
  }

  lemma NothingOutside(a: set<Hash>, b: set<Hash>)
    ensures a <= b <==> a - b == {}
  {
    if a - b == {} {
      forall x | x in a ensures x in b { assert x !in a - b; }
    }
  }

  /** Whether a pool transaction may be considered once `hash` is in the block as well. */
  lemma ReleasedOne(p: Policy, db: Index, mem: map<Hash, Tx>, orphans: seq<Orphan>, queue0: seq<TxPriority>, queue: seq<TxPriority>,
                    list: seq<nat>, pushed: seq<nat>, considered: set<Hash>, emitted: set<Hash>, hash: Hash, h: Hash)
    requires OrphansOk(p, db, mem, orphans, emitted) && Released(p, db, mem, queue0, considered, emitted)
    requires Appended(queue0, queue, orphans, pushed) && hash !in emitted && h in mem
    requires forall k :: k in pushed <==> k in list && k < |orphans| && Freed(orphans[k], hash)
    requires forall k :: 0 <= k < |orphans| ==> (k in list <==> hash in Waits(db, orphans[k].tx))
    ensures Listed(queue, h) || h in considered <==> Candidate(p, mem[h]) && Waits(db, mem[h]) <= emitted + {hash}
    ensures forall k <- pushed :: k < |orphans| && orphans[k].tx.hash == h ==> !Listed(queue0, h) && h !in considered
  {
    hide Waits, Candidate, Listed;
    ListedAppended(queue0, queue, orphans, pushed, h);
    forall k | 0 <= k < |orphans| && orphans[k].tx.hash == h
      ensures mem[h] == orphans[k].tx && Candidate(p, mem[h])
      ensures k in pushed <==> !(Waits(db, mem[h]) <= emitted) && Waits(db, mem[h]) <= emitted + {hash}
    {
      assert OrphanOk(p, db, mem, orphans[k], emitted);
      var w := Waits(db, mem[h]);
      assert orphans[k].dependsOn == w - emitted;
      NothingOutside(w, emitted);
      NothingOutside(w - emitted, {hash});
      assert w <= emitted + {hash} <==> w - emitted <= {hash};
    }
    if Candidate(p, mem[h]) && Waits(db, mem[h]) != {} { assert HasOrphan(orphans, h); }
  }

  lemma ReleaseOk(p: Policy, db: Index, mem: map<Hash, Tx>, orphans: seq<Orphan>, queue0: seq<TxPriority>, queue: seq<TxPriority>,
                  list: seq<nat>, pushed: seq<nat>, considered: set<Hash>, emitted: set<Hash>, hash: Hash)
    requires OrphansOk(p, db, mem, orphans, emitted) && Released(p, db, mem, queue0, considered, emitted)
    requires QueueOk(mem, queue0, considered)
    requires Appended(queue0, queue, orphans, pushed) && hash !in emitted
    requires forall k :: k in pushed <==> k in list && k < |orphans| && Freed(orphans[k], hash)
    requires forall k :: 0 <= k < |orphans| ==> (k in list <==> hash in Waits(db, orphans[k].tx))
    ensures QueueOk(mem, queue, considered) && Released(p, db, mem, queue, considered, emitted + {hash})
  {
    hide Waits, Candidate, Listed, HasOrphan;
    forall h | h in mem
      ensures Listed(queue, h) || h in considered <==> Candidate(p, mem[h]) && Waits(db, mem[h]) <= emitted + {hash}
      ensures forall k <- pushed :: k < |orphans| && orphans[k].tx.hash == h ==> !Listed(queue0, h) && h !in considered
    {
      ReleasedOne(p, db, mem, orphans, queue0, queue, list, pushed, considered, emitted, hash, h);
    }
    forall i | |queue0| <= i < |queue|
      ensures var q := queue[i]; q.tx.hash in mem && mem[q.tx.hash] == q.tx && !Listed(queue0, q.tx.hash) && q.tx.hash !in considered
    {
      var k := pushed[i - |queue0|];
      assert k in pushed && queue[|queue0| + (i - |queue0|)] == EntryOf(orphans[k]);
      assert OrphanOk(p, db, mem, orphans[k], emitted);
    }
    forall i, j | 0 <= i < j < |queue| ensures queue[i].tx.hash != queue[j].tx.hash {
      if j >= |queue0| {
        var l := pushed[j - |queue0|];
        assert queue[|queue0| + (j - |queue0|)] == EntryOf(orphans[l]);
        if i >= |queue0| {
          assert pushed[i - |queue0|] != l && queue[|queue0| + (i - |queue0|)] == EntryOf(orphans[pushed[i - |queue0|]]);
        } else {
          ListedAt(queue0, i);
        }
      }
    }
  }

  /** Those that join the queue bring their due priority along. */
  lemma PricedOn(p: Policy, db: Index, mem: map<Hash, Tx>, orphans0: seq<Orphan>, orphans: seq<Orphan>, queue0: seq<TxPriority>,
                 queue: seq<TxPriority>, list: seq<nat>, pushed: seq<nat>, hash: Hash)
    requires AllPriced(p, db, mem, orphans0, queue0)
    requires CrossedOff(orphans0, orphans, list, hash) && Appended(queue0, queue, orphans0, pushed)
    ensures AllPriced(p, db, mem, orphans, queue)
  {
    hide Priced;
    forall i | 0 <= i < |queue| ensures p.size(queue[i].tx) > 0 && queue[i] == Priced(p, db, mem, queue[i].tx) {
      if i >= |queue0| { assert queue[i] == EntryOf(orphans0[pushed[i - |queue0|]]); }
    }
  }
}
