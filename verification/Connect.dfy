/** Fetching and connecting inputs, connecting and disconnecting blocks, over the transaction database. */
module Connect {
  import opened Wrappers
  import opened Ledger
  import opened BlockTree

  /** CTxDB: what is on disk, and the writes of the open database transaction if there is one. */
  class TxDb {
    var committed: Index
    var batch: Option<Index>

    function View(): Index
      reads this
    {
      if batch.Some? then batch.value else committed
    }

    constructor ()
      ensures committed == map[] && batch == None
    {
      committed, batch := map[], None;
    }

    method TxnBegin()
      requires batch.None?
      modifies this
      ensures batch == Some(old(committed)) && committed == old(committed)
    {
      batch := Some(committed);
    }

    method TxnAbort()
      modifies this
      ensures batch.None? && committed == old(committed)
    {
      batch := None;
    }

    method TxnCommit()
      modifies this
      ensures batch.None? && committed == old(View())
    {
      committed := View();
      batch := None;
    }

    method Write(idx: Index)
      modifies this
      ensures View() == idx
      ensures old(batch.Some?) ==> batch.Some? && committed == old(committed)
      ensures old(batch.None?) ==> batch.None?
    {
      if batch.Some? { batch := Some(idx); } else { committed := idx; }
    }
  }

  /** The checks whose bodies are not part of this model, and the network's parameters. */
  datatype Rules = Rules(
    maturity: nat,
    legacySigOps: Tx -> nat,
    p2shSigOps: (Tx, seq<TxOut>) -> nat,
    minFee: Tx -> int,
    verifySignature: (Tx, Tx, nat) -> bool,
    txOk: Tx -> bool,            // time, size
    blockOk: Block -> bool,      // size, proof of work, timestamps, merkle root, signature, difficulty bits
    coinAgeOk: Tx -> bool,
    isFlashStake: int -> bool)

  /** Where a block is being connected. `skipSignatures`: the best chain has not reached the last hardened checkpoint. */
  datatype Context = Context(tree: Tree, pindex: Hash, skipSignatures: bool, disablePow: bool) {
    ghost predicate Valid() { tree.Valid() && pindex in tree.nodes }

    /** Signatures are only ever skipped when a block is connected. */
    function Seen(fBlock: bool): Context { this.(skipSignatures := fBlock && skipSignatures) }
  }

  type PrevTxs = map<Hash, (TxIndex, Tx)>

  function InputHashes(vin: seq<OutPoint>): set<Hash> { set o <- vin :: o.hash }

  // ----- FetchInputs

  /** What FetchInputs finds for a txid: pending changes first (for blocks and the miner), then the database, then the pool. */
  function Fetched(db: Index, testPool: Index, mem: map<Hash, Tx>, chainOnly: bool, h: Hash): Option<(TxIndex, Tx)> {
    if (chainOnly && h in testPool) || h in db then
      var e := if chainOnly && h in testPool then testPool[h] else db[h];
      match e.pos
      case OnDisk(_, tx) => Some((e, tx))
      case InMempool => if h in mem then Some((e, mem[h])) else None
      case Null => None
    else if !chainOnly && h in mem then Some((NewEntry(Null, mem[h]), mem[h]))
    else None
  }

  predicate InRange(o: OutPoint, p: (TxIndex, Tx)) { o.n < |p.1.vout| && o.n < |p.0.vSpent| }

  /** All inputs are known. */
  predicate AllFetched(db: Index, testPool: Index, mem: map<Hash, Tx>, chainOnly: bool, vin: seq<OutPoint>) {
    forall o <- vin :: Fetched(db, testPool, mem, chainOnly, o.hash).Some?
  }

  function FetchedMap(db: Index, testPool: Index, mem: map<Hash, Tx>, chainOnly: bool, vin: seq<OutPoint>): PrevTxs
    requires AllFetched(db, testPool, mem, chainOnly, vin)
  {
    map h | h in InputHashes(vin) :: Fetched(db, testPool, mem, chainOnly, h).value
  }

  predicate Has(ins: PrevTxs, o: OutPoint) { o.hash in ins && InRange(o, ins[o.hash]) }

  method FetchOne(db: Index, testPool: Index, mem: map<Hash, Tx>, chainOnly: bool, h: Hash) returns (r: Option<(TxIndex, Tx)>)
    ensures r == Fetched(db, testPool, mem, chainOnly, h)
  {
    var found := true;
    var e := TxIndex(Null, []);
    if chainOnly && h in testPool {
      e := testPool[h];
    } else if h in db {
      e := db[h];
    } else {
      found := false;
    }
    if !found && chainOnly { return None; }
    if !found || e.pos.InMempool? {
      if h !in mem { return None; }
      if !found { e := NewEntry(Null, mem[h]); }
      return Some((e, mem[h]));
    }
    if e.pos.Null? { return None; }
    return Some((e, e.pos.tx));
  }

  lemma FetchedMapStep(db: Index, testPool: Index, mem: map<Hash, Tx>, chainOnly: bool, vin: seq<OutPoint>, i: nat)
    requires i < |vin| && AllFetched(db, testPool, mem, chainOnly, vin[..i])
    requires Fetched(db, testPool, mem, chainOnly, vin[i].hash).Some?
    ensures AllFetched(db, testPool, mem, chainOnly, vin[..i + 1])
    ensures FetchedMap(db, testPool, mem, chainOnly, vin[..i + 1])
            == FetchedMap(db, testPool, mem, chainOnly, vin[..i])[vin[i].hash := Fetched(db, testPool, mem, chainOnly, vin[i].hash).value]
  {
    assert vin[..i + 1] == vin[..i] + [vin[i]];
    assert InputHashes(vin[..i + 1]) == InputHashes(vin[..i]) + {vin[i].hash};
  }

  method FetchInputs(tx: Tx, txdb: TxDb, testPool: Index, mem: map<Hash, Tx>, fBlock: bool, fMiner: bool)
    returns (ok: bool, inputs: PrevTxs, fInvalid: bool)
    ensures tx.IsCoinBase() ==> ok && !fInvalid
    ensures !tx.IsCoinBase() && !AllFetched(txdb.View(), testPool, mem, fBlock || fMiner, tx.vin) ==> !ok && !fInvalid
    ensures !tx.IsCoinBase() && AllFetched(txdb.View(), testPool, mem, fBlock || fMiner, tx.vin) ==>
              && inputs == FetchedMap(txdb.View(), testPool, mem, fBlock || fMiner, tx.vin)
              && (ok <==> forall o <- tx.vin :: Has(inputs, o))
              && fInvalid == !ok
  {
    inputs, fInvalid := map[], false;
    if tx.IsCoinBase() { return true, inputs, false; }
    var db, chainOnly := txdb.View(), fBlock || fMiner;
    for i := 0 to |tx.vin|
      invariant AllFetched(db, testPool, mem, chainOnly, tx.vin[..i])
      invariant inputs == FetchedMap(db, testPool, mem, chainOnly, tx.vin[..i])
    {
      var h := tx.vin[i].hash;
      assert tx.vin[i] in tx.vin;
      if h in inputs {
        FetchedMapStep(db, testPool, mem, chainOnly, tx.vin, i);
      } else {
        var prev := FetchOne(db, testPool, mem, chainOnly, h);
        if prev.None? { return false, inputs, false; }
        FetchedMapStep(db, testPool, mem, chainOnly, tx.vin, i);
        inputs := inputs[h := prev.value];
      }
    }
    assert tx.vin[..|tx.vin|] == tx.vin;
    for i := 0 to |tx.vin|
      invariant forall o <- tx.vin[..i] :: Has(inputs, o)
    {
      var o := tx.vin[i];
      assert o in tx.vin && o.hash in InputHashes(tx.vin);
      if o.n >= |inputs[o.hash].1.vout| || o.n >= |inputs[o.hash].0.vSpent| { return false, inputs, true; }
    }
    return true, inputs, false;
  }

  // ----- ConnectInputs

  function PrevOut(ins: PrevTxs, o: OutPoint): int { if Has(ins, o) then ins[o.hash].1.vout[o.n].nValue else 0 }

  function SumIn(ins: PrevTxs, vin: seq<OutPoint>): int {
    if vin == [] then 0 else SumIn(ins, vin[..|vin| - 1]) + PrevOut(ins, vin[|vin| - 1])
  }

  ghost predicate Recent(cx: Context, maturity: nat, b: Hash)
    requires cx.Valid()
  {
    && cx.tree.Ancestor(b, cx.pindex) && b in cx.tree.nodes
    && cx.tree.Height(cx.pindex) - cx.tree.Height(b) < maturity
  }

  /** Walks back from the block being connected, looking for `b` among the last `maturity` blocks. */
  method RecentlyMined(cx: Context, maturity: nat, b: Hash) returns (found: bool)
    requires cx.Valid()
    ensures found <==> Recent(cx, maturity, b)
  {
    var tree := cx.tree;
    var top := tree.Height(cx.pindex);
    ghost var chain := tree.Chain(cx.pindex);
    var cur := Some(cx.pindex);
    ghost var k := top + 1;
    tree.AncestorAt(b, cx.pindex);
    while cur.Some? && top - tree.Height(cur.value) < maturity
      invariant 0 <= k <= top + 1 && (cur.None? <==> k == 0)
      invariant cur.Some? ==> cur.value in tree.nodes && cur.value == chain[k - 1] && tree.Height(cur.value) == k - 1
      invariant forall j :: k <= j <= top ==> chain[j] != b
      decreases k
    {
      if cur.value == b { return true; }
      assert tree.Linked(cur.value);
      tree.ChainAt(cx.pindex, k - 1);
      if k > 1 { tree.ChainAt(cx.pindex, k - 2); }
      cur := tree.nodes[cur.value].prev;
      k := k - 1;
    }
    return false;
  }

  /** The checks of the first loop of ConnectInputs, for input i. */
  ghost predicate CheapOk(r: Rules, cx: Context, tx: Tx, ins: PrevTxs, i: nat)
    requires cx.Valid() && i < |tx.vin|
  {
    && Has(ins, tx.vin[i])
    && var (e, prev) := ins[tx.vin[i].hash];
    && !((prev.IsCoinBase() || prev.IsCoinStake()) && e.pos.OnDisk? && Recent(cx, r.maturity, e.pos.block))
    && prev.nTime <= tx.nTime
    && MoneyRange(prev.vout[tx.vin[i].n].nValue)
    && MoneyRange(SumIn(ins, tx.vin[..i + 1]))
  }

  /** The checks of the second loop: not spent before this transaction, nor by an earlier input of it; signed. */
  ghost predicate SpendOk(r: Rules, cx: Context, tx: Tx, ins: PrevTxs, i: nat)
    requires i < |tx.vin|
  {
    && Has(ins, tx.vin[i])
    && var (e, prev) := ins[tx.vin[i].hash];
    && e.vSpent[tx.vin[i].n].Null?
    && tx.vin[i] !in tx.vin[..i]
    && (cx.skipSignatures || r.verifySignature(prev, tx, i))
  }

  /** Everything ConnectInputs checks. */
  ghost predicate InputsOk(r: Rules, cx: Context, tx: Tx, ins: PrevTxs)
    requires cx.Valid()
  {
    && (forall i :: 0 <= i < |tx.vin| ==> CheapOk(r, cx, tx, ins, i))
    && (forall i :: 0 <= i < |tx.vin| ==> SpendOk(r, cx, tx, ins, i))
    && (!tx.IsCoinStake() ==>
          var fee := SumIn(ins, tx.vin) - ValueOut(tx.vout);
          fee >= 0 && fee >= r.minFee(tx) && MoneyRange(fee))
  }

  /** Every input is signed for the transaction it spends. */
  ghost predicate InputsSigned(r: Rules, tx: Tx, ins: PrevTxs) {
    forall i :: 0 <= i < |tx.vin| ==> tx.vin[i].hash in ins && r.verifySignature(ins[tx.vin[i].hash].1, tx, i)
  }

  lemma SpendsSigned(r: Rules, cx: Context, tx: Tx, ins: PrevTxs)
    requires cx.Valid() && InputsOk(r, cx, tx, ins) && !cx.skipSignatures
    ensures InputsSigned(r, tx, ins)
  {
    forall i | 0 <= i < |tx.vin| ensures tx.vin[i].hash in ins && r.verifySignature(ins[tx.vin[i].hash].1, tx, i) {
      assert SpendOk(r, cx, tx, ins, i);
    }
  }

  /** The pending index changes ConnectInputs leaves behind. */
  function Marked(ins: PrevTxs, vin: seq<OutPoint>, mark: DiskTxPos): Index {
    map h | h in InputHashes(vin) && h in ins :: MarkEntry(ins[h].0, h, vin, mark)
  }

  method CheckInputs(r: Rules, cx: Context, tx: Tx, ins: PrevTxs) returns (ok: bool, nValueIn: int)
    requires cx.Valid() && forall o <- tx.vin :: o.hash in ins
    ensures ok <==> forall i :: 0 <= i < |tx.vin| ==> CheapOk(r, cx, tx, ins, i)
    ensures ok ==> nValueIn == SumIn(ins, tx.vin)
  {
    nValueIn := 0;
    for i := 0 to |tx.vin|
      invariant nValueIn == SumIn(ins, tx.vin[..i])
      invariant forall j :: 0 <= j < i ==> CheapOk(r, cx, tx, ins, j)
    {
      ghost var good := CheapOk(r, cx, tx, ins, i);
      var o := tx.vin[i];
      assert o in tx.vin;
      assert tx.vin[..i + 1][..i] == tx.vin[..i];
      var (e, prev) := ins[o.hash];
      if o.n >= |prev.vout| || o.n >= |e.vSpent| { return false, 0; }
      if (prev.IsCoinBase() || prev.IsCoinStake()) && e.pos.OnDisk? {
        var recent := RecentlyMined(cx, r.maturity, e.pos.block);
        if recent { return false, 0; }
      }
      if prev.nTime > tx.nTime { return false, 0; }
      nValueIn := nValueIn + prev.vout[o.n].nValue;
      if !MoneyRange(prev.vout[o.n].nValue) || !MoneyRange(nValueIn) { return false, 0; }
    }
    assert tx.vin[..|tx.vin|] == tx.vin;
    return true, nValueIn;
  }

  /** Marks the inputs spent, one after the other, in the fetched entries and in the pending changes. */
  method SpendInputs(r: Rules, cx: Context, tx: Tx, ins: PrevTxs, testPool: Index, pos: DiskTxPos)
    returns (ok: bool, testPool': Index)
    requires forall o <- tx.vin :: Has(ins, o)
    requires !pos.Null?
    ensures ok <==> forall i :: 0 <= i < |tx.vin| ==> SpendOk(r, cx, tx, ins, i)
    ensures ok ==> testPool' == testPool + Marked(ins, tx.vin, pos)
  {
    hide WorkAt, Marked;
    var work := ins;
    testPool' := testPool;
    WorkNone(ins, pos);
    assert tx.vin[..0] == [];
    for i := 0 to |tx.vin|
      invariant work == WorkAt(ins, tx.vin[..i], pos)
      invariant testPool' == testPool + Marked(ins, tx.vin[..i], pos)
      invariant forall j :: 0 <= j < i ==> SpendOk(r, cx, tx, ins, j)
    {
      ghost var good := SpendOk(r, cx, tx, ins, i);
      var o := tx.vin[i];
      assert o in tx.vin && Has(ins, o);
      WorkFlag(ins, tx.vin, i, pos);
      var (e, prev) := work[o.hash];
      if !e.vSpent[o.n].Null? { return false, testPool'; }
      if !cx.skipSignatures && !r.verifySignature(prev, tx, i) { return false, testPool'; }
      WorkStep(ins, tx.vin, i, pos);
      MarkedStep(ins, testPool, tx.vin, i, pos);
      e := e.(vSpent := e.vSpent[o.n := pos]);
      work := work[o.hash := (e, prev)];
      testPool' := testPool'[o.hash := e];
    }
    assert tx.vin[..|tx.vin|] == tx.vin;
    ok := true;
  }

  /** The fetched entries with the inputs `vin` marked so far. */
  function WorkAt(ins: PrevTxs, vin: seq<OutPoint>, pos: DiskTxPos): PrevTxs {
    map h | h in ins :: (MarkEntry(ins[h].0, h, vin, pos), ins[h].1)
  }

  lemma WorkNone(ins: PrevTxs, pos: DiskTxPos)
    ensures WorkAt(ins, [], pos) == ins && Marked(ins, [], pos) == map[]
  {
    forall h | h in ins ensures WorkAt(ins, [], pos)[h] == ins[h] { MarkUntouched(ins[h].0, h, [], pos); }
  }

  /** What the loop sees at input i: the fetched flag, unless an earlier input took the same output. */
  lemma WorkFlag(ins: PrevTxs, vin: seq<OutPoint>, i: nat, pos: DiskTxPos)
    requires i < |vin| && Has(ins, vin[i]) && !pos.Null?
    ensures vin[i].hash in WorkAt(ins, vin[..i], pos)
    ensures var w := WorkAt(ins, vin[..i], pos)[vin[i].hash];
            && |w.0.vSpent| == |ins[vin[i].hash].0.vSpent| && w.1 == ins[vin[i].hash].1
            && (w.0.vSpent[vin[i].n].Null? <==> ins[vin[i].hash].0.vSpent[vin[i].n].Null? && vin[i] !in vin[..i])
  {
    assert vin[i] == OutPoint(vin[i].hash, vin[i].n);
  }

  lemma WorkStep(ins: PrevTxs, vin: seq<OutPoint>, i: nat, pos: DiskTxPos)
    requires i < |vin| && Has(ins, vin[i])
    ensures var (e, prev) := WorkAt(ins, vin[..i], pos)[vin[i].hash];
            WorkAt(ins, vin[..i + 1], pos)
            == WorkAt(ins, vin[..i], pos)[vin[i].hash := (e.(vSpent := e.vSpent[vin[i].n := pos]), prev)]
  {
    var o := vin[i];
    assert vin[..i + 1] == vin[..i] + [o];
    var (e, prev) := WorkAt(ins, vin[..i], pos)[o.hash];
    var w := WorkAt(ins, vin[..i], pos)[o.hash := (e.(vSpent := e.vSpent[o.n := pos]), prev)];
    forall h | h in ins ensures WorkAt(ins, vin[..i + 1], pos)[h] == w[h] {
      assert WorkAt(ins, vin[..i + 1], pos)[h].0.vSpent == w[h].0.vSpent;
    }
  }

  lemma {:induction false} MarkedStep(ins: PrevTxs, testPool: Index, vin: seq<OutPoint>, i: nat, pos: DiskTxPos)
    requires i < |vin| && Has(ins, vin[i])
    ensures var e := WorkAt(ins, vin[..i], pos)[vin[i].hash].0;
            testPool + Marked(ins, vin[..i + 1], pos)
            == (testPool + Marked(ins, vin[..i], pos))[vin[i].hash := e.(vSpent := e.vSpent[vin[i].n := pos])]
  {
    WorkStep(ins, vin, i, pos);
    var o := vin[i];
    var w := WorkAt(ins, vin[..i + 1], pos);
    var m, m0 := Marked(ins, vin[..i + 1], pos), Marked(ins, vin[..i], pos);
    assert vin[..i + 1] == vin[..i] + [o];
    assert m.Keys == m0.Keys + {o.hash};
    forall h | h in m ensures m[h] == if h == o.hash then w[h].0 else m0[h] {
      assert m[h] == w[h].0;
      if h != o.hash { assert m0[h] == WorkAt(ins, vin[..i], pos)[h].0; }
    }
  }

  method ConnectInputs(r: Rules, cx: Context, tx: Tx, ins: PrevTxs, testPool: Index, pos: DiskTxPos, fBlock: bool, fMiner: bool)
    returns (ok: bool, testPool': Index)
    requires cx.Valid() && !pos.Null?
    requires !tx.IsCoinBase() ==> forall o <- tx.vin :: o.hash in ins
    ensures ok <==> tx.IsCoinBase() || InputsOk(r, cx.Seen(fBlock), tx, ins)
    ensures ok && !tx.IsCoinBase() && !(fBlock && cx.skipSignatures) ==> InputsSigned(r, tx, ins)
    ensures fBlock && cx.skipSignatures ==> (ok <==> tx.IsCoinBase() || InputsOk(r, cx, tx, ins))
    ensures ok && !tx.IsCoinBase() && (fBlock || fMiner) ==> testPool' == testPool + Marked(ins, tx.vin, pos)
    ensures ok && (tx.IsCoinBase() || !(fBlock || fMiner)) ==> testPool' == testPool
  {
    testPool' := testPool;
    if tx.IsCoinBase() { return true, testPool'; }
    var at := cx.Seen(fBlock);
    var cheap, nValueIn := CheckInputs(r, at, tx, ins);
    if !cheap { return false, testPool'; }
    forall o <- tx.vin ensures Has(ins, o) {
      var i :| 0 <= i < |tx.vin| && tx.vin[i] == o;
      assert CheapOk(r, at, tx, ins, i);
    }
    var spent, pool := SpendInputs(r, at, tx, ins, testPool, pos);
    if !spent { return false, testPool'; }
    if fBlock || fMiner { testPool' := pool; }
    if !tx.IsCoinStake() {
      var nTxFee := nValueIn - ValueOut(tx.vout);
      if nTxFee < 0 || nTxFee < r.minFee(tx) || !MoneyRange(nTxFee) { return false, testPool; }
    }
    ok := true;
    if !at.skipSignatures { SpendsSigned(r, at, tx, ins); }
  }
}
