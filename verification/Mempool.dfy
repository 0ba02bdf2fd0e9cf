/** The memory pool: its index of spent outputs, and the recursive removal of a transaction with
    everything that spends it. */
module Mempool {
  import opened Wrappers
  import opened Ledger

  datatype InPoint = InPoint(hash: Hash, n: nat)

  datatype Pool = Pool(mapTx: map<Hash, Tx>, mapNextTx: map<OutPoint, InPoint>)

  /** A depth for every transaction id; a transaction is deeper than those whose outputs it spends. */
  type Rank = Hash -> nat

  ghost predicate Deeper(rank: Rank, tx: Tx) { forall i :: 0 <= i < |tx.vin| ==> rank(tx.vin[i].hash) < rank(tx.hash) }

  /** mapNextTx is the exact inverse of the inputs of the pooled transactions. */
  ghost predicate Inverse(p: Pool) {
    && (forall o <- p.mapNextTx ::
          var at := p.mapNextTx[o];
          at.hash in p.mapTx && at.n < |p.mapTx[at.hash].vin| && p.mapTx[at.hash].vin[at.n] == o)
    && forall h <- p.mapTx :: forall i :: 0 <= i < |p.mapTx[h].vin| ==> InputIndexed(p, h, i)
  }

  ghost predicate InputIndexed(p: Pool, h: Hash, i: int)
    requires h in p.mapTx && 0 <= i < |p.mapTx[h].vin|
  {
    p.mapTx[h].vin[i] in p.mapNextTx && p.mapNextTx[p.mapTx[h].vin[i]] == InPoint(h, i)
  }

  ghost predicate PoolOk(rank: Rank, p: Pool) {
    && (forall h <- p.mapTx :: p.mapTx[h].hash == h && Deeper(rank, p.mapTx[h]))
    && Inverse(p)
  }

  /** Input i of pooled transaction h spends an output of another pooled transaction. */
  predicate Edge(m: map<Hash, Tx>, h: Hash, i: nat)
    requires h in m && i < |m[h].vin|
  {
    m[h].vin[i].hash in m && m[h].vin[i].n < |m[m[h].vin[i].hash].vout|
  }

  /** h is root, or spends root's outputs through pooled transactions. */
  ghost predicate Descends(rank: Rank, m: map<Hash, Tx>, h: Hash, root: Hash)
    decreases rank(h)
  {
    h in m && (h == root ||
      exists i :: 0 <= i < |m[h].vin| && Edge(m, h, i) && rank(m[h].vin[i].hash) < rank(h)
        && Descends(rank, m, m[h].vin[i].hash, root))
  }

  ghost function Closure(rank: Rank, m: map<Hash, Tx>, root: Hash): set<Hash> {
    set h <- m | Descends(rank, m, h, root)
  }

  /** The pool without some transactions, and without the index entries of their inputs. */
  function Less(p: Pool, gone: set<Hash>): Pool {
    Pool(p.mapTx - gone, map o <- p.mapNextTx | p.mapNextTx[o].hash !in gone :: p.mapNextTx[o])
  }

  lemma LessOk(rank: Rank, p: Pool, gone: set<Hash>)
    requires PoolOk(rank, p)
    ensures PoolOk(rank, Less(p, gone))
  {
    var p' := Less(p, gone);
    forall h, i | h in p'.mapTx && 0 <= i < |p'.mapTx[h].vin| ensures InputIndexed(p', h, i) {
      assert InputIndexed(p, h, i);
    }
  }

  lemma LessLess(p: Pool, a: set<Hash>, b: set<Hash>)
    ensures Less(Less(p, a), b) == Less(p, a + b)
  {}

  lemma LessNothing(p: Pool)
    ensures Less(p, {}) == p
  {}

  // ----- closures

  /** Whoever spends a transaction of the set is in it too. */
  ghost predicate Closed(m: map<Hash, Tx>, s: set<Hash>) {
    forall h <- m :: forall i :: 0 <= i < |m[h].vin| && Edge(m, h, i) && m[h].vin[i].hash in s ==> h in s
  }

  lemma {:induction false} DescendsDeeper(rank: Rank, m: map<Hash, Tx>, h: Hash, root: Hash)
    requires Descends(rank, m, h, root)
    ensures h == root || rank(root) < rank(h)
    decreases rank(h)
  {
    if h != root {
      var i :| 0 <= i < |m[h].vin| && Edge(m, h, i) && rank(m[h].vin[i].hash) < rank(h)
        && Descends(rank, m, m[h].vin[i].hash, root);
      DescendsDeeper(rank, m, m[h].vin[i].hash, root);
    }
  }

  lemma {:induction false} DescendsWithin(rank: Rank, m: map<Hash, Tx>, s: set<Hash>, h: Hash, root: Hash)
    requires Descends(rank, m, h, root) && root in s && Closed(m, s)
    ensures h in s
    decreases rank(h)
  {
    if h != root {
      var i :| 0 <= i < |m[h].vin| && Edge(m, h, i) && rank(m[h].vin[i].hash) < rank(h)
        && Descends(rank, m, m[h].vin[i].hash, root);
      DescendsWithin(rank, m, s, m[h].vin[i].hash, root);
    }
  }

  /** Taking a closed set away does not cut any path that ends outside of it. */
  lemma {:induction false} DescendsLess(rank: Rank, m: map<Hash, Tx>, gone: set<Hash>, h: Hash, root: Hash)
    requires Closed(m, gone)
    ensures Descends(rank, m - gone, h, root) <==> h !in gone && Descends(rank, m, h, root)
    decreases rank(h)
  {
    var m' := m - gone;
    if h in m' && h != root {
      forall i | 0 <= i < |m[h].vin| && Edge(m, h, i) && rank(m[h].vin[i].hash) < rank(h)
        ensures Edge(m', h, i)
        ensures Descends(rank, m', m[h].vin[i].hash, root) <==> Descends(rank, m, m[h].vin[i].hash, root)
      {
        DescendsLess(rank, m, gone, m[h].vin[i].hash, root);
      }
    }
  }

  /** h descends from root through a transaction that spends one of root's outputs directly. */
  ghost predicate Through(rank: Rank, p: Pool, root: Hash, n: nat, h: Hash) {
    OutPoint(root, n) in p.mapNextTx && Descends(rank, p.mapTx, h, p.mapNextTx[OutPoint(root, n)].hash)
  }

  lemma {:induction false} DescendsThrough(rank: Rank, p: Pool, h: Hash, root: Hash) returns (n: nat)
    requires PoolOk(rank, p) && Descends(rank, p.mapTx, h, root) && h != root && root in p.mapTx
    ensures n < |p.mapTx[root].vout| && Through(rank, p, root, n, h)
    decreases rank(h)
  {
    var m := p.mapTx;
    var i :| 0 <= i < |m[h].vin| && Edge(m, h, i) && rank(m[h].vin[i].hash) < rank(h)
      && Descends(rank, m, m[h].vin[i].hash, root);
    if m[h].vin[i].hash == root {
      n := m[h].vin[i].n;
      assert InputIndexed(p, h, i);
      assert m[h].vin[i] == OutPoint(root, n);
    } else {
      n := DescendsThrough(rank, p, m[h].vin[i].hash, root);
    }
  }

  lemma {:induction false} ThroughDescends(rank: Rank, p: Pool, h: Hash, root: Hash, n: nat)
    requires PoolOk(rank, p) && root in p.mapTx && n < |p.mapTx[root].vout| && Through(rank, p, root, n, h)
    ensures Descends(rank, p.mapTx, h, root) && h != root
    decreases rank(h)
  {
    var m, o := p.mapTx, OutPoint(root, n);
    var child := p.mapNextTx[o].hash;
    DescendsDeeper(rank, m, h, child);
    assert rank(m[child].vin[p.mapNextTx[o].n].hash) < rank(child);
    if h == child {
      assert Edge(m, h, p.mapNextTx[o].n);
      assert Descends(rank, m, root, root);
    } else {
      var i :| 0 <= i < |m[h].vin| && Edge(m, h, i) && rank(m[h].vin[i].hash) < rank(h)
        && Descends(rank, m, m[h].vin[i].hash, child);
      ThroughDescends(rank, p, m[h].vin[i].hash, root, n);
    }
  }

  /** What hangs off the first n outputs of root. */
  ghost function Under(rank: Rank, p: Pool, root: Hash, n: nat): set<Hash> {
    set h <- p.mapTx | exists j: nat :: j < n && Through(rank, p, root, j, h)
  }

  lemma UnderClosed(rank: Rank, p: Pool, root: Hash, n: nat)
    requires PoolOk(rank, p)
    ensures Closed(p.mapTx, Under(rank, p, root, n))
  {
    var s := Under(rank, p, root, n);
    forall h, i | h in p.mapTx && 0 <= i < |p.mapTx[h].vin| && Edge(p.mapTx, h, i) && p.mapTx[h].vin[i].hash in s
      ensures h in s
    {
      var j: nat :| j < n && Through(rank, p, root, j, p.mapTx[h].vin[i].hash);
      assert Through(rank, p, root, j, h);
    }
  }

  /** All outputs together: the closure, but for root itself. */
  lemma UnderAll(rank: Rank, p: Pool, root: Hash)
    requires PoolOk(rank, p) && root in p.mapTx
    ensures Under(rank, p, root, |p.mapTx[root].vout|) == Closure(rank, p.mapTx, root) - {root}
  {
    var n := |p.mapTx[root].vout|;
    forall h ensures h in Under(rank, p, root, n) <==> h in Closure(rank, p.mapTx, root) - {root} {
      if h in Under(rank, p, root, n) {
        var j: nat :| j < n && Through(rank, p, root, j, h);
        ThroughDescends(rank, p, h, root, j);
      }
      if h in Closure(rank, p.mapTx, root) && h != root {
        var j := DescendsThrough(rank, p, h, root);
        assert Through(rank, p, root, j, h);
      }
    }
  }

  /** Removing the closure of some transaction from what is left adds that closure to what is gone. */
  lemma RemoveFromRest(rank: Rank, p: Pool, gone: set<Hash>, c: Hash)
    requires PoolOk(rank, p) && Closed(p.mapTx, gone)
    ensures Less(Less(p, gone), Closure(rank, Less(p, gone).mapTx, c)) == Less(p, gone + Closure(rank, p.mapTx, c))
  {
    var rest := Closure(rank, Less(p, gone).mapTx, c);
    forall h ensures h in rest <==> h in Closure(rank, p.mapTx, c) && h !in gone {
      DescendsLess(rank, p.mapTx, gone, h, c);
    }
    assert gone + rest == gone + Closure(rank, p.mapTx, c);
    LessLess(p, gone, rest);
  }

  /** One more output. */
  lemma {:induction false} UnderMembers(rank: Rank, p: Pool, root: Hash, n: nat)
    ensures forall h :: h in Under(rank, p, root, n + 1) <==>
      h in Under(rank, p, root, n) || (h in p.mapTx && Through(rank, p, root, n, h))
  {
    hide Through;
    forall h ensures h in Under(rank, p, root, n + 1) <==> h in Under(rank, p, root, n) || (h in p.mapTx && Through(rank, p, root, n, h)) {
      if h in p.mapTx && Through(rank, p, root, n, h) { assert h in Under(rank, p, root, n + 1); }
    }
  }

  lemma {:induction false} UnderNext(rank: Rank, p: Pool, root: Hash, n: nat)
    requires PoolOk(rank, p)
    ensures var o := OutPoint(root, n); var was := Under(rank, p, root, n);
      Under(rank, p, root, n + 1) ==
        if o in Less(p, was).mapNextTx then was + Closure(rank, p.mapTx, p.mapNextTx[o].hash) else was
  {
    var o, was, now := OutPoint(root, n), Under(rank, p, root, n), Under(rank, p, root, n + 1);
    UnderClosed(rank, p, root, n);
    UnderMembers(rank, p, root, n);
    hide Under, Descends, PoolOk;
    if o in p.mapNextTx {
      var c := p.mapNextTx[o].hash;
      if c in was {
        forall h | h in p.mapTx && Descends(rank, p.mapTx, h, c) ensures h in was { DescendsWithin(rank, p.mapTx, was, h, c); }
        assert now == was;
      } else {
        assert now == was + Closure(rank, p.mapTx, c);
      }
    } else {
      assert now == was;
    }
  }

  lemma RootStays(rank: Rank, p: Pool, root: Hash, n: nat)
    requires PoolOk(rank, p) && root in p.mapTx && n <= |p.mapTx[root].vout|
    ensures root !in Under(rank, p, root, n)
  {
    if root in Under(rank, p, root, n) {
      var j: nat :| j < n && Through(rank, p, root, j, root);
      ThroughDescends(rank, p, root, root, j);
      assert false;
    }
  }

  // ----- conflicts

  /** A pooled transaction other than `tx` spends this input of it. */
  predicate Conflict(p: Pool, tx: Tx, o: OutPoint) {
    o in p.mapNextTx && p.mapNextTx[o].hash in p.mapTx && p.mapTx[p.mapNextTx[o].hash] != tx
  }

  ghost predicate DoomedBy(rank: Rank, p: Pool, tx: Tx, j: nat, h: Hash)
    requires j < |tx.vin|
  {
    Conflict(p, tx, tx.vin[j]) && Descends(rank, p.mapTx, h, p.mapNextTx[tx.vin[j]].hash)
  }

  /** What conflicts with the first n inputs of `tx`, with everything that descends from it. */
  ghost function Doomed(rank: Rank, p: Pool, tx: Tx, n: nat): set<Hash>
    requires n <= |tx.vin|
  {
    set h <- p.mapTx | exists j: nat :: j < n && DoomedBy(rank, p, tx, j, h)
  }

  lemma DoomedClosed(rank: Rank, p: Pool, tx: Tx, n: nat)
    requires PoolOk(rank, p) && n <= |tx.vin|
    ensures Closed(p.mapTx, Doomed(rank, p, tx, n))
  {
    var s := Doomed(rank, p, tx, n);
    forall h, i | h in p.mapTx && 0 <= i < |p.mapTx[h].vin| && Edge(p.mapTx, h, i) && p.mapTx[h].vin[i].hash in s
      ensures h in s
    {
      var j: nat :| j < n && DoomedBy(rank, p, tx, j, p.mapTx[h].vin[i].hash);
      assert DoomedBy(rank, p, tx, j, h);
    }
  }

  lemma DoomedNext(rank: Rank, p: Pool, tx: Tx, n: nat)
    requires PoolOk(rank, p) && n < |tx.vin|
    ensures var o := tx.vin[n]; var was := Doomed(rank, p, tx, n);
      Doomed(rank, p, tx, n + 1) ==
        if o in Less(p, was).mapNextTx && Conflict(p, tx, o) then was + Closure(rank, p.mapTx, p.mapNextTx[o].hash) else was
  {
    hide PoolOk, Closed;
    var o, was, now := tx.vin[n], Doomed(rank, p, tx, n), Doomed(rank, p, tx, n + 1);
    DoomedClosed(rank, p, tx, n);
    DoomedStep(rank, p, tx, n);
    hide Doomed;
    if Conflict(p, tx, o) {
      var c := p.mapNextTx[o].hash;
      if c in was {
        forall h | h in p.mapTx && Descends(rank, p.mapTx, h, c) ensures h in was { DescendsWithin(rank, p.mapTx, was, h, c); }
      } else {
        assert now == was + Closure(rank, p.mapTx, c);
      }
    }
  }

  lemma DoomedStep(rank: Rank, p: Pool, tx: Tx, n: nat)
    requires n < |tx.vin|
    ensures Doomed(rank, p, tx, n + 1) == Doomed(rank, p, tx, n) + set h <- p.mapTx | DoomedBy(rank, p, tx, n, h)
  {}

  /** No other spender of an input of `tx` is left. */
  /** Nothing in the pool spends an input of this transaction, itself excepted. */
  ghost predicate NoConflicts(p: Pool, tx: Tx) { forall i :: 0 <= i < |tx.vin| ==> !Conflict(p, tx, tx.vin[i]) }

  lemma NoConflictsLeft(rank: Rank, p: Pool, tx: Tx)
    requires PoolOk(rank, p)
    ensures NoConflicts(Less(p, Doomed(rank, p, tx, |tx.vin|)), tx)
  {
    hide PoolOk, Doomed, Conflict, Less;
    forall i | 0 <= i < |tx.vin| ensures !Conflict(Less(p, Doomed(rank, p, tx, |tx.vin|)), tx, tx.vin[i]) {
      NoConflictLeft(rank, p, tx, i);
    }
  }

  lemma NoConflictLeft(rank: Rank, p: Pool, tx: Tx, i: nat)
    requires PoolOk(rank, p) && i < |tx.vin|
    ensures !Conflict(Less(p, Doomed(rank, p, tx, |tx.vin|)), tx, tx.vin[i])
  {
    if Conflict(p, tx, tx.vin[i]) {
      var c := p.mapNextTx[tx.vin[i]].hash;
      assert DoomedBy(rank, p, tx, i, c);
    }
  }

  /** Erasing the inputs of one transaction from the index. */
  lemma ErasedInputs(rank: Rank, p: Pool, h: Hash)
    requires PoolOk(rank, p) && h in p.mapTx
    ensures p.mapNextTx - InputSet(p.mapTx[h]) == Less(p, {h}).mapNextTx
  {
    forall o ensures o in p.mapNextTx - InputSet(p.mapTx[h]) <==> o in Less(p, {h}).mapNextTx {
      if o in p.mapNextTx && o in InputSet(p.mapTx[h]) {
        var i :| 0 <= i < |p.mapTx[h].vin| && p.mapTx[h].vin[i] == o;
        assert InputIndexed(p, h, i);
      }
    }
  }

  function InputSet(tx: Tx): set<OutPoint> { set o <- tx.vin }

  /** What is left to descend into; the removal of a spender has strictly less of it. */
  ghost function NoShallower(rank: Rank, m: map<Hash, Tx>, root: Hash): set<Hash> { set h <- m | rank(h) >= rank(root) }

  lemma Shallower(rank: Rank, m: map<Hash, Tx>, m': map<Hash, Tx>, root: Hash, c: Hash)
    requires root in m && m'.Keys <= m.Keys && rank(root) < rank(c)
    ensures NoShallower(rank, m', c) < NoShallower(rank, m, root)
  {
    forall h | h in NoShallower(rank, m', c) ensures h in NoShallower(rank, m, root) { assert h in m'.Keys; }
    assert root in NoShallower(rank, m, root);
    assert root !in NoShallower(rank, m', c);
  }

  // ----- the pool object

  lemma OneFewer(m: map<Hash, Tx>, h: Hash)
    requires h in m
    ensures |m - {h}| == |m| - 1
  {
    assert (m - {h}).Keys == m.Keys - {h};
  }

  class CTxMemPool {
    ghost const rank: Rank
    var mapTx: map<Hash, Tx>
    var mapNextTx: map<OutPoint, InPoint>
    var nTransactionsUpdated: nat

    ghost function State(): Pool
      reads this
    {
      Pool(mapTx, mapNextTx)
    }

    ghost predicate Valid()
      reads this
    {
      PoolOk(rank, State())
    }

    constructor (ghost rank: Rank)
      ensures Valid() && State() == Pool(map[], map[])
    {
      this.rank := rank;
      mapTx, mapNextTx, nTransactionsUpdated := map[], map[], 0;
    }

    /** Admits a transaction unless it is known or spends what a pooled one spends already; `otherChecks`
        stands for the checks of the transaction itself and of its inputs. */
    method Accept(tx: Tx, otherChecks: bool) returns (ok: bool)
      requires Valid() && Deeper(rank, tx) && (otherChecks ==> Distinct(tx.vin))
      modifies this
      ensures Valid()
      ensures ok <==> otherChecks && tx.hash !in old(mapTx) && forall i :: 0 <= i < |tx.vin| ==> tx.vin[i] !in old(mapNextTx)
      ensures if ok then mapTx == old(mapTx)[tx.hash := tx] else State() == old(State())
      ensures nTransactionsUpdated == old(nTransactionsUpdated) + if ok then 1 else 0
    {
      if tx.hash in mapTx { return false; }
      var i := 0;
      while i < |tx.vin|
        modifies {}
        invariant i <= |tx.vin| && forall j :: 0 <= j < i ==> tx.vin[j] !in mapNextTx
      {
        if tx.vin[i] in mapNextTx { return false; }
        i := i + 1;
      }
      if !otherChecks { return false; }
      AddUnchecked(tx.hash, tx);
      return true;
    }

    method AddUnchecked(hash: Hash, tx: Tx)
      requires Valid() && Deeper(rank, tx) && hash == tx.hash && hash !in mapTx
      requires Distinct(tx.vin) && forall i :: 0 <= i < |tx.vin| ==> tx.vin[i] !in mapNextTx
      modifies this
      ensures Valid() && mapTx == old(mapTx)[hash := tx] && nTransactionsUpdated == old(nTransactionsUpdated) + 1
    {
      hide PoolOk, Inverse;
      ghost var p := State();
      mapTx := mapTx[hash := tx];
      var i := 0;
      while i < |tx.vin|
        invariant i <= |tx.vin| && mapTx == p.mapTx[hash := tx] && nTransactionsUpdated == old(nTransactionsUpdated)
        invariant forall o <- p.mapNextTx :: o in mapNextTx && mapNextTx[o] == p.mapNextTx[o]
        invariant forall j :: 0 <= j < i ==> tx.vin[j] in mapNextTx && mapNextTx[tx.vin[j]] == InPoint(hash, j)
        invariant forall o <- mapNextTx ::
          o in p.mapNextTx || (mapNextTx[o].hash == hash && mapNextTx[o].n < i && tx.vin[mapNextTx[o].n] == o)
      {
        mapNextTx := mapNextTx[tx.vin[i] := InPoint(hash, i)];
        i := i + 1;
      }
      nTransactionsUpdated := nTransactionsUpdated + 1;
      AddedOk(rank, p, State(), tx);
    }

    /** Removes a transaction; recursively, with exactly those that descend from it. */
    method Remove(tx: Tx, fRecursive: bool)
      requires Valid() && (tx.hash in mapTx ==> mapTx[tx.hash] == tx)
      modifies this
      ensures Valid()
      ensures State() ==
        if tx.hash !in old(mapTx) then old(State())
        else if fRecursive then Less(old(State()), Closure(rank, old(mapTx), tx.hash))
        else Less(old(State()), {tx.hash})
      ensures nTransactionsUpdated + |mapTx| == old(nTransactionsUpdated + |mapTx|)
      decreases NoShallower(rank, mapTx, tx.hash)
    {
      hide PoolOk, Less, Closure, Under;
      var hash := tx.hash;
      if hash !in mapTx { return; }
      ghost var p := State();
      if fRecursive {
        RemoveSpenders(tx);
        UnderAll(rank, p, hash);
        ClosureSplit(rank, p, hash);
      } else {
        LessNothing(p);
      }
      ghost var gone := if fRecursive then Under(rank, p, hash, |tx.vout|) else {};
      ghost var p1 := State();
      assert p1 == Less(p, gone);
      ErasedInputs(rank, p1, hash);
      var i := 0;
      while i < |tx.vin|
        invariant i <= |tx.vin| && mapTx == p1.mapTx && nTransactionsUpdated + |mapTx| == old(nTransactionsUpdated + |mapTx|)
        invariant mapNextTx == p1.mapNextTx - set o <- tx.vin[..i]
      {
        assert tx.vin[..i + 1] == tx.vin[..i] + [tx.vin[i]];
        mapNextTx := mapNextTx - {tx.vin[i]};
        i := i + 1;
      }
      assert tx.vin[..i] == tx.vin;
      OneFewer(mapTx, hash);
      mapTx := mapTx - {hash};
      nTransactionsUpdated := nTransactionsUpdated + 1;
      LessOne(p1, hash);
      assert State() == Less(p1, {hash});
      LessLess(p, gone, {hash});
      LessOk(rank, p, gone + {hash});
    }

    /** The transactions that spend an output of `tx`, with all that descend from them. */
    method RemoveSpenders(tx: Tx)
      requires Valid() && tx.hash in mapTx && mapTx[tx.hash] == tx
      modifies this
      ensures Valid() && State() == Less(old(State()), Under(rank, old(State()), tx.hash, |tx.vout|))
      ensures tx.hash in mapTx && mapTx[tx.hash] == tx
      ensures nTransactionsUpdated + |mapTx| == old(nTransactionsUpdated + |mapTx|)
      decreases NoShallower(rank, mapTx, tx.hash), 0
    {
      hide PoolOk, Closure, Under, Inverse;
      var hash := tx.hash;
      ghost var p := State();
      UnderNone(rank, p, hash);
      LessNothing(p);
      var i := 0;
      while i < |tx.vout|
        invariant i <= |tx.vout| && Valid() && State() == Less(p, Under(rank, p, hash, i))
        invariant nTransactionsUpdated + |mapTx| == old(nTransactionsUpdated + |mapTx|)
      {
        UnderNext(rank, p, hash, i);
        UnderClosed(rank, p, hash, i);
        RootStays(rank, p, hash, i);
        var o := OutPoint(hash, i);
        if o in mapNextTx {
          ghost var p1 := State();
          Spender(rank, p1, o);
          RemoveFromRest(rank, p, Under(rank, p, hash, i), mapNextTx[o].hash);
          Shallower(rank, p.mapTx, mapTx, hash, mapNextTx[o].hash);
          Remove(mapTx[mapNextTx[o].hash], true);
        }
        i := i + 1;
      }
      RootStays(rank, p, hash, |tx.vout|);
    }

    /** Removes what conflicts with `tx`, and exactly what descends from it. */
    method RemoveConflicts(tx: Tx)
      requires Valid()
      modifies this
      ensures Valid() && State() == Less(old(State()), Doomed(rank, old(State()), tx, |tx.vin|))
      ensures NoConflicts(State(), tx)
      ensures nTransactionsUpdated + |mapTx| == old(nTransactionsUpdated + |mapTx|)
    {
      hide PoolOk, Closure, Doomed, Inverse, Less, NoConflicts;
      ghost var p, total := State(), nTransactionsUpdated + |mapTx|;
      DoomedNone(rank, p, tx);
      LessNothing(p);
      var i := 0;
      while i < |tx.vin|
        invariant i <= |tx.vin| && Valid() && State() == Less(p, Doomed(rank, p, tx, i))
        invariant nTransactionsUpdated + |mapTx| == total
      {
        RemoveConflict(tx, i, p);
        i := i + 1;
      }
      NoConflictsLeft(rank, p, tx);
    }

    /** The transaction that spends input i as well. */
    method RemoveConflict(tx: Tx, i: nat, ghost p: Pool)
      requires Valid() && i < |tx.vin| && PoolOk(rank, p) && State() == Less(p, Doomed(rank, p, tx, i))
      modifies this
      ensures Valid() && State() == Less(p, Doomed(rank, p, tx, i + 1))
      ensures nTransactionsUpdated + |mapTx| == old(nTransactionsUpdated + |mapTx|)
    {
      hide PoolOk, Closure, Doomed, Inverse;
      ghost var gone := Doomed(rank, p, tx, i);
      DoomedNext(rank, p, tx, i);
      DoomedClosed(rank, p, tx, i);
      var o := tx.vin[i];
      assert o in mapNextTx ==> mapNextTx[o] == p.mapNextTx[o];
      if o in mapNextTx {
        Spender(rank, State(), o);
        assert mapTx[mapNextTx[o].hash] == p.mapTx[mapNextTx[o].hash];
        RemoveFromRest(rank, p, gone, mapNextTx[o].hash);
        hide Less;
        var txConflict := mapTx[mapNextTx[o].hash];
        if txConflict != tx {
          Remove(txConflict, true);
        }
      }
    }

    method Clear()
      requires Valid()
      modifies this
      ensures Valid() && State() == Pool(map[], map[]) && nTransactionsUpdated == old(nTransactionsUpdated) + 1
    {
      mapTx, mapNextTx, nTransactionsUpdated := map[], map[], nTransactionsUpdated + 1;
    }
  }

  lemma AddedOk(rank: Rank, p: Pool, p': Pool, tx: Tx)
    requires PoolOk(rank, p) && Deeper(rank, tx) && tx.hash !in p.mapTx && p'.mapTx == p.mapTx[tx.hash := tx]
    requires forall o <- p.mapNextTx :: o in p'.mapNextTx && p'.mapNextTx[o] == p.mapNextTx[o]
    requires forall j :: 0 <= j < |tx.vin| ==> tx.vin[j] in p'.mapNextTx && p'.mapNextTx[tx.vin[j]] == InPoint(tx.hash, j)
    requires forall o <- p'.mapNextTx ::
      o in p.mapNextTx || (p'.mapNextTx[o].hash == tx.hash && p'.mapNextTx[o].n < |tx.vin| && tx.vin[p'.mapNextTx[o].n] == o)
    ensures PoolOk(rank, p')
  {
    forall h, i | h in p'.mapTx && 0 <= i < |p'.mapTx[h].vin| ensures InputIndexed(p', h, i) {
      if h != tx.hash { assert InputIndexed(p, h, i); }
    }
  }

  lemma DoomedNone(rank: Rank, p: Pool, tx: Tx)
    ensures Doomed(rank, p, tx, 0) == {} && Closed(p.mapTx, {})
  {}

  lemma UnderNone(rank: Rank, p: Pool, root: Hash)
    ensures Under(rank, p, root, 0) == {}
  {}

  lemma ClosureSplit(rank: Rank, p: Pool, root: Hash)
    requires root in p.mapTx
    ensures (Closure(rank, p.mapTx, root) - {root}) + {root} == Closure(rank, p.mapTx, root)
  {}

  lemma LessOne(p: Pool, h: Hash)
    ensures Less(p, {h}).mapTx == p.mapTx - {h}
  {}

  lemma Spender(rank: Rank, p: Pool, o: OutPoint)
    requires PoolOk(rank, p) && o in p.mapNextTx
    ensures p.mapNextTx[o].hash in p.mapTx && p.mapTx[p.mapNextTx[o].hash].hash == p.mapNextTx[o].hash
    ensures rank(o.hash) < rank(p.mapNextTx[o].hash)
  {}
}
