/** Runs of the pool on which the executable intervals are lost. */
module PoolLosses {
  import opened Wrappers
  import opened TxLists
  import opened TxPriced
  import opened TxNoncers
  import opened PoolViews
  import opened PoolPromotion
  import opened PoolTruncation
  import opened PoolIntervals
  import opened PoolMendings
  import opened TxPools

  /** A transaction of account 7, which has no balance, that moves no value. */
  function Sample(id: nat, nonce: nat, price: int, gas: nat): Tx {
    Tx(id, 7, true, nonce, price, 0, gas, 1)
  }

  const ROOMY := Config(10, 16, 4096, 64, 1024, 3)

  function Start(nonce: nat): State {
    State(map[7 := nonce], map[])
  }

  lemma SampleAccepted(tx: Tx, v: View, nonce: nat)
    requires tx == Sample(tx.id, tx.nonce, tx.price, tx.gas) && tx.nonce >= nonce && tx.price >= 1
    requires tx !in v.all && |v.all| <= 1
    ensures Judge(tx, false, v, 1, Start(nonce), ROOMY) == Accepted && !ROOMY.Full(v.all)
  {
  }

  lemma SampleQueued(tx: Tx, step: AddStep)
    requires tx == Sample(1, tx.nonce, 1, 0) && step.before == View(map[], map[], {}, {})
    requires TxAdded(step, tx, false, 1, Start(tx.nonce), ROOMY)
    ensures step.after == View(map[], map[7 := TxList(false, map[tx.nonce := tx], 0, 0)], {tx}, {})
  {
    SampleAccepted(tx, View(map[], map[], {}, {}), tx.nonce);
    hide Judge;
  }

  /** The queued transaction is promoted. */
  lemma SamplePromoted(tx: Tx, l: TxList, nonces: map<Address, nat>, pending: Lists)
    requires tx == Sample(1, tx.nonce, 1, 0) && l == TxList(false, map[tx.nonce := tx], 0, 0)
    requires Executable(map[], Start(tx.nonce), nonces)
    requires var run := ReadyOf(l, tx.nonce, 0, 0, NonceIn(Start(tx.nonce), nonces, 7));
             Joined(pending, map[], FirstTxs(run, |run|))
    ensures Holds(pending, tx)
  {
    hide ReadyOf;
    assert NonceIn(Start(tx.nonce), nonces, 7) == tx.nonce by {
      assert !Has(map[], 7, tx.nonce);
    }
    ReadyMeaning(l, 7, tx.nonce, 0, 0, tx.nonce);
    var run := ReadyOf(l, tx.nonce, 0, 0, tx.nonce);
    assert Current(l, tx.nonce, 0, 0, tx.nonce);
    assert run[0] in run && run[0] in FirstTxs(run, |run|);
  }

  /** A pool with one transaction of account 7, at its state nonce. */
  method OnePending(nonce: nat) returns (pool: TxPool)
    ensures pool.Valid() && pool.Interval() && fresh(pool) && fresh(pool.lookup) && fresh(pool.priced)
    ensures fresh(pool.noncer) && pool.config == ROOMY && pool.maxGas == 0 && pool.gasPrice == 1
    ensures pool.state == Start(nonce) && pool.locals == {}
    ensures Holds(pool.pending, Sample(1, nonce, 1, 0)) && pool.lookup.all <= {Sample(1, nonce, 1, 0)}
  {
    hide Partition, HeapOk, FloorOk, Executable, TxAdded, Affordable, Joined, RestOf, ReadyOf, FirstTxs, Gone, Put,
      Raised, Within, Sample, Holds, HeapAdded, Sank, AllMend, DrainedIn;
    pool := new TxPool(ROOMY, 0, 1, {}, Start(nonce));
    var tx := Sample(1, nonce, 1, 0);
    assert tx.nonce == nonce by {
      SampleNonce(1, nonce, 1, 0);
    }
    var err, replaced;
    ghost var step;
    err, replaced, step := pool.Add(tx, false, 0);
    SampleQueued(tx, step);
    ghost var l, nonces := pool.queue[7], pool.noncer.nonces;
    var promoted := pool.PromoteAccount(7, 0);
    SamplePromoted(tx, l, nonces, pool.pending);
  }

  lemma SampleNonce(id: nat, nonce: nat, price: int, gas: nat)
    ensures Sample(id, nonce, price, gas).nonce == nonce && Sample(id, nonce, price, gas).sender == 7
  {
  }

  lemma AtMostOne(s: set<Tx>, t: Tx)
    requires s <= {t}
    ensures |s| <= 1
  {
    assert s == {} || s == {t};
  }

  // ---- A state that cannot be read

  lemma SampleReplaced(step: AddStep)
    requires TxAdded(step, Sample(2, 0, 2, 5), false, 1, Start(0), ROOMY)
    requires Holds(step.before.pending, Sample(1, 0, 1, 0)) && step.before.all <= {Sample(1, 0, 1, 0)}
    ensures !FirstsPayable(step.after.pending, Start(0), 0)
  {
    var w := step.after;
    AtMostOne(step.before.all, Sample(1, 0, 1, 0));
    SampleAccepted(Sample(2, 0, 2, 5), step.before, 0);
    hide Judge;
    assert Replaces(Sample(2, 0, 2, 5), Sample(1, 0, 1, 0), 10);
    assert Has(w.pending, 7, Start(0).GetNonce(7)) && w.pending[7].txs[0] == Sample(2, 0, 2, 5);
  }

  /** The gas limit is zero. A pending transaction is replaced by one with gas, which nothing checks
      on the way; a reset whose state cannot be read then drops it and leaves the virtual nonce. */
  method FailedLoadBreaksInterval() returns (pool: TxPool)
    ensures pool.Valid() && !pool.Interval()
  {
    hide Partition, HeapOk, FloorOk, Executable, TxAdded, FirstsPayable, AllPayable, Affordable, Total, MovesForward,
      Sample, Holds, HeapAdded, Sank, LeadsTo, Halfway.Mends;
    pool := OnePending(0);
    var err, replaced;
    ghost var step;
    err, replaced, step := pool.Add(Sample(2, 0, 2, 5), false, 0);
    SampleReplaced(step);
    var more;
    ghost var mid;
    more, mid := pool.RunReorg(Some(Reset(None, [])), [], 0);
  }

  // ---- A nonce that falls

  /** A pool with one pending transaction has nothing queued. */
  lemma SampleAlone(pending: Lists, queue: Lists, all: set<Tx>, tx: Tx)
    requires Partition(pending, queue, all) && Holds(pending, tx) && all <= {tx} && tx.sender == 7
    ensures queue == map[] && all == {tx} && TxsOf(pending, 7) == map[tx.nonce := tx]
  {
    assert tx in all;
    forall a, n: nat ensures !Has(queue, a, n) {
      if Has(queue, a, n) {
        HasHolds(queue, false, a, n);
        assert false;
      }
    }
    assert queue.Keys == {} by {
      assert forall a :: a in queue ==> forall n: nat :: n in queue[a].txs ==> Has(queue, a, n);
    }
    forall n: nat | n in TxsOf(pending, 7) ensures n == tx.nonce {
      HasHolds(pending, true, 7, n);
    }
  }

  /** A transaction two nonces below is reinjected and will be promoted; the one between is missing. */
  lemma SampleGap(v: View, p: PriceHeap, nonces: map<Address, nat>, mid: Halfway)
    requires var tx := Sample(1, 2, 1, 0); v.queue == map[] && v.all == {tx} && TxsOf(v.pending, 7) == map[2 := tx]
    requires LeadsTo(v, p, Start(2), nonces, Reset(Some(Start(0)), [Sample(3, 0, 1, 0)]), mid, 1, ROOMY)
    ensures !mid.Mends(0) && |mid.view.all| <= 2
  {
    hide LeadsTo, ReadyOf, AddedAll;
    SampleStep(v, p, nonces, mid);
    SampleRun(mid.view.queue[7], Sample(3, 0, 1, 0));
    var c := AccountOf(mid.view.pending, mid.view.queue, mid.state, mid.nonces, 0, 7);
    assert c == Account(map[2 := Sample(1, 2, 1, 0)], 0, 1, 0, 0, 0, 0);
    hide AccountOf;
    assert c.Stays(2) && !c.Listed(1);
    assert !c.Mends();
  }

  lemma SampleRun(l: TxList, tx: Tx)
    requires tx == Sample(3, 0, 1, 0) && l == TxList(false, map[0 := tx], 0, 0)
    ensures var run := ReadyOf(l, 0, 0, 0, 0); FirstNonce(run) == 0 && |run| == 1
  {
    hide ReadyOf;
    ReadyMeaning(l, 7, 0, 0, 0, 0);
    assert Current(l, 0, 0, 0, 0);
    var run := ReadyOf(l, 0, 0, 0, 0);
    assert run[|run| - 1] in run;
  }

  lemma SampleStep(v: View, p: PriceHeap, nonces: map<Address, nat>, mid: Halfway)
    requires var tx := Sample(1, 2, 1, 0); v.queue == map[] && v.all == {tx} && TxsOf(v.pending, 7) == map[2 := tx]
    requires LeadsTo(v, p, Start(2), nonces, Reset(Some(Start(0)), [Sample(3, 0, 1, 0)]), mid, 1, ROOMY)
    ensures mid.state == Start(0) && mid.nonces == map[] && mid.view.pending == v.pending && |mid.view.all| <= 2
    ensures mid.view.queue == map[7 := TxList(false, map[0 := Sample(3, 0, 1, 0)], 0, 0)]
  {
    hide LeadsTo, TxAdded, Judge, Config.Full;
    SingleStep(v, p, Start(2), nonces, Reset(Some(Start(0)), [Sample(3, 0, 1, 0)]), mid, 1, ROOMY);
    SampleAccepted(Sample(3, 0, 1, 0), v, 0);
    SampleBelow(mid.steps[0]);
  }

  /** The reinjected transaction is queued. */
  lemma SampleBelow(step: AddStep)
    requires var tx, v := Sample(1, 2, 1, 0), step.before;
             v.queue == map[] && v.all == {tx} && TxsOf(v.pending, 7) == map[2 := tx]
    requires TxAdded(step, Sample(3, 0, 1, 0), false, 1, Start(0), ROOMY)
    ensures step.after.queue == map[7 := TxList(false, map[0 := Sample(3, 0, 1, 0)], 0, 0)]
    ensures step.after.pending == step.before.pending && |step.after.all| <= 2
  {
    hide Judge, Config.Full;
    var tx, v := Sample(3, 0, 1, 0), step.before;
    SampleAccepted(tx, v, 0);
    assert !Has(v.pending, 7, 0) by {
      TxsHas(v.pending, 7);
    }
    assert step.after.all == {Sample(1, 2, 1, 0), tx};
  }

  /** Account 7 has nonce 2 and a pending transaction. The chain falls back to its nonce 0, and of the
      two transactions that were undone one is reinjected. It becomes pending below a gap. */
  method FallingNonceBreaksInterval() returns (pool: TxPool)
    ensures pool.Valid() && !pool.Interval()
  {
    hide Partition, HeapOk, FloorOk, Executable, FirstsPayable, AllPayable, Affordable, Total, MovesForward,
      Sample, Holds, HeapAdded, Sank, LeadsTo, Halfway.Mends;
    pool := OnePending(2);
    ghost var v, p, nonces, tx := pool.Views(), pool.priced.Heap(), pool.noncer.nonces, Sample(1, 2, 1, 0);
    assert tx.sender == 7 && tx.nonce == 2 by {
      SampleNonce(1, 2, 1, 0);
    }
    SampleAlone(pool.pending, pool.queue, pool.lookup.all, tx);
    var more;
    ghost var mid;
    more, mid := pool.RunReorg(Some(Reset(Some(Start(0)), [Sample(3, 0, 1, 0)])), [], 0);
    SampleGap(v, p, nonces, mid);
  }
}
