/** Moving transactions of a pending list that are no longer executable back to the queue. */
module PoolDemotion {
  import opened TxLists
  import opened PoolViews
  import opened PoolPromotion

  /** A pending list with nonces, but not the state nonce, is postponed altogether. */
  function Degapped(l: TxList, nonce: nat): TxList {
    if l.txs != map[] && nonce !in l.txs then l.Cap(0) else l
  }

  /** What stays pending. */
  function StaysPending(l: TxList, nonce: nat, balance: int, maxGas: nat): TxList {
    Degapped(l.Forward(nonce).Filter(balance, maxGas), nonce)
  }

  function OverOf(txs: set<Tx>, balance: int, maxGas: nat): set<Tx> {
    set t | t in txs && Over(t, balance, maxGas)
  }

  /** What leaves the pool: transactions below the state nonce, and those that cost too much. */
  function LeavesPool(l: TxList, nonce: nat, balance: int, maxGas: nat): set<Tx> {
    var l1 := l.Forward(nonce);
    Gone(l, l1) + OverOf(Gone(l1, l1.Filter(balance, maxGas)), balance, maxGas)
  }

  /** What goes is dropped or postponed. */
  lemma DemotionSets(all: set<Tx>, gone: set<Tx>, olds: set<Tx>, cut: set<Tx>, drops: set<Tx>, gapped: set<Tx>)
    requires gone == olds + cut + gapped && olds !! cut !! gapped && drops <= cut
    ensures all - (gone - (cut - drops + gapped)) == all - (olds + drops)
    ensures gone - (olds + drops) == cut - drops + gapped
  {
  }

  lemma DemotionParts(l: TxList, nonce: nat, balance: int, maxGas: nat)
    ensures var l1 := l.Forward(nonce);
            var l2 := l1.Filter(balance, maxGas);
            && StaysPending(l, nonce, balance, maxGas) == Degapped(l2, nonce)
            && LeavesPool(l, nonce, balance, maxGas) == Gone(l, l1) + OverOf(Gone(l1, l2), balance, maxGas)
  {
  }

  /** Everything the demotion of one account relies on. */
  lemma DemotionFacts(pending: Lists, queue: Lists, all: set<Tx>, a: Address, nonce: nat, balance: int, maxGas: nat)
    requires Partition(pending, queue, all) && a in pending
    ensures var l := pending[a];
            var l1 := l.Forward(nonce);
            var l2 := l1.Filter(balance, maxGas);
            var l3 := Degapped(l2, nonce);
            var olds, cut, gapped := Gone(l, l1), Gone(l1, l2), Gone(l2, l3);
            var drops := OverOf(cut, balance, maxGas);
            && Shrinks(l, l3) && l3.Valid(a)
            && Gone(l, l3) == olds + cut + gapped && Gone(l, l3) <= all
            && olds !! cut !! gapped && drops <= cut && |olds + drops| == |olds| + |drops|
            && DistinctPlaces(Gone(l, l3)) && PlacesFree(queue, Gone(l, l3))
  {
    hide *;
    QueueList(pending, queue, all, a);
    var l := pending[a];
    var l1 := l.Forward(nonce);
    ForwardShrinks(l, a, nonce);
    var l2 := l1.Filter(balance, maxGas);
    FilterShrinks(l1, a, balance, maxGas);
    GoneChain(l, l1, l2, a);
    var l3 := Degapped(l2, nonce);
    DegappedShrinks(l2, a, nonce);
    GoneChain(l, l2, l3, a);
    GoneFromPending(pending, queue, all, a, l3);
    OverSubset(Gone(l1, l2), balance, maxGas);
    Cardinality3(Gone(l, l1), OverOf(Gone(l1, l2), balance, maxGas), {});
    var olds, drops := Gone(l, l1), OverOf(Gone(l1, l2), balance, maxGas);
    assert olds + drops == olds + drops + {};
  }

  lemma OverSubset(txs: set<Tx>, balance: int, maxGas: nat)
    ensures OverOf(txs, balance, maxGas) <= txs
  {
  }

  lemma DegappedShrinks(l: TxList, a: Address, nonce: nat)
    requires l.Valid(a)
    ensures Shrinks(l, Degapped(l, nonce)) && Degapped(l, nonce).Valid(a)
  {
    CapShrinks(l, a, 0);
  }

  lemma SomePlaces(m: Lists, txs: set<Tx>, some: set<Tx>)
    requires DistinctPlaces(txs) && PlacesFree(m, txs) && some <= txs
    ensures DistinctPlaces(some) && PlacesFree(m, some)
  {
  }

  /** A pending list that starts at the state nonce and holds only payable transactions. */
  ghost predicate Payable(l: TxList, nonce: nat, balance: int, maxGas: nat) {
    && nonce in l.txs
    && forall n :: n in l.txs ==> n >= nonce && !Over(l.txs[n], balance, maxGas)
  }

  /** What stays pending is payable, if anything stays. */
  lemma StaysPayable(l: TxList, a: Address, nonce: nat, balance: int, maxGas: nat)
    requires l.Valid(a) && l.strict
    ensures var l' := StaysPending(l, nonce, balance, maxGas);
            l'.txs != map[] ==> Payable(l', nonce, balance, maxGas)
  {
    hide TxList.Forward, TxList.Filter, TxList.Valid;
    var l1 := l.Forward(nonce);
    var l2 := l1.Filter(balance, maxGas);
    ForwardShrinks(l, a, nonce);
    FilterMeaning(l1, a, balance, maxGas);
    assert forall n :: n in l2.txs ==> n >= nonce && !Over(l2.txs[n], balance, maxGas);
  }

  lemma DemotedWithin(pending: Lists, queue: Lists, all: set<Tx>, a: Address, nonce: nat, balance: int, maxGas: nat)
    requires Partition(pending, queue, all) && a in pending
    ensures Within(Put(pending, a, StaysPending(pending[a], nonce, balance, maxGas)), pending)
  {
    hide TxList.Filter, TxList.Forward, Degapped, OverOf, DistinctPlaces, PlacesFree;
    DemotionFacts(pending, queue, all, a, nonce, balance, maxGas);
    QueueList(pending, queue, all, a);
    hide Partition, TxList.Valid, Shrinks;
    PutWithin(pending, a, StaysPending(pending[a], nonce, balance, maxGas));
  }

  /** What stays pending, nonce by nonce: the list has the state nonce, and from there on nothing
      is too costly. */
  lemma StaysMeaning(l: TxList, a: Address, nonce: nat, balance: int, maxGas: nat)
    requires l.Valid(a) && l.strict
    ensures var l' := StaysPending(l, nonce, balance, maxGas);
            forall n: nat :: n in l'.txs <==>
              && n in l.txs && n >= nonce && nonce in l.txs
              && forall k: nat :: k in l.txs && nonce <= k <= n ==> !Over(l.txs[k], balance, maxGas)
  {
    hide TxList.Forward, TxList.Filter, TxList.Valid, Over;
    var l1 := l.Forward(nonce);
    var l2 := l1.Filter(balance, maxGas);
    ForwardShrinks(l, a, nonce);
    FilterMeaning(l1, a, balance, maxGas);
    forall n: nat ensures n in l2.txs <==>
      && n in l.txs && n >= nonce
      && forall k: nat :: k in l.txs && nonce <= k <= n ==> !Over(l.txs[k], balance, maxGas)
    {
      if n in l1.txs {
        assert forall k: nat :: k in l1.txs <==> k in l.txs && nonce <= k;
      }
    }
  }
}
