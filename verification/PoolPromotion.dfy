/** Moving the executable part of a queued list to the pending list. */
module PoolPromotion {
  import opened Wrappers
  import opened TxLists
  import opened PoolViews

  /** Consecutive transactions of account a from nonce first on. */
  ghost predicate IsRun(txs: seq<Tx>, a: Address, first: nat) {
    forall i :: 0 <= i < |txs| ==> txs[i].sender == a && txs[i].nonce == first + i
  }

  function FirstNonce(txs: seq<Tx>): nat {
    if txs == [] then 0 else txs[0].nonce
  }

  function FirstTxs(txs: seq<Tx>, n: nat): set<Tx>
    requires n <= |txs|
  {
    set i | 0 <= i < n :: txs[i]
  }

  lemma FirstTxsStep(txs: seq<Tx>, n: nat)
    requires n < |txs|
    ensures FirstTxs(txs, n + 1) == FirstTxs(txs, n) + {txs[n]}
  {
  }

  /** One round of the loop that promotes a run into free places. */
  lemma PromoteRound(m: Lists, start: Lists, txs: seq<Tx>, i: nat, a: Address, first: nat, priceBump: nat)
    requires ListsOk(m, true) && NonEmpty(m) && i < |txs| && IsRun(txs, a, first)
    requires PlacesFree(start, FirstTxs(txs, |txs|)) && ListsOk(start, true)
    requires Joined(m, start, FirstTxs(txs, i))
    ensures Occupant(m, txs[i]) == {} && Admits(m, txs[i], priceBump)
    ensures var m' := Inserted(m, txs[i], true, priceBump);
            ListsOk(m', true) && NonEmpty(m') && Joined(m', start, FirstTxs(txs, i + 1))
  {
    hide TxList.Valid, TxList.Add, NonEmpty, Inserted;
    var tx := txs[i];
    assert tx in FirstTxs(txs, |txs|);
    if Has(m, tx.sender, tx.nonce) {
      HasHolds(m, true, tx.sender, tx.nonce);
      assert false;
    }
    FirstTxsStep(txs, i);
    InsertedHolds(m, tx, true, priceBump);
  }

  lemma RunPlaces(m: Lists, start: Lists, strict: bool, txs: seq<Tx>, a: Address, first: nat)
    requires ListsOk(m, strict) && ListsOk(start, strict) && IsRun(txs, a, first)
    requires Joined(m, start, FirstTxs(txs, |txs|))
    ensures forall b, n: nat :: Has(m, b, n) <==> Has(start, b, n) || (b == a && first <= n < first + |txs|)
  {
    forall b, n: nat ensures Has(m, b, n) <==> Has(start, b, n) || (b == a && first <= n < first + |txs|) {
      if Has(m, b, n) {
        HasHolds(m, strict, b, n);
      }
      if Has(start, b, n) {
        HasHolds(start, strict, b, n);
        assert Holds(m, start[b].txs[n]);
      }
      if b == a && first <= n < first + |txs| {
        assert txs[n - first] in FirstTxs(txs, |txs|);
        assert Holds(m, txs[n - first]);
      }
    }
  }

  lemma GoneChain(l: TxList, l1: TxList, l2: TxList, a: Address)
    requires l.Valid(a) && Shrinks(l, l1) && Shrinks(l1, l2)
    ensures Shrinks(l, l2) && Gone(l, l2) == Gone(l, l1) + Gone(l1, l2) && Gone(l, l1) !! Gone(l1, l2)
  {
    forall t ensures t in Gone(l, l2) <==> t in Gone(l, l1) || t in Gone(l1, l2) {
      GoneMeaning(l, l2, a, t);
      GoneMeaning(l, l1, a, t);
      if t in Gone(l1, l2) {
        assert t.nonce in l1.txs;
      }
    }
  }

  lemma ForwardShrinks(l: TxList, a: Address, threshold: nat)
    requires l.Valid(a)
    ensures Shrinks(l, l.Forward(threshold)) && l.Forward(threshold).Valid(a)
    ensures forall n :: n in l.Forward(threshold).txs <==> n in l.txs && n >= threshold
  {
  }

  lemma FilterShrinks(l: TxList, a: Address, costLimit: int, gasLimit: nat)
    requires l.Valid(a)
    ensures Shrinks(l, l.Filter(costLimit, gasLimit)) && l.Filter(costLimit, gasLimit).Valid(a)
  {
    FilterMeaning(l, a, costLimit, gasLimit);
  }

  lemma CapShrinks(l: TxList, a: Address, threshold: nat)
    requires l.Valid(a)
    ensures Shrinks(l, l.Cap(threshold)) && l.Cap(threshold).Valid(a)
  {
  }

  /** Ready takes exactly the run it returns out of the list. */
  lemma ReadyShrinks(l: TxList, a: Address, start: nat)
    requires l.Valid(a)
    ensures var ready, l' := l.Ready(start), l.AfterReady(start);
            && Shrinks(l, l') && l'.Valid(a) && Gone(l, l') == FirstTxs(ready, |ready|)
            && (ready != [] ==> IsRun(ready, a, Least(l.txs.Keys)) && Least(l.txs.Keys) <= start)
            && (ready == [] <==> l.txs == map[] || Least(l.txs.Keys) > start)
  {
    var ready, l' := l.Ready(start), l.AfterReady(start);
    if l.txs != map[] && Least(l.txs.Keys) <= start {
      var first := Least(l.txs.Keys);
      RunMeaning(l.txs, first);
      assert forall i :: 0 <= i < |ready| ==> ready[i] == l.txs[first + i];
      forall t ensures t in Gone(l, l') <==> t in FirstTxs(ready, |ready|) {
        GoneMeaning(l, l', a, t);
        if t in Gone(l, l') {
          assert ready[t.nonce - first] == t;
        }
      }
    }
  }

  /** The transactions of a queued list that can be executed now. */
  function ReadyOf(l: TxList, nonce: nat, balance: int, maxGas: nat, start: nat): seq<Tx> {
    l.Forward(nonce).Filter(balance, maxGas).Ready(start)
  }

  function Capped(l: TxList, cap: Option<nat>): TxList {
    if cap.Some? then l.Cap(cap.value) else l
  }

  /** What stays of a queued list: affordable future transactions, at most cap of them. */
  function RestOf(l: TxList, nonce: nat, balance: int, maxGas: nat, start: nat, cap: Option<nat>): TxList {
    Capped(l.Forward(nonce).Filter(balance, maxGas).AfterReady(start), cap)
  }

  /** Nonce n of the list is not below the state nonce and payable. */
  predicate Current(l: TxList, nonce: nat, balance: int, maxGas: nat, n: nat) {
    n in l.txs && n >= nonce && !Over(l.txs[n], balance, maxGas)
  }

  lemma FilteredCurrent(l: TxList, a: Address, nonce: nat, balance: int, maxGas: nat)
    requires l.Valid(a) && !l.strict
    ensures var l2 := l.Forward(nonce).Filter(balance, maxGas);
            && l2.Valid(a)
            && (forall n: nat :: n in l2.txs <==> Current(l, nonce, balance, maxGas, n))
            && (forall n :: n in l2.txs ==>
                  n >= nonce && n in l.txs && l2.txs[n] == l.txs[n] && !Over(l2.txs[n], balance, maxGas))
  {
    hide TxList.Filter, TxList.Forward, TxList.Valid, Over;
    ForwardShrinks(l, a, nonce);
    FilterMeaning(l.Forward(nonce), a, balance, maxGas);
  }

  lemma ReadyRun(l: TxList, a: Address, start: nat)
    requires l.Valid(a)
    ensures var ready := l.Ready(start);
            && IsRun(ready, a, FirstNonce(ready))
            && (forall t :: t in ready ==> t.nonce in l.txs && l.txs[t.nonce] == t)
            && (ready == [] <==> forall n :: n in l.txs ==> n > start)
            && (ready != [] ==>
                  && FirstNonce(ready) in l.txs && FirstNonce(ready) <= start
                  && (forall n :: n in l.txs ==> n >= FirstNonce(ready))
                  && FirstNonce(ready) + |ready| !in l.txs)
  {
    hide TxList.AfterReady, TxList.Valid, Gone, Shrinks;
    ReadyShrinks(l, a, start);
    var ready := l.Ready(start);
    if l.txs != map[] {
      assert Least(l.txs.Keys) in l.txs;
    }
    if ready != [] {
      var first := Least(l.txs.Keys);
      RunMeaning(l.txs, first);
      hide Run, TxList.Ready;
      assert ready[0].nonce == first;
      forall t | t in ready ensures t.nonce in l.txs && l.txs[t.nonce] == t {
        var i :| 0 <= i < |ready| && t == ready[i];
        assert first + i in l.txs && l.txs[first + i] == t;
      }
    }
  }

  /** The run of a queued list that is promoted: the longest consecutive one from the least
      current nonce on, provided that is not above start. */
  lemma ReadyMeaning(l: TxList, a: Address, nonce: nat, balance: int, maxGas: nat, start: nat)
    requires l.Valid(a) && !l.strict
    ensures var ready := ReadyOf(l, nonce, balance, maxGas, start);
            && IsRun(ready, a, FirstNonce(ready))
            && (ready != [] ==> nonce <= FirstNonce(ready) <= start && FirstNonce(ready) in l.txs)
            && (forall t :: t in ready ==> !Over(t, balance, maxGas) && t.nonce in l.txs && l.txs[t.nonce] == t)
            && (ready == [] <==> forall n: nat :: Current(l, nonce, balance, maxGas, n) ==> n > start)
            && (ready != [] ==>
                  && (forall n: nat :: Current(l, nonce, balance, maxGas, n) ==> n >= FirstNonce(ready))
                  && !Current(l, nonce, balance, maxGas, FirstNonce(ready) + |ready|))
  {
    hide TxList.Filter, TxList.Forward, TxList.Ready, TxList.Valid, Current, Over, IsRun, FirstNonce;
    FilteredCurrent(l, a, nonce, balance, maxGas);
    ReadyRun(l.Forward(nonce).Filter(balance, maxGas), a, start);
  }

  /** The parts a queued list falls into when it is promoted. */
  lemma PromotionParts(l: TxList, a: Address, nonce: nat, balance: int, maxGas: nat, start: nat, cap: Option<nat>)
    requires l.Valid(a)
    ensures var l1 := l.Forward(nonce);
            var l2 := l1.Filter(balance, maxGas);
            var ready, l3 := l2.Ready(start), l2.AfterReady(start);
            var rest := Capped(l3, cap);
            var forwards, drops, on, caps := Gone(l, l1), Gone(l1, l2), FirstTxs(ready, |ready|), Gone(l3, rest);
            && Shrinks(l, rest) && rest.Valid(a)
            && Gone(l, rest) == forwards + drops + on + caps
            && forwards !! drops !! on !! caps
  {
    hide *;
    var l1 := l.Forward(nonce);
    ForwardShrinks(l, a, nonce);
    var l2 := l1.Filter(balance, maxGas);
    FilterShrinks(l1, a, balance, maxGas);
    GoneChain(l, l1, l2, a);
    var l3 := l2.AfterReady(start);
    ReadyShrinks(l2, a, start);
    GoneChain(l, l2, l3, a);
    CappedShrinks(l3, a, cap);
    GoneChain(l, l3, Capped(l3, cap), a);
  }

  lemma CappedShrinks(l: TxList, a: Address, cap: Option<nat>)
    requires l.Valid(a)
    ensures Shrinks(l, Capped(l, cap)) && Capped(l, cap).Valid(a)
  {
    if cap.Some? {
      CapShrinks(l, a, cap.value);
    }
  }

  /** Everything the promotion of one account relies on. */
  lemma PromotionFacts(pending: Lists, queue: Lists, all: set<Tx>, a: Address,
                       nonce: nat, balance: int, maxGas: nat, start: nat, cap: Option<nat>)
    requires Partition(pending, queue, all) && a in queue
    ensures var l := queue[a];
            var l1 := l.Forward(nonce);
            var l2 := l1.Filter(balance, maxGas);
            var ready, l3 := l2.Ready(start), l2.AfterReady(start);
            var rest := Capped(l3, cap);
            var forwards, drops, on, caps := Gone(l, l1), Gone(l1, l2), FirstTxs(ready, |ready|), Gone(l3, rest);
            && Shrinks(l, rest) && rest.Valid(a)
            && Gone(l, rest) == forwards + drops + on + caps && Gone(l, rest) <= all
            && forwards !! drops !! on !! caps
            && |forwards + drops + caps| == |forwards| + |drops| + |caps|
            && IsRun(ready, a, FirstNonce(ready)) && PlacesFree(pending, on)
  {
    hide *;
    QueueList(pending, queue, all, a);
    PromotionParts(queue[a], a, nonce, balance, maxGas, start, cap);
    ReadyIs(queue[a], nonce, balance, maxGas, start);
    ReadyMeaning(queue[a], a, nonce, balance, maxGas, start);
    var rest := Capped(queue[a].Forward(nonce).Filter(balance, maxGas).AfterReady(start), cap);
    GoneFromQueue(pending, queue, all, a, rest);
    var ready := queue[a].Forward(nonce).Filter(balance, maxGas).Ready(start);
    SubsetFree(pending, Gone(queue[a], rest), FirstTxs(ready, |ready|));
  }

  lemma ReadyIs(l: TxList, nonce: nat, balance: int, maxGas: nat, start: nat)
    ensures ReadyOf(l, nonce, balance, maxGas, start) == l.Forward(nonce).Filter(balance, maxGas).Ready(start)
  {
  }

  /** What leaves a queued list finds its places in the pending list free. */
  lemma GoneFromQueue(pending: Lists, queue: Lists, all: set<Tx>, a: Address, l': TxList)
    requires Partition(pending, queue, all) && a in queue
    ensures Gone(queue[a], l') <= all && PlacesFree(pending, Gone(queue[a], l'))
  {
    GonePlaces(queue[a], l', a);
    forall t | t in Gone(queue[a], l') ensures t in all && !Has(pending, t.sender, t.nonce) {
      assert Has(queue, t.sender, t.nonce) && Holds(queue, t);
    }
  }

  lemma SubsetFree(m: Lists, txs: set<Tx>, some: set<Tx>)
    requires PlacesFree(m, txs) && some <= txs
    ensures PlacesFree(m, some)
  {
  }

  lemma Cardinality3(a: set<Tx>, b: set<Tx>, c: set<Tx>)
    requires a !! b && a !! c && b !! c
    ensures |a + b + c| == |a| + |b| + |c|
  {
  }

  /** What is ready is taken to its end: only nonces above the one after it stay in the list. */
  lemma NextGone(l: TxList, a: Address, start: nat)
    requires l.Valid(a)
    ensures var ready := l.Ready(start);
            var next := if ready == [] then start else FirstNonce(ready) + |ready|;
            forall n :: n in l.AfterReady(start).txs ==> n > next
  {
    hide TxList.Ready, TxList.AfterReady, TxList.Valid, Gone, FirstNonce;
    ReadyShrinks(l, a, start);
    ReadyRun(l, a, start);
    var ready, l' := l.Ready(start), l.AfterReady(start);
    var first := FirstNonce(ready);
    forall n | first <= n < first + |ready| ensures n !in l'.txs {
      assert ready[n - first] in FirstTxs(ready, |ready|);
      GoneMeaning(l, l', a, ready[n - first]);
    }
  }

  /** Nothing executable is left behind: the rest is above the nonce after the promoted run, or above
      start if nothing was promoted. */
  lemma RestDrained(l: TxList, a: Address, nonce: nat, balance: int, maxGas: nat, start: nat, cap: Option<nat>)
    requires l.Valid(a)
    ensures var ready := ReadyOf(l, nonce, balance, maxGas, start);
            var next := if ready == [] then start else FirstNonce(ready) + |ready|;
            forall n :: n in RestOf(l, nonce, balance, maxGas, start, cap).txs ==> n > next
    ensures cap.Some? ==> |RestOf(l, nonce, balance, maxGas, start, cap).txs| <= cap.value
  {
    hide TxList.Filter, TxList.Forward, TxList.Valid, TxList.Ready, TxList.AfterReady, Run, CapMap;
    var l1 := l.Forward(nonce);
    var l2 := l1.Filter(balance, maxGas);
    ForwardShrinks(l, a, nonce);
    FilterShrinks(l1, a, balance, maxGas);
    NextGone(l2, a, start);
    assert RestOf(l, nonce, balance, maxGas, start, cap) == Capped(l2.AfterReady(start), cap);
  }
}
