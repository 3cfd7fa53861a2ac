/** txList as an object over a txSortedMap: every method carries out the operation on TxList values. */
module TxListObjects {
  import opened Wrappers
  import opened TxLists
  import opened TxSortedMaps

  lemma FilteredLoose(l: TxList, costLimit: int, gasLimit: nat)
    requires !(l.costcap <= costLimit && l.gascap <= gasLimit)
    requires !l.strict || l.OverNonces(costLimit, gasLimit) == {}
    ensures l.Filter(costLimit, gasLimit)
         == TxList(l.strict, Kept(l.txs, tx => Over(tx, costLimit, gasLimit)), costLimit, gasLimit)
  {
    var over := l.OverNonces(costLimit, gasLimit);
    assert forall n :: n in l.txs ==> (n in over <==> Over(l.txs[n], costLimit, gasLimit));
    assert Restrict(l.txs, l.txs.Keys - over) == Kept(l.txs, tx => Over(tx, costLimit, gasLimit));
  }

  lemma FilteredStrict(l: TxList, costLimit: int, gasLimit: nat, lowest: nat)
    requires !(l.costcap <= costLimit && l.gascap <= gasLimit) && l.strict && Keyed(l.txs)
    requires var over := l.OverNonces(costLimit, gasLimit); lowest in over && forall n :: n in over ==> lowest <= n
    ensures l.Filter(costLimit, gasLimit)
         == TxList(l.strict,
                   Kept(Kept(l.txs, tx => Over(tx, costLimit, gasLimit)), (tx: Tx) => tx.nonce > lowest),
                   costLimit, gasLimit)
  {
    var over := l.OverNonces(costLimit, gasLimit);
    assert lowest == Least(over);
    var kept := Kept(l.txs, tx => Over(tx, costLimit, gasLimit));
    var cut := Kept(kept, (tx: Tx) => tx.nonce > lowest);
    forall n ensures n in cut <==> n in l.txs && n < lowest {
      if n in l.txs {
        assert n in over <==> Over(l.txs[n], costLimit, gasLimit);
      }
    }
    assert cut == Restrict(l.txs, set n | n in l.txs && n < lowest);
  }

  lemma RemovedAbove(l: TxList, nonce: nat)
    requires Keyed(l.txs) && nonce in l.txs
    ensures l.strict ==> l.Remove(nonce).txs == Kept(l.txs - {nonce}, (tx: Tx) => tx.nonce > nonce)
    ensures !l.strict ==> l.Remove(nonce).txs == l.txs - {nonce}
  {
    var kept := Kept(l.txs - {nonce}, (tx: Tx) => tx.nonce > nonce);
    assert forall n :: n in kept <==> n in l.txs && n < nonce;
  }

  /** The nonces of what the first filter removes are those over the limits. */
  lemma RemovedNonces(l: TxList, kept: map<nat, Tx>, removed: seq<Tx>, costLimit: int, gasLimit: nat)
    requires Keyed(l.txs) && kept == Kept(l.txs, tx => Over(tx, costLimit, gasLimit))
    requires Removed(l.txs, kept, removed)
    ensures forall tx :: tx in removed ==> tx.nonce in l.OverNonces(costLimit, gasLimit) && tx.nonce in l.txs
    ensures forall n :: n in l.OverNonces(costLimit, gasLimit) ==> n in l.txs && l.txs[n] in removed
    ensures RemovedOver(l.txs, removed, costLimit, gasLimit)
    ensures removed == [] ==> l.OverNonces(costLimit, gasLimit) == {}
  {
  }

  /** Below the caps nothing is over the limits. */
  lemma NothingOver(l: TxList, costLimit: int, gasLimit: nat)
    requires Bounded(l.txs, l.costcap, l.gascap) && l.costcap <= costLimit && l.gascap <= gasLimit
    ensures RemovedOver(l.txs, [], costLimit, gasLimit) && l.Filter(costLimit, gasLimit) == l
  {
  }

  lemma RemovedTwice(m: map<nat, Tx>, r: map<nat, Tx>, s: map<nat, Tx>, first: seq<Tx>, second: seq<Tx>)
    requires Removed(m, r, first) && Removed(r, s, second)
    requires s.Keys <= r.Keys <= m.Keys && forall n :: n in r ==> r[n] == m[n]
    ensures Removed(m, s, first + second)
  {
    forall tx ensures tx in first + second <==> tx.nonce in m && m[tx.nonce] == tx && tx.nonce !in s {
      assert tx in first + second <==> tx in first || tx in second;
    }
  }

  /** No transaction is over the caps. */
  ghost predicate Bounded(m: map<nat, Tx>, costcap: int, gascap: nat) {
    forall n :: n in m ==> !Over(m[n], costcap, gascap)
  }

  /** removed holds exactly the stored transactions over the limits. */
  ghost predicate RemovedOver(m: map<nat, Tx>, removed: seq<Tx>, costLimit: int, gasLimit: nat) {
    forall tx :: tx in removed <==> tx.nonce in m && m[tx.nonce] == tx && Over(tx, costLimit, gasLimit)
  }

  lemma FilteredBounded(l: TxList, costLimit: int, gasLimit: nat)
    requires Keyed(l.txs) && Bounded(l.txs, l.costcap, l.gascap)
    ensures var r := l.Filter(costLimit, gasLimit); Bounded(r.txs, r.costcap, r.gascap)
  {
    var over := l.OverNonces(costLimit, gasLimit);
    assert forall n :: n in l.txs ==> (n in over <==> Over(l.txs[n], costLimit, gasLimit));
  }

  class TxListObject {
    const strict: bool
    const txs: TxSortedMap
    var costcap: int
    var gascap: nat

    /** The list as a value. */
    ghost function View(): TxList
      reads this, txs
    {
      TxList(strict, txs.items, costcap, gascap)
    }

    /** The caps bound every stored transaction. */
    ghost predicate Valid()
      reads this, txs
    {
      txs.Valid() && Bounded(txs.items, costcap, gascap)
    }

    constructor (strict: bool)
      ensures Valid() && fresh(txs) && View() == NewList(strict)
    {
      this.strict := strict;
      txs := new TxSortedMap();
      costcap, gascap := 0, 0;
    }

    method Add(tx: Tx, priceBump: nat) returns (inserted: bool, replaced: Option<Tx>)
      requires Valid() && tx.nonce <= MAX_NONCE
      modifies this, txs
      ensures Valid() && Added(inserted, replaced, View()) == old(View()).Add(tx, priceBump)
    {
      if tx.nonce in txs.items {
        var prev := txs.items[tx.nonce];
        var threshold := (100 + priceBump) * prev.price / 100;
        if prev.price >= tx.price || tx.price < threshold {
          return false, None;
        }
        replaced := Some(prev);
      } else {
        replaced := None;
      }
      txs.Put(tx);
      if costcap < tx.Cost() {
        costcap := tx.Cost();
      }
      if gascap < tx.gas {
        gascap := tx.gas;
      }
      inserted := true;
    }

    method Forward(threshold: nat) returns (removed: seq<Tx>)
      requires Valid()
      modifies txs
      ensures Valid() && View() == old(View()).Forward(threshold)
      ensures Sorted(old(txs.items)) == removed + Sorted(txs.items)
    {
      removed := txs.Forward(threshold);
    }

    /** The least nonce among the removed transactions. */
    static method Lowest(removed: seq<Tx>) returns (lowest: nat)
      requires removed != [] && forall tx :: tx in removed ==> tx.nonce <= MAX_NONCE
      ensures exists tx :: tx in removed && tx.nonce == lowest
      ensures forall tx :: tx in removed ==> lowest <= tx.nonce
    {
      lowest := MAX_NONCE;
      var i := 0;
      while i < |removed|
        invariant 0 <= i <= |removed|
        invariant lowest == MAX_NONCE || exists tx :: tx in removed && tx.nonce == lowest
        invariant lowest <= MAX_NONCE && forall j :: 0 <= j < i ==> lowest <= removed[j].nonce
      {
        if lowest > removed[i].nonce {
          lowest := removed[i].nonce;
        }
        i := i + 1;
      }
      assert removed[0] in removed;
    }

    /** Drops what is over the limits and, in a strict list, whatever comes after it. */
    method Filter(costLimit: int, gasLimit: nat) returns (removed: seq<Tx>, invalids: seq<Tx>)
      requires Valid()
      modifies this, txs
      ensures Valid() && View() == old(View()).Filter(costLimit, gasLimit)
      ensures Removed(old(txs.items), txs.items, removed + invalids)
      ensures RemovedOver(old(txs.items), removed, costLimit, gasLimit)
    {
      hide Bounded, RemovedOver, Removed, Kept, TxList.Filter, TxList.OverNonces;
      ghost var before := View();
      if costcap <= costLimit && gascap <= gasLimit {
        NothingOver(before, costLimit, gasLimit);
        NoneRemoved(txs.items);
        removed, invalids := [], [];
        assert removed + invalids == [];
        return;
      }
      FilteredBounded(before, costLimit, gasLimit);
      costcap, gascap, invalids := costLimit, gasLimit, [];
      removed := txs.Filter(tx => Over(tx, costLimit, gasLimit));
      RemovedNonces(before, txs.items, removed, costLimit, gasLimit);
      assert removed + [] == removed;
      if |removed| == 0 {
        FilteredLoose(before, costLimit, gasLimit);
        return;
      }
      if strict {
        var lowest := Lowest(removed);
        FilteredStrict(before, costLimit, gasLimit, lowest);
        ghost var kept := txs.items;
        KeptSound(before.txs, tx => Over(tx, costLimit, gasLimit));
        invalids := txs.FilterItems((tx: Tx) => tx.nonce > lowest);
        KeptSound(kept, (tx: Tx) => tx.nonce > lowest);
        RemovedTwice(before.txs, kept, txs.items, removed, invalids);
      } else {
        FilteredLoose(before, costLimit, gasLimit);
      }
      txs.Reheap();
    }

    method Cap(threshold: nat) returns (drops: seq<Tx>)
      requires Valid()
      modifies txs
      ensures Valid() && View() == old(View()).Cap(threshold)
      ensures Sorted(old(txs.items)) == Sorted(txs.items) + Reversed(drops)
    {
      drops := txs.Cap(threshold);
    }

    /** Removes a nonce and, in a strict list, whatever comes after it. */
    method Remove(tx: Tx) returns (found: bool, invalids: seq<Tx>)
      requires Valid()
      modifies txs
      ensures Valid() && View() == old(View()).Remove(tx.nonce) && found == old(View()).Overlaps(tx)
      ensures Removed(old(txs.items - {tx.nonce}), txs.items, invalids)
    {
      hide Kept, Removed;
      var nonce := tx.nonce;
      invalids := [];
      found := txs.Remove(nonce);
      NoneRemoved(txs.items);
      if !found {
        assert txs.items == old(txs.items);
        return;
      }
      RemovedAbove(old(View()), nonce);
      if strict {
        invalids := txs.Filter((tx: Tx) => tx.nonce > nonce);
      }
    }

    method Ready(start: nat) returns (ready: seq<Tx>)
      requires Valid()
      modifies txs
      ensures Valid() && ready == old(View()).Ready(start) && View() == old(View()).AfterReady(start)
    {
      ready := txs.Ready(start);
    }

    method Flatten() returns (flat: seq<Tx>)
      requires Valid()
      modifies txs
      ensures Valid() && View() == old(View()) && flat == Sorted(View().txs)
    {
      flat := txs.Flatten();
    }

    method LastElement() returns (tx: Tx)
      requires Valid() && View().txs != map[]
      modifies txs
      ensures Valid() && View() == old(View()) && tx == View().LastElement()
    {
      tx := txs.LastElement();
    }
  }
}
