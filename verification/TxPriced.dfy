/** The lookup of all pooled transactions and the lazily cleaned price heap beside it (txLookup,
    txPricedList). */
module TxPriced {
  import opened TxLists

  // ---- txLookup

  ghost function SlotSum(s: set<Tx>): nat {
    if s == {} then 0 else var t :| t in s; t.NumSlots() + SlotSum(s - {t})
  }

  lemma {:induction false} SlotSumRemove(s: set<Tx>, t: Tx)
    requires t in s
    ensures SlotSum(s) == t.NumSlots() + SlotSum(s - {t})
    decreases s
  {
    var u :| u in s && SlotSum(s) == u.NumSlots() + SlotSum(s - {u});
    if u != t {
      SlotSumRemove(s - {u}, t);
      SlotSumRemove(s - {t}, u);
      assert s - {u} - {t} == s - {t} - {u};
    }
  }

  class TxLookup {
    var all: set<Tx>
    var slots: int

    /** The slot counter is the sum over the transactions. */
    ghost predicate Valid()
      reads this
    {
      slots == SlotSum(all)
    }

    constructor ()
      ensures Valid() && all == {}
    {
      all, slots := {}, 0;
    }

    /** Adding a known transaction would count its slots twice. */
    method Add(tx: Tx)
      requires Valid() && tx !in all
      modifies this
      ensures Valid() && all == old(all) + {tx}
    {
      slots := slots + tx.NumSlots();
      all := all + {tx};
      SlotSumRemove(all, tx);
      assert all - {tx} == old(all);
    }

    /** Removing an unknown transaction would read its size through a nil pointer. */
    method Remove(tx: Tx)
      requires Valid() && tx in all
      modifies this
      ensures Valid() && all == old(all) - {tx}
    {
      SlotSumRemove(all, tx);
      slots := slots - tx.NumSlots();
      all := all - {tx};
    }

    /** The loops that remove what a list dropped. */
    method RemoveEach(txs: set<Tx>)
      requires Valid() && txs <= all
      modifies this
      ensures Valid() && all == old(all) - txs
    {
      var todo := txs;
      while todo != {}
        invariant Valid() && todo <= txs && todo <= all
        invariant all == old(all) - (txs - todo)
        decreases todo
      {
        var tx :| tx in todo;
        Remove(tx);
        todo := todo - {tx};
      }
    }
  }

  // ---- txPricedList

  /** priceHeap.Less: cheaper first, then the higher nonce. */
  predicate Less(a: Tx, b: Tx) {
    a.price < b.price || (a.price == b.price && a.nonce > b.nonce)
  }

  /** Nothing in the heap is less than tx. */
  ghost predicate Minimal(tx: Tx, items: multiset<Tx>) {
    forall t :: t in items ==> !Less(t, tx)
  }

  lemma {:induction false} MinimalOf(items: multiset<Tx>) returns (m: Tx)
    requires items != multiset{}
    ensures m in items && Minimal(m, items)
    decreases |items|
  {
    var x :| x in items;
    m := x;
    var rest := items - multiset{x};
    if rest != multiset{} {
      var r := MinimalOf(rest);
      m := if Less(r, x) then r else x;
    }
    forall t | t in items ensures !Less(t, m) {
      assert t == x || t in rest;
    }
  }

  /** heap.Pop: removes one of the least elements. */
  method PopLeast(items: multiset<Tx>) returns (tx: Tx, rest: multiset<Tx>)
    requires items != multiset{}
    ensures tx in items && Minimal(tx, items) && rest == items - multiset{tx}
  {
    assert exists m :: m in items && Minimal(m, items) by {
      var m := MinimalOf(items);
    }
    tx :| tx in items && forall t :: t in items ==> !Less(t, tx);
    rest := items - multiset{tx};
  }

  /** Every transaction of all is in the heap, and the stale counter covers the surplus. A
      transaction that left and came back may be in the heap twice. */
  ghost predicate HeapOk(items: multiset<Tx>, all: set<Tx>, stales: int) {
    (forall t :: t in all ==> t in items) && |items| - |all| <= stales
  }

  /** The entries of the price heap and its stale counter. */
  datatype PriceHeap = PriceHeap(items: multiset<Tx>, stales: int) {

    function Put(tx: Tx): PriceHeap {
      PriceHeap(items + multiset{tx}, stales)
    }

    /** Accounts for count transactions that left the lookup: past a quarter of stale entries the
        heap is rebuilt. */
    function Removed(count: nat, all: set<Tx>): PriceHeap {
      if stales + count <= |items| / 4 then PriceHeap(items, stales + count) else PriceHeap(multiset(all), 0)
    }
  }

  /** A replaced transaction leaves and tx comes in. */
  function Relisted(p: PriceHeap, replaced: set<Tx>, all: set<Tx>, tx: Tx): PriceHeap {
    (if replaced == {} then p else p.Removed(1, all - replaced)).Put(tx)
  }

  /** The stale counter cannot be negative. */
  lemma {:induction false} StalesNonNegative(items: multiset<Tx>, all: set<Tx>, stales: int)
    requires HeapOk(items, all, stales)
    ensures stales >= 0
    decreases all
  {
    if all != {} {
      var t :| t in all;
      StalesNonNegative(items - multiset{t}, all - {t}, stales);
    }
  }

  /** Of all, drop has been discarded so far and the local ones in save set aside. */
  ghost predicate Discarding(all: set<Tx>, items: multiset<Tx>, save: multiset<Tx>, drop: set<Tx>, stales: int,
                             locals: set<Address>, slots: int, left: int) {
    && drop <= all && HeapOk(items + save, all - drop, stales)
    && (forall t :: t in save ==> t.sender in locals)
    && (forall t :: t in drop ==> t.sender !in locals)
    && PricesSplit(drop, items) && (drop == {} ==> left > 0)
    && SlotSum(drop) <= slots - left && NotOverfull(drop, slots)
  }

  lemma DiscardStart(all: set<Tx>, items: multiset<Tx>, stales: int, locals: set<Address>, slots: int, left: int)
    requires HeapOk(items, all, stales) && 0 < left <= slots
    ensures Discarding(all, items, multiset{}, {}, stales, locals, slots, left)
  {
    hide HeapOk, SlotSum, NotOverfull, PricesSplit;
    NoneDropped(all, locals, slots);
    EmptySplit(items);
    assert items + multiset{} == items && all - {} == all;
  }

  lemma DiscardStale(all: set<Tx>, items: multiset<Tx>, save: multiset<Tx>, drop: set<Tx>, stales: int,
                     locals: set<Address>, slots: int, left: int, tx: Tx, rest: multiset<Tx>)
    requires Discarding(all, items, save, drop, stales, locals, slots, left)
    requires tx in items && Minimal(tx, items) && rest == items - multiset{tx} && tx !in all
    ensures Discarding(all, rest, save, drop, stales - 1, locals, slots, left)
  {
    hide HeapOk, SlotSum, NotOverfull, PricesSplit, Minimal;
    SplitPop(drop, items, tx, rest);
    assert items + save == rest + save + multiset{tx};
    PopStale(rest + save, all - drop, tx, stales);
  }

  lemma DiscardLocal(all: set<Tx>, items: multiset<Tx>, save: multiset<Tx>, drop: set<Tx>, stales: int,
                     locals: set<Address>, slots: int, left: int, tx: Tx, rest: multiset<Tx>)
    requires Discarding(all, items, save, drop, stales, locals, slots, left)
    requires tx in items && Minimal(tx, items) && rest == items - multiset{tx} && tx.sender in locals
    ensures Discarding(all, rest, save + multiset{tx}, drop, stales, locals, slots, left)
  {
    hide HeapOk, SlotSum, NotOverfull, PricesSplit, Minimal;
    SplitPop(drop, items, tx, rest);
    assert items + save == rest + (save + multiset{tx});
  }

  lemma DiscardOne(all: set<Tx>, items: multiset<Tx>, save: multiset<Tx>, drop: set<Tx>, stales: int,
                   locals: set<Address>, slots: int, left: int, tx: Tx, rest: multiset<Tx>)
    requires Discarding(all, items, save, drop, stales, locals, slots, left)
    requires tx in items && Minimal(tx, items) && rest == items - multiset{tx}
    requires tx in all && tx.sender !in locals && left > 0
    ensures Discarding(all, rest, save, drop + {tx}, stales, locals, slots, left - tx.NumSlots())
  {
    hide HeapOk, SlotSum, NotOverfull, PricesSplit, Minimal;
    SplitPop(drop, items, tx, rest);
    assert items + save == rest + save + multiset{tx};
    PopDrop(rest + save, all, drop, tx, stales);
    SumAdd(drop, tx, slots);
  }

  lemma DiscardEnd(all: set<Tx>, items: multiset<Tx>, save: multiset<Tx>, drop: set<Tx>, stales: int,
                   locals: set<Address>, slots: int, left: int)
    requires Discarding(all, items, save, drop, stales, locals, slots, left) && (items == multiset{} || left <= 0)
    ensures drop <= all && (forall t :: t in drop ==> t.sender !in locals)
    ensures CheapestFirst(drop, all, locals) && NotOverfull(drop, slots) && HeapOk(items + save, all - drop, stales)
    ensures drop == {} ==> forall t :: t in all ==> t.sender in locals
    ensures left <= 0 || forall t :: t in all && t !in drop ==> t.sender in locals
  {
    hide HeapOk, SlotSum, NotOverfull, PricesSplit, CheapestFirst;
    DiscardResult(items, save, all, drop, locals, stales);
  }

  class TxPricedList {
    const lookup: TxLookup
    var items: multiset<Tx>
    var stales: int

    constructor (lookup: TxLookup)
      ensures this.lookup == lookup && items == multiset{} && stales == 0
    {
      this.lookup := lookup;
      items, stales := multiset{}, 0;
    }

    ghost function Heap(): PriceHeap
      reads this
    {
      PriceHeap(items, stales)
    }

    method Put(tx: Tx)
      modifies this
      ensures Heap() == old(Heap()).Put(tx)
    {
      items := items + multiset{tx};
    }

    /** Removed accounts for count transactions that left the lookup, or rebuilds the heap. */
    method Removed(count: nat)
      requires HeapOk(items, lookup.all, stales + count)
      modifies this
      ensures HeapOk(items, lookup.all, stales)
      ensures Heap() == old(Heap()).Removed(count, lookup.all)
    {
      stales := stales + count;
      if stales <= |items| / 4 {
        return;
      }
      stales, items := 0, multiset(lookup.all);
    }

    /** Cap takes exactly the non-local transactions below the threshold out of the heap. */
    method Cap(threshold: int, locals: set<Address>) returns (drop: set<Tx>)
      requires HeapOk(items, lookup.all, stales)
      modifies this
      ensures drop == Underpaid(lookup.all, threshold, locals)
      ensures HeapOk(items, lookup.all - drop, stales)
    {
      hide HeapOk, Underpaid;
      drop := {};
      var save := multiset{};
      ghost var all := lookup.all;
      assert items + save == items && all - drop == all;
      while items != multiset{}
        invariant drop <= all && HeapOk(items + save, all - drop, stales)
        invariant forall t :: t in save ==> t.sender in locals || t.price >= threshold
        invariant forall t :: t in drop ==> t.price < threshold && t.sender !in locals
        decreases |items|
      {
        var tx, rest := PopLeast(items);
        assert items + save == (rest + save) + multiset{tx};
        if tx !in lookup.all {
          PopStale(rest + save, all - drop, tx, stales);
          items, stales := rest, stales - 1;
          continue;
        }
        if tx.price >= threshold {
          assert items + save == rest + (save + multiset{tx});
          items, save := rest, save + multiset{tx};
          break;
        }
        if tx.sender in locals {
          assert items + save == rest + (save + multiset{tx});
          items, save := rest, save + multiset{tx};
        } else {
          PopDrop(rest + save, all, drop, tx, stales);
          items, drop := rest, drop + {tx};
        }
      }
      CapResult(items, save, all, drop, threshold, locals, stales);
      items := items + save;
    }

    /** For a non-empty pool, a non-local transaction is underpriced exactly when no pooled
        transaction is strictly cheaper. Stale entries at the cheap end of the heap go. */
    method Underpriced(tx: Tx, locals: set<Address>) returns (r: bool, ghost stale: multiset<Tx>)
      requires HeapOk(items, lookup.all, stales)
      modifies this
      ensures HeapOk(items, lookup.all, stales)
      ensures if tx.sender in locals then Heap() == old(Heap()) else Strips(old(Heap()), Heap(), stale, lookup.all)
      ensures tx.sender in locals || lookup.all == {} ==> !r
      ensures tx.sender !in locals && lookup.all != {} ==>
                (r <==> NoneCheaper(lookup.all, tx))
    {
      hide HeapOk, Minimal, Stripping;
      stale := multiset{};
      if tx.sender in locals {
        return false, stale;
      }
      StrippingStart(Heap(), lookup.all);
      while items != multiset{}
        invariant HeapOk(items, lookup.all, stales) && Stripping(old(Heap()), Heap(), stale, lookup.all)
        decreases |items|
      {
        var head, rest := PopLeast(items);
        assert items == rest + multiset{head};
        if head !in lookup.all {
          PopStale(rest, lookup.all, head, stales);
          StrippingStep(old(Heap()), Heap(), stale, lookup.all, head);
          items, stales := rest, stales - 1;
          stale := stale + multiset{head};
        } else {
          UnderpricedResult(items, lookup.all, stales, head, tx);
          return head.price >= tx.price, stale;
        }
      }
      EmptyHeap(items, lookup.all, stales);
      return false, stale;
    }

    /** The heap entries that are not local, for the brim check of Discard. */
    method Discardable(locals: set<Address>) returns (count: nat)
      ensures count == NonLocals(items, locals)
    {
      hide NonLocals;
      count := 0;
      var rest := items;
      NonLocalsNone(locals);
      while rest != multiset{}
        invariant rest <= items && count + NonLocals(rest, locals) == NonLocals(items, locals)
        decreases |rest|
      {
        var tx :| tx in rest;
        NonLocalsRemove(rest, locals, tx);
        rest := rest - multiset{tx};
        if tx.sender !in locals {
          count := count + 1;
        }
      }
    }

    /** Discard takes non-local transactions out of the heap, none dearer than a non-local one
        it leaves, in the order popped. It takes one if there is any, and none once they fill
        the slots; it stops when the goal is reached or no non-local one is left. */
    method Discard(slots: int, locals: set<Address>)
        returns (drop: set<Tx>, ghost popped: seq<Tx>, ghost stale: multiset<Tx>)
      requires HeapOk(items, lookup.all, stales)
      modifies this
      ensures drop <= lookup.all && forall t :: t in drop ==> t.sender !in locals
      ensures CheapestFirst(drop, lookup.all, locals)
      ensures slots > 0 && drop == {} ==> forall t :: t in lookup.all ==> t.sender in locals
      ensures NotOverfull(drop, slots)
      ensures Frees(popped, drop, old(items), lookup.all, locals, Goal(slots, old(items), locals))
      ensures Discards(old(Heap()), Heap(), popped, stale, lookup.all, locals, Goal(slots, old(items), locals))
      ensures HeapOk(items, lookup.all - drop, stales)
    {
      hide HeapOk, SlotSum, CheapestFirst, NotOverfull, NonLocals, Frees, Discards;
      drop, popped, stale := {}, [], multiset{};
      var left := slots;
      InHeap(items, lookup.all, stales);
      NoNonLocals(items, locals);
      if locals != {} {
        var discardable := Discardable(locals);
        if left > discardable {
          left := discardable;
        }
      }
      assert left == Goal(slots, items, locals);
      if left <= 0 {
        NoneDropped(lookup.all, locals, slots);
        NonePopped(Heap(), lookup.all, locals, left);
        assert lookup.all - drop == lookup.all;
        return;
      }
      drop, popped, stale := DiscardLoop(slots, left, locals);
    }

    /** The popping loop of Discard, with left slots to free. */
    method DiscardLoop(ghost slots: int, slotsLeft: int, locals: set<Address>)
        returns (drop: set<Tx>, ghost popped: seq<Tx>, ghost stale: multiset<Tx>)
      requires HeapOk(items, lookup.all, stales) && 0 < slotsLeft <= slots
      modifies this
      ensures drop <= lookup.all && forall t :: t in drop ==> t.sender !in locals
      ensures CheapestFirst(drop, lookup.all, locals)
      ensures drop == {} ==> forall t :: t in lookup.all ==> t.sender in locals
      ensures NotOverfull(drop, slots)
      ensures Frees(popped, drop, old(items), lookup.all, locals, slotsLeft)
      ensures Discards(old(Heap()), Heap(), popped, stale, lookup.all, locals, slotsLeft)
      ensures HeapOk(items, lookup.all - drop, stales)
    {
      hide HeapOk, SlotSum, CheapestFirst, NotOverfull, Minimal, PricesSplit, Discarding, Popping, Frees, Discards;
      drop, popped, stale := {}, [], multiset{};
      var left, save := slotsLeft, multiset{};
      ghost var all, heap := lookup.all, Heap();
      InHeap(items, all, stales);
      DiscardStart(all, items, stales, locals, slots, left);
      PoppingStart(heap, all, locals, left);
      while items != multiset{} && left > 0
        invariant Discarding(all, items, save, drop, stales, locals, slots, left)
        invariant Popping(heap, Heap(), save, popped, stale, all, locals, slotsLeft)
        invariant (forall t :: t in popped <==> t in drop) && left == slotsLeft - Slots(popped)
        decreases |items|
      {
        var tx, rest := PopLeast(items);
        if tx !in lookup.all {
          DiscardStale(all, items, save, drop, stales, locals, slots, left, tx, rest);
          PoppingStale(heap, Heap(), save, popped, stale, all, locals, slotsLeft, tx);
          items, stales := rest, stales - 1;
          stale := stale + multiset{tx};
          continue;
        }
        if tx.sender in locals {
          DiscardLocal(all, items, save, drop, stales, locals, slots, left, tx, rest);
          PoppingLocal(heap, Heap(), save, popped, stale, all, locals, slotsLeft, tx);
          items, save := rest, save + multiset{tx};
        } else {
          DiscardOne(all, items, save, drop, stales, locals, slots, left, tx, rest);
          PoppingOne(heap, Heap(), save, popped, stale, all, locals, slotsLeft, tx);
          items, drop, popped := rest, drop + {tx}, popped + [tx];
          left := left - tx.NumSlots();
        }
      }
      DiscardEnd(all, items, save, drop, stales, locals, slots, left);
      PoppingEnd(heap, Heap(), save, popped, stale, all, locals, slotsLeft);
      items := items + save;
      DiscardsFrees(heap, Heap(), popped, drop, stale, all, locals, slotsLeft);
    }
  }

  /** The slots of the transactions in turn. */
  ghost function Slots(txs: seq<Tx>): nat {
    if txs == [] then 0 else Slots(txs[..|txs| - 1]) + txs[|txs| - 1].NumSlots()
  }

  lemma SlotsSnoc(txs: seq<Tx>, tx: Tx)
    ensures Slots(txs + [tx]) == Slots(txs) + tx.NumSlots()
  {
    assert (txs + [tx])[..|txs|] == txs;
  }

  /** How many heap entries are not local. */
  ghost function NonLocals(items: multiset<Tx>, locals: set<Address>): nat
    decreases |items|
  {
    if items == multiset{} then 0
    else
      var t :| t in items;
      NonLocals(items - multiset{t}, locals) + if t.sender in locals then 0 else 1
  }

  lemma NonLocalsNone(locals: set<Address>)
    ensures NonLocals(multiset{}, locals) == 0
  {
  }

  lemma {:induction false} NonLocalsRemove(items: multiset<Tx>, locals: set<Address>, t: Tx)
    requires t in items
    ensures NonLocals(items, locals) == NonLocals(items - multiset{t}, locals) + if t.sender in locals then 0 else 1
    decreases |items|
  {
    var u :| u in items && NonLocals(items, locals) ==
      NonLocals(items - multiset{u}, locals) + if u.sender in locals then 0 else 1;
    if u != t {
      hide NonLocals;
      var rest := items - multiset{u} - multiset{t};
      NonLocalsRemove(items - multiset{u}, locals, t);
      NonLocalsRemove(items - multiset{t}, locals, u);
      assert items - multiset{t} - multiset{u} == rest;
    }
  }

  lemma {:induction false} NoNonLocals(items: multiset<Tx>, locals: set<Address>)
    ensures NonLocals(items, locals) == 0 <==> forall t :: t in items ==> t.sender in locals
    decreases |items|
  {
    if items != multiset{} {
      var t :| t in items;
      NonLocalsRemove(items, locals, t);
      NoNonLocals(items - multiset{t}, locals);
      hide NonLocals;
      assert forall u :: u in items <==> u == t || u in items - multiset{t};
    }
  }

  /** The slots Discard sets out to free: with local accounts it counts on no more than the
      number of entries that are not local. */
  ghost function Goal(slots: int, items: multiset<Tx>, locals: set<Address>): int {
    if locals == {} || NonLocals(items, locals) >= slots then slots else NonLocals(items, locals)
  }

  /** drop is what was popped from the heap, which is enough or all there is to take. */
  ghost predicate Frees(popped: seq<Tx>, drop: set<Tx>, heap: multiset<Tx>, all: set<Tx>, locals: set<Address>,
                        goal: int) {
    && multiset(popped) <= heap && (forall t :: t in popped <==> t in drop)
    && (Slots(popped) >= goal || forall t :: t in all && t !in drop ==> t.sender in locals)
  }

  /** Stale entries were taken from the cheap end of the heap. */
  ghost predicate Stripping(p: PriceHeap, q: PriceHeap, stale: multiset<Tx>, all: set<Tx>) {
    && p.items == q.items + stale && q.stales == p.stales - |stale|
    && (forall t :: t in stale ==> t !in all)
    && (forall t, u :: t in stale && u in q.items ==> !Less(u, t))
  }

  /** And they were all those before the first pooled one. */
  ghost predicate Strips(p: PriceHeap, q: PriceHeap, stale: multiset<Tx>, all: set<Tx>) {
    && Stripping(p, q, stale, all)
    && (q.items == multiset{} || exists head :: head in q.items && head in all && Minimal(head, q.items))
  }

  lemma StrippingStart(p: PriceHeap, all: set<Tx>)
    ensures Stripping(p, p, multiset{}, all)
  {
  }

  lemma StrippingStep(p: PriceHeap, q: PriceHeap, stale: multiset<Tx>, all: set<Tx>, head: Tx)
    requires Stripping(p, q, stale, all) && head in q.items && head !in all && Minimal(head, q.items)
    ensures Stripping(p, PriceHeap(q.items - multiset{head}, q.stales - 1), stale + multiset{head}, all)
  {
    assert q.items == q.items - multiset{head} + multiset{head};
    hide Less;
  }

  lemma EmptyHeap(items: multiset<Tx>, all: set<Tx>, stales: int)
    requires HeapOk(items, all, stales)
    ensures items == multiset{} ==> all == {}
  {
  }

  /** What Discard does to the heap: non-local pooled transactions are popped, cheapest first, up to
      the one that reaches the goal, or all of them. Stale entries on the way go with them. */
  ghost predicate Discards(p: PriceHeap, q: PriceHeap, popped: seq<Tx>, stale: multiset<Tx>, all: set<Tx>,
                           locals: set<Address>, goal: int) {
    && p.items == multiset(popped) + stale + q.items && q.stales == p.stales - |stale|
    && (forall t :: t in stale ==> t !in all)
    && (forall t :: t in popped ==> t in all && t.sender !in locals)
    && (forall t, u :: (t in popped || t in stale) && u in q.items && !(u in all && u.sender in locals) ==> !Less(u, t))
    && (forall i, j :: 0 <= i < j < |popped| ==> !Less(popped[j], popped[i]))
    && (forall i :: 0 <= i < |popped| ==> Slots(popped[..i]) < goal)
    && (if Slots(popped) < goal then forall u :: u in q.items ==> u in all && u.sender in locals
        else forall t :: t in stale ==> popped != [] && !Less(popped[|popped| - 1], t))
  }

  lemma NonePopped(p: PriceHeap, all: set<Tx>, locals: set<Address>, goal: int)
    requires goal <= 0
    ensures Discards(p, p, [], multiset{}, all, locals, goal) && Frees([], {}, p.items, all, locals, goal)
  {
    assert p.items == multiset([]) + multiset{} + p.items;
  }

  /** It frees enough, or all there is to take. */
  lemma DiscardsFrees(p: PriceHeap, q: PriceHeap, popped: seq<Tx>, drop: set<Tx>, stale: multiset<Tx>, all: set<Tx>,
                      locals: set<Address>, goal: int)
    requires Discards(p, q, popped, stale, all, locals, goal) && forall t :: t in popped <==> t in drop
    requires forall t :: t in all ==> t in p.items
    ensures Frees(popped, drop, p.items, all, locals, goal)
  {
    hide Less, Slots;
    forall t | t in all && t !in drop ensures t in q.items {
      assert t in multiset(popped) + stale + q.items;
    }
  }

  /** Part of the way: the local entries of save are set aside. */
  ghost predicate Popping(p: PriceHeap, q: PriceHeap, save: multiset<Tx>, popped: seq<Tx>, stale: multiset<Tx>,
                          all: set<Tx>, locals: set<Address>, goal: int) {
    && p.items == multiset(popped) + stale + (q.items + save) && q.stales == p.stales - |stale|
    && (forall t :: t in stale ==> t !in all)
    && (forall t :: t in save ==> t in all && t.sender in locals)
    && (forall t :: t in popped ==> t in all && t.sender !in locals)
    && (forall t, u :: (t in popped || t in stale) && u in q.items ==> !Less(u, t))
    && (forall i, j :: 0 <= i < j < |popped| ==> !Less(popped[j], popped[i]))
    && (forall i :: 0 <= i < |popped| ==> Slots(popped[..i]) < goal)
    && (Slots(popped) >= goal ==> forall t :: t in stale ==> popped != [] && !Less(popped[|popped| - 1], t))
  }

  lemma PoppingStart(p: PriceHeap, all: set<Tx>, locals: set<Address>, goal: int)
    ensures Popping(p, p, multiset{}, [], multiset{}, all, locals, goal)
  {
    assert p.items == multiset([]) + multiset{} + (p.items + multiset{});
  }

  lemma PoppingStale(p: PriceHeap, q: PriceHeap, save: multiset<Tx>, popped: seq<Tx>, stale: multiset<Tx>,
                     all: set<Tx>, locals: set<Address>, goal: int, tx: Tx)
    requires Popping(p, q, save, popped, stale, all, locals, goal) && Slots(popped) < goal
    requires tx in q.items && tx !in all && Minimal(tx, q.items)
    ensures Popping(p, PriceHeap(q.items - multiset{tx}, q.stales - 1), save, popped, stale + multiset{tx}, all, locals,
                    goal)
  {
    hide Less, Slots;
    assert q.items == q.items - multiset{tx} + multiset{tx};
  }

  lemma PoppingLocal(p: PriceHeap, q: PriceHeap, save: multiset<Tx>, popped: seq<Tx>, stale: multiset<Tx>,
                     all: set<Tx>, locals: set<Address>, goal: int, tx: Tx)
    requires Popping(p, q, save, popped, stale, all, locals, goal)
    requires tx in q.items && tx in all && tx.sender in locals
    ensures Popping(p, PriceHeap(q.items - multiset{tx}, q.stales), save + multiset{tx}, popped, stale, all, locals,
                    goal)
  {
    hide Less, Slots;
    assert q.items + save == q.items - multiset{tx} + (save + multiset{tx});
  }

  lemma PoppingOne(p: PriceHeap, q: PriceHeap, save: multiset<Tx>, popped: seq<Tx>, stale: multiset<Tx>,
                   all: set<Tx>, locals: set<Address>, goal: int, tx: Tx)
    requires Popping(p, q, save, popped, stale, all, locals, goal) && Slots(popped) < goal
    requires tx in q.items && tx in all && tx.sender !in locals && Minimal(tx, q.items)
    ensures Popping(p, PriceHeap(q.items - multiset{tx}, q.stales), save, popped + [tx], stale, all, locals, goal)
    ensures Slots(popped + [tx]) == Slots(popped) + tx.NumSlots()
  {
    hide Less, Slots;
    SlotsSnoc(popped, tx);
    assert q.items == q.items - multiset{tx} + multiset{tx};
    assert multiset(popped + [tx]) == multiset(popped) + multiset{tx};
    forall i | 0 <= i < |popped + [tx]| ensures Slots((popped + [tx])[..i]) < goal {
      assert (popped + [tx])[..i] == popped[..i];
      assert popped[..|popped|] == popped;
    }
    assert forall i :: 0 <= i < |popped| ==> popped[i] in popped;
  }

  lemma PoppingEnd(p: PriceHeap, q: PriceHeap, save: multiset<Tx>, popped: seq<Tx>, stale: multiset<Tx>,
                   all: set<Tx>, locals: set<Address>, goal: int)
    requires Popping(p, q, save, popped, stale, all, locals, goal) && (q.items == multiset{} || Slots(popped) >= goal)
    ensures Discards(p, PriceHeap(q.items + save, q.stales), popped, stale, all, locals, goal)
  {
    hide Less, Slots;
  }

  /** Without one of the dropped transactions the slots would not be filled. */
  ghost predicate NotOverfull(drop: set<Tx>, slots: int) {
    drop == {} || exists d :: d in drop && SlotSum(drop - {d}) < slots
  }

  lemma SumAdd(s: set<Tx>, t: Tx, slots: int)
    requires NotOverfull(s, slots) && SlotSum(s) < slots
    ensures SlotSum(s + {t}) <= SlotSum(s) + t.NumSlots() && NotOverfull(s + {t}, slots)
  {
    if t in s {
      assert s + {t} == s;
    } else {
      SlotSumRemove(s + {t}, t);
      assert s + {t} - {t} == s;
    }
  }

  /** No dropped transaction is dearer than a non-local one that stays. */
  ghost predicate CheapestFirst(drop: set<Tx>, all: set<Tx>, locals: set<Address>) {
    forall d, t :: d in drop && t in all && t !in drop && t.sender !in locals ==> d.price <= t.price
  }

  /** What was dropped is no dearer than what is still in the heap. */
  ghost predicate PricesSplit(drop: set<Tx>, items: multiset<Tx>) {
    forall d, t :: d in drop && t in items ==> d.price <= t.price
  }

  lemma EmptySplit(items: multiset<Tx>)
    ensures PricesSplit({}, items)
  {
  }

  lemma SplitPop(drop: set<Tx>, items: multiset<Tx>, tx: Tx, rest: multiset<Tx>)
    requires PricesSplit(drop, items) && tx in items && Minimal(tx, items) && rest == items - multiset{tx}
    ensures PricesSplit(drop, rest) && PricesSplit(drop + {tx}, rest)
  {
    assert forall t :: t in rest ==> t in items && !Less(t, tx);
  }

  lemma NoneDropped(all: set<Tx>, locals: set<Address>, slots: int)
    ensures CheapestFirst({}, all, locals) && NotOverfull({}, slots) && SlotSum({}) == 0
  {
  }

  lemma DiscardResult(items: multiset<Tx>, save: multiset<Tx>, all: set<Tx>, drop: set<Tx>,
                      locals: set<Address>, stales: int)
    requires HeapOk(items + save, all - drop, stales)
    requires forall t :: t in save ==> t.sender in locals
    requires PricesSplit(drop, items)
    ensures CheapestFirst(drop, all, locals)
    ensures items == multiset{} ==> forall t :: t in all && t !in drop ==> t.sender in locals
  {
    assert forall t :: t in all - drop ==> t in items || t in save;
  }

  /** No pooled transaction is strictly cheaper than tx. */
  ghost predicate NoneCheaper(all: set<Tx>, tx: Tx) {
    forall t :: t in all ==> t.price >= tx.price
  }

  function Underpaid(all: set<Tx>, threshold: int, locals: set<Address>): set<Tx> {
    set t | t in all && t.price < threshold && t.sender !in locals
  }

  /** A transaction that leaves the lookup makes one more entry stale. */
  lemma HeapRemove(items: multiset<Tx>, all: set<Tx>, txs: set<Tx>, stales: int)
    requires txs <= all && HeapOk(items, all, stales)
    ensures HeapOk(items, all - txs, stales + |txs|)
  {
    assert |all - txs| == |all| - |txs| by {
      assert all == (all - txs) + txs;
    }
  }

  lemma HeapAdd(items: multiset<Tx>, all: set<Tx>, tx: Tx, stales: int)
    requires tx !in all && HeapOk(items, all, stales)
    ensures HeapOk(items + multiset{tx}, all + {tx}, stales)
  {
  }

  /** Popping a stale entry pays for itself. */
  lemma PopStale(items: multiset<Tx>, all: set<Tx>, tx: Tx, stales: int)
    requires tx !in all && HeapOk(items + multiset{tx}, all, stales)
    ensures HeapOk(items, all, stales - 1)
  {
  }

  /** Dropping a popped transaction: the heap loses one copy, the lookup at most one. */
  lemma PopDrop(items: multiset<Tx>, all: set<Tx>, drop: set<Tx>, tx: Tx, stales: int)
    requires tx in all && drop <= all && HeapOk(items + multiset{tx}, all - drop, stales)
    ensures HeapOk(items, all - (drop + {tx}), stales)
  {
    assert all - (drop + {tx}) == (all - drop) - {tx};
  }

  lemma InHeap(items: multiset<Tx>, all: set<Tx>, stales: int)
    requires HeapOk(items, all, stales)
    ensures forall t :: t in all ==> t in items
  {
  }

  lemma CapResult(items: multiset<Tx>, save: multiset<Tx>, all: set<Tx>, drop: set<Tx>,
                  threshold: int, locals: set<Address>, stales: int)
    requires HeapOk(items + save, all - drop, stales) && drop <= all
    requires forall t :: t in items ==> t.price >= threshold
    requires forall t :: t in save ==> t.sender in locals || t.price >= threshold
    requires forall t :: t in drop ==> t.price < threshold && t.sender !in locals
    ensures drop == Underpaid(all, threshold, locals)
  {
    assert forall t :: t in all - drop ==> t in items || t in save;
  }

  lemma UnderpricedResult(items: multiset<Tx>, all: set<Tx>, stales: int, head: Tx, tx: Tx)
    requires HeapOk(items, all, stales) && head in all && Minimal(head, items)
    ensures head.price >= tx.price <==> NoneCheaper(all, tx)
  {
    assert forall t :: t in all ==> t.price >= head.price;
  }
}
