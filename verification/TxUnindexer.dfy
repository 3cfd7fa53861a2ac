/** The unindexer: the same loop upwards, deleting entries and raising the tail. */
module TxUnindexers {
  import opened Wrappers
  import opened BlockBranches
  import opened TxIndexers
  import TxLists

  lemma TxsInNone(b: Bodies, n: nat)
    ensures TxsIn(b, n, n) == {}
  {
  }

  lemma {:induction false} TxsInSplit(b: Bodies, lo: nat, mid: nat, hi: nat)
    requires lo <= mid <= hi
    ensures TxsIn(b, lo, hi) == TxsIn(b, lo, mid) + TxsIn(b, mid, hi)
    decreases mid - lo
  {
    if lo < mid {
      TxsInSplit(b, lo + 1, mid, hi);
    }
  }

  lemma DeleteMore(b: Bodies, lo: nat, mid: nat, hi: nat, before: Lookup)
    requires lo <= mid <= hi
    ensures (before - TxsIn(b, lo, mid)) - TxsIn(b, mid, hi) == before - TxsIn(b, lo, hi)
  {
    hide TxsIn;
    TxsInSplit(b, lo, mid, hi);
  }

  lemma {:induction false} EntriesKeys(b: Bodies, lo: nat, hi: nat)
    ensures Entries(b, lo, hi).Keys == TxsIn(b, lo, hi)
    decreases hi - lo
  {
    if lo < hi {
      EntriesKeys(b, lo + 1, hi);
    }
  }

  /** Unindexing what was indexed leaves the other entries as they were. */
  lemma UnindexUndoesIndex(b: Bodies, from: nat, to: nat, before: Lookup)
    ensures (before + Entries(b, from, to)) - TxsIn(b, from, to) == before - TxsIn(b, from, to)
  {
    hide Entries, TxsIn;
    EntriesKeys(b, from, to);
  }

  /** Exactly the entries of the blocks below the tail are gone. */
  ghost predicate CutAt(b: Bodies, from: nat, to: nat, before: Lookup, w: Tables) {
    && w.tail.Some? && from < w.tail.value <= to
    && w.lookup == before - TxsIn(b, from, w.tail.value)
  }

  /** unindexTransactions: the database tables, the queue of deliveries and the batch being built. */
  class Unindexer {
    const bodies: Bodies
    const from: nat
    const to: nat
    var lookup: Lookup
    var tail: Option<nat>
    var queue: map<nat, seq<TxHash>>
    var nextNum: nat
    var deletes: set<TxHash>
    var size: nat
    var blocks: nat
    ghost const before: Tables
    ghost var flushed: nat
    ghost var writes: seq<Tables>

    constructor (bodies: Bodies, from: nat, to: nat, lookup: Lookup, tail: Option<nat>)
      requires from < to && forall n :: from <= n < to ==> n in bodies
      ensures Valid() && this.from == from && this.to == to && this.bodies == bodies
      ensures before == Tables(lookup, tail)
      ensures nextNum == flushed == from && queue == map[] && writes == []
    {
      this.bodies, this.from, this.to := bodies, from, to;
      this.lookup, this.tail := lookup, tail;
      queue, nextNum, deletes, size, blocks := map[], from, {}, 0, 0;
      before, flushed, writes := Tables(lookup, tail), from, [];
      TxsInNone(bodies, from);
    }

    ghost predicate Valid()
      reads this
    {
      && from <= flushed <= nextNum <= to && from < to
      && (forall n :: from <= n < to ==> n in bodies)
      && lookup == before.lookup - TxsIn(bodies, from, flushed)
      && deletes == TxsIn(bodies, flushed, nextNum)
      && (size == 0 ==> deletes == {})
      && (size > 0 ==> flushed < nextNum)
      && (forall n :: n in queue ==> nextNum <= n < to && n in bodies && queue[n] == bodies[n])
      && (forall w :: w in writes ==> CutAt(bodies, from, to, before.lookup, w))
      && (flushed == from ==> writes == [] && Tables(lookup, tail) == before)
      && (flushed > from ==> writes != [] && writes[|writes| - 1] == Tables(lookup, tail) && tail == Some(flushed))
    }

    ghost function Seen(): set<nat>
      reads this
    {
      queue.Keys + set n | n in bodies && from <= n < nextNum
    }

    method Flush()
      requires Valid() && from < nextNum
      modifies this
      ensures Valid() && flushed == nextNum == old(nextNum) && queue == old(queue) && size == 0
      ensures writes == old(writes) + [Tables(lookup, Some(nextNum))] && tail == Some(nextNum)
    {
      hide TxsIn;
      DeleteMore(bodies, from, flushed, nextNum, before.lookup);
      TxsInNone(bodies, nextNum);
      lookup, tail := lookup - deletes, Some(nextNum);
      deletes, size := {}, 0;
      flushed := nextNum;
      writes := writes + [Tables(lookup, tail)];
    }

    method UnindexNext()
      requires Valid() && nextNum in queue
      modifies this
      ensures Valid() && nextNum == old(nextNum) + 1 && queue == old(queue) - {old(nextNum)} && Seen() == old(Seen())
      ensures writes == old(writes) && flushed == old(flushed) && lookup == old(lookup) && tail == old(tail)
    {
      hide TxsIn, CutAt;
      TxsInSnoc(bodies, flushed, nextNum);
      var hashes := queue[nextNum];
      queue := queue - {nextNum};
      nextNum := nextNum + 1;
      deletes := deletes + set t | t in hashes;
      size := size + |hashes|;
      blocks := blocks + 1;
    }

    method Drain(hook: nat -> bool)
      requires Valid()
      modifies this
      ensures Valid() && Seen() == old(Seen()) && old(writes) <= writes
      ensures (forall n :: hook(n)) ==> nextNum !in queue
    {
      hide TxsIn, CutAt;
      while queue != map[]
        invariant Valid() && Seen() == old(Seen()) && old(writes) <= writes
        decreases |queue|
      {
        var number := TxLists.Least(queue.Keys);
        if number != nextNum {
          break;
        }
        if !hook(nextNum) {
          break;
        }
        assert |queue - {number}| < |queue| by {
          assert (queue - {number}).Keys == queue.Keys - {number};
        }
        UnindexNext();
        if blocks % 1000 == 0 {
          Flush();
        }
      }
    }

    method Enqueue(d: Delivery)
      requires Valid() && from <= d.number < to && d.number !in Seen() && d.hashes == bodies[d.number]
      modifies `queue
      ensures Valid() && Seen() == old(Seen()) + {d.number}
    {
      hide TxsIn, CutAt;
      queue := queue[d.number := d.hashes];
    }

    lemma AllUnindexed()
      requires Valid() && nextNum !in queue
      requires forall n :: from <= n < to ==> n in Seen()
      ensures nextNum == to
    {
      hide TxsIn, CutAt;
      assert nextNum < to ==> nextNum in Seen();
    }

    /** Takes in all deliveries, in whatever order they come. */
    method Run(ds: seq<Delivery>, hook: nat -> bool)
      requires Valid() && nextNum == from && queue == map[] && Delivered(bodies, from, to, ds)
      modifies this
      ensures Valid() && old(writes) <= writes
      ensures |ds| == to - from && (forall n :: hook(n)) ==> nextNum == to
      ensures lookup == before.lookup - TxsIn(bodies, from, nextNum)
    {
      hide TxsIn, CutAt;
      for i := 0 to |ds|
        invariant Valid() && old(writes) <= writes
        invariant Seen() == Numbers(ds, i)
        invariant (forall n :: hook(n)) ==> nextNum !in queue
      {
        NewNumber(bodies, from, to, ds, i);
        Enqueue(ds[i]);
        Drain(hook);
      }
      if |ds| == to - from && forall n :: hook(n) {
        AllDelivered(bodies, from, to, ds);
        AllUnindexed();
      }
      if size > 0 {
        Flush();
      }
      DeleteMore(bodies, from, flushed, nextNum, before.lookup);
    }
  }

  /** A tail is never written before the entries below it are gone, nor with one above it removed. */
  lemma CutIsSafe(b: Bodies, from: nat, to: nat, before: Lookup, w: Tables, n: nat, t: TxHash)
    requires CutAt(b, from, to, before, w) && DistinctBodies(b, from, to)
    requires from <= n < to && n in b && t in b[n]
    ensures n < w.tail.value ==> t !in w.lookup
    ensures n >= w.tail.value ==> (t in w.lookup <==> t in before) && (t in before ==> w.lookup[t] == before[t])
  {
    hide TxsIn;
    TxsInMeaning(b, from, w.tail.value, t);
  }

  /**
   * unindexTransactions. Whatever is delivered and in whatever order, each batch written leaves a tail t with
   * exactly the entries of the blocks below t removed; if everything is delivered the whole range is.
   */
  method UnindexTransactions(b: Bodies, from: nat, to: nat, before: Tables, ds: seq<Delivery>, hook: nat -> bool)
      returns (after: Tables, ghost writes: seq<Tables>)
    requires Delivered(b, from, to, ds)
    ensures from >= to ==> writes == []
    ensures forall w :: w in writes ==> CutAt(b, from, to, before.lookup, w)
    ensures after == if writes == [] then before else writes[|writes| - 1]
    ensures from < to && |ds| == to - from && (forall n :: hook(n)) ==>
              after.lookup == before.lookup - TxsIn(b, from, to)
  {
    hide TxsIn, CutAt;
    if from >= to {
      return before, [];
    }
    var unindexer := new Unindexer(b, from, to, before.lookup, before.tail);
    unindexer.Run(ds, hook);
    after, writes := Tables(unindexer.lookup, unindexer.tail), unindexer.writes;
  }
}
