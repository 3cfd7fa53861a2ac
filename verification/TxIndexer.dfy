/**
 * The transaction indexer and unindexer of core/rawdb: workers deliver the bodies of a block range in
 * any order, the loop puts them in sequence and writes its batches together with the tail.
 */
module TxIndexers {
  import opened Wrappers
  import opened Chains
  import opened BlockBranches
  import opened BlockSwitches
  import TxLists

  type Bodies = map<nat, seq<TxHash>>

  const IDEAL_BATCH_SIZE := 100 * 1024

  /** The bytes of a number without leading zeros: none for zero. */
  function ByteLen(n: nat): (k: nat)
    ensures k == 0 <==> n == 0
  {
    if n == 0 then 0 else 1 + ByteLen(n / 256)
  }

  /** An entry for block zero is stored as the empty value, which reads as no entry. */
  function ReadTxLookupEntry(lookup: Lookup, t: TxHash): Option<nat> {
    if t in lookup && ByteLen(lookup[t]) != 0 then Some(lookup[t]) else None
  }

  /** The entries of the blocks from lo up to hi; of blocks with a common transaction the lower wins. */
  ghost function Entries(b: Bodies, lo: nat, hi: nat): Lookup
    decreases hi - lo
  {
    if lo >= hi then map[]
    else if lo in b then Entered(Entries(b, lo + 1, hi), b[lo], lo)
    else Entries(b, lo + 1, hi)
  }

  ghost function TxsIn(b: Bodies, lo: nat, hi: nat): set<TxHash>
    decreases hi - lo
  {
    if lo >= hi then {}
    else if lo in b then TxsIn(b, lo + 1, hi) + (set t | t in b[lo])
    else TxsIn(b, lo + 1, hi)
  }

  lemma {:induction false} EntriesSplit(b: Bodies, lo: nat, mid: nat, hi: nat)
    requires lo <= mid <= hi
    ensures Entries(b, lo, hi) == Entries(b, mid, hi) + Entries(b, lo, mid)
    decreases mid - lo
  {
    if lo < mid {
      EntriesSplit(b, lo + 1, mid, hi);
    }
  }

  /** An entry is the number of a block in the range that has the transaction, and all are entered. */
  lemma {:induction false} EntriesMeaning(b: Bodies, lo: nat, hi: nat)
    ensures forall t :: t in Entries(b, lo, hi) ==>
              var n := Entries(b, lo, hi)[t]; lo <= n < hi && n in b && t in b[n]
    ensures forall n, t :: lo <= n < hi && n in b && t in b[n] ==> t in Entries(b, lo, hi)
    decreases hi - lo
  {
    if lo < hi {
      EntriesMeaning(b, lo + 1, hi);
    }
  }

  lemma {:induction false} TxsInMeaning(b: Bodies, lo: nat, hi: nat, t: TxHash)
    ensures t in TxsIn(b, lo, hi) <==> exists n :: lo <= n < hi && n in b && t in b[n]
    decreases hi - lo
  {
    if lo < hi {
      TxsInMeaning(b, lo + 1, hi, t);
      if n :| lo <= n < hi && n in b && t in b[n] {
        assert n == lo || lo + 1 <= n;
      }
    }
  }

  lemma {:induction false} TxsInSnoc(b: Bodies, lo: nat, hi: nat)
    requires lo <= hi && hi in b
    ensures TxsIn(b, lo, hi + 1) == TxsIn(b, lo, hi) + (set t | t in b[hi])
    decreases hi - lo
  {
    if lo < hi {
      TxsInSnoc(b, lo + 1, hi);
    } else {
      assert TxsIn(b, hi + 1, hi + 1) == {};
    }
  }

  /** What the database holds after a batch has been written. */
  datatype Tables = Tables(lookup: Lookup, tail: Option<nat>)

  datatype Delivery = Delivery(number: nat, hashes: seq<TxHash>)

  /** Every delivery is the body of a block in the range, and none comes twice. */
  ghost predicate Delivered(b: Bodies, from: nat, to: nat, ds: seq<Delivery>) {
    && (forall n :: from <= n < to ==> n in b)
    && (forall i :: 0 <= i < |ds| ==> from <= ds[i].number < to && ds[i].hashes == b[ds[i].number])
    && (forall i, j :: 0 <= i < j < |ds| ==> ds[i].number != ds[j].number)
  }

  /** The numbers the reader feeds to the workers before it is interrupted, in unsigned arithmetic. */
  method Lookups(from: nat, to: nat, reverse: bool, interruptAfter: nat) returns (sent: seq<nat>)
    requires from < to <= MAX_UINT64
    ensures |sent| == if interruptAfter < to - from then interruptAfter else to - from
    ensures forall i :: 0 <= i < |sent| ==> sent[i] == if reverse then to - 1 - i else from + i
  {
    sent := [];
    var n, end := from, to;
    if reverse {
      n, end := to - 1, Pred(from);
    }
    while n != end
      invariant |sent| <= interruptAfter && |sent| <= to - from
      invariant forall i :: 0 <= i < |sent| ==> sent[i] == if reverse then to - 1 - i else from + i
      invariant n == if !reverse then from + |sent| else if |sent| == to - from then Pred(from) else to - 1 - |sent|
      decreases (to - from) - |sent|
    {
      if |sent| == interruptAfter {
        return;
      }
      sent := sent + [n];
      if reverse {
        n := Pred(n);
      } else {
        n := n + 1;
      }
    }
  }

  lemma EntriesDown(b: Bodies, lo: nat, hi: nat)
    requires 0 < lo <= hi && lo - 1 in b
    ensures Entries(b, lo - 1, hi) == Entered(Entries(b, lo, hi), b[lo - 1], lo - 1)
  {
  }

  lemma EntriesMerge(b: Bodies, lo: nat, mid: nat, hi: nat, before: Lookup)
    requires lo <= mid <= hi
    ensures (before + Entries(b, mid, hi)) + Entries(b, lo, mid) == before + Entries(b, lo, hi)
  {
    hide Entries;
    EntriesSplit(b, lo, mid, hi);
  }

  lemma EntriesNone(b: Bodies, n: nat)
    ensures Entries(b, n, n) == map[]
  {
  }

  /** Everything from t up to the end of the range is entered, and t is the tail. */
  ghost predicate CoversFrom(b: Bodies, from: nat, to: nat, before: Lookup, w: Tables) {
    && w.tail.Some? && from <= w.tail.value < to
    && w.lookup == before + Entries(b, w.tail.value, to)
  }

  /** The numbers of the first k deliveries. */
  ghost function Numbers(ds: seq<Delivery>, k: nat): set<nat>
    requires k <= |ds|
  {
    if k == 0 then {} else Numbers(ds, k - 1) + {ds[k - 1].number}
  }

  lemma {:induction false} NumbersMember(ds: seq<Delivery>, k: nat, n: nat)
    requires k <= |ds|
    ensures n in Numbers(ds, k) <==> exists i :: 0 <= i < k && ds[i].number == n
  {
    if k > 0 {
      NumbersMember(ds, k - 1, n);
    }
  }

  /** A delivery brings a number that has not come before. */
  lemma NewNumber(b: Bodies, from: nat, to: nat, ds: seq<Delivery>, k: nat)
    requires Delivered(b, from, to, ds) && k < |ds|
    ensures ds[k].number !in Numbers(ds, k)
  {
    NumbersMember(ds, k, ds[k].number);
  }

  lemma {:induction false} NumbersSize(b: Bodies, from: nat, to: nat, ds: seq<Delivery>, k: nat)
    requires Delivered(b, from, to, ds) && k <= |ds|
    ensures |Numbers(ds, k)| == k && forall n :: n in Numbers(ds, k) ==> from <= n < to
  {
    if k > 0 {
      NumbersSize(b, from, to, ds, k - 1);
      NewNumber(b, from, to, ds, k - 1);
    }
  }

  lemma {:induction false} FullRange(s: set<nat>, lo: nat, hi: nat)
    requires lo <= hi && forall n :: n in s ==> lo <= n < hi
    ensures |s| <= hi - lo
    ensures |s| == hi - lo ==> forall n :: lo <= n < hi ==> n in s
    decreases hi - lo
  {
    if lo == hi {
      assert s == {} by {
        if n :| n in s {
          assert false;
        }
      }
    } else {
      var rest := s - {lo};
      FullRange(rest, lo + 1, hi);
      assert if lo in s then |rest| == |s| - 1 else rest == s;
      if |s| == hi - lo {
        forall n | lo <= n < hi ensures n in s {
          assert n == lo || n in rest;
        }
      }
    }
  }

  /** As many deliveries as blocks are all blocks. */
  lemma AllDelivered(b: Bodies, from: nat, to: nat, ds: seq<Delivery>)
    requires Delivered(b, from, to, ds) && from <= to && |ds| == to - from
    ensures forall n :: from <= n < to ==> n in Numbers(ds, |ds|)
  {
    NumbersSize(b, from, to, ds, |ds|);
    FullRange(Numbers(ds, |ds|), from, to);
  }

  /** indexTransactions: the database tables, the queue of deliveries and the batch being built. */
  class Indexer {
    const bodies: Bodies
    const from: nat
    const to: nat
    var lookup: Lookup
    var tail: Option<nat>
    var queue: map<nat, seq<TxHash>>
    var lastNum: nat
    var puts: Lookup
    var size: nat
    ghost const before: Tables
    ghost var flushed: nat
    ghost var writes: seq<Tables>

    constructor (bodies: Bodies, from: nat, to: nat, lookup: Lookup, tail: Option<nat>)
      requires from < to && forall n :: from <= n < to ==> n in bodies
      ensures Valid() && this.from == from && this.to == to && this.bodies == bodies
      ensures before == Tables(lookup, tail)
      ensures lastNum == flushed == to && queue == map[] && writes == []
    {
      this.bodies, this.from, this.to := bodies, from, to;
      this.lookup, this.tail := lookup, tail;
      queue, lastNum, puts, size := map[], to, map[], 0;
      before, flushed, writes := Tables(lookup, tail), to, [];
      EntriesNone(bodies, to);
    }

    /** Written so far: all from flushed on. In the batch: all from lastNum up to there. */
    ghost predicate Valid()
      reads this
    {
      && from <= lastNum <= flushed <= to && from < to
      && (forall n :: from <= n < to ==> n in bodies)
      && lookup == before.lookup + Entries(bodies, flushed, to)
      && puts == Entries(bodies, lastNum, flushed)
      && (size == 0 ==> forall n :: lastNum <= n < flushed && n > 0 ==> n in bodies && bodies[n] == [])
      && (size > 0 ==> lastNum < flushed)
      && (forall n :: n in queue ==> from <= n < lastNum && n in bodies && queue[n] == bodies[n])
      && (forall w :: w in writes ==> CoversFrom(bodies, from, to, before.lookup, w))
      && (flushed == to ==> writes == [] && Tables(lookup, tail) == before)
      && (flushed < to ==> writes != [] && writes[|writes| - 1] == Tables(lookup, tail) && tail == Some(flushed))
    }

    /** The numbers delivered so far. */
    ghost function Seen(): set<nat>
      reads this
    {
      queue.Keys + set n | n in bodies && lastNum <= n < to
    }

    /** Writes the batch with the tail and starts a new one. */
    method Flush()
      requires Valid() && lastNum < to
      modifies this
      ensures Valid() && flushed == lastNum == old(lastNum) && queue == old(queue) && size == 0
      ensures writes == old(writes) + [Tables(lookup, Some(lastNum))] && tail == Some(lastNum)
      ensures Seen() == old(Seen())
    {
      hide Entries;
      EntriesMerge(bodies, lastNum, flushed, to, before.lookup);
      EntriesNone(bodies, lastNum);
      lookup, tail := lookup + puts, Some(lastNum);
      puts, size := map[], 0;
      flushed := lastNum;
      writes := writes + [Tables(lookup, tail)];
    }

    /** Takes one block off the queue into the batch. */
    method IndexNext()
      requires Valid() && lastNum > 0 && lastNum - 1 in queue
      modifies this
      ensures Valid() && lastNum == old(lastNum) - 1 && queue == old(queue) - {lastNum} && Seen() == old(Seen())
      ensures writes == old(writes) && flushed == old(flushed) && lookup == old(lookup) && tail == old(tail)
    {
      hide Entries, CoversFrom;
      EntriesDown(bodies, lastNum, flushed);
      var hashes := queue[lastNum - 1];
      lastNum := lastNum - 1;
      queue := queue - {lastNum};
      puts := Entered(puts, hashes, lastNum);
      SizeGrows(|hashes|, ByteLen(lastNum));
      size := size + |hashes| * ByteLen(lastNum);
    }

    /** Indexes the contiguous deliveries below the last indexed block. */
    method Drain(hook: nat -> bool)
      requires Valid()
      modifies this
      ensures Valid() && Seen() == old(Seen()) && old(writes) <= writes
      ensures (forall n :: hook(n)) ==> lastNum == 0 || lastNum - 1 !in queue
    {
      hide Entries, CoversFrom, Seen;
      while queue != map[]
        invariant Valid() && Seen() == old(Seen()) && old(writes) <= writes
        decreases |queue|
      {
        var number := TxLists.Greatest(queue.Keys);
        if number != lastNum - 1 {
          break;
        }
        if !hook(lastNum - 1) {
          break;
        }
        assert |queue - {number}| < |queue| by {
          assert (queue - {number}).Keys == queue.Keys - {number};
        }
        IndexNext();
        if size > IDEAL_BATCH_SIZE {
          Flush();
        }
      }
    }

    method Enqueue(d: Delivery)
      requires Valid() && from <= d.number < to && d.number !in Seen() && d.hashes == bodies[d.number]
      modifies `queue
      ensures Valid() && Seen() == old(Seen()) + {d.number}
    {
      hide Entries, CoversFrom;
      queue := queue[d.number := d.hashes];
    }

    /** When all is delivered and nothing is held back, all is indexed. */
    lemma AllIndexed()
      requires Valid() && (lastNum == 0 || lastNum - 1 !in queue)
      requires forall n :: from <= n < to ==> n in Seen()
      ensures lastNum == from
    {
      hide Entries, CoversFrom;
      assert lastNum > from ==> lastNum - 1 in Seen();
    }

    /** Takes in all deliveries, in whatever order they come. */
    method Run(ds: seq<Delivery>, hook: nat -> bool)
      requires Valid() && lastNum == to && queue == map[] && Delivered(bodies, from, to, ds)
      modifies this
      ensures Valid() && old(writes) <= writes
      ensures |ds| == to - from && (forall n :: hook(n)) ==> lastNum == from
      ensures forall n :: lastNum <= n < flushed && n > 0 ==> n in bodies && bodies[n] == []
    {
      hide Entries, CoversFrom;
      for i := 0 to |ds|
        invariant Valid() && old(writes) <= writes
        invariant Seen() == Numbers(ds, i)
        invariant (forall n :: hook(n)) ==> lastNum == 0 || lastNum - 1 !in queue
      {
        NewNumber(bodies, from, to, ds, i);
        Enqueue(ds[i]);
        Drain(hook);
      }
      if |ds| == to - from && forall n :: hook(n) {
        AllDelivered(bodies, from, to, ds);
        AllIndexed();
      }
      if size > 0 {
        Flush();
      }
    }
  }

  /** No transaction is in two blocks of the range. */
  ghost predicate DistinctBodies(b: Bodies, from: nat, to: nat) {
    forall m, n, t ::
      (from <= m < to && m in b && t in b[m]) ==> (from <= n < to && n in b && t in b[n]) ==> m == n
  }

  /** With distinct bodies, what is entered for a block reads back its number, but for block zero. */
  lemma EntriesExact(b: Bodies, from: nat, to: nat, tail: nat, before: Lookup, lookup: Lookup)
    requires DistinctBodies(b, from, to) && from <= tail && lookup == before + Entries(b, tail, to)
    ensures forall n, t :: tail <= n < to && n in b && t in b[n] ==> t in lookup && lookup[t] == n
    ensures forall n, t :: from <= n < tail && n < to && n in b && t in b[n] ==>
              (t in lookup <==> t in before) && (t in before ==> lookup[t] == before[t])
  {
    hide Entries;
    EntriesMeaning(b, tail, to);
  }

  /** Each batch written by the indexer is safe to restart from: all blocks from its tail on read back. */
  lemma WrittenIsSafe(b: Bodies, from: nat, to: nat, before: Lookup, w: Tables, n: nat, t: TxHash)
    requires CoversFrom(b, from, to, before, w) && DistinctBodies(b, from, to)
    requires w.tail.value <= n < to && n in b && t in b[n]
    ensures t in w.lookup && w.lookup[t] == n
  {
    EntriesExact(b, from, to, w.tail.value, before, w.lookup);
  }

  /** All transactions of the range read back their block's number. */
  ghost predicate AllReadable(b: Bodies, from: nat, to: nat, lookup: Lookup) {
    forall n, t :: from <= n < to && n in b && t in b[n] ==> ReadTxLookupEntry(lookup, t) == Some(n)
  }

  lemma ReadableIff(b: Bodies, from: nat, to: nat, tail: nat, before: Lookup, lookup: Lookup)
    requires DistinctBodies(b, from, to) && from <= tail <= to && from < to && lookup == before + Entries(b, tail, to)
    requires forall n :: from <= n < to ==> n in b
    requires forall n :: from <= n < tail && n > 0 ==> b[n] == []
    ensures AllReadable(b, from, to, lookup) <==> from > 0 || b[0] == []
  {
    EntriesExact(b, from, to, tail, before, lookup);
    hide Entries;
    if from == 0 && b[0] != [] {
      var t := b[0][0];
      assert t in b[0] && ReadTxLookupEntry(lookup, t) != Some(0);
    }
  }

  /**
   * indexTransactions. Whatever is delivered and in whatever order, each batch written leaves a tail t with
   * exactly the blocks from t to the end of the range entered. If everything is delivered, every transaction
   * reads back its number exactly when block zero, whose entries read as missing, has none.
   */
  method IndexTransactions(b: Bodies, from: nat, to: nat, before: Tables, ds: seq<Delivery>, hook: nat -> bool)
      returns (after: Tables, ghost writes: seq<Tables>)
    requires Delivered(b, from, to, ds)
    ensures from >= to ==> writes == []
    ensures forall w :: w in writes ==> CoversFrom(b, from, to, before.lookup, w)
    ensures after == if writes == [] then before else writes[|writes| - 1]
    ensures from < to && |ds| == to - from && (forall n :: hook(n)) && DistinctBodies(b, from, to) ==>
              (AllReadable(b, from, to, after.lookup) <==> from > 0 || b[0] == [])
  {
    hide Entries, CoversFrom;
    if from >= to {
      return before, [];
    }
    var indexer := new Indexer(b, from, to, before.lookup, before.tail);
    indexer.Run(ds, hook);
    after, writes := Tables(indexer.lookup, indexer.tail), indexer.writes;
    if |ds| == to - from && (forall n :: hook(n)) && DistinctBodies(b, from, to) {
      ReadableIff(b, from, to, indexer.flushed, before.lookup, after.lookup);
    }
  }

  lemma SizeGrows(n: nat, k: nat)
    ensures n * k >= 0 && (n * k == 0 <==> n == 0 || k == 0)
  {
  }

  /** A transaction in block zero cannot be read back after indexing. */
  method BlockZeroUnreadable() returns (after: Tables)
    ensures !AllReadable(map[0 := [5]], 0, 1, after.lookup)
  {
    var b: Bodies := map[0 := [5]];
    ghost var writes;
    after, writes := IndexTransactions(b, 0, 1, Tables(map[], None), [Delivery(0, [5])], n => true);
  }
}
