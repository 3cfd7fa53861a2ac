/**
 * txSortedMap: a hash map with a heap of its nonces and a cached nonce order. Each method carries
 * out the operation that TxLists gives on values.
 */
module TxSortedMaps {
  import opened Wrappers
  import opened TxLists
  import NonceHeaps

  const MAX_NONCE := 0xffff_ffff_ffff_ffff

  ghost predicate Keyed(m: map<nat, Tx>) {
    forall n :: n in m ==> m[n].nonce == n
  }

  /** The transactions of m in nonce order. */
  ghost function Sorted(m: map<nat, Tx>): (txs: seq<Tx>)
    ensures |txs| == |m|
    decreases |m|
  {
    if m == map[] then []
    else
      var n := Least(m.Keys);
      DropSmaller(m, n);
      [m[n]] + Sorted(m - {n})
  }

  lemma SortedFirst(m: map<nat, Tx>, n: nat)
    requires n in m && forall k :: k in m ==> n <= k
    ensures |m - {n}| == |m| - 1 && Sorted(m) == [m[n]] + Sorted(m - {n})
  {
    DropSmaller(m, n);
    assert n == Least(m.Keys);
  }

  /** Taking the least nonces out of m0 while they are below the threshold. */
  ghost predicate Popping(m0: map<nat, Tx>, m: map<nat, Tx>, threshold: nat, removed: seq<Tx>) {
    && m.Keys <= m0.Keys && (forall n :: n in m ==> m[n] == m0[n])
    && (forall n :: n in m0 && n >= threshold ==> n in m)
    && Sorted(m0) == removed + Sorted(m)
  }

  lemma PoppingStart(m: map<nat, Tx>, threshold: nat)
    ensures Popping(m, m, threshold, [])
  {
    hide Sorted;
  }

  lemma PoppingStep(m0: map<nat, Tx>, m: map<nat, Tx>, threshold: nat, removed: seq<Tx>)
    requires Popping(m0, m, threshold, removed) && m != map[] && Least(m.Keys) < threshold
    ensures var n := Least(m.Keys);
            |m - {n}| < |m| && Popping(m0, m - {n}, threshold, removed + [m[n]])
  {
    hide Sorted;
    var n := Least(m.Keys);
    hide Least;
    SortedFirst(m, n);
    assert removed + ([m[n]] + Sorted(m - {n})) == removed + [m[n]] + Sorted(m - {n});
  }

  lemma PoppingDone(m0: map<nat, Tx>, m: map<nat, Tx>, threshold: nat, removed: seq<Tx>)
    requires Popping(m0, m, threshold, removed) && (m != map[] ==> Least(m.Keys) >= threshold)
    ensures m == Restrict(m0, set n | n in m0 && n >= threshold) && Sorted(m0) == removed + Sorted(m)
  {
    hide Sorted;
    var least := if m == map[] then threshold else Least(m.Keys);
    assert forall n :: n in m ==> n >= least;
    hide Least;
  }

  /** Sorted has exactly the stored transactions. */
  lemma {:induction false} SortedMembers(m: map<nat, Tx>)
    requires Keyed(m)
    ensures forall tx :: tx in Sorted(m) <==> tx.nonce in m && m[tx.nonce] == tx
    decreases |m|
  {
    hide Sorted;
    if m != map[] {
      var n := Least(m.Keys);
      SortedFirst(m, n);
      SortedMembers(m - {n});
      forall tx ensures tx in Sorted(m) <==> tx.nonce in m && m[tx.nonce] == tx {
        assert tx in Sorted(m) <==> tx == m[n] || tx in Sorted(m - {n});
      }
    }
  }

  /** Sorted is strictly increasing in the nonce. */
  lemma {:induction false} SortedIncreasing(m: map<nat, Tx>, i: nat, j: nat)
    requires Keyed(m) && i < j < |m|
    ensures Sorted(m)[i].nonce < Sorted(m)[j].nonce
    decreases |m|
  {
    hide Sorted;
    var n := Least(m.Keys);
    SortedFirst(m, n);
    var rest := m - {n};
    assert Sorted(m)[j] == Sorted(rest)[j - 1];
    if i == 0 {
      SortedMembers(rest);
      assert Sorted(rest)[j - 1] in Sorted(rest);
    } else {
      SortedIncreasing(rest, i - 1, j - 1);
    }
  }

  /** The other way round: the greatest nonce comes last. */
  lemma {:induction false} SortedLast(m: map<nat, Tx>, g: nat)
    requires g in m && forall k :: k in m ==> k <= g
    ensures |m - {g}| == |m| - 1 && Sorted(m) == Sorted(m - {g}) + [m[g]]
    decreases |m|
  {
    hide Sorted;
    DropSmaller(m, g);
    var n := Least(m.Keys);
    SortedFirst(m, n);
    if n == g {
      assert m - {n} == map[] by {
        assert forall k :: k in m ==> k == n;
      }
    } else {
      var rest := m - {n};
      SortedLast(rest, g);
      SortedFirst(m - {g}, n);
      assert m - {g} - {n} == rest - {g};
    }
  }

  function Reversed(s: seq<Tx>): (r: seq<Tx>)
    ensures |r| == |s|
  {
    if s == [] then [] else [s[|s| - 1]] + Reversed(s[..|s| - 1])
  }

  lemma ReversedSnoc(s: seq<Tx>, tx: Tx)
    ensures Reversed(s + [tx]) == [tx] + Reversed(s)
  {
    assert (s + [tx])[..|s|] == s;
  }

  ghost function Kept(m: map<nat, Tx>, drop: Tx -> bool): map<nat, Tx> {
    Restrict(m, set n | n in m && !drop(m[n]))
  }

  /** removed holds the transactions that m has and r has not, each once. */
  ghost predicate Removed(m: map<nat, Tx>, r: map<nat, Tx>, removed: seq<Tx>) {
    && (forall tx :: tx in removed <==> tx.nonce in m && m[tx.nonce] == tx && tx.nonce !in r)
    && |removed| == |m| - |r|
  }

  /** Of m, r is left when all but the nonces todo have been tried. */
  ghost predicate Scanning(m: map<nat, Tx>, r: map<nat, Tx>, todo: set<nat>, drop: Tx -> bool) {
    && todo <= r.Keys <= m.Keys
    && (forall n :: n in r ==> r[n] == m[n] && (n in todo || !drop(m[n])))
    && (forall n :: n in m && !drop(m[n]) ==> n in r)
  }

  lemma RemovedSnoc(m: map<nat, Tx>, r: map<nat, Tx>, removed: seq<Tx>, n: nat)
    requires Keyed(m) && Removed(m, r, removed) && n in r && n in m && r[n] == m[n]
    ensures Removed(m, r - {n}, removed + [r[n]])
  {
    DropSmaller(r, n);
    forall tx ensures tx in removed + [r[n]] <==> tx.nonce in m && m[tx.nonce] == tx && tx.nonce !in r - {n} {
      assert tx in removed + [r[n]] <==> tx in removed || tx == r[n];
    }
  }

  lemma NoneRemoved(m: map<nat, Tx>)
    ensures Removed(m, m, [])
  {
  }

  lemma NothingRemoved(m: map<nat, Tx>, r: map<nat, Tx>, drop: Tx -> bool, removed: seq<Tx>)
    requires Keyed(m) && r == Kept(m, drop) && Removed(m, r, removed) && removed == []
    ensures r == m
  {
    forall n | n in m ensures n in r {
      assert m[n] !in removed;
    }
  }

  lemma KeptSound(m: map<nat, Tx>, drop: Tx -> bool)
    ensures forall n :: n in Kept(m, drop) ==> n in m && Kept(m, drop)[n] == m[n]
  {
  }

  lemma ScanningStart(m: map<nat, Tx>, drop: Tx -> bool)
    ensures Scanning(m, m, m.Keys, drop)
  {
  }

  lemma ScanningNext(m: map<nat, Tx>, r: map<nat, Tx>, todo: set<nat>, drop: Tx -> bool, n: nat)
    requires Scanning(m, r, todo, drop) && n in todo
    ensures n in r && n in m && r[n] == m[n]
    ensures Scanning(m, if drop(r[n]) then r - {n} else r, todo - {n}, drop)
  {
  }

  lemma ScanningDone(m: map<nat, Tx>, r: map<nat, Tx>, drop: Tx -> bool)
    requires Scanning(m, r, {}, drop)
    ensures r == Kept(m, drop)
  {
  }

  ghost predicate Ascending(s: seq<nat>) {
    forall i, j :: 0 <= i < j < |s| ==> s[i] <= s[j]
  }

  lemma AscendingSnoc(s: seq<nat>, x: nat)
    requires Ascending(s) && forall y :: y in multiset(s) ==> y <= x
    ensures Ascending(s + [x])
  {
    forall i | 0 <= i < |s| ensures s[i] <= x {
      assert s[i] in multiset(s);
    }
  }

  lemma LastIsGreatest(m: map<nat, Tx>, sorted: seq<nat>, size: nat)
    requires Ascending(sorted) && 0 < size <= |sorted| && multiset(sorted[..size]) == multiset(m.Keys)
    ensures var g := sorted[size - 1];
            && g in m && (forall k :: k in m ==> k <= g)
            && multiset(sorted[..size - 1]) == multiset((m - {g}).Keys)
  {
    var front := sorted[..size];
    var g := sorted[size - 1];
    assert front[size - 1] in multiset(front);
    forall k | k in m ensures k <= g {
      assert k in multiset(front);
      var i: nat :| i < size && front[i] == k;
    }
    assert front == sorted[..size - 1] + [g];
    assert multiset(front) == multiset(sorted[..size - 1]) + multiset{g};
    assert (m - {g}).Keys == m.Keys - {g};
    assert multiset(m.Keys - {g}) == multiset(m.Keys) - multiset{g};
  }

  lemma CapMapStep(m: map<nat, Tx>, g: nat, k: nat)
    requires g in m && (forall n :: n in m ==> n <= g) && k < |m|
    ensures CapMap(m, k) == CapMap(m - {g}, k)
  {
    assert g == Greatest(m.Keys);
  }

  /** Of m, r is left: the size lowest nonces, the others dropped from the top down. */
  ghost predicate Capping(m: map<nat, Tx>, r: map<nat, Tx>, sorted: seq<nat>, size: nat, k: nat, drops: seq<Tx>) {
    && size == |r| && size <= |sorted|
    && multiset(sorted[..size]) == multiset(r.Keys)
    && CapMap(r, k) == CapMap(m, k)
    && Sorted(m) == Sorted(r) + Reversed(drops)
  }

  lemma CappingStart(m: map<nat, Tx>, sorted: seq<nat>, k: nat)
    requires multiset(sorted) == multiset(m.Keys) && |sorted| == |m|
    ensures Capping(m, m, sorted, |m|, k, [])
  {
    hide CapMap, Sorted;
    assert sorted[..|m|] == sorted;
    assert Sorted(m) + Reversed([]) == Sorted(m);
  }

  lemma DropLast(m: map<nat, Tx>, r: map<nat, Tx>, g: nat, drops: seq<Tx>)
    requires g in r && (forall k :: k in r ==> k <= g) && Sorted(m) == Sorted(r) + Reversed(drops)
    ensures |r - {g}| == |r| - 1 && Sorted(m) == Sorted(r - {g}) + Reversed(drops + [r[g]])
  {
    hide Sorted, Reversed;
    SortedLast(r, g);
    ReversedSnoc(drops, r[g]);
    assert Sorted(r - {g}) + [r[g]] + Reversed(drops) == Sorted(r - {g}) + ([r[g]] + Reversed(drops));
  }

  lemma CappingStep(m: map<nat, Tx>, r: map<nat, Tx>, sorted: seq<nat>, size: nat, k: nat, drops: seq<Tx>)
    requires Capping(m, r, sorted, size, k, drops) && Ascending(sorted) && k < size
    ensures size <= |sorted| && sorted[size - 1] in r
    ensures Capping(m, r - {sorted[size - 1]}, sorted, size - 1, k, drops + [r[sorted[size - 1]]])
  {
    hide CapMap, Sorted, Reversed, Ascending;
    LastIsGreatest(r, sorted, size);
    var n := sorted[size - 1];
    DropLast(m, r, n, drops);
    CapMapStep(r, n, k);
  }

  lemma CappingDone(m: map<nat, Tx>, r: map<nat, Tx>, sorted: seq<nat>, k: nat, drops: seq<Tx>)
    requires Capping(m, r, sorted, k, k, drops)
    ensures r == CapMap(m, k) && k <= |sorted| && multiset(sorted[..k]) == multiset(r.Keys)
    ensures Sorted(m) == Sorted(r) + Reversed(drops)
  {
    hide CapMap, Sorted, Reversed;
  }

  /** Of m, whose least nonce is first, the run up to next has been taken and r is left. */
  ghost predicate Running(m: map<nat, Tx>, r: map<nat, Tx>, first: nat, next: nat, ready: seq<Tx>) {
    && next == first + |ready|
    && r == Restrict(m, set n | n in m && n >= next)
    && ready + Run(r, next) == Run(m, first)
  }

  lemma RunningStart(m: map<nat, Tx>, first: nat)
    requires forall n :: n in m ==> n >= first
    ensures Running(m, m, first, first, [])
  {
    hide Run;
    assert [] + Run(m, first) == Run(m, first);
  }

  lemma RunningStep(m: map<nat, Tx>, r: map<nat, Tx>, first: nat, next: nat, ready: seq<Tx>)
    requires Running(m, r, first, next, ready) && next in r
    ensures |r - {next}| < |r| && Running(m, r - {next}, first, next + 1, ready + [r[next]])
  {
    RunStep(r, next);
    hide Run;
    assert ready + [r[next]] + Run(r - {next}, next + 1) == ready + ([r[next]] + Run(r - {next}, next + 1));
  }

  lemma RunningDone(m: map<nat, Tx>, r: map<nat, Tx>, first: nat, next: nat, ready: seq<Tx>)
    requires Running(m, r, first, next, ready) && next !in r
    ensures ready == Run(m, first) && r == Restrict(m, set n | n in m && n >= first + |ready|)
  {
  }

  lemma RunStep(m: map<nat, Tx>, n: nat)
    requires n in m
    ensures |m - {n}| == |m| - 1 && Run(m, n) == [m[n]] + Run(m - {n}, n + 1)
  {
    DropSmaller(m, n);
  }

  lemma SameSize(m: map<nat, Tx>, sorted: seq<nat>)
    requires multiset(sorted) == multiset(m.Keys)
    ensures |sorted| == |m|
  {
    assert |multiset(sorted)| == |multiset(m.Keys)|;
  }

  /** sort.Sort on a nonceHeap. */
  method SortNonces(h: seq<nat>) returns (s: seq<nat>)
    ensures Ascending(s) && multiset(s) == multiset(h)
  {
    hide NonceHeaps.IsHeap;
    var rest := NonceHeaps.Init(h);
    s := [];
    while rest != []
      invariant NonceHeaps.IsHeap(rest) && multiset(s) + multiset(rest) == multiset(h)
      invariant Ascending(s)
      invariant forall x, y :: x in multiset(s) && y in multiset(rest) ==> x <= y
      decreases |multiset(rest)|
    {
      ghost var before := rest;
      var x;
      x, rest := NonceHeaps.Pop(rest);
      assert forall y :: y in multiset(before) ==> y in before && x <= y;
      AscendingSnoc(s, x);
      s := s + [x];
    }
  }

  /** sort.Sort by nonce. */
  method SortByNonce(m: map<nat, Tx>) returns (s: seq<Tx>)
    ensures s == Sorted(m)
  {
    hide Sorted;
    s := [];
    var rest := m;
    while rest != map[]
      invariant s + Sorted(rest) == Sorted(m)
      decreases |rest|
    {
      var n := Least(rest.Keys);
      SortedFirst(rest, n);
      s := s + [rest[n]];
      rest := rest - {n};
    }
  }

  class TxSortedMap {
    var items: map<nat, Tx>
    var index: seq<nat>
    var cache: Option<seq<Tx>>

    /** The items sit under their own nonce, and a cached order is the order of the items. */
    ghost predicate Stored()
      reads this
    {
      && Keyed(items)
      && (forall n :: n in items ==> n <= MAX_NONCE)
      && (cache.Some? ==> cache.value == Sorted(items))
    }

    /** The heap holds the nonce of every item once. */
    ghost predicate Indexed()
      reads `items, `index
    {
      NonceHeaps.IsHeap(index) && multiset(index) == multiset(items.Keys)
    }

    ghost predicate Valid()
      reads this
    {
      Stored() && Indexed()
    }

    constructor ()
      ensures Valid() && items == map[]
    {
      items, index, cache := map[], [], None;
    }

    method Put(tx: Tx)
      requires Valid() && tx.nonce <= MAX_NONCE
      modifies this
      ensures Valid() && items == old(items)[tx.nonce := tx]
    {
      var nonce := tx.nonce;
      if nonce !in items {
        index := NonceHeaps.Push(index, nonce);
      }
      items, cache := items[nonce := tx], None;
    }

    /** The front of the heap is the least stored nonce. */
    lemma FrontIsLeast()
      requires Indexed() && items != map[]
      ensures index != [] && index[0] == Least(items.Keys)
    {
      var n := Least(items.Keys);
      assert n in multiset(index);
      var j: nat :| j < |index| && index[j] == n;
      NonceHeaps.FrontIsLeast(index, j);
      assert index[0] in multiset(index);
    }

    /** Taking the least nonce off the heap together with its item. */
    method PopLeast() returns (tx: Tx)
      requires Indexed() && items != map[]
      modifies `items, `index
      ensures Indexed()
      ensures var n := Least(old(items).Keys); tx == old(items)[n] && items == old(items) - {n}
    {
      hide NonceHeaps.IsHeap;
      FrontIsLeast();
      ghost var heap := index;
      var nonce;
      nonce, index := NonceHeaps.Pop(index);
      assert nonce in multiset(heap) && heap[0] in heap;
      assert nonce == Least(items.Keys);
      tx := items[nonce];
      items := items - {nonce};
      assert items.Keys == old(items).Keys - {nonce};
    }

    lemma EmptyTogether()
      requires Indexed()
      ensures index == [] <==> items == map[]
    {
      assert |multiset(index)| == |index|;
      if items != map[] {
        var n :| n in items;
        assert n in multiset(index);
      }
    }

    /** Pops the nonces below the threshold, in nonce order. */
    method PopBelow(threshold: nat) returns (removed: seq<Tx>)
      requires Indexed()
      modifies `items, `index
      ensures Indexed() && items == Restrict(old(items), set n | n in old(items) && n >= threshold)
      ensures Sorted(old(items)) == removed + Sorted(items)
    {
      hide Sorted, Indexed, Popping, Least;
      removed := [];
      EmptyTogether();
      PoppingStart(items, threshold);
      while index != [] && index[0] < threshold
        invariant Indexed() && (index == [] <==> items == map[])
        invariant Popping(old(items), items, threshold, removed)
        decreases |items|
      {
        FrontIsLeast();
        PoppingStep(old(items), items, threshold, removed);
        var tx := PopLeast();
        removed := removed + [tx];
        EmptyTogether();
      }
      if items != map[] {
        FrontIsLeast();
      }
      PoppingDone(old(items), items, threshold, removed);
    }

    /** Drops the nonces below the threshold and shifts the cache by as many. */
    method Forward(threshold: nat) returns (removed: seq<Tx>)
      requires Valid()
      modifies this
      ensures Valid() && items == Restrict(old(items), set n | n in old(items) && n >= threshold)
      ensures Sorted(old(items)) == removed + Sorted(items)
    {
      hide Sorted, Indexed;
      removed := PopBelow(threshold);
      if cache.Some? {
        cache := Some(cache.value[|removed|..]);
      }
    }

    /** Drops what the predicate selects but leaves the heap as it was. */
    method FilterItems(drop: Tx -> bool) returns (removed: seq<Tx>)
      requires Stored()
      modifies `items, `cache
      ensures Stored() && items == Kept(old(items), drop) && Removed(old(items), items, removed)
    {
      hide Removed, Kept, Sorted, Scanning;
      removed := [];
      var todo := items.Keys;
      ScanningStart(items, drop);
      assert Removed(items, items, removed) by {
        NoneRemoved(items);
      }
      while todo != {}
        invariant Scanning(old(items), items, todo, drop) && Removed(old(items), items, removed)
        invariant cache == old(cache)
        decreases |todo|
      {
        var nonce :| nonce in todo;
        ScanningNext(old(items), items, todo, drop, nonce);
        var tx := items[nonce];
        if drop(tx) {
          RemovedSnoc(old(items), items, removed, nonce);
          removed := removed + [tx];
          items := items - {nonce};
        }
        todo := todo - {nonce};
      }
      ScanningDone(old(items), items, drop);
      KeptSound(old(items), drop);
      if |removed| > 0 {
        cache := None;
      } else {
        NothingRemoved(old(items), items, drop, removed);
      }
    }

    /** Builds the heap anew from the items. */
    method Reheap()
      requires Stored()
      modifies `index, `cache
      ensures Valid()
    {
      var nonces := [];
      var todo := items.Keys;
      while todo != {}
        invariant todo <= items.Keys && multiset(nonces) == multiset(items.Keys - todo)
        decreases |todo|
      {
        var nonce :| nonce in todo;
        assert items.Keys - (todo - {nonce}) == items.Keys - todo + {nonce};
        todo := todo - {nonce};
        nonces := nonces + [nonce];
      }
      assert items.Keys - todo == items.Keys;
      index := NonceHeaps.Init(nonces);
      cache := None;
    }

    method Filter(drop: Tx -> bool) returns (removed: seq<Tx>)
      requires Valid()
      modifies this
      ensures Valid() && items == Kept(old(items), drop) && Removed(old(items), items, removed)
    {
      removed := FilterItems(drop);
      if |removed| > 0 {
        Reheap();
      }
    }

    /** Drops the items of the highest nonces, given all nonces in order, until threshold are left. */
    method DropHighest(sorted: seq<nat>, threshold: nat) returns (drops: seq<Tx>)
      requires Ascending(sorted) && multiset(sorted) == multiset(items.Keys)
      requires threshold <= |items| == |sorted|
      modifies `items
      ensures items == CapMap(old(items), threshold)
      ensures multiset(sorted[..threshold]) == multiset(items.Keys)
      ensures Sorted(old(items)) == Sorted(items) + Reversed(drops)
    {
      hide Capping, Ascending, CapMap, Sorted, Reversed;
      drops := [];
      var size := |items|;
      CappingStart(items, sorted, threshold);
      while size > threshold
        invariant size >= threshold && Capping(old(items), items, sorted, size, threshold, drops)
      {
        CappingStep(old(items), items, sorted, size, threshold, drops);
        var nonce := sorted[size - 1];
        drops := drops + [items[nonce]];
        items := items - {nonce};
        size := size - 1;
      }
      CappingDone(old(items), items, sorted, threshold, drops);
    }

    /** Leaves the threshold lowest nonces and cuts the cache at the back. */
    method Cap(threshold: nat) returns (drops: seq<Tx>)
      requires Valid()
      modifies this
      ensures Valid() && items == CapMap(old(items), threshold)
      ensures Sorted(old(items)) == Sorted(items) + Reversed(drops)
    {
      hide Sorted, NonceHeaps.IsHeap, Ascending, CapMap, Reversed;
      drops := [];
      if |items| <= threshold {
        return;
      }
      var sorted := SortNonces(index);
      SameSize(items, sorted);
      drops := DropHighest(sorted, threshold);
      index := NonceHeaps.Init(sorted[..threshold]);
      if cache.Some? {
        cache := Some(cache.value[..|cache.value| - |drops|]);
      }
    }

    method Remove(nonce: nat) returns (found: bool)
      requires Valid()
      modifies this
      ensures Valid() && found == (nonce in old(items)) && items == old(items) - {nonce}
    {
      found := nonce in items;
      if !found {
        return;
      }
      assert nonce in multiset(index);
      var i := 0;
      while i < |index|
        invariant 0 <= i <= |index| && nonce !in index[..i]
      {
        if index[i] == nonce {
          break;
        }
        i := i + 1;
      }
      var taken;
      taken, index := NonceHeaps.Remove(index, i);
      items, cache := items - {nonce}, None;
      assert items.Keys == old(items).Keys - {nonce};
    }

    /** Pops the consecutive run from the least nonce on. */
    method PopRun() returns (ready: seq<Tx>)
      requires Indexed() && items != map[]
      modifies `items, `index
      ensures Indexed() && ready == Run(old(items), Least(old(items).Keys))
      ensures var first := Least(old(items).Keys);
              items == Restrict(old(items), set n | n in old(items) && n >= first + |ready|)
    {
      hide Indexed, Running, Run;
      ready := [];
      EmptyTogether();
      FrontIsLeast();
      var next := index[0];
      ghost var first := next;
      RunningStart(items, first);
      while index != [] && index[0] == next
        invariant Indexed() && (index == [] <==> items == map[])
        invariant Running(old(items), items, first, next, ready)
        decreases |items|
      {
        FrontIsLeast();
        RunningStep(old(items), items, first, next, ready);
        var tx := PopLeast();
        ready := ready + [tx];
        next := next + 1;
        EmptyTogether();
      }
      NextGone(old(items), first, next, ready);
      RunningDone(old(items), items, first, next, ready);
    }

    /** When the front is not next, next is not stored. */
    lemma NextGone(m: map<nat, Tx>, first: nat, next: nat, ready: seq<Tx>)
      requires Indexed() && Running(m, items, first, next, ready) && (index == [] <==> items == map[])
      requires index == [] || index[0] != next
      ensures next !in items
    {
      hide Run;
      if items != map[] {
        FrontIsLeast();
      }
    }

    /** Takes out the consecutive run from the least nonce on, if that is not above start. */
    method Ready(start: nat) returns (ready: seq<Tx>)
      requires Valid()
      modifies this
      ensures Valid()
      ensures var l := TxList(false, old(items), 0, 0); ready == l.Ready(start) && items == l.AfterReady(start).txs
    {
      hide Sorted, Indexed, Run;
      ready := [];
      EmptyTogether();
      if index == [] {
        return;
      }
      FrontIsLeast();
      if index[0] > start {
        return;
      }
      RunStep(items, index[0]);
      ready := PopRun();
      cache := None;
    }

    /** The transactions in nonce order, from the cache or cached now. */
    method Flatten() returns (txs: seq<Tx>)
      requires Valid()
      modifies `cache
      ensures Valid() && txs == Sorted(items)
    {
      if cache.None? {
        var sorted := SortByNonce(items);
        cache := Some(sorted);
      }
      txs := cache.value;
    }

    method LastElement() returns (tx: Tx)
      requires Valid() && items != map[]
      modifies `cache
      ensures Valid() && tx == items[Greatest(items.Keys)]
    {
      SortedLast(items, Greatest(items.Keys));
      var txs := Flatten();
      tx := txs[|txs| - 1];
    }
  }
}
