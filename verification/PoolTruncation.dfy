/** Cutting pending lists back from their highest nonces (truncatePending). */
module PoolTruncation {
  import opened TxLists
  import opened PoolViews

  /** The number of transactions in the lists. */
  ghost function Total(m: Lists): nat
    decreases |m|
  {
    if m == map[] then 0 else var a :| a in m; RemoveSmaller(m, a); |m[a].txs| + Total(m - {a})
  }

  lemma RemoveSmaller(m: Lists, a: Address)
    requires a in m
    ensures |m - {a}| == |m| - 1
  {
    assert (m - {a}).Keys == m.Keys - {a};
  }

  lemma {:induction false} TotalRemove(m: Lists, a: Address)
    requires a in m
    ensures Total(m) == |m[a].txs| + Total(m - {a})
    decreases |m|
  {
    var b: Address :| b in m && Total(m) == |m[b].txs| + Total(m - {b});
    if b != a {
      RemoveSmaller(m, a);
      RemoveSmaller(m, b);
      var ma, mb := m - {a}, m - {b};
      assert mb - {a} == ma - {b} && mb[a] == m[a] && ma[b] == m[b];
      hide Total;
      TotalRemove(mb, a);
      TotalRemove(ma, b);
    }
  }

  function HeldTxs(m: Lists): set<Tx> {
    set a, n | a in m && n in m[a].txs :: m[a].txs[n]
  }

  /** The transactions in the lists are as many as the lists are long. */
  lemma {:induction false} HeldCount(m: Lists)
    requires ListsOk(m, true)
    ensures |HeldTxs(m)| == Total(m)
    decreases |m|
  {
    if m == map[] {
      assert HeldTxs(m) == {};
      EmptyTotal();
    } else {
      var a :| a in m;
      var rest, own := m - {a}, set n | n in m[a].txs :: m[a].txs[n];
      TotalRemove(m, a);
      RemoveSmaller(m, a);
      hide Total, HeldTxs;
      HeldCount(rest);
      OwnCount(m[a], a);
      HeldSplit(m, a);
    }
  }

  lemma HeldSplit(m: Lists, a: Address)
    requires ListsOk(m, true) && a in m
    ensures var own := set n | n in m[a].txs :: m[a].txs[n];
            HeldTxs(m) == HeldTxs(m - {a}) + own && HeldTxs(m - {a}) !! own
  {
    forall t | t in HeldTxs(m - {a}) ensures t.sender != a {
      var b, n :| b in m - {a} && n in (m - {a})[b].txs && (m - {a})[b].txs[n] == t;
      assert m[b].txs[n].sender == b;
    }
    forall t | t in HeldTxs(m) ensures t in HeldTxs(m - {a}) || t in set n | n in m[a].txs :: m[a].txs[n] {
      var b, n :| b in m && n in m[b].txs && m[b].txs[n] == t;
      if b != a {
        assert b in m - {a} && n in (m - {a})[b].txs;
      }
    }
  }

  lemma OwnCount(l: TxList, a: Address)
    requires l.Valid(a)
    ensures |set n | n in l.txs :: l.txs[n]| == |l.txs|
  {
    var own := set n | n in l.txs :: l.txs[n];
    NonceCount(own, l.txs.Keys, l.txs);
  }

  lemma {:induction false} NonceCount(own: set<Tx>, keys: set<nat>, txs: map<nat, Tx>)
    requires keys <= txs.Keys && own == set n | n in keys :: txs[n]
    requires forall n :: n in keys ==> txs[n].nonce == n
    ensures |own| == |keys|
    decreases keys
  {
    if keys == {} {
      assert own == {};
    } else {
      var n :| n in keys;
      NonceCount(own - {txs[n]}, keys - {n}, txs);
    }
  }

  /** No more are pending than pooled. */
  lemma TotalHeld(pending: Lists, queue: Lists, all: set<Tx>)
    requires Partition(pending, queue, all)
    ensures Total(pending) <= |all|
  {
    hide Total, TxList.Valid;
    HeldCount(pending);
    forall t | t in HeldTxs(pending) ensures t in all {
      var a, n :| Has(pending, a, n) && pending[a].txs[n] == t;
      HasHolds(pending, true, a, n);
    }
    CardinalitySubset(HeldTxs(pending), all);
  }

  lemma CardinalitySubset(a: set<Tx>, b: set<Tx>)
    requires a <= b
    ensures |a| <= |b|
  {
    assert b == a + (b - a);
  }

  lemma EmptyTotal()
    ensures Total(map[]) == 0
  {
  }

  lemma TotalUpdate(m: Lists, a: Address, l: TxList)
    requires a in m
    ensures Total(m[a := l]) == Total(m) - |m[a].txs| + |l.txs|
  {
    TotalRemove(m, a);
    TotalRemove(m[a := l], a);
    assert m[a := l] - {a} == m - {a};
  }

  /** Capping twice is capping once. */
  lemma {:induction false} CapMapTwice(m: map<nat, Tx>, k: nat, j: nat)
    requires j <= k
    ensures CapMap(CapMap(m, k), j) == CapMap(m, j)
    decreases |m|
  {
    if |m| > k {
      var g := Greatest(m.Keys);
      DropSmaller(m, g);
      CapMapTwice(m - {g}, k, j);
    }
  }

  /** l is l0 cut back from its highest nonces: not at all if it is protected or no longer than
      k, and never below k. */
  ghost predicate ListTrim(l0: TxList, l: TxList, protected: bool, k: nat) {
    && |l.txs| <= |l0.txs| && l == l0.Cap(|l.txs|)
    && (protected || |l0.txs| <= k ==> l == l0)
    && (|l0.txs| > k ==> |l.txs| >= k)
  }

  /** m is m0 with some lists trimmed; locals are protected. */
  ghost predicate Trims(m0: Lists, m: Lists, locals: set<Address>, k: nat) {
    m.Keys == m0.Keys && forall a :: a in m ==> ListTrim(m0[a], m[a], a in locals, k)
  }

  lemma TrimsStart(m: Lists, locals: set<Address>, k: nat)
    ensures Trims(m, m, locals, k)
  {
  }

  lemma ListTrimStep(l0: TxList, l: TxList, k: nat)
    requires ListTrim(l0, l, false, k) && |l.txs| > k
    ensures ListTrim(l0, l.Cap(|l.txs| - 1), false, k)
  {
    CapMapTwice(l0.txs, |l.txs|, |l.txs| - 1);
  }

  lemma TrimsStep(m0: Lists, m: Lists, locals: set<Address>, k: nat, a: Address)
    requires Trims(m0, m, locals, k) && a in m && a !in locals && |m[a].txs| > k
    ensures Trims(m0, m[a := m[a].Cap(|m[a].txs| - 1)], locals, k)
  {
    hide ListTrim, TxList.Cap;
    ListTrimStep(m0[a], m[a], k);
  }

  lemma TrimsKeys(m0: Lists, m: Lists, locals: set<Address>, k: nat)
    requires Trims(m0, m, locals, k)
    ensures m.Keys == m0.Keys
  {
  }

  predicate HasLength(m: Lists, a: Address, n: nat) {
    a in m && |m[a].txs| == n
  }

  /** The accounts that truncatePending may cut. */
  function Spammers(m: Lists, locals: set<Address>, k: nat): set<Address> {
    set a | a in m && a !in locals && |m[a].txs| > k
  }

  ghost predicate Longest(m: Lists, s: set<Address>, a: Address) {
    a in m && forall b :: b in s && b in m ==> |m[b].txs| <= |m[a].txs|
  }

  lemma {:induction false} LongestOf(m: Lists, s: set<Address>) returns (a: Address)
    requires s != {} && s <= m.Keys
    ensures a in s && Longest(m, s, a)
    decreases s
  {
    var x :| x in s;
    a := x;
    var rest := s - {x};
    if rest != {} {
      var r := LongestOf(m, rest);
      a := if |m[r].txs| > |m[x].txs| then r else x;
    }
    forall b | b in s && b in m ensures |m[b].txs| <= |m[a].txs| {
      assert b == x || b in rest;
    }
  }

  /** The drop of the highest nonce of one list. */
  lemma CapOne(l: TxList, a: Address)
    requires l.Valid(a) && |l.txs| >= 1
    ensures var l' := l.Cap(|l.txs| - 1);
            && Shrinks(l, l') && l'.Valid(a) && |l'.txs| == |l.txs| - 1
            && Gone(l, l') == {l.LastElement()}
  {
    var l', g := l.Cap(|l.txs| - 1), Greatest(l.txs.Keys);
    DropSmaller(l.txs, g);
    assert l'.txs == l.txs - {g};
  }

  ghost predicate Distinct(s: seq<Address>) {
    forall i, j :: 0 <= i < j < |s| ==> s[i] != s[j]
  }

  /** Part of the way through a round over the first n accounts, which started with the given
      length: the first i have lost one transaction. */
  ghost predicate MidRound(start: Lists, m: Lists, s: seq<Address>, i: nat, n: nat, length: nat) {
    && i <= n <= |s| && m.Keys == start.Keys
    && (forall j :: 0 <= j < i ==> HasLength(m, s[j], length))
    && (forall j :: i <= j < n ==> HasLength(m, s[j], length + 1))
    && (forall a :: a in m && a !in s[..i] ==> m[a] == start[a])
  }

  lemma RoundStart(m: Lists, s: seq<Address>, n: nat, length: nat)
    requires n <= |s| && forall j :: 0 <= j < n ==> HasLength(m, s[j], length + 1)
    ensures MidRound(m, m, s, 0, n, length)
  {
  }

  lemma RoundStep(start: Lists, m: Lists, s: seq<Address>, i: nat, n: nat, length: nat, l: TxList)
    requires MidRound(start, m, s, i, n, length) && i < n && Distinct(s) && |l.txs| == length
    ensures MidRound(start, m[s[i] := l], s, i + 1, n, length)
  {
    var m' := m[s[i] := l];
    assert HasLength(m, s[i], length + 1);
    forall j | 0 <= j < n && j != i ensures HasLength(m', s[j], length) <==> HasLength(m, s[j], length)
                                    ensures HasLength(m', s[j], length + 1) <==> HasLength(m, s[j], length + 1)
    {
      assert s[j] != s[i];
    }
    assert s[..i + 1] == s[..i] + [s[i]];
    hide HasLength;
  }

  lemma RoundEnd(start: Lists, m: Lists, s: seq<Address>, n: nat, length: nat)
    requires MidRound(start, m, s, n, n, length)
    ensures m.Keys == start.Keys && forall j :: 0 <= j < n ==> HasLength(m, s[j], length)
    ensures forall a :: a in m && a !in s[..n] ==> m[a] == start[a]
  {
    hide HasLength;
  }

  lemma RoundAt(start: Lists, m: Lists, s: seq<Address>, i: nat, n: nat, length: nat)
    requires MidRound(start, m, s, i, n, length) && i < n
    ensures s[i] in m && |m[s[i]].txs| == length + 1
  {
    assert HasLength(m, s[i], length + 1);
  }

  ghost predicate AllLength(m: Lists, s: seq<Address>, n: nat) {
    forall j :: 0 <= j < |s| ==> HasLength(m, s[j], n)
  }

  /** Where the offender loop of truncatePending stands. all is every account it may cut: those
      popped so far are the offenders and all have the same length, the others are untouched
      and no longer than that. */
  ghost predicate Ranked(m: Lists, m0: Lists, all: set<Address>, offenders: seq<Address>, spammers: set<Address>,
                         length: nat) {
    && Distinct(offenders) && AllLength(m, offenders, length)
    && (forall a :: a in all <==> a in spammers || a in offenders)
    && (forall a :: a in spammers ==> a !in offenders)
    && (forall a :: a in spammers ==> a in m && a in m0 && m[a] == m0[a])
    && (offenders != [] ==> forall a :: a in spammers && a in m ==> |m[a].txs| <= length)
    && |offenders| + |spammers| == |all|
  }

  lemma RankedStart(m: Lists, all: set<Address>, length: nat)
    requires all <= m.Keys
    ensures Ranked(m, m, all, [], all, length)
  {
  }

  /** The next offender is appended once the others are down to its length. */
  lemma RankedNext(m: Lists, m': Lists, m0: Lists, all: set<Address>, offenders: seq<Address>, spammers: set<Address>,
                   length: nat, a: Address)
    requires Ranked(m, m0, all, offenders, spammers, length) && a in spammers && Longest(m, spammers, a)
    requires m'.Keys == m.Keys && (forall b :: b in m && b !in offenders ==> m'[b] == m[b])
    requires AllLength(m', offenders, |m[a].txs|)
    ensures Ranked(m', m0, all, offenders + [a], spammers - {a}, |m[a].txs|)
  {
    var offenders' := offenders + [a];
    assert forall b :: b in offenders' <==> b in offenders || b == a;
    assert Distinct(offenders');
  }

  /** When all offenders are down to k, no account that may be cut is longer. */
  lemma TruncatedBound(m: Lists, m0: Lists, locals: set<Address>, k: nat, offenders: seq<Address>)
    requires Trims(m0, m, locals, k) && AllLength(m, offenders, k)
    requires forall a :: a in Spammers(m0, locals, k) ==> a in offenders
    ensures forall a :: a in m ==> a in locals || |m[a].txs| <= k
  {
    forall a | a in m && a !in locals ensures |m[a].txs| <= k {
      if a in Spammers(m0, locals, k) {
        var j :| 0 <= j < |offenders| && offenders[j] == a;
        assert HasLength(m, offenders[j], k);
      } else {
        assert ListTrim(m0[a], m[a], false, k);
      }
    }
  }

  lemma SpammersFew(m: Lists, locals: set<Address>, k: nat)
    ensures Spammers(m, locals, k) <= m.Keys && |Spammers(m, locals, k)| <= |m|
  {
    Subset(Spammers(m, locals, k), m.Keys);
  }

  lemma {:induction false} Subset(a: set<Address>, b: set<Address>)
    requires a <= b
    ensures |a| <= |b|
    decreases b
  {
    if x :| x in b {
      Subset(a - {x}, b - {x});
    }
  }

  /** What the ranking says about the accounts themselves. */
  lemma RankedFacts(m: Lists, m0: Lists, all: set<Address>, offenders: seq<Address>, spammers: set<Address>,
                    length: nat,
                    locals: set<Address>, k: nat)
    requires Ranked(m, m0, all, offenders, spammers, length) && all == Spammers(m0, locals, k)
    ensures Distinct(offenders) && AllLength(m, offenders, length) && |offenders| + |spammers| == |all|
    ensures forall j :: 0 <= j < |offenders| ==> HasLength(m, offenders[j], length) && offenders[j] !in locals
    ensures forall a :: a in spammers ==> a in m && a !in offenders && a !in locals && |m[a].txs| > k
    ensures offenders != [] ==> forall a :: a in spammers ==> a in m && |m[a].txs| <= length
    ensures spammers == {} ==> forall a :: a in all ==> a in offenders
  {
  }

  lemma SameLength(m: Lists, s: seq<Address>, t: seq<Address>, n: nat)
    requires s <= t && forall j :: 0 <= j < |s| ==> HasLength(m, t[j], n)
    ensures AllLength(m, s, n)
  {
  }

  lemma AppendDistinct(s: seq<Address>, a: Address)
    requires Distinct(s) && a !in s
    ensures Distinct(s + [a])
  {
  }

  // ---- Queued lists

  lemma QueuedIsPooled(pending: Lists, queue: Lists, all: set<Tx>, tx: Tx)
    requires Partition(pending, queue, all) && Holds(queue, tx)
    ensures tx in all && !Has(pending, tx.sender, tx.nonce)
    ensures forall pending', queue' :: RemovesTx(pending, queue, tx, pending', queue') ==>
              pending' == pending && queue' == Put(queue, tx.sender, queue[tx.sender].Remove(tx.nonce))
  {
  }

  lemma QueuedHolds(pending: Lists, queue: Lists, all: set<Tx>, a: Address, n: nat)
    requires Partition(pending, queue, all) && a in queue && n in queue[a].txs
    ensures Holds(queue, queue[a].txs[n]) && queue[a].txs[n].sender == a && queue[a].txs[n].nonce == n
    ensures !queue[a].strict
  {
    HasHolds(queue, false, a, n);
  }

  lemma RemoveFewer(l: TxList, n: nat)
    requires n in l.txs && !l.strict
    ensures |l.Remove(n).txs| == |l.txs| - 1
  {
    DropSmaller(l.txs, n);
    assert l.Remove(n).txs == l.txs - {n};
  }

  lemma PutWithout(m: Lists, a: Address, l: TxList)
    ensures Put(m, a, l) - {a} == m - {a}
  {
  }

  lemma CapAll(l: TxList)
    ensures l.Cap(|l.txs|) == l
  {
  }

  /** Removing the highest nonce of a list that is not strict is capping it by one. */
  lemma RemoveHighest(l: TxList)
    requires l.txs != map[] && !l.strict
    ensures |l.txs| >= 1 && l.Remove(Greatest(l.txs.Keys)) == l.Cap(|l.txs| - 1)
  {
    var g := Greatest(l.txs.Keys);
    DropSmaller(l.txs, g);
    assert l.Remove(g).txs == l.txs - {g};
    assert CapMap(l.txs, |l.txs| - 1) == l.txs - {g};
  }

  /** One more removal from a list that was cut to n > 1. */
  lemma CapStep(l: TxList, n: nat)
    requires 1 < n <= |l.txs| && !l.strict
    ensures var c := l.Cap(n);
            && |c.txs| == n && c.txs != map[] && !c.strict
            && c.LastElement() == c.txs[Greatest(c.txs.Keys)]
            && c.Remove(Greatest(c.txs.Keys)) == l.Cap(n - 1) && l.Cap(n - 1).txs != map[]
  {
    var c := l.Cap(n);
    CapMapTwice(l.txs, n, n - 1);
    RemoveHighest(c);
    assert |l.Cap(n - 1).txs| == n - 1;
  }

  lemma QueuedTop(pending: Lists, queue: Lists, all: set<Tx>, a: Address)
    requires Partition(pending, queue, all) && a in queue && queue[a].txs != map[]
    ensures var top := queue[a].LastElement();
            Holds(queue, top) && top.sender == a && top.nonce == Greatest(queue[a].txs.Keys)
  {
    HasHolds(queue, false, a, Greatest(queue[a].txs.Keys));
  }

  /** The heartbeat of an account, the zero time if there is none. */
  function Beat(beats: map<Address, int>, a: Address): int {
    if a in beats then beats[a] else 0
  }

  /** Only the heartbeat of a may have changed. */
  ghost predicate SameBeats(before: map<Address, int>, after: map<Address, int>, a: Address) {
    forall b :: b != a ==> Beat(after, b) == Beat(before, b)
  }

  lemma CapLength(l: TxList, k: nat)
    requires k <= |l.txs|
    ensures |l.Cap(k).txs| == k
  {
  }

  ghost predicate Newest(beats: map<Address, int>, s: set<Address>, a: Address) {
    forall b :: b in s ==> Beat(beats, b) <= Beat(beats, a)
  }

  lemma {:induction false} NewestOf(beats: map<Address, int>, s: set<Address>) returns (a: Address)
    requires s != {}
    ensures a in s && Newest(beats, s, a)
    decreases s
  {
    var x: Address :| x in s;
    a := x;
    var rest := s - {x};
    if rest != {} {
      var r := NewestOf(beats, rest);
      a := if Beat(beats, r) > Beat(beats, x) then r else x;
    }
    forall b | b in s ensures Beat(beats, b) <= Beat(beats, a) {
      assert b == x || b in rest;
    }
  }

  ghost predicate CutLists(q0: Lists, q: Lists) {
    && q.Keys <= q0.Keys
    && (forall a :: a in q ==> |q[a].txs| <= |q0[a].txs| && q[a] == q0[a].Cap(|q[a].txs|))
  }

  ghost predicate Untouched(q0: Lists, q: Lists, s: set<Address>) {
    forall a :: a in q0 && a in s ==> a in q && q[a] == q0[a]
  }

  /** The accounts of q0 that may be dropped and are not waiting any more. */
  predicate Dropped(q0: Lists, locals: set<Address>, waiting: set<Address>, a: Address) {
    a in q0 && a !in locals && a !in waiting
  }

  /** q is q0 after some accounts were dropped or cut from the top, the most recently active
      first: those of waiting are still to come. */
  ghost predicate QueueCut(q0: Lists, q: Lists, locals: set<Address>, beats: map<Address, int>, waiting: set<Address>) {
    && CutLists(q0, q) && Untouched(q0, q, locals) && Untouched(q0, q, waiting)
    && (forall a :: a in waiting ==> a in q0 && a !in locals)
    && (forall a, b :: Dropped(q0, locals, waiting, a) && b in waiting ==> Beat(beats, b) <= Beat(beats, a))
    && (forall a, b :: Dropped(q0, locals, waiting, a) && Dropped(q0, locals, waiting, b) && a in q ==>
          Beat(beats, a) <= Beat(beats, b))
  }

  /** Every account that may be dropped and is no longer waiting is gone. */
  ghost predicate Exhausted(q: Lists, locals: set<Address>, waiting: set<Address>) {
    forall a :: a in q ==> a in locals || a in waiting
  }

  lemma QueueCutStart(q: Lists, locals: set<Address>, beats: map<Address, int>)
    ensures QueueCut(q, q, locals, beats, set a | a in q && a !in locals)
    ensures Exhausted(q, locals, set a | a in q && a !in locals)
  {
    forall a | a in q ensures q[a] == q[a].Cap(|q[a].txs|) {
      CapAll(q[a]);
    }
  }

  lemma CutListsWhole(q0: Lists, q: Lists, s: set<Address>, t: set<Address>, a: Address)
    requires CutLists(q0, q) && Untouched(q0, q, s) && Untouched(q0, q, t) && a !in s
    ensures CutLists(q0, q - {a}) && Untouched(q0, q - {a}, s) && Untouched(q0, q - {a}, t - {a})
  {
    hide TxList.Cap;
  }

  /** The next account is dropped altogether. */
  lemma QueueCutWhole(q0: Lists, q: Lists, locals: set<Address>, beats: map<Address, int>, waiting: set<Address>,
                      a: Address)
    requires QueueCut(q0, q, locals, beats, waiting) && Exhausted(q, locals, waiting)
    requires a in waiting && Newest(beats, waiting, a)
    ensures QueueCut(q0, q - {a}, locals, beats, waiting - {a}) && Exhausted(q - {a}, locals, waiting - {a})
  {
    hide CutLists, Untouched, Beat;
    CutListsWhole(q0, q, locals, waiting, a);
  }

  lemma WaitingIntact(q0: Lists, q: Lists, locals: set<Address>, beats: map<Address, int>, waiting: set<Address>,
                      a: Address)
    requires QueueCut(q0, q, locals, beats, waiting) && a in waiting
    ensures a in q0 && a in q && q[a] == q0[a] && waiting <= q0.Keys
  {
  }

  lemma CutListsPart(q0: Lists, q: Lists, s: set<Address>, t: set<Address>, a: Address, k: nat)
    requires CutLists(q0, q) && Untouched(q0, q, s) && Untouched(q0, q, t) && a !in s
    requires a in q0 && k <= |q0[a].txs|
    ensures var q' := q[a := q0[a].Cap(k)];
            CutLists(q0, q') && Untouched(q0, q', s) && Untouched(q0, q', t - {a})
  {
    hide TxList.Cap;
    CapLength(q0[a], k);
  }

  /** The next account loses its highest nonces, down to k. */
  lemma QueueCutPart(q0: Lists, q: Lists, locals: set<Address>, beats: map<Address, int>, waiting: set<Address>,
                     a: Address, k: nat)
    requires QueueCut(q0, q, locals, beats, waiting) && Exhausted(q, locals, waiting)
    requires a in waiting && Newest(beats, waiting, a) && k <= |q0[a].txs|
    ensures QueueCut(q0, q[a := q0[a].Cap(k)], locals, beats, waiting - {a})
  {
    hide CutLists, Untouched, Beat, TxList.Cap;
    CutListsPart(q0, q, locals, waiting, a, k);
  }

  /** If an account lost anything, every account that was active more recently is gone. */
  lemma NewestGoFirst(q0: Lists, q: Lists, locals: set<Address>, beats: map<Address, int>, waiting: set<Address>)
    requires QueueCut(q0, q, locals, beats, waiting)
    ensures OldestKept(q0, q, locals, beats)
    ensures CutLists(q0, q) && Untouched(q0, q, locals)
  {
    hide TxList.Cap;
    forall a, b | a in q0 && b in q0 && a !in locals && b !in locals && Beat(beats, b) > Beat(beats, a)
      ensures (a in q && q[a] == q0[a]) || b !in q
    {
      if Dropped(q0, locals, waiting, a) {
        assert b in waiting || Dropped(q0, locals, waiting, b);
      }
    }
  }

  ghost predicate OldestKept(q0: Lists, q: Lists, locals: set<Address>, beats: map<Address, int>) {
    forall a, b :: (a in q0 && b in q0 && a !in locals && b !in locals && Beat(beats, b) > Beat(beats, a)) ==>
                     ((a in q && q[a] == q0[a]) || b !in q)
  }

  lemma PendingNonEmpty(pending: Lists, queue: Lists, all: set<Tx>)
    requires Partition(pending, queue, all)
    ensures NonEmpty(pending)
  {
  }

  lemma LastNonce(pending: Lists, queue: Lists, all: set<Tx>, a: Address)
    requires Partition(pending, queue, all) && a in pending
    ensures pending[a].txs != map[] && pending[a].LastElement().nonce == Greatest(pending[a].txs.Keys)
  {
    assert Greatest(pending[a].txs.Keys) in pending[a].txs;
  }
}
