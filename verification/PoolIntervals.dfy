/** Pending nonces as intervals between the state nonce and the virtual nonce. */
module PoolIntervals {
  import opened Wrappers
  import opened TxLists
  import opened TxNoncers
  import opened PoolViews
  import opened PoolPromotion
  import opened PoolDemotion
  import opened PoolTruncation

  /** The pending nonces of every account are exactly those from its state nonce up to its
      virtual nonce. */
  ghost predicate Executable(pending: Lists, state: State, nonces: map<Address, nat>) {
    && (forall a :: state.GetNonce(a) <= NonceIn(state, nonces, a))
    && (forall a, n: nat :: Has(pending, a, n) <==> state.GetNonce(a) <= n < NonceIn(state, nonces, a))
  }

  lemma RemoveKeepsExecutable(pending: Lists, queue: Lists, tx: Tx, pending': Lists, queue': Lists,
                              state: State, before: map<Address, nat>, after: map<Address, nat>)
    requires ListsOk(pending, true) && RemovesTx(pending, queue, tx, pending', queue')
    requires Executable(pending, state, before)
    requires if Has(pending, tx.sender, tx.nonce) then Lowered(state, before, after, tx.sender, tx.nonce)
             else after == before
    ensures Executable(pending', state, after)
  {
    if Has(pending, tx.sender, tx.nonce) {
      var a, l := tx.sender, pending[tx.sender];
      hide Joined, Gone, Executable;
      RemoveHas(pending, a, tx.nonce);
      LoweredExecutable(pending, pending', state, before, after, a, tx.nonce);
    }
  }

  lemma RemoveHas(m: Lists, a: Address, n: nat)
    requires ListsOk(m, true) && Has(m, a, n)
    ensures forall b, k: nat :: Has(Put(m, a, m[a].Remove(n)), b, k) <==> Has(m, b, k) && (b == a ==> k < n)
  {
    RemoveShrinks(m[a], a, n);
    PutHolds(m, a, m[a].Remove(n));
  }

  /** Cutting an account's nonces at n, and lowering its virtual nonce to n. */
  lemma LoweredExecutable(pending: Lists, pending': Lists, state: State, before: map<Address, nat>,
                          after: map<Address, nat>, a: Address, n: nat)
    requires Executable(pending, state, before) && Has(pending, a, n) && Lowered(state, before, after, a, n)
    requires forall b, k: nat :: Has(pending', b, k) <==> Has(pending, b, k) && (b == a ==> k < n)
    ensures Executable(pending', state, after)
  {
    hide Has;
  }

  /** The virtual nonces sink to what was pending and is removed: removing one more transaction. */
  lemma SankNext(state: State, n0: map<Address, nat>, n1: map<Address, nat>, n2: map<Address, nat>, m0: Lists,
                 m: Lists, done: set<Tx>, tx: Tx)
    requires Sifted(m0, m, done) && Sank(state, n0, n1, HeldOf(m0, done))
    requires if Holds(m, tx) then Lowered(state, n1, n2, tx.sender, tx.nonce) else n2 == n1
    ensures Sank(state, n0, n2, HeldOf(m0, done + {tx}))
  {
    hide Holds, Lowered, NonceIn;
    if Holds(m, tx) {
      hide Sank;
      LoweredSank(state, n1, n2, tx);
      SankTwice(state, n0, n1, n2, HeldOf(m0, done), {tx});
      assert HeldOf(m0, done + {tx}) == HeldOf(m0, done) + {tx};
    } else if !Holds(m0, tx) {
      assert HeldOf(m0, done + {tx}) == HeldOf(m0, done);
    } else {
      var d :| d in done && Holds(m0, d) && d.sender == tx.sender && d.nonce <= tx.nonce;
      assert d in HeldOf(m0, done);
      forall a ensures SankTo(NonceIn(state, n0, a), NonceIn(state, n2, a), HeldOf(m0, done + {tx}), a) {
        SankToMore(NonceIn(state, n0, a), NonceIn(state, n2, a), HeldOf(m0, done), a, d, tx);
      }
      assert HeldOf(m0, done + {tx}) == HeldOf(m0, done) + {tx};
    }
  }

  lemma SankToMore(n: nat, v: nat, gone: set<Tx>, a: Address, d: Tx, tx: Tx)
    requires SankTo(n, v, gone, a) && d in gone && d.sender == tx.sender && d.nonce <= tx.nonce
    ensures SankTo(n, v, gone + {tx}, a)
  {
    if v != n {
      var t :| t in gone && t.sender == a && t.nonce == v;
      assert t in gone + {tx};
    }
  }

  /** Only which nonces are pending matters. */
  lemma SameHasExecutable(pending: Lists, pending': Lists, state: State, nonces: map<Address, nat>)
    requires Executable(pending, state, nonces)
    requires forall a, n: nat :: Has(pending', a, n) <==> Has(pending, a, n)
    ensures Executable(pending', state, nonces)
  {
    hide Has;
  }

  /** The virtual nonces after the run was promoted. */
  ghost predicate Raised(state: State, before: map<Address, nat>, after: map<Address, nat>, a: Address, run: seq<Tx>) {
    forall b :: NonceIn(state, after, b) ==
                if b == a && run != [] then FirstNonce(run) + |run| else NonceIn(state, before, b)
  }

  lemma RaisedAt(state: State, before: map<Address, nat>, after: map<Address, nat>, a: Address, run: seq<Tx>)
    requires Raised(state, before, after, a, run)
    ensures NonceIn(state, after, a) == if run == [] then NonceIn(state, before, a) else FirstNonce(run) + |run|
  {
  }

  lemma RaisedBy(state: State, before: map<Address, nat>, read: map<Address, nat>, after: map<Address, nat>,
                 a: Address, run: seq<Tx>)
    requires forall b :: NonceIn(state, read, b) == NonceIn(state, before, b)
    requires after == if run == [] then read else read[a := FirstNonce(run) + |run|]
    ensures Raised(state, before, after, a, run)
  {
  }

  /** A promoted run starts at the virtual nonce: lower nonces are pending already. */
  lemma PromoteKeepsExecutable(pending: Lists, queue: Lists, all: set<Tx>, pending': Lists, state: State,
                               before: map<Address, nat>, after: map<Address, nat>, a: Address, run: seq<Tx>)
    requires Partition(pending, queue, all) && Executable(pending, state, before)
    requires ListsOk(pending', true) && Joined(pending', pending, FirstTxs(run, |run|))
    requires IsRun(run, a, FirstNonce(run))
    requires run != [] ==>
               Has(queue, a, FirstNonce(run)) && state.GetNonce(a) <= FirstNonce(run) <= NonceIn(state, before, a)
    requires Raised(state, before, after, a, run)
    ensures Executable(pending', state, after)
  {
    hide TxList.Valid, ListsOk, NonEmpty, Covers, Holds, Joined;
    if run == [] {
      RunPlaces(pending', pending, true, run, a, 0);
      SameHasExecutable(pending, pending', state, before);
    } else {
      var first := FirstNonce(run);
      RunPlaces(pending', pending, true, run, a, first);
      assert !Has(pending, a, first);
      assert first == NonceIn(state, before, a);
      hide Has;
    }
  }

  /** What is queued for a is above its virtual nonce. */
  ghost predicate DrainedIn(queue: Lists, state: State, nonces: map<Address, nat>, a: Address) {
    forall n: nat :: Has(queue, a, n) ==> n > NonceIn(state, nonces, a)
  }

  lemma OthersDrained(queue: Lists, a: Address, rest: TxList, state: State, before: map<Address, nat>,
                      after: map<Address, nat>, run: seq<Tx>, b: Address)
    requires DrainedIn(queue, state, before, b) && Raised(state, before, after, a, run) && b != a
    ensures DrainedIn(Put(queue, a, rest), state, after, b)
  {
    forall n: nat | Has(Put(queue, a, rest), b, n) ensures n > NonceIn(state, after, b) {
      assert Has(queue, b, n);
    }
  }

  // ---- Between a reset and the end of the run

  /** An account whose pending nonces start at its state nonce without a gap. Without pending
      transactions its virtual nonce is the state nonce. */
  ghost predicate AccountSettled(m: Lists, a: Address, s: nat, v: nat) {
    && (forall n: nat, k: nat :: Has(m, a, n) && s <= k <= n ==> Has(m, a, k))
    && (forall n: nat :: Has(m, a, n) ==> n >= s)
    && (a !in m ==> v == s)
  }

  ghost predicate Settled(m: Lists, state: State, nonces: map<Address, nat>) {
    forall a :: AccountSettled(m, a, state.GetNonce(a), NonceIn(state, nonces, a))
  }

  /** No account's pending transaction at the state nonce is over its balance or the gas limit. */
  ghost predicate FirstsPayable(m: Lists, state: State, maxGas: nat) {
    forall a :: Has(m, a, state.GetNonce(a)) ==> !Over(m[a].txs[state.GetNonce(a)], state.GetBalance(a), maxGas)
  }

  /** No pending transaction is over its account's balance or the gas limit. */
  ghost predicate Affordable(m: Lists, state: State, maxGas: nat) {
    forall t :: Holds(m, t) ==> !Over(t, state.GetBalance(t.sender), maxGas)
  }

  lemma WithinAffordable(m: Lists, m0: Lists, state: State, maxGas: nat)
    requires Within(m, m0) && Affordable(m0, state, maxGas)
    ensures Affordable(m, state, maxGas)
  {
    hide Holds, Over;
  }

  lemma AffordableFirsts(m: Lists, state: State, maxGas: nat)
    requires ListsOk(m, true) && Affordable(m, state, maxGas)
    ensures FirstsPayable(m, state, maxGas)
  {
    hide Over;
    forall a | Has(m, a, state.GetNonce(a)) ensures !Over(m[a].txs[state.GetNonce(a)], state.GetBalance(a), maxGas) {
      HasHolds(m, true, a, state.GetNonce(a));
    }
  }

  /** Every pending list starts at the state nonce and is payable. */
  ghost predicate AllPayable(m: Lists, state: State, maxGas: nat) {
    forall a :: a in m ==> Payable(m[a], state.GetNonce(a), state.GetBalance(a), maxGas)
  }

  lemma PayableAffordable(pending: Lists, queue: Lists, all: set<Tx>, state: State, maxGas: nat)
    requires Partition(pending, queue, all)
    requires AllPayable(pending, state, maxGas)
    ensures Affordable(pending, state, maxGas)
  {
    hide Over;
  }

  lemma TrimsWithin(m0: Lists, m: Lists, locals: set<Address>, k: nat)
    requires Trims(m0, m, locals, k)
    ensures Within(m, m0)
  {
    hide CapMap;
    forall t | Holds(m, t) ensures Holds(m0, t) {
      assert ListTrim(m0[t.sender], m[t.sender], t.sender in locals, k);
    }
  }

  lemma TrimsAllPayable(m0: Lists, m: Lists, locals: set<Address>, k: nat, state: State, maxGas: nat)
    requires Trims(m0, m, locals, k) && k >= 1
    requires AllPayable(m0, state, maxGas)
    ensures AllPayable(m, state, maxGas)
  {
    hide Payable, Trims;
    forall a | a in m ensures Payable(m[a], state.GetNonce(a), state.GetBalance(a), maxGas) {
      TrimsPayable(m0, m, locals, k, a, state.GetNonce(a), state.GetBalance(a), maxGas);
    }
  }

  /** Some account has nothing pending but a virtual nonce above its state nonce. */
  ghost predicate Orphan(m: Lists, state: State, nonces: map<Address, nat>) {
    exists a :: a !in m && NonceIn(state, nonces, a) > state.GetNonce(a)
  }

  /** An account whose first transaction is not payable loses its list but keeps its virtual nonce:
      from m0, promoted to m1 and demoted to m2. */
  lemma OrphanLeft(m0: Lists, m1: Lists, m2: Lists, state: State, nonces: map<Address, nat>, maxGas: nat)
    requires ListsOk(m0, true) && !FirstsPayable(m0, state, maxGas)
    requires Within(m0, m1) && Executable(m1, state, nonces) && Within(m2, m1) && ListsOk(m2, true)
    requires AllPayable(m2, state, maxGas)
    ensures Orphan(m2, state, nonces)
  {
    hide Over, TxList.Valid;
    var a :| Has(m0, a, state.GetNonce(a)) && Over(m0[a].txs[state.GetNonce(a)], state.GetBalance(a), maxGas);
    var s := state.GetNonce(a);
    HasHolds(m0, true, a, s);
    assert Holds(m1, m0[a].txs[s]) && Has(m1, a, s);
    if a in m2 {
      HasHolds(m2, true, a, s);
    }
    assert a !in m2;
  }

  lemma OrphanBreaks(m: Lists, m': Lists, state: State, nonces: map<Address, nat>, nonces': map<Address, nat>)
    requires Orphan(m, state, nonces) && m'.Keys == m.Keys
    requires forall a :: a !in m ==> NonceIn(state, nonces', a) == NonceIn(state, nonces, a)
    ensures !Executable(m', state, nonces')
  {
    hide NonceIn;
    var a :| a !in m && NonceIn(state, nonces, a) > state.GetNonce(a);
    assert !Has(m', a, state.GetNonce(a));
  }

  /** Placing an affordable transaction. */
  lemma PlacedAffordable(v: View, w: View, tx: Tx, local: bool, priceBump: nat, accepted: bool, replaced: bool,
                         state: State, maxGas: nat)
    requires Partition(v.pending, v.queue, v.all) && PlacedFrom(v, w, tx, local, priceBump, accepted, replaced)
    requires Affordable(v.pending, state, maxGas) && !Over(tx, state.GetBalance(tx.sender), maxGas)
    ensures Affordable(w.pending, state, maxGas)
  {
    hide Partition, PlacedFrom, Over;
    forall t | Holds(w.pending, t) ensures !Over(t, state.GetBalance(t.sender), maxGas) {
      PlacedWithin(v, w, tx, local, priceBump, accepted, replaced, t);
    }
  }

  /** A promoted run is affordable. */
  lemma PromoteAffordable(pending: Lists, queue: Lists, all: set<Tx>, pending': Lists, state: State, maxGas: nat,
                          a: Address, start: nat)
    requires Partition(pending, queue, all) && a in queue && Affordable(pending, state, maxGas)
    requires var run := ReadyOf(queue[a], state.GetNonce(a), state.GetBalance(a), maxGas, start);
             Joined(pending', pending, FirstTxs(run, |run|))
    ensures Affordable(pending', state, maxGas)
  {
    hide Over, ReadyOf, TxList.Valid, NonEmpty, NoClash, Covers;
    QueueList(pending, queue, all, a);
    ReadyMeaning(queue[a], a, state.GetNonce(a), state.GetBalance(a), maxGas, start);
    var run := ReadyOf(queue[a], state.GetNonce(a), state.GetBalance(a), maxGas, start);
    forall t | Holds(pending', t) ensures !Over(t, state.GetBalance(t.sender), maxGas) {
      if t in FirstTxs(run, |run|) {
        assert t in run && t.sender == a;
      }
    }
  }

  lemma ExecutableSettled(m: Lists, state: State, nonces: map<Address, nat>)
    requires Executable(m, state, nonces) && NonEmpty(m)
    ensures Settled(m, state, nonces)
  {
    forall a ensures AccountSettled(m, a, state.GetNonce(a), NonceIn(state, nonces, a)) {
      if a !in m {
        assert !Has(m, a, state.GetNonce(a));
      }
    }
  }

  /** What was in the lists stays as it was when other transactions join. */
  lemma JoinedKeeps(m': Lists, m: Lists, s: set<Tx>, strict: bool, b: Address)
    requires ListsOk(m, strict) && Joined(m', m, s)
    ensures forall n: nat :: Has(m, b, n) ==> Has(m', b, n) && m'[b].txs[n] == m[b].txs[n]
  {
    forall n: nat | Has(m, b, n) ensures Has(m', b, n) && m'[b].txs[n] == m[b].txs[n] {
      HasHolds(m, strict, b, n);
      assert Holds(m', m[b].txs[n]);
    }
  }

  /** What one round of promoteExecutables does to the virtual nonces. */
  lemma PromotedNonces(pending: Lists, queue: Lists, all: set<Tx>, pending': Lists, state: State, maxGas: nat,
                       before: map<Address, nat>, after: map<Address, nat>, a: Address, run: seq<Tx>, rest: TxList,
                       cap: Option<nat>)
    requires Partition(pending, queue, all) && a in queue
    requires ListsOk(pending', true) && Joined(pending', pending, FirstTxs(run, |run|))
    requires var start := NonceIn(state, before, a);
             var nonce, balance := state.GetNonce(a), state.GetBalance(a);
             && run == ReadyOf(queue[a], nonce, balance, maxGas, start)
             && rest == RestOf(queue[a], nonce, balance, maxGas, start, cap)
    requires Raised(state, before, after, a, run)
    ensures Executable(pending, state, before) ==> Executable(pending', state, after)
    ensures forall n :: n in rest.txs ==> n > NonceIn(state, after, a)
    ensures cap.Some? ==> |rest.txs| <= cap.value
  {
    hide *;
    QueueList(pending, queue, all, a);
    var start, nonce, balance := NonceIn(state, before, a), state.GetNonce(a), state.GetBalance(a);
    ReadyMeaning(queue[a], a, nonce, balance, maxGas, start);
    RestDrained(queue[a], a, nonce, balance, maxGas, start, cap);
    RaisedAt(state, before, after, a, run);
    if run != [] {
      HasAt(queue, a, FirstNonce(run));
    }
    if Executable(pending, state, before) {
      PromoteKeepsExecutable(pending, queue, all, pending', state, before, after, a, run);
    }
  }

  lemma SameAccountSettled(m: Lists, m': Lists, a: Address, s: nat, v: nat)
    requires a in m <==> a in m'
    requires a in m ==> m'[a].txs == m[a].txs
    ensures AccountSettled(m, a, s, v) ==> AccountSettled(m', a, s, v)
  {
    assert forall n: nat :: Has(m', a, n) <==> Has(m, a, n);
    hide Has;
  }

  lemma SettledList(m: Lists, a: Address, s: nat, v: nat)
    requires a in m
    ensures AccountSettled(m, a, s, v) <==> Consecutive(m[a], s)
  {
    assert forall n: nat :: Has(m, a, n) <==> n in m[a].txs;
  }

  /** Trimming pending lists from the top keeps every account settled. */
  lemma TrimsSettled(m0: Lists, m: Lists, locals: set<Address>, k: nat, state: State,
                     before: map<Address, nat>, after: map<Address, nat>)
    requires Trims(m0, m, locals, k) && Settled(m0, state, before)
    requires forall b :: b !in m0 ==> NonceIn(state, after, b) == NonceIn(state, before, b)
    ensures Settled(m, state, after)
  {
    hide AccountSettled, TxList.Cap, Consecutive;
    forall a ensures AccountSettled(m, a, state.GetNonce(a), NonceIn(state, after, a)) {
      var s, v, v' := state.GetNonce(a), NonceIn(state, before, a), NonceIn(state, after, a);
      assert AccountSettled(m0, a, s, v);
      if a in m {
        SettledList(m0, a, s, v);
        assert ListTrim(m0[a], m[a], a in locals, k);
        CapPrefix(m0[a], s, |m[a].txs|);
        SettledList(m, a, s, v');
      } else {
        SameAccountSettled(m0, m, a, s, v);
      }
    }
  }

  /** Setting the virtual nonce of every pending account to the one after its last transaction
      completes the intervals. */
  lemma SettledExecutable(m: Lists, state: State, before: map<Address, nat>, after: map<Address, nat>)
    requires Settled(m, state, before) && NonEmpty(m)
    requires forall a :: a in m ==> NonceIn(state, after, a) == Greatest(m[a].txs.Keys) + 1
    requires forall a :: a !in m ==> NonceIn(state, after, a) == NonceIn(state, before, a)
    ensures Executable(m, state, after)
  {
    hide AccountSettled, Has;
    forall a
      ensures state.GetNonce(a) <= NonceIn(state, after, a)
      ensures forall n: nat :: Has(m, a, n) <==> state.GetNonce(a) <= n < NonceIn(state, after, a)
    {
      assert AccountSettled(m, a, state.GetNonce(a), NonceIn(state, before, a));
      AccountCompleted(m, a, state.GetNonce(a), NonceIn(state, before, a), NonceIn(state, after, a));
    }
  }

  /** And only then: without settled accounts there are no intervals. */
  lemma CompletedSettled(m: Lists, state: State, before: map<Address, nat>, after: map<Address, nat>)
    requires Executable(m, state, after) && NonEmpty(m)
    requires forall a :: a !in m ==> NonceIn(state, after, a) == NonceIn(state, before, a)
    ensures Settled(m, state, before)
  {
    ExecutableSettled(m, state, after);
    hide Has, NonceIn, NonEmpty, Executable;
    forall a ensures AccountSettled(m, a, state.GetNonce(a), NonceIn(state, before, a)) {
      assert AccountSettled(m, a, state.GetNonce(a), NonceIn(state, after, a));
    }
  }

  lemma AccountCompleted(m: Lists, a: Address, s: nat, v: nat, v': nat)
    requires AccountSettled(m, a, s, v) && (a in m ==> m[a].txs != map[])
    requires v' == if a in m then Greatest(m[a].txs.Keys) + 1 else v
    ensures s <= v' && forall n: nat :: Has(m, a, n) <==> s <= n < v'
  {
    if a in m {
      SettledList(m, a, s, v);
      assert Greatest(m[a].txs.Keys) in m[a].txs;
    }
  }

  /** Trimming leaves the lowest nonces, so a list that starts at the state nonce still does. */
  lemma TrimsPayable(m0: Lists, m: Lists, locals: set<Address>, k: nat, a: Address, nonce: nat, balance: int,
                     maxGas: nat)
    requires Trims(m0, m, locals, k) && k >= 1 && (a in m0 ==> Payable(m0[a], nonce, balance, maxGas))
    ensures a in m ==> Payable(m[a], nonce, balance, maxGas)
  {
    if a in m {
      var l0, l := m0[a], m[a];
      assert ListTrim(l0, l, a in locals, k);
      hide CapMap, Over;
      assert l.txs != map[];
    }
  }
}
