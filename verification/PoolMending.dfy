/** When a reset leaves the pending nonces of every account an interval again. */
module PoolMendings {
  import opened TxLists
  import opened TxNoncers
  import opened PoolViews
  import opened PoolPromotion
  import opened PoolDemotion
  import opened PoolIntervals

  /** An account before promotion and demotion: its pending transactions, the count queued ones from
      nonce first on that will be promoted, its state nonce, virtual nonce and balance. */
  datatype Account = Account(txs: map<nat, Tx>, first: nat, count: nat, nonce: nat, virtual: nat,
                             balance: int, maxGas: nat) {

    predicate Listed(n: nat) {
      n in txs || first <= n < first + count
    }

    predicate Fits(n: nat) {
      n in txs ==> !Over(txs[n], balance, maxGas)
    }

    /** Nonce n is still pending in the end: the list starts at the state nonce and no pending
        transaction from there to n is too costly. */
    ghost predicate Stays(n: nat) {
      nonce <= n && Listed(nonce) && Listed(n) && forall k: nat :: nonce <= k <= n ==> Fits(k)
    }

    /** Below a nonce that stays no nonce is missing. If none stays, none is promoted and the virtual
        nonce is the state nonce. */
    ghost predicate Mends() {
      && (forall n: nat, k: nat :: Stays(n) && nonce <= k <= n ==> Listed(k))
      && (Stays(nonce) || (count == 0 && virtual == nonce))
    }
  }

  function TxsOf(m: Lists, a: Address): map<nat, Tx> {
    if a in m then m[a].txs else map[]
  }

  lemma TxsHas(m: Lists, a: Address)
    ensures forall n: nat :: n in TxsOf(m, a) <==> Has(m, a, n)
    ensures forall n: nat :: Has(m, a, n) ==> TxsOf(m, a)[n] == m[a].txs[n]
  {
  }

  /** An account with nothing to promote. */
  function Idle(m: Lists, state: State, nonces: map<Address, nat>, maxGas: nat, a: Address): Account {
    Account(TxsOf(m, a), 0, 0, state.GetNonce(a), NonceIn(state, nonces, a), state.GetBalance(a), maxGas)
  }

  function AccountOf(pending: Lists, queue: Lists, state: State, nonces: map<Address, nat>, maxGas: nat,
                     a: Address): Account {
    var s, v, balance := state.GetNonce(a), NonceIn(state, nonces, a), state.GetBalance(a);
    var run := if a in queue then ReadyOf(queue[a], s, balance, maxGas, v) else [];
    Account(TxsOf(pending, a), FirstNonce(run), |run|, s, v, balance, maxGas)
  }

  ghost predicate AllMend(pending: Lists, queue: Lists, state: State, nonces: map<Address, nat>, maxGas: nat) {
    forall a :: AccountOf(pending, queue, state, nonces, maxGas, a).Mends()
  }

  lemma SameAnswersMend(pending: Lists, queue: Lists, state: State, n1: map<Address, nat>, n2: map<Address, nat>,
                        maxGas: nat)
    requires forall a :: NonceIn(state, n1, a) == NonceIn(state, n2, a)
    ensures AllMend(pending, queue, state, n1, maxGas) ==> AllMend(pending, queue, state, n2, maxGas)
  {
    hide Account.Mends, ReadyOf;
    forall a
      ensures AccountOf(pending, queue, state, n2, maxGas, a) == AccountOf(pending, queue, state, n1, maxGas, a)
    {
    }
    hide AccountOf;
  }

  // ---- Promotion and demotion carry it out

  lemma PromotedMends(c: Account, c': Account)
    requires c.count > 0 ==> c.nonce <= c.first
    requires c'.count == 0 && c'.virtual == if c.count == 0 then c.virtual else c.first + c.count
    requires c'.nonce == c.nonce && c'.balance == c.balance && c'.maxGas == c.maxGas
    requires forall n: nat :: n in c'.txs <==> c.Listed(n)
    requires forall n: nat :: n in c'.txs ==> (c'.Fits(n) <==> c.Fits(n))
    ensures c'.Mends() <==> c.Mends()
  {
    assert forall n: nat :: c'.Listed(n) <==> c.Listed(n);
    assert forall n: nat :: c'.Fits(n) <==> c.Fits(n);
    hide Account.Listed, Account.Fits;
    assert forall n: nat :: c'.Stays(n) <==> c.Stays(n);
    hide Account.Stays;
  }

  /** One round of promoteExecutables changes no account's prospects. */
  lemma PromoteMends(pending: Lists, queue: Lists, all: set<Tx>, pending': Lists, queue': Lists, state: State,
                     maxGas: nat, before: map<Address, nat>, after: map<Address, nat>, a: Address, run: seq<Tx>,
                     rest: TxList, b: Address)
    requires Partition(pending, queue, all) && a in queue
    requires ListsOk(pending', true) && Joined(pending', pending, FirstTxs(run, |run|))
    requires queue' == Put(queue, a, rest) && rest.Valid(a) && !rest.strict
    requires run == ReadyOf(queue[a], state.GetNonce(a), state.GetBalance(a), maxGas, NonceIn(state, before, a))
    requires Raised(state, before, after, a, run)
    requires forall n :: n in rest.txs ==> n > NonceIn(state, after, a)
    ensures AccountOf(pending', queue', state, after, maxGas, b).Mends() <==>
            AccountOf(pending, queue, state, before, maxGas, b).Mends()
  {
    hide Account.Mends, ReadyOf, TxList.Valid, Over, NonEmpty, Covers, Joined, Current;
    var s, v, balance := state.GetNonce(a), NonceIn(state, before, a), state.GetBalance(a);
    QueueList(pending, queue, all, a);
    ReadyMeaning(queue[a], a, s, balance, maxGas, v);
    RunPlaces(pending', pending, true, run, a, FirstNonce(run));
    JoinedKeeps(pending', pending, FirstTxs(run, |run|), true, b);
    TxsHas(pending, b);
    TxsHas(pending', b);
    if b == a {
      RestIdle(rest, a, s, balance, maxGas, NonceIn(state, after, a));
      RunFits(pending', pending, run, a, balance, maxGas);
      hide Has;
      PromotedMends(AccountOf(pending, queue, state, before, maxGas, a),
                    AccountOf(pending', queue', state, after, maxGas, a));
    } else {
      assert TxsOf(pending', b) == TxsOf(pending, b);
    }
  }

  lemma PromoteMendsEach(pending: Lists, queue: Lists, all: set<Tx>, pending': Lists, state: State, maxGas: nat,
                         before: map<Address, nat>, after: map<Address, nat>, a: Address, run: seq<Tx>, rest: TxList)
    requires Partition(pending, queue, all) && a in queue
    requires ListsOk(pending', true) && Joined(pending', pending, FirstTxs(run, |run|))
    requires rest.Valid(a) && Shrinks(queue[a], rest)
    requires run == ReadyOf(queue[a], state.GetNonce(a), state.GetBalance(a), maxGas, NonceIn(state, before, a))
    requires Raised(state, before, after, a, run)
    requires forall n :: n in rest.txs ==> n > NonceIn(state, after, a)
    ensures AllMend(pending', Put(queue, a, rest), state, after, maxGas) <==>
            AllMend(pending, queue, state, before, maxGas)
  {
    QueueList(pending, queue, all, a);
    assert !rest.strict;
    hide *;
    var queue' := Put(queue, a, rest);
    if AllMend(pending, queue, state, before, maxGas) {
      forall b ensures AccountOf(pending', queue', state, after, maxGas, b).Mends() {
        MendsAt(pending, queue, state, before, maxGas, b);
        PromoteMends(pending, queue, all, pending', queue', state, maxGas, before, after, a, run, rest, b);
      }
      EachMends(pending', queue', state, after, maxGas);
    }
    if AllMend(pending', queue', state, after, maxGas) {
      forall b ensures AccountOf(pending, queue, state, before, maxGas, b).Mends() {
        MendsAt(pending', queue', state, after, maxGas, b);
        PromoteMends(pending, queue, all, pending', queue', state, maxGas, before, after, a, run, rest, b);
      }
      EachMends(pending, queue, state, before, maxGas);
    }
  }

  lemma MendsAt(pending: Lists, queue: Lists, state: State, nonces: map<Address, nat>, maxGas: nat, a: Address)
    requires AllMend(pending, queue, state, nonces, maxGas)
    ensures AccountOf(pending, queue, state, nonces, maxGas, a).Mends()
  {
  }

  lemma EachMends(pending: Lists, queue: Lists, state: State, nonces: map<Address, nat>, maxGas: nat)
    requires forall a :: AccountOf(pending, queue, state, nonces, maxGas, a).Mends()
    ensures AllMend(pending, queue, state, nonces, maxGas)
  {
  }

  lemma RestIdle(rest: TxList, a: Address, s: nat, balance: int, maxGas: nat, v: nat)
    requires rest.Valid(a) && !rest.strict && forall n :: n in rest.txs ==> n > v
    ensures ReadyOf(rest, s, balance, maxGas, v) == []
  {
    hide ReadyOf, TxList.Valid, Over;
    ReadyMeaning(rest, a, s, balance, maxGas, v);
  }

  lemma RunFits(m': Lists, m: Lists, run: seq<Tx>, a: Address, balance: int, maxGas: nat)
    requires ListsOk(m', true) && Joined(m', m, FirstTxs(run, |run|)) && IsRun(run, a, FirstNonce(run))
    requires forall t :: t in run ==> !Over(t, balance, maxGas)
    ensures forall n: nat :: Has(m', a, n) && !Has(m, a, n) ==> !Over(m'[a].txs[n], balance, maxGas)
  {
    hide Over, TxList.Valid;
    forall n: nat | Has(m', a, n) && !Has(m, a, n) ensures !Over(m'[a].txs[n], balance, maxGas) {
      HasHolds(m', true, a, n);
      assert m'[a].txs[n] in FirstTxs(run, |run|);
    }
  }

  /** When nothing executable is queued, only the pending lists count. */
  lemma DrainedIdle(pending: Lists, queue: Lists, state: State, nonces: map<Address, nat>, maxGas: nat, a: Address)
    requires ListsOk(queue, false)
    requires forall n: nat :: Has(queue, a, n) ==> n > NonceIn(state, nonces, a)
    ensures AccountOf(pending, queue, state, nonces, maxGas, a) == Idle(pending, state, nonces, maxGas, a)
  {
    hide ReadyOf, TxList.Valid;
    if a in queue {
      assert forall n :: n in queue[a].txs ==> Has(queue, a, n);
      RestIdle(queue[a], a, state.GetNonce(a), state.GetBalance(a), maxGas, NonceIn(state, nonces, a));
    }
  }

  /** Demotion settles exactly the accounts that mend. */
  lemma DemoteMends(m: Lists, a: Address, state: State, nonces: map<Address, nat>, maxGas: nat)
    requires a in m && m[a].Valid(a) && m[a].strict
    ensures var s, v := state.GetNonce(a), NonceIn(state, nonces, a);
            AccountSettled(Put(m, a, StaysPending(m[a], s, state.GetBalance(a), maxGas)), a, s, v) <==>
            Idle(m, state, nonces, maxGas, a).Mends()
  {
    hide TxList.Valid, StaysPending, Over;
    var s, v, balance := state.GetNonce(a), NonceIn(state, nonces, a), state.GetBalance(a);
    var c, l' := Idle(m, state, nonces, maxGas, a), StaysPending(m[a], s, balance, maxGas);
    StaysMeaning(m[a], a, s, balance, maxGas);
    forall n: nat ensures Has(Put(m, a, l'), a, n) <==> c.Stays(n) {
      PutAt(m, a, l', n);
      assert forall k: nat :: s <= k <= n ==> (c.Fits(k) <==> (k in m[a].txs ==> !Over(m[a].txs[k], balance, maxGas)));
    }
    SettledStays(Put(m, a, l'), a, c);
  }

  lemma SettledStays(m: Lists, a: Address, c: Account)
    requires (a in m ==> m[a].txs != map[]) && c.count == 0
    requires forall n: nat :: Has(m, a, n) <==> c.Stays(n)
    ensures AccountSettled(m, a, c.nonce, c.virtual) <==> c.Mends()
  {
    hide Account.Fits;
    forall n: nat | c.Stays(n) ensures c.Stays(c.nonce) {
    }
    forall n: nat, k: nat | c.Stays(n) && c.nonce <= k <= n ensures c.Stays(k) <==> c.Listed(k) {
    }
    hide Account.Stays, Account.Listed;
    if a in m {
      var n :| n in m[a].txs;
      assert Has(m, a, n) && c.Stays(n);
    } else {
      assert !Has(m, a, c.nonce);
    }
  }

  lemma AbsentMends(m: Lists, a: Address, state: State, nonces: map<Address, nat>, maxGas: nat)
    requires a !in m
    ensures AccountSettled(m, a, state.GetNonce(a), NonceIn(state, nonces, a)) <==>
            Idle(m, state, nonces, maxGas, a).Mends()
  {
  }

  /** Part of the way through demoteUnexecutables from m0, with the accounts of todo ahead: each
      account is settled or mends as it did at the start. */
  ghost predicate HalfMended(m0: Lists, m: Lists, state: State, nonces: map<Address, nat>, maxGas: nat,
                             todo: set<Address>) {
    forall a :: Idle(m0, state, nonces, maxGas, a).Mends() <==>
                if a in todo then Idle(m, state, nonces, maxGas, a).Mends()
                else AccountSettled(m, a, state.GetNonce(a), NonceIn(state, nonces, a))
  }

  lemma StartHalfMended(m: Lists, state: State, nonces: map<Address, nat>, maxGas: nat)
    ensures HalfMended(m, m, state, nonces, maxGas, m.Keys)
  {
    hide Account.Mends, AccountSettled;
    forall a | a !in m
      ensures Idle(m, state, nonces, maxGas, a).Mends() <==>
              AccountSettled(m, a, state.GetNonce(a), NonceIn(state, nonces, a))
    {
      AbsentMends(m, a, state, nonces, maxGas);
    }
  }

  lemma StepHalfMended(m0: Lists, m: Lists, state: State, nonces: map<Address, nat>, maxGas: nat, todo: set<Address>,
                       a: Address, m': Lists)
    requires HalfMended(m0, m, state, nonces, maxGas, todo) && a in todo && a in m && m[a].Valid(a) && m[a].strict
    requires m' == Put(m, a, StaysPending(m[a], state.GetNonce(a), state.GetBalance(a), maxGas))
    ensures HalfMended(m0, m', state, nonces, maxGas, todo - {a})
  {
    hide Account.Mends, AccountSettled, StaysPending, TxList.Valid;
    DemoteMends(m, a, state, nonces, maxGas);
    forall b ensures Idle(m0, state, nonces, maxGas, b).Mends() <==>
                     if b in todo - {a} then Idle(m', state, nonces, maxGas, b).Mends()
                     else AccountSettled(m', b, state.GetNonce(b), NonceIn(state, nonces, b))
    {
      if b != a {
        assert TxsOf(m', b) == TxsOf(m, b);
        SameAccountSettled(m, m', b, state.GetNonce(b), NonceIn(state, nonces, b));
        SameAccountSettled(m', m, b, state.GetNonce(b), NonceIn(state, nonces, b));
      }
    }
  }

  lemma EndHalfMended(m0: Lists, m: Lists, state: State, nonces: map<Address, nat>, maxGas: nat)
    requires HalfMended(m0, m, state, nonces, maxGas, {})
    ensures Settled(m, state, nonces) <==> forall a :: Idle(m0, state, nonces, maxGas, a).Mends()
  {
    hide Account.Mends, AccountSettled;
  }

  // ---- When every account mends

  /** A queued nonce that will be promoted is not pending. */
  lemma RunClear(pending: Lists, queue: Lists, all: set<Tx>, state: State, nonces: map<Address, nat>, maxGas: nat,
                 a: Address)
    requires Partition(pending, queue, all)
    ensures var c := AccountOf(pending, queue, state, nonces, maxGas, a);
            c.count > 0 ==> c.nonce <= c.first <= c.virtual && !Has(pending, a, c.first)
  {
    hide ReadyOf, TxList.Valid, Current, Over, Covers, NonEmpty;
    if a in queue {
      QueueList(pending, queue, all, a);
      ReadyMeaning(queue[a], a, state.GetNonce(a), state.GetBalance(a), maxGas, NonceIn(state, nonces, a));
      assert forall n :: n in queue[a].txs ==> Has(queue, a, n);
    }
  }

  /** A head that only moves forward: with fresh virtual nonces every account mends. */
  lemma ForwardMends(m: Lists, queue: Lists, all: set<Tx>, state: State, nonces: map<Address, nat>, state': State,
                     maxGas: nat)
    requires Partition(m, queue, all) && Executable(m, state, nonces)
    requires forall a :: state.GetNonce(a) <= state'.GetNonce(a)
    ensures AllMend(m, queue, state', map[], maxGas)
  {
    hide Partition;
    forall a ensures AccountOf(m, queue, state', map[], maxGas, a).Mends() {
      RunClear(m, queue, all, state', map[], maxGas, a);
      var c := AccountOf(m, queue, state', map[], maxGas, a);
      assert forall n: nat :: n in c.txs <==> state.GetNonce(a) <= n < NonceIn(state, nonces, a) by {
        assert forall n: nat :: n in c.txs <==> Has(m, a, n);
      }
      hide AccountOf, Executable;
    }
  }

  /** A head whose state cannot be read: every account mends exactly if the first pending
      transaction of each is payable. */
  lemma FailedLoadMends(m: Lists, queue: Lists, all: set<Tx>, state: State, nonces: map<Address, nat>, maxGas: nat)
    requires Partition(m, queue, all) && Executable(m, state, nonces)
    ensures AllMend(m, queue, state, nonces, maxGas) <==> FirstsPayable(m, state, maxGas)
  {
    hide Partition;
    forall a ensures AccountOf(m, queue, state, nonces, maxGas, a).Mends() <==>
                     (Has(m, a, state.GetNonce(a)) ==>
                        !Over(m[a].txs[state.GetNonce(a)], state.GetBalance(a), maxGas))
    {
      RunClear(m, queue, all, state, nonces, maxGas, a);
      var c := AccountOf(m, queue, state, nonces, maxGas, a);
      assert forall n: nat :: n in c.txs <==> c.nonce <= n < c.virtual by {
        assert forall n: nat :: n in c.txs <==> Has(m, a, n);
      }
      assert c.nonce in c.txs ==> c.txs[c.nonce] == m[a].txs[c.nonce];
      hide AccountOf, Executable;
      assert c.count > 0 ==> c.first == c.virtual;
      assert c.Stays(c.nonce) <==> c.Listed(c.nonce) && c.Fits(c.nonce);
    }
    hide Account.Mends, AccountOf;
  }
}
