/** What the maps of per-account lists hold, and the invariants that tie the pool's redundant
    views together. */
module PoolViews {
  import opened Wrappers
  import opened TxLists

  type Lists = map<Address, TxList>

  predicate Has(m: Lists, a: Address, n: nat) {
    a in m && n in m[a].txs
  }

  predicate Holds(m: Lists, t: Tx) {
    Has(m, t.sender, t.nonce) && m[t.sender].txs[t.nonce] == t
  }

  /** Writing a list back; an empty one is deleted. */
  function Put(m: Lists, a: Address, l: TxList): Lists {
    if l.txs == map[] then m - {a} else m[a := l]
  }

  ghost predicate ListsOk(m: Lists, strict: bool) {
    forall a :: a in m ==> m[a].strict == strict && m[a].Valid(a)
  }

  ghost predicate NonEmpty(m: Lists) {
    forall a :: a in m ==> m[a].txs != map[]
  }

  /** No nonce of an account is both pending and queued. */
  ghost predicate NoClash(pending: Lists, queue: Lists) {
    forall a, n :: Has(pending, a, n) ==> !Has(queue, a, n)
  }

  /** The pooled transactions are those in the lists. */
  ghost predicate Covers(pending: Lists, queue: Lists, all: set<Tx>) {
    forall t :: t in all <==> Holds(pending, t) || Holds(queue, t)
  }

  /** Every pooled transaction is at its own nonce in exactly one of its sender's lists, and
      nothing else is in the lists. */
  ghost predicate Partition(pending: Lists, queue: Lists, all: set<Tx>) {
    && ListsOk(pending, true) && ListsOk(queue, false)
    && NonEmpty(pending) && NonEmpty(queue)
    && NoClash(pending, queue) && Covers(pending, queue, all)
  }

  /** q' holds what q holds and the transactions of s. */
  ghost predicate Joined(q': Lists, q: Lists, s: set<Tx>) {
    forall t :: Holds(q', t) <==> Holds(q, t) || t in s
  }

  /** The transactions a list gives up when it becomes l'. */
  function Gone(l: TxList, l': TxList): (s: set<Tx>) {
    set n | n in l.txs && n !in l'.txs :: l.txs[n]
  }

  lemma GoneMeaning(l: TxList, l': TxList, a: Address, t: Tx)
    requires l.Valid(a)
    ensures t in Gone(l, l') <==>
            t.sender == a && t.nonce in l.txs && l.txs[t.nonce] == t && t.nonce !in l'.txs
  {
  }

  /** l' is l with some transactions taken out. */
  ghost predicate Shrinks(l: TxList, l': TxList) {
    && l'.strict == l.strict && l'.txs.Keys <= l.txs.Keys
    && forall n :: n in l'.txs ==> l'.txs[n] == l.txs[n]
  }

  lemma PutAt(m: Lists, a: Address, l: TxList, n: nat)
    ensures Has(Put(m, a, l), a, n) <==> n in l.txs
    ensures a in Put(m, a, l) ==> Put(m, a, l)[a] == l
  {
  }

  lemma PutHas(m: Lists, a: Address, l: TxList)
    ensures forall n: nat :: Has(Put(m, a, l), a, n) <==> n in l.txs
    ensures a in Put(m, a, l) ==> Put(m, a, l)[a] == l
  {
  }

  lemma HasAt(m: Lists, a: Address, n: nat)
    requires a in m && n in m[a].txs
    ensures Has(m, a, n)
  {
  }

  /** Shrinking one list takes exactly what it gives up out of the map. */
  lemma PutHolds(m: Lists, a: Address, l': TxList)
    requires a in m && m[a].Valid(a) && Shrinks(m[a], l')
    ensures forall t :: Holds(Put(m, a, l'), t) <==> Holds(m, t) && t !in Gone(m[a], l')
    ensures forall b, n :: Has(Put(m, a, l'), b, n) <==> Has(m, b, n) && (b == a ==> n in l'.txs)
  {
    forall t ensures Holds(Put(m, a, l'), t) <==> Holds(m, t) && t !in Gone(m[a], l') {
      GoneMeaning(m[a], l', a, t);
    }
  }

  lemma HasHolds(m: Lists, strict: bool, a: Address, n: nat)
    requires ListsOk(m, strict) && Has(m, a, n)
    ensures m[a].txs[n].sender == a && m[a].txs[n].nonce == n && Holds(m, m[a].txs[n])
  {
  }

  /** Taking transactions out of a pending list: those of back go to the queue, the others
      leave the pool. */
  lemma PendingShrinks(pending: Lists, queue: Lists, all: set<Tx>, a: Address, l': TxList,
                       queue': Lists, back: set<Tx>)
    requires Partition(pending, queue, all) && a in pending
    requires Shrinks(pending[a], l') && l'.Valid(a)
    requires back <= Gone(pending[a], l') && Joined(queue', queue, back)
    requires ListsOk(queue', false) && NonEmpty(queue')
    ensures Partition(Put(pending, a, l'), queue', all - (Gone(pending[a], l') - back))
  {
    hide TxList.Valid;
    var pending', gone := Put(pending, a, l'), Gone(pending[a], l');
    PutHolds(pending, a, l');
    forall t ensures t in all - (gone - back) <==> Holds(pending', t) || Holds(queue', t) {
      GoneMeaning(pending[a], l', a, t);
      if t in gone {
        assert Has(pending, t.sender, t.nonce);
      }
    }
    forall b, n | Has(pending', b, n) ensures !Has(queue', b, n) {
      if Has(queue', b, n) {
        HasHolds(queue', false, b, n);
        GoneMeaning(pending[a], l', a, queue'[b].txs[n]);
      }
    }
  }

  /** Taking transactions out of a queued list: those of on become pending, the others leave
      the pool. */
  lemma QueueShrinks(pending: Lists, queue: Lists, all: set<Tx>, a: Address, l': TxList,
                     pending': Lists, on: set<Tx>)
    requires Partition(pending, queue, all) && a in queue
    requires Shrinks(queue[a], l') && l'.Valid(a)
    requires on <= Gone(queue[a], l') && Joined(pending', pending, on)
    requires ListsOk(pending', true) && NonEmpty(pending')
    ensures Partition(pending', Put(queue, a, l'), all - (Gone(queue[a], l') - on))
  {
    hide TxList.Valid;
    var queue', gone := Put(queue, a, l'), Gone(queue[a], l');
    PutHolds(queue, a, l');
    forall t ensures t in all - (gone - on) <==> Holds(pending', t) || Holds(queue', t) {
      GoneMeaning(queue[a], l', a, t);
      if t in gone {
        assert Has(queue, t.sender, t.nonce);
      }
    }
    forall b, n | Has(pending', b, n) ensures !Has(queue', b, n) {
      HasHolds(pending', true, b, n);
      GoneMeaning(queue[a], l', a, pending'[b].txs[n]);
    }
  }

  function ListOf(m: Lists, a: Address, strict: bool): TxList {
    if a in m then m[a] else NewList(strict)
  }

  /** The transaction at the sender and nonce of tx, if any. */
  function Occupant(m: Lists, tx: Tx): set<Tx> {
    if Has(m, tx.sender, tx.nonce) then {m[tx.sender].txs[tx.nonce]} else {}
  }

  predicate Admits(m: Lists, tx: Tx, priceBump: nat) {
    forall o :: o in Occupant(m, tx) ==> Replaces(tx, o, priceBump)
  }

  function Inserted(m: Lists, tx: Tx, strict: bool, priceBump: nat): Lists {
    m[tx.sender := ListOf(m, tx.sender, strict).Add(tx, priceBump).list]
  }

  /** The lists after add placed tx, or found no place for it: a pending occupant is replaced
      first, otherwise tx is queued. */
  ghost predicate Placed(pending: Lists, queue: Lists, tx: Tx, priceBump: nat, accepted: bool,
                         pending': Lists, queue': Lists) {
    var hit := Has(pending, tx.sender, tx.nonce);
    && (accepted <==> Admits(if hit then pending else queue, tx, priceBump))
    && pending' == (if accepted && hit then Inserted(pending, tx, true, priceBump) else pending)
    && queue' == (if accepted && !hit then Inserted(queue, tx, false, priceBump) else queue)
  }

  function AsSet(o: Option<Tx>): set<Tx> {
    if o.Some? then {o.value} else {}
  }

  /** What txList.Add reports, in terms of the map. */
  lemma AddReports(m: Lists, tx: Tx, strict: bool, priceBump: nat)
    ensures var r := ListOf(m, tx.sender, strict).Add(tx, priceBump);
            && (r.inserted <==> Admits(m, tx, priceBump))
            && (r.inserted ==> AsSet(r.replaced) == Occupant(m, tx))
            && (r.inserted ==> m[tx.sender := r.list] == Inserted(m, tx, strict, priceBump))
            && (r.inserted ==> (r.replaced.Some? <==> Has(m, tx.sender, tx.nonce)))
  {
    assert Has(m, tx.sender, tx.nonce) ==> m[tx.sender].txs[tx.nonce] in Occupant(m, tx);
  }

  /** An admitted transaction takes the place of the occupant and changes nothing else. */
  lemma InsertedHolds(m: Lists, tx: Tx, strict: bool, priceBump: nat)
    requires ListsOk(m, strict) && NonEmpty(m) && Admits(m, tx, priceBump)
    ensures var m' := Inserted(m, tx, strict, priceBump);
            && ListsOk(m', strict) && NonEmpty(m')
            && (forall t :: Holds(m', t) <==> t == tx || (Holds(m, t) && t !in Occupant(m, tx)))
            && (forall a, n :: Has(m', a, n) <==> Has(m, a, n) || (a == tx.sender && n == tx.nonce))
  {
    AddReports(m, tx, strict, priceBump);
    var l := ListOf(m, tx.sender, strict);
    var r := l.Add(tx, priceBump);
    assert tx.nonce in r.list.txs && r.list.txs == l.txs[tx.nonce := tx];
    assert r.list.Valid(tx.sender) && r.list.strict == strict;
    hide TxList.Valid, TxList.Add, Replaces, Admits;
  }

  /** No two transactions have the same sender and nonce. */
  ghost predicate DistinctPlaces(txs: set<Tx>) {
    forall t, u :: t in txs && u in txs && t.sender == u.sender && t.nonce == u.nonce ==> t == u
  }

  ghost predicate PlacesFree(m: Lists, txs: set<Tx>) {
    forall t :: t in txs ==> !Has(m, t.sender, t.nonce)
  }

  /** One round of a loop that inserts txs into free places. */
  lemma InsertRound(m: Lists, start: Lists, txs: set<Tx>, todo: set<Tx>, tx: Tx, strict: bool, priceBump: nat)
    requires ListsOk(m, strict) && NonEmpty(m) && todo <= txs && tx in todo
    requires Joined(m, start, txs - todo) && PlacesFree(m, todo) && DistinctPlaces(todo)
    ensures Occupant(m, tx) == {} && Admits(m, tx, priceBump)
    ensures var m' := Inserted(m, tx, strict, priceBump);
            && ListsOk(m', strict) && NonEmpty(m')
            && Joined(m', start, txs - (todo - {tx})) && PlacesFree(m', todo - {tx})
  {
    hide TxList.Valid, TxList.Add, ListsOk, NonEmpty, Inserted;
    assert !Has(m, tx.sender, tx.nonce);
    InsertedHolds(m, tx, strict, priceBump);
  }

  lemma NothingJoined(m: Lists, txs: set<Tx>)
    ensures Joined(m, m, txs - txs)
  {
  }

  lemma FewerPlaces(txs: set<Tx>, tx: Tx)
    requires DistinctPlaces(txs)
    ensures DistinctPlaces(txs - {tx})
  {
  }

  lemma SubPlaces(m: Lists, txs: set<Tx>, out: set<Tx>)
    requires DistinctPlaces(txs) && PlacesFree(m, txs)
    ensures DistinctPlaces(txs - out) && PlacesFree(m, txs - out)
  {
  }

  lemma GonePlaces(l: TxList, l': TxList, a: Address)
    requires l.Valid(a)
    ensures DistinctPlaces(Gone(l, l'))
    ensures forall t :: t in Gone(l, l') ==> t.sender == a && t.nonce in l.txs && t.nonce !in l'.txs
  {
  }

  /** The lists after removeTx: a pending transaction takes those above it back to the queue,
      a queued one goes alone. */
  ghost predicate RemovesTx(pending: Lists, queue: Lists, tx: Tx, pending': Lists, queue': Lists) {
    var a, n := tx.sender, tx.nonce;
    if Has(pending, a, n) then
      var l' := pending[a].Remove(n);
      pending' == Put(pending, a, l') && Joined(queue', queue, Gone(pending[a], l') - {tx})
    else
      a in queue && pending' == pending && queue' == Put(queue, a, queue[a].Remove(n))
  }

  lemma RemoveShrinks(l: TxList, a: Address, n: nat)
    requires l.Valid(a) && n in l.txs
    ensures Shrinks(l, l.Remove(n)) && l.Remove(n).Valid(a) && l.txs[n] in Gone(l, l.Remove(n))
    ensures !l.strict ==> Gone(l, l.Remove(n)) == {l.txs[n]}
  {
  }

  lemma RemoveKeepsPartition(pending: Lists, queue: Lists, all: set<Tx>, tx: Tx, pending': Lists, queue': Lists)
    requires Partition(pending, queue, all) && tx in all
    requires RemovesTx(pending, queue, tx, pending', queue')
    requires ListsOk(queue', false) && NonEmpty(queue')
    ensures Partition(pending', queue', all - {tx})
  {
    hide TxList.Valid, TxList.Remove, Put, Gone, Shrinks, Joined;
    var a, n := tx.sender, tx.nonce;
    if Has(pending, a, n) {
      assert Holds(pending, tx);
      RemoveShrinks(pending[a], a, n);
      var l' := pending[a].Remove(n);
      PendingShrinks(pending, queue, all, a, l', queue', Gone(pending[a], l') - {tx});
      assert all - (Gone(pending[a], l') - (Gone(pending[a], l') - {tx})) == all - {tx};
    } else {
      assert Holds(queue, tx);
      RemoveShrinks(queue[a], a, n);
      SameJoined(pending);
      QueueShrinks(pending, queue, all, a, queue[a].Remove(n), pending, {});
      assert all - (Gone(queue[a], queue[a].Remove(n)) - {}) == all - {tx};
    }
  }

  lemma SameJoined(m: Lists)
    ensures Joined(m, m, {})
  {
  }

  /** What leaves a pending list finds its places in the queue free. */
  lemma GoneFromPending(pending: Lists, queue: Lists, all: set<Tx>, a: Address, l': TxList)
    requires Partition(pending, queue, all) && a in pending
    ensures Gone(pending[a], l') <= all && DistinctPlaces(Gone(pending[a], l'))
    ensures PlacesFree(queue, Gone(pending[a], l'))
  {
    GonePlaces(pending[a], l', a);
    forall t | t in Gone(pending[a], l') ensures t in all && !Has(queue, t.sender, t.nonce) {
      assert Has(pending, t.sender, t.nonce) && Holds(pending, t);
    }
  }

  /** A transaction that takes over a pending place. */
  lemma ReplaceKeepsPartition(pending: Lists, queue: Lists, all: set<Tx>, tx: Tx, priceBump: nat)
    requires Partition(pending, queue, all) && tx !in all
    requires Has(pending, tx.sender, tx.nonce) && Admits(pending, tx, priceBump)
    ensures Partition(Inserted(pending, tx, true, priceBump), queue, all - Occupant(pending, tx) + {tx})
    ensures Occupant(pending, tx) <= all
  {
    hide TxList.Valid, TxList.Add, Inserted, Replaces, Admits;
    InsertedHolds(pending, tx, true, priceBump);
    var o := pending[tx.sender].txs[tx.nonce];
    HasHolds(pending, true, tx.sender, tx.nonce);
    assert !Has(queue, tx.sender, tx.nonce);
  }

  /** A transaction that is queued at a nonce that is not pending. */
  lemma EnqueueKeepsPartition(pending: Lists, queue: Lists, all: set<Tx>, tx: Tx, priceBump: nat)
    requires Partition(pending, queue, all)
    requires !Has(pending, tx.sender, tx.nonce) && Admits(queue, tx, priceBump)
    ensures Partition(pending, Inserted(queue, tx, false, priceBump), all - Occupant(queue, tx) + {tx})
  {
    hide TxList.Valid, TxList.Add, Inserted, Replaces, Admits;
    InsertedHolds(queue, tx, false, priceBump);
    if Has(queue, tx.sender, tx.nonce) {
      HasHolds(queue, false, tx.sender, tx.nonce);
    }
  }

  lemma OccupantPooled(pending: Lists, queue: Lists, all: set<Tx>, tx: Tx)
    requires Partition(pending, queue, all)
    ensures Occupant(pending, tx) <= all && Occupant(queue, tx) <= all
    ensures forall o :: o in Occupant(pending, tx) + Occupant(queue, tx) ==>
              o.sender == tx.sender && o.nonce == tx.nonce
  {
    if Has(queue, tx.sender, tx.nonce) {
      HasHolds(queue, false, tx.sender, tx.nonce);
    }
    if Has(pending, tx.sender, tx.nonce) {
      HasHolds(pending, true, tx.sender, tx.nonce);
    }
  }

  /** The lists, the pooled transactions and the local accounts at one moment. */
  datatype View = View(pending: Lists, queue: Lists, all: set<Tx>, locals: set<Address>)

  /** m holds nothing that m0 does not. */
  ghost predicate Within(m: Lists, m0: Lists) {
    forall t :: Holds(m, t) ==> Holds(m0, t)
  }

  lemma SameWithin(m: Lists)
    ensures Within(m, m)
  {
  }

  lemma WithinTwice(m2: Lists, m1: Lists, m0: Lists)
    requires Within(m2, m1) && Within(m1, m0)
    ensures Within(m2, m0)
  {
    hide Holds;
  }

  lemma JoinedWithin(m': Lists, m: Lists, s: set<Tx>)
    requires Joined(m', m, s)
    ensures Within(m, m')
  {
    hide Holds;
  }

  lemma PendingLists(pending: Lists, queue: Lists, all: set<Tx>)
    requires Partition(pending, queue, all)
    ensures ListsOk(pending, true)
  {
  }

  lemma PutWithin(m: Lists, a: Address, l': TxList)
    requires a in m && m[a].Valid(a) && Shrinks(m[a], l')
    ensures Within(Put(m, a, l'), m)
  {
    PutHolds(m, a, l');
  }

  lemma RemoveWithin(pending: Lists, queue: Lists, tx: Tx, pending': Lists, queue': Lists)
    requires ListsOk(pending, true) && RemovesTx(pending, queue, tx, pending', queue')
    ensures Within(pending', pending)
  {
    if Has(pending, tx.sender, tx.nonce) {
      RemoveShrinks(pending[tx.sender], tx.sender, tx.nonce);
      PutWithin(pending, tx.sender, pending[tx.sender].Remove(tx.nonce));
    }
  }

  /** Of the transactions that were pending those stay that are below every one of their account that
      is gone. */
  ghost predicate Sifted(m0: Lists, m: Lists, gone: set<Tx>) {
    forall t :: Holds(m, t) <==> Holds(m0, t) && Below(m0, gone, t)
  }

  ghost predicate Below(m0: Lists, gone: set<Tx>, t: Tx) {
    forall d :: d in gone && Holds(m0, d) && d.sender == t.sender ==> t.nonce < d.nonce
  }

  function HeldOf(m: Lists, txs: set<Tx>): set<Tx> {
    set t | t in txs && Holds(m, t)
  }

  lemma NoneSifted(m: Lists)
    ensures Sifted(m, m, {}) && HeldOf(m, {}) == {}
  {
  }

  lemma SiftedWithin(m0: Lists, m: Lists, gone: set<Tx>)
    requires Sifted(m0, m, gone)
    ensures Within(m, m0)
  {
    hide Below, Holds;
  }

  /** Removing one more transaction. If it was pending but no longer is, one below it is gone. */
  lemma SiftedNext(m0: Lists, m: Lists, gone: set<Tx>, tx: Tx, m': Lists)
    requires Sifted(m0, m, gone)
    requires if Holds(m, tx)
             then forall t :: Holds(m', t) <==> Holds(m, t) && (t.sender == tx.sender ==> t.nonce < tx.nonce)
             else m' == m
    ensures Sifted(m0, m', gone + {tx})
  {
    hide Holds;
    forall t ensures Holds(m', t) <==> Holds(m0, t) && Below(m0, gone + {tx}, t) {
      if Holds(m0, tx) && !Holds(m, tx) {
        var d :| d in gone && Holds(m0, d) && d.sender == tx.sender && d.nonce <= tx.nonce;
      }
      assert Below(m0, gone + {tx}, t) <==>
             Below(m0, gone, t) && (Holds(m0, tx) && tx.sender == t.sender ==> t.nonce < tx.nonce);
    }
  }

  /** What removing a pending transaction leaves pending. */
  lemma RemoveHolds(pending: Lists, queue: Lists, all: set<Tx>, tx: Tx, pending': Lists, queue': Lists)
    requires Partition(pending, queue, all) && tx in all && RemovesTx(pending, queue, tx, pending', queue')
    ensures Holds(pending, tx) <==> Has(pending, tx.sender, tx.nonce)
    ensures if Holds(pending, tx)
            then forall t :: Holds(pending', t) <==> Holds(pending, t) && (t.sender == tx.sender ==> t.nonce < tx.nonce)
            else pending' == pending
  {
    var a, n := tx.sender, tx.nonce;
    if Has(pending, a, n) {
      assert Holds(pending, tx);
      var l := pending[a];
      RemoveShrinks(l, a, n);
      hide Joined;
      PutHolds(pending, a, l.Remove(n));
    }
  }

  /** Placing tx turns v into w: it takes the place of the transaction it replaces, if any, and
      a local one that is enqueued makes its sender local. Refused, it changes nothing. */
  ghost predicate PlacedFrom(v: View, w: View, tx: Tx, local: bool, priceBump: nat, accepted: bool, replaced: bool) {
    var hit := Has(v.pending, tx.sender, tx.nonce);
    && Placed(v.pending, v.queue, tx, priceBump, accepted, w.pending, w.queue)
    && w.all == (if accepted then v.all - Occupant(if hit then v.pending else v.queue, tx) + {tx} else v.all)
    && w.locals == v.locals + (if accepted && local && !hit then {tx.sender} else {})
    && replaced == (accepted && (hit || Has(v.queue, tx.sender, tx.nonce)))
  }

  /** Placing makes nothing pending but tx. */
  lemma PlacedWithin(v: View, w: View, tx: Tx, local: bool, priceBump: nat, accepted: bool, replaced: bool, t: Tx)
    requires Partition(v.pending, v.queue, v.all) && PlacedFrom(v, w, tx, local, priceBump, accepted, replaced)
    requires Holds(w.pending, t)
    ensures t == tx || Holds(v.pending, t)
  {
    if accepted && Has(v.pending, tx.sender, tx.nonce) {
      InsertedHolds(v.pending, tx, true, priceBump);
    }
  }

  /** Every transaction is local or pays the minimum price. */
  ghost predicate FloorOk(all: set<Tx>, locals: set<Address>, gasPrice: int) {
    forall t :: t in all ==> t.sender in locals || t.price >= gasPrice
  }

  /** A replacement pays more than the pooled transaction it replaces, so it keeps the floor
      whatever it was flagged as. */
  lemma ReplaceKeepsFloor(pending: Lists, queue: Lists, all: set<Tx>, tx: Tx, priceBump: nat,
                          locals: set<Address>, gasPrice: int)
    requires Partition(pending, queue, all) && Has(pending, tx.sender, tx.nonce) && Admits(pending, tx, priceBump)
    requires FloorOk(all, locals, gasPrice)
    ensures FloorOk(all - Occupant(pending, tx) + {tx}, locals, gasPrice)
  {
    OccupantPooled(pending, queue, all, tx);
    var o := pending[tx.sender].txs[tx.nonce];
    assert o in Occupant(pending, tx) && Replaces(tx, o, priceBump);
  }

  lemma ReplaceHas(pending: Lists, queue: Lists, all: set<Tx>, tx: Tx, priceBump: nat)
    requires Partition(pending, queue, all) && Has(pending, tx.sender, tx.nonce) && Admits(pending, tx, priceBump)
    ensures forall a, n: nat :: Has(Inserted(pending, tx, true, priceBump), a, n) <==> Has(pending, a, n)
  {
    InsertedHolds(pending, tx, true, priceBump);
  }

  lemma AddsFloor(all: set<Tx>, out: set<Tx>, tx: Tx, locals: set<Address>, more: set<Address>, gasPrice: int)
    requires FloorOk(all, locals, gasPrice)
    requires tx.sender in locals + more || tx.price >= gasPrice
    ensures FloorOk(all - out + {tx}, locals + more, gasPrice)
  {
  }

  lemma QueueList(pending: Lists, queue: Lists, all: set<Tx>, a: Address)
    requires Partition(pending, queue, all)
    ensures a in queue ==> queue[a].Valid(a) && !queue[a].strict
    ensures a in pending ==> pending[a].Valid(a) && pending[a].strict
  {
  }

  lemma FloorShrinks(all: set<Tx>, all': set<Tx>, locals: set<Address>, gasPrice: int)
    requires FloorOk(all, locals, gasPrice) && all' <= all
    ensures FloorOk(all', locals, gasPrice)
  {
  }

  lemma JoinedTwice(q2: Lists, q1: Lists, q0: Lists, s1: set<Tx>, s2: set<Tx>)
    requires Joined(q1, q0, s1) && Joined(q2, q1, s2)
    ensures Joined(q2, q0, s1 + s2)
  {
  }

  lemma StillFree(q1: Lists, q0: Lists, s1: set<Tx>, s2: set<Tx>)
    requires Joined(q1, q0, s1) && ListsOk(q1, false) && PlacesFree(q0, s2)
    requires DistinctPlaces(s1 + s2) && s1 !! s2
    ensures PlacesFree(q1, s2)
  {
    forall t | t in s2 ensures !Has(q1, t.sender, t.nonce) {
      if Has(q1, t.sender, t.nonce) {
        HasHolds(q1, false, t.sender, t.nonce);
        assert false;
      }
    }
  }
}
