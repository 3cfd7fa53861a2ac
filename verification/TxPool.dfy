/** The transaction pool (core/tx_pool.go). */
module TxPools {
  import opened Wrappers
  import opened TxLists
  import opened TxPriced
  import opened TxNoncers
  import opened PoolViews
  import opened PoolPromotion
  import opened PoolDemotion
  import opened PoolTruncation
  import opened PoolIntervals
  import opened PoolMendings

  /** The sanitized configuration. */
  datatype Config = Config(priceBump: nat, accountSlots: nat, globalSlots: nat, accountQueue: nat,
                           globalQueue: nat, lifetime: int) {
    predicate Sane() {
      priceBump >= 1 && accountSlots >= 1 && globalSlots >= 1 && accountQueue >= 1 && globalQueue >= 1
    }

    /** The pool has as many transactions as it may have slots. */
    predicate Full(all: set<Tx>) {
      |all| >= globalSlots + globalQueue
    }
  }

  /** nil, or the error add reports. */
  datatype Verdict =
    | Accepted
    | AlreadyKnown
    | OversizedData
    | NegativeValue
    | InvalidSender
    | Underpriced
    | NonceTooLow
    | InsufficientFunds
    | ReplaceUnderpriced

  /** validateTx. */
  function ValidateTx(tx: Tx, local: bool, locals: set<Address>, gasPrice: int, state: State): Verdict {
    if tx.size > TX_MAX_SIZE then OversizedData
    else if tx.value < 0 then NegativeValue
    else if !tx.signed then InvalidSender
    else if !(local || tx.sender in locals) && tx.price < gasPrice then Underpriced
    else if state.GetNonce(tx.sender) > tx.nonce then NonceTooLow
    else if state.GetBalance(tx.sender) < tx.Cost() then InsufficientFunds
    else Accepted
  }

  /** The checks of add before it looks for a place: known, invalid, or underpriced in a full
      pool. */
  ghost function Judge(tx: Tx, local: bool, v: View, gasPrice: int, state: State, config: Config): Verdict {
    if tx in v.all then AlreadyKnown
    else
      var r := ValidateTx(tx, local, v.locals, gasPrice, state);
      if r != Accepted then r
      else if config.Full(v.all) && !local && tx.sender !in v.locals && NoneCheaper(v.all, tx) then Underpriced
      else Accepted
  }

  /** Room was made in v: only non-local transactions went, the cheapest first. */
  ghost predicate RoomMade(v: View, room: View) {
    && room.locals == v.locals && room.all <= v.all
    && (forall t :: t in v.all && t.sender in v.locals ==> t in room.all)
    && CheapestFirst(v.all - room.all, v.all, v.locals)
    && Sifted(v.pending, room.pending, v.all - room.all)
    && Partition(room.pending, room.queue, room.all)
  }

  /** The price heap while room is made: before it, without the stale entries at its cheap end, and
      without what was discarded. */
  datatype Trail = Trail(before: PriceHeap, stripped: PriceHeap, discarded: PriceHeap, head: multiset<Tx>,
                         popped: seq<Tx>, stale: multiset<Tx>)

  /** What making room for tx does to the heap: the slots over the limit are freed, as far as the
      goal of Discard goes, and what is popped leaves the pool. */
  ghost predicate HeapMade(h: Trail, v: View, room: View, tx: Tx, local: bool, config: Config) {
    var over := SlotSum(v.all) - (config.globalSlots + config.globalQueue);
    var goal := Goal(over + tx.NumSlots(), h.stripped.items, v.locals);
    && (if local || tx.sender in v.locals then h.stripped == h.before else Strips(h.before, h.stripped, h.head, v.all))
    && (forall t :: t in v.all ==> t in h.stripped.items)
    && Discards(h.stripped, h.discarded, h.popped, h.stale, v.all, v.locals, goal)
    && Frees(h.popped, v.all - room.all, h.stripped.items, v.all, v.locals, goal)
  }

  /** One call of add: before it, after it made room, and after it, with the price heap it leaves. */
  datatype AddStep = AddStep(before: View, room: View, after: View, err: Verdict, replaced: bool, heaps: Trail,
                             left: PriceHeap)

  /** The checks of add that do not look at the heap. */
  ghost predicate Sound(tx: Tx, local: bool, v: View, gasPrice: int, state: State) {
    tx !in v.all && ValidateTx(tx, local, v.locals, gasPrice, state) == Accepted
  }

  /** A failed check is reported and changes nothing; otherwise tx is placed, in a full pool after
      making room for it. */
  ghost predicate TxAdded(s: AddStep, tx: Tx, local: bool, gasPrice: int, state: State, config: Config) {
    var v := Judge(tx, local, s.before, gasPrice, state, config);
    if v != Accepted then s.err == v && !s.replaced && s.after == s.room == s.before
    else
      && (s.err == Accepted || s.err == ReplaceUnderpriced)
      && (if config.Full(s.before.all) then RoomMade(s.before, s.room) else s.room == s.before)
      && PlacedFrom(s.room, s.after, tx, local, config.priceBump, s.err == Accepted, s.replaced)
  }

  /** What the call does to the price heap. */
  ghost predicate HeapAdded(s: AddStep, tx: Tx, local: bool, gasPrice: int, state: State, config: Config) {
    var h := s.heaps;
    if !Sound(tx, local, s.before, gasPrice, state) then s.left == h.before
    else if Judge(tx, local, s.before, gasPrice, state, config) != Accepted then
      s.left == h.stripped && Strips(h.before, h.stripped, h.head, s.before.all)
    else
      && (if config.Full(s.before.all) then HeapMade(h, s.before, s.room, tx, local, config)
          else h.discarded == h.before)
      && s.left == if s.err == Accepted then Relisted(h.discarded, PlaceOf(s.room, tx), s.room.all, tx)
                   else h.discarded
  }

  /** The transaction whose place tx would take. */
  ghost function PlaceOf(v: View, tx: Tx): set<Tx> {
    Occupant(if Has(v.pending, tx.sender, tx.nonce) then v.pending else v.queue, tx)
  }

  /** The pending transactions that making room took out. */
  ghost function Taken(s: AddStep): set<Tx> {
    HeldOf(s.before.pending, s.before.all - s.room.all)
  }

  ghost function TakenAll(steps: seq<AddStep>): set<Tx> {
    if steps == [] then {} else TakenAll(steps[..|steps| - 1]) + Taken(steps[|steps| - 1])
  }

  /** When no room is made nothing is taken out. */
  lemma UnsankStep(state: State, nonces: map<Address, nat>, v: View)
    ensures Sank(state, nonces, nonces, HeldOf(v.pending, v.all - v.all))
  {
    NoneSank(state, nonces);
    NoneSifted(v.pending);
    assert v.all - v.all == {};
  }

  lemma TakenSnoc(steps: seq<AddStep>, s: AddStep)
    ensures TakenAll(steps + [s]) == TakenAll(steps) + Taken(s)
  {
    assert (steps + [s])[..|steps|] == steps;
  }

  /** The steps lead from v to w, and the price heap from p to q. */
  ghost predicate Chained(steps: seq<AddStep>, v: View, w: View, p: PriceHeap, q: PriceHeap) {
    && (steps == [] ==> w == v && q == p)
    && (steps != [] ==>
          && steps[0].before == v && steps[|steps| - 1].after == w
          && steps[0].heaps.before == p && steps[|steps| - 1].left == q)
    && (forall i, j :: 0 <= i && j == i + 1 && j < |steps| ==>
          steps[i].after == steps[j].before && steps[i].left == steps[j].heaps.before)
  }

  /** The steps are the calls of add for the first transactions in turn. */
  ghost predicate AddedFirst(steps: seq<AddStep>, txs: seq<Tx>, local: bool, gasPrice: int, state: State,
                             config: Config) {
    && |steps| <= |txs|
    && (forall i :: 0 <= i < |steps| ==>
          && TxAdded(steps[i], txs[i], local, gasPrice, state, config)
          && HeapAdded(steps[i], txs[i], local, gasPrice, state, config))
  }

  ghost predicate AddedAll(steps: seq<AddStep>, txs: seq<Tx>, local: bool, gasPrice: int, state: State,
                           config: Config) {
    |steps| == |txs| && AddedFirst(steps, txs, local, gasPrice, state, config)
  }

  lemma AddedNext(steps: seq<AddStep>, txs: seq<Tx>, local: bool, gasPrice: int, state: State, config: Config,
                  s: AddStep)
    requires AddedFirst(steps, txs, local, gasPrice, state, config) && |steps| < |txs|
    requires TxAdded(s, txs[|steps|], local, gasPrice, state, config)
    requires HeapAdded(s, txs[|steps|], local, gasPrice, state, config)
    ensures AddedFirst(steps + [s], txs, local, gasPrice, state, config)
  {
    hide TxAdded, HeapAdded;
  }

  /** The accounts of transactions that were accepted without replacing one. */
  ghost predicate DirtyOf(dirty: set<Address>, txs: seq<Tx>, steps: seq<AddStep>)
    requires |steps| <= |txs|
  {
    forall a :: a in dirty <==>
      exists i :: 0 <= i < |steps| && txs[i].sender == a && steps[i].err == Accepted && !steps[i].replaced
  }

  lemma DirtyNext(dirty: set<Address>, txs: seq<Tx>, steps: seq<AddStep>, s: AddStep)
    requires |steps| < |txs| && DirtyOf(dirty, txs, steps)
    ensures DirtyOf(if s.err == Accepted && !s.replaced then dirty + {txs[|steps|].sender} else dirty, txs, steps + [s])
  {
    var steps' := steps + [s];
    assert forall i :: 0 <= i < |steps| ==> steps'[i] == steps[i];
    assert steps'[|steps|] == s;
  }

  lemma NoSteps(v: View, p: PriceHeap, txs: seq<Tx>, local: bool, gasPrice: int, state: State, config: Config)
    ensures Chained([], v, v, p, p) && AddedFirst([], txs, local, gasPrice, state, config) && DirtyOf({}, txs, [])
  {
  }

  lemma ChainedSnoc(steps: seq<AddStep>, v: View, w: View, p: PriceHeap, q: PriceHeap, s: AddStep)
    requires Chained(steps, v, w, p, q) && s.before == w && s.heaps.before == q
    ensures Chained(steps + [s], v, s.after, p, s.left)
  {
  }

  /** A head the pool is reset to: its state, unless it cannot be read, and the transactions of
      the blocks that the new head dropped. */
  datatype Reset = Reset(loaded: Option<State>, reinject: seq<Tx>)

  /** If the new head's state can be read, no account nonce falls and nothing is reinjected. */
  ghost predicate MovesForward(state: State, reset: Reset) {
    reset.loaded.Some? ==>
      && reset.reinject == []
      && forall a :: state.GetNonce(a) <= reset.loaded.value.GetNonce(a)
  }

  /** The pool after reset, before promotion and demotion: the calls of add for the transactions of
      dropped blocks, and what they leave. */
  datatype Halfway = Halfway(steps: seq<AddStep>, view: View, heap: PriceHeap, state: State,
                             nonces: map<Address, nat>) {

    ghost predicate Mends(maxGas: nat) {
      AllMend(view.pending, view.queue, state, nonces, maxGas)
    }
  }

  /** A reset from the view, price heap, state and virtual nonces given leads to mid. The virtual nonces
      are those of the new state, lowered to the pending transactions that adding took out of a full
      pool. */
  ghost predicate LeadsTo(v: View, p: PriceHeap, state: State, nonces: map<Address, nat>, reset: Reset, mid: Halfway,
                          gasPrice: int, config: Config) {
    if reset.loaded.None? then mid == Halfway([], v, p, state, nonces)
    else
      && mid.state == reset.loaded.value
      && AddedAll(mid.steps, reset.reinject, false, gasPrice, mid.state, config)
      && Chained(mid.steps, v, mid.view, p, mid.heap)
      && Sank(mid.state, map[], mid.nonces, TakenAll(mid.steps))
      && ((forall i :: 0 <= i < |mid.steps| ==> !config.Full(mid.steps[i].before.all)) ==> mid.nonces == map[])
  }

  lemma LeadsState(v: View, p: PriceHeap, state: State, nonces: map<Address, nat>, reset: Reset, mid: Halfway,
                   gasPrice: int, config: Config)
    requires LeadsTo(v, p, state, nonces, reset, mid, gasPrice, config)
    ensures mid.state == if reset.loaded.Some? then reset.loaded.value else state
    ensures reset.loaded.None? ==> mid.view == v && mid.nonces == nonces
  {
  }

  /** The calls of add decide whether all accounts mend: they determine the virtual nonces. */
  lemma LeadsAlike(v: View, p: PriceHeap, state: State, nonces: map<Address, nat>, reset: Reset, mid: Halfway,
                   mid': Halfway, gasPrice: int, config: Config, maxGas: nat)
    requires LeadsTo(v, p, state, nonces, reset, mid, gasPrice, config)
    requires LeadsTo(v, p, state, nonces, reset, mid', gasPrice, config)
    requires mid.steps == mid'.steps
    ensures mid.Mends(maxGas) <==> mid'.Mends(maxGas)
  {
    hide TxAdded, HeapAdded, Sank, TakenAll, Config.Full, AllMend;
    assert mid.view == mid'.view && mid.state == mid'.state;
    if reset.loaded.Some? {
      SankAlike(mid.state, map[], mid.nonces, mid'.nonces, TakenAll(mid.steps));
      SameAnswersMend(mid.view.pending, mid.view.queue, mid.state, mid.nonces, mid'.nonces, maxGas);
      SameAnswersMend(mid.view.pending, mid.view.queue, mid.state, mid'.nonces, mid.nonces, maxGas);
    }
  }

  /** The step of a single reinjected transaction. */
  lemma SingleStep(v: View, p: PriceHeap, state: State, nonces: map<Address, nat>, reset: Reset, mid: Halfway,
                   gasPrice: int, config: Config)
    requires LeadsTo(v, p, state, nonces, reset, mid, gasPrice, config)
    requires reset.loaded.Some? && |reset.reinject| == 1
    ensures |mid.steps| == 1 && mid.steps[0].before == v && mid.steps[0].after == mid.view
    ensures TxAdded(mid.steps[0], reset.reinject[0], false, gasPrice, mid.state, config)
    ensures mid.state == reset.loaded.value && (!config.Full(v.all) ==> mid.nonces == map[])
  {
    hide TxAdded, HeapAdded, Sank, TakenAll, Config.Full;
  }

  lemma ForwardLeads(v: View, p: PriceHeap, state: State, nonces: map<Address, nat>, reset: Reset, mid: Halfway,
                     gasPrice: int, config: Config, maxGas: nat)
    requires LeadsTo(v, p, state, nonces, reset, mid, gasPrice, config) && Partition(v.pending, v.queue, v.all)
    requires Executable(v.pending, state, nonces)
    ensures reset.loaded.Some? && MovesForward(state, reset) ==> mid.Mends(maxGas)
    ensures reset.loaded.None? ==> (mid.Mends(maxGas) <==> FirstsPayable(v.pending, state, maxGas))
  {
    hide Partition, Executable, TxAdded, HeapAdded, FirstsPayable, AllMend, Sank;
    if reset.loaded.None? {
      FailedLoadMends(v.pending, v.queue, v.all, state, nonces, maxGas);
    } else if MovesForward(state, reset) {
      assert mid.steps == [] && mid.view == v && mid.nonces == map[];
      ForwardMends(v.pending, v.queue, v.all, state, nonces, mid.state, maxGas);
    }
  }

  /** The operations on the pool, each run under its lock. */
  datatype Op =
    | AddTxs(txs: seq<Tx>, local: bool)
    | SetPrice(price: int)
    | EvictInactive
    | Reorg(reset: Option<Reset>, dirty: seq<Address>)

  function StateAfter(state: State, op: Op): State {
    if op.Reorg? && op.reset.Some? && op.reset.value.loaded.Some? then op.reset.value.loaded.value else state
  }

  predicate Resets(op: Op) {
    op.Reorg? && op.reset.Some?
  }

  /** A reset to a head whose state cannot be read. */
  predicate FailsToLoad(op: Op) {
    op.Reorg? && op.reset.Some? && op.reset.value.loaded.None?
  }

  /** A reset does not move the chain back, and none fails to load while an account's first
      transaction is not payable. */
  ghost predicate Harmless(op: Op, pending: Lists, state: State, maxGas: nat) {
    && (op.Reorg? && op.reset.Some? ==> MovesForward(state, op.reset.value))
    && (FailsToLoad(op) ==> FirstsPayable(pending, state, maxGas))
  }

  /** No transaction added has more gas than the limit. */
  ghost predicate WithinGas(op: Op, maxGas: nat) {
    op.AddTxs? ==> forall t :: t in op.txs ==> t.gas <= maxGas
  }

  ghost predicate AllLoaded(ops: seq<Op>) {
    forall i :: 0 <= i < |ops| ==> !FailsToLoad(ops[i])
  }

  ghost predicate AllWithinGas(ops: seq<Op>, maxGas: nat) {
    forall i :: 0 <= i < |ops| ==> WithinGas(ops[i], maxGas)
  }

  /** Every reset among the operations moves the chain forward. */
  ghost predicate OnlyForward(state: State, ops: seq<Op>)
    decreases |ops|
  {
    ops != [] ==>
      && (ops[0].Reorg? && ops[0].reset.Some? ==> MovesForward(state, ops[0].reset.value))
      && OnlyForward(StateAfter(state, ops[0]), ops[1..])
  }

  class TxPool {
    const config: Config
    const maxGas: nat // currentMaxGas, which nothing assigns
    const lookup: TxLookup
    const priced: TxPricedList
    var noncer: TxNoncer // pendingNonces
    var state: State
    var gasPrice: int
    var locals: set<Address>
    var pending: Lists
    var queue: Lists
    var beats: map<Address, int>

    /** The objects belong together and the lookup counts its slots. */
    ghost predicate Wired()
      reads this, lookup
    {
      config.Sane() && priced.lookup == lookup && noncer.fallback == state && lookup.Valid()
    }

    ghost predicate HeapFits()
      reads this, lookup, priced
    {
      HeapOk(priced.items, lookup.all, priced.stales)
    }

    ghost function Views(): View
      reads this, lookup
    {
      View(pending, queue, lookup.all, locals)
    }

    /** Every pooled transaction is local or pays the minimum price. */
    ghost predicate Floor()
      reads this, lookup
    {
      FloorOk(lookup.all, locals, gasPrice)
    }

    /** What holds between any two operations: the lists partition the pooled transactions,
        the heap covers them, and the price floor is kept. */
    ghost predicate Valid()
      reads this, lookup, priced
    {
      Wired() && Partition(pending, queue, lookup.all) && HeapFits() && Floor()
    }

    ghost predicate Interval()
      reads this, noncer
    {
      Executable(pending, state, noncer.nonces)
    }

    /** Every pending transaction is affordable. */
    ghost predicate AllAffordable()
      reads this
    {
      Affordable(pending, state, maxGas)
    }

    /** Promotion and demotion will leave every account with an interval. */
    ghost predicate Mending()
      reads this, noncer
    {
      AllMend(pending, queue, state, noncer.nonces, maxGas)
    }

    /** Nothing executable is waiting: what is queued is above the virtual nonce. */
    ghost predicate Drained(a: Address)
      reads this, noncer
    {
      DrainedIn(queue, state, noncer.nonces, a)
    }

    ghost predicate WithinLimit(a: Address)
      reads this
    {
      a in queue && a !in locals ==> |queue[a].txs| <= config.accountQueue
    }

    /** NewTxPool up to the start of its loops. */
    constructor (config: Config, maxGas: nat, priceLimit: int, locals: set<Address>, state: State)
      requires config.Sane()
      ensures Valid() && Interval() && AllAffordable() && fresh(lookup) && fresh(priced) && fresh(noncer)
      ensures pending == map[] && queue == map[] && lookup.all == {}
      ensures this.gasPrice == priceLimit && this.locals == locals && this.state == state
      ensures noncer.nonces == map[] && this.config == config && this.maxGas == maxGas
    {
      this.config, this.maxGas, this.state := config, maxGas, state;
      this.gasPrice, this.locals := priceLimit, locals;
      pending, queue, beats := map[], map[], map[];
      var all := new TxLookup();
      lookup := all;
      priced := new TxPricedList(all);
      noncer := new TxNoncer(state);
    }

    /** Takes a replaced transaction out of the lookup and the heap, and marks the new one. */
    method Relist(replaced: Option<Tx>, tx: Tx)
      requires Wired() && AsSet(replaced) <= lookup.all
      requires HeapFits() || (tx in lookup.all && replaced.None?)
      modifies lookup, priced
      ensures Wired() && lookup.all == old(lookup.all) - AsSet(replaced) + {tx}
      ensures old(HeapFits()) ==> HeapFits()
      ensures tx in old(lookup.all) && replaced.None? ==> priced.Heap() == old(priced.Heap())
      ensures tx !in old(lookup.all) ==>
                priced.Heap() == Relisted(old(priced.Heap()), AsSet(replaced), old(lookup.all), tx)
    {
      hide HeapOk;
      if replaced.Some? {
        HeapRemove(priced.items, lookup.all, {replaced.value}, priced.stales);
        lookup.Remove(replaced.value);
        priced.Removed(1);
      }
      assert Wired() && lookup.all == old(lookup.all) - AsSet(replaced);
      assert old(HeapFits()) ==> HeapFits();
      if tx !in lookup.all {
        HeapAdd(priced.items, lookup.all, tx, priced.stales);
        lookup.Add(tx);
        priced.Put(tx);
      }
    }

    /** enqueueTx. Only a transaction that is new or takes a place touches the other views. */
    method EnqueueTx(tx: Tx, now: int) returns (r: Result<bool>)
      requires Wired() && Occupant(queue, tx) <= lookup.all
      requires HeapFits() || (tx in lookup.all && !Has(queue, tx.sender, tx.nonce))
      modifies this`queue, this`beats, lookup, priced
      ensures Wired()
      ensures r.Ok? <==> Admits(old(queue), tx, config.priceBump)
      ensures r.Err? ==> queue == old(queue) && beats == old(beats) && lookup.all == old(lookup.all)
      ensures r.Err? ==> priced.Heap() == old(priced.Heap())
      ensures r.Ok? && tx !in old(lookup.all) ==>
                priced.Heap() == Relisted(old(priced.Heap()), Occupant(old(queue), tx), old(lookup.all), tx)
      ensures r.Ok? ==> queue == Inserted(old(queue), tx, false, config.priceBump)
      ensures r.Ok? ==> lookup.all == old(lookup.all) - Occupant(old(queue), tx) + {tx}
      ensures r.Ok? ==> r.value == Has(old(queue), tx.sender, tx.nonce)
      ensures r.Ok? ==> beats == if tx.sender in old(beats) then old(beats) else old(beats)[tx.sender := now]
      ensures old(HeapFits()) ==> HeapFits()
      ensures tx in old(lookup.all) && !Has(old(queue), tx.sender, tx.nonce) ==>
                r.Ok? && priced.items == old(priced.items) && priced.stales == old(priced.stales)
    {
      hide TxList.Add, Inserted, HeapOk, Relisted;
      AddReports(queue, tx, false, config.priceBump);
      var from := tx.sender;
      var added := ListOf(queue, from, false).Add(tx, config.priceBump);
      if !added.inserted {
        return Err;
      }
      queue := queue[from := added.list];
      Relist(added.replaced, tx);
      if from !in beats {
        beats := beats[from := now];
      }
      return Ok(added.replaced.Some?);
    }

    /** The loops that postpone transactions. None of them collides with a queued one, so the
        lookup and the heap stay as they are. */
    method EnqueueEach(txs: set<Tx>, now: int)
      requires Wired() && ListsOk(queue, false) && NonEmpty(queue)
      requires txs <= lookup.all && DistinctPlaces(txs) && PlacesFree(queue, txs)
      modifies this`queue, this`beats, lookup, priced
      ensures Wired() && ListsOk(queue, false) && NonEmpty(queue)
      ensures Joined(queue, old(queue), txs) && lookup.all == old(lookup.all)
      ensures priced.items == old(priced.items) && priced.stales == old(priced.stales)
    {
      hide ListsOk, NonEmpty, Inserted, Admits, HeapOk, Joined, PlacesFree, DistinctPlaces;
      var todo := txs;
      assert Joined(queue, queue, txs - todo) && DistinctPlaces(todo) by {
        NothingJoined(queue, txs);
      }
      while todo != {}
        invariant Wired() && ListsOk(queue, false) && NonEmpty(queue) && todo <= txs
        invariant Joined(queue, old(queue), txs - todo) && PlacesFree(queue, todo) && DistinctPlaces(todo)
        invariant lookup.all == old(lookup.all)
        invariant priced.items == old(priced.items) && priced.stales == old(priced.stales)
        decreases todo
      {
        var tx :| tx in todo;
        InsertRound(queue, old(queue), txs, todo, tx, false, config.priceBump);
        FewerPlaces(todo, tx);
        var r := EnqueueTx(tx, now);
        todo := todo - {tx};
      }
      assert txs - todo == txs;
    }

    /** The part of removeTx for a pending transaction, which has left the lookup. */
    method RemovePending(tx: Tx, ghost all: set<Tx>, now: int)
      requires Wired() && Partition(pending, queue, all) && tx in all && lookup.all == all - {tx}
      requires Has(pending, tx.sender, tx.nonce)
      modifies this`pending, this`queue, this`beats, lookup, priced, noncer
      ensures Wired() && lookup.all == all - {tx}
      ensures priced.items == old(priced.items) && priced.stales == old(priced.stales)
      ensures RemovesTx(old(pending), old(queue), tx, pending, queue)
      ensures ListsOk(queue, false) && NonEmpty(queue)
      ensures Lowered(noncer.fallback, old(noncer.nonces), noncer.nonces, tx.sender, tx.nonce)
    {
      hide ListsOk, NonEmpty, NoClash, Covers, TxList.Valid, Joined, DistinctPlaces, PlacesFree, Lowered, Gone;
      var addr := tx.sender;
      var list := pending[addr];
      var rest := list.Remove(tx.nonce);
      var invalids := Gone(list, rest) - {tx};
      GoneFromPending(pending, queue, all, addr, rest);
      SubPlaces(queue, Gone(list, rest), {tx});
      pending := Put(pending, addr, rest);
      EnqueueEach(invalids, now);
      noncer.SetIfLower(addr, tx.nonce);
    }

    /** The part of removeTx for a queued transaction, which has left the lookup. */
    method RemoveQueued(tx: Tx, ghost all: set<Tx>)
      requires Partition(pending, queue, all) && tx in all && !Has(pending, tx.sender, tx.nonce)
      modifies this`queue, this`beats
      ensures RemovesTx(pending, old(queue), tx, pending, queue)
      ensures ListsOk(queue, false) && NonEmpty(queue) && SameBeats(old(beats), beats, tx.sender)
    {
      assert Holds(queue, tx);
      var addr := tx.sender;
      var rest := queue[addr].Remove(tx.nonce);
      queue := Put(queue, addr, rest);
      if rest.txs == map[] {
        beats := beats - {addr};
      }
    }

    /** removeTx. With outofbound false the caller has already taken tx out of the heap. */
    method RemoveTx(tx: Tx, outofbound: bool, now: int)
      requires Wired() && Partition(pending, queue, lookup.all) && (outofbound ==> HeapFits())
      modifies this`pending, this`queue, this`beats, lookup, priced, noncer
      ensures Wired() && Partition(pending, queue, lookup.all) && (outofbound ==> HeapFits())
      ensures lookup.all == old(lookup.all) - {tx}
      ensures !outofbound ==> priced.items == old(priced.items) && priced.stales == old(priced.stales)
      ensures tx !in old(lookup.all) ==> pending == old(pending) && queue == old(queue)
      ensures tx in old(lookup.all) ==> RemovesTx(old(pending), old(queue), tx, pending, queue)
      ensures !Has(old(pending), tx.sender, tx.nonce) || tx !in old(lookup.all) ==> noncer.nonces == old(noncer.nonces)
      ensures tx in old(lookup.all) && Has(old(pending), tx.sender, tx.nonce) ==>
                Lowered(noncer.fallback, old(noncer.nonces), noncer.nonces, tx.sender, tx.nonce)
      ensures old(Interval()) ==> Interval()
      ensures Within(pending, old(pending))
      ensures !Has(old(pending), tx.sender, tx.nonce) ==> SameBeats(old(beats), beats, tx.sender)
    {
      hide HeapOk, RemovesTx, TxList.Remove, Put, Gone, ListsOk, NonEmpty, NoClash, Covers, Executable, Lowered,
        Within;
      if tx !in lookup.all {
        SameWithin(pending);
        return;
      }
      ghost var pending0, queue0, all0 := pending, queue, lookup.all;
      var addr := tx.sender;
      if outofbound {
        HeapRemove(priced.items, lookup.all, {tx}, priced.stales);
      }
      lookup.Remove(tx);
      if outofbound {
        priced.Removed(1);
      }
      assert Wired() && (outofbound ==> HeapFits());
      if addr in pending && tx.nonce in pending[addr].txs {
        RemovePending(tx, all0, now);
      } else {
        RemoveQueued(tx, all0);
      }
      RemoveKeepsPartition(pending0, queue0, all0, tx, pending, queue);
      RemoveWithin(pending0, queue0, tx, pending, queue);
      if old(Interval()) {
        RemoveKeepsExecutable(pending0, queue0, tx, pending, queue, state, old(noncer.nonces), noncer.nonces);
      }
    }

    /** The loops that remove what the heap gave up. Pending transactions behind it are postponed and
        the virtual nonces sink to it. */
    method RemoveEachTx(txs: set<Tx>, outofbound: bool, now: int)
      requires Wired() && Partition(pending, queue, lookup.all) && (outofbound ==> HeapFits())
      requires txs <= lookup.all
      modifies this`pending, this`queue, this`beats, lookup, priced, noncer
      ensures Wired() && Partition(pending, queue, lookup.all) && (outofbound ==> HeapFits())
      ensures lookup.all == old(lookup.all) - txs
      ensures !outofbound ==> priced.Heap() == old(priced.Heap())
      ensures (old(Interval()) ==> Interval()) && Sifted(old(pending), pending, txs)
      ensures Sank(state, old(noncer.nonces), noncer.nonces, HeldOf(old(pending), txs))
    {
      hide Partition, HeapOk, Executable, RemovesTx, Lowered, Holds, Sank, Sifted, HeldOf, Within;
      var todo := txs;
      NoneSank(state, noncer.nonces);
      NoneSifted(pending);
      assert txs - todo == {};
      while todo != {}
        invariant Wired() && Partition(pending, queue, lookup.all) && (outofbound ==> HeapFits())
        invariant todo <= txs && todo <= lookup.all && lookup.all == old(lookup.all) - (txs - todo)
        invariant !outofbound ==> priced.Heap() == old(priced.Heap())
        invariant (old(Interval()) ==> Interval()) && Sifted(old(pending), pending, txs - todo)
        invariant Sank(state, old(noncer.nonces), noncer.nonces, HeldOf(old(pending), txs - todo))
        decreases todo
      {
        var tx :| tx in todo;
        ghost var pending0, queue0, all0, nonces := pending, queue, lookup.all, noncer.nonces;
        RemoveTx(tx, outofbound, now);
        RemoveHolds(pending0, queue0, all0, tx, pending, queue);
        SiftedNext(old(pending), pending0, txs - todo, tx, pending);
        SankNext(state, old(noncer.nonces), nonces, noncer.nonces, old(pending), pending0, txs - todo, tx);
        assert txs - (todo - {tx}) == (txs - todo) + {tx};
        todo := todo - {tx};
      }
      assert txs - todo == txs;
    }

    /** SetGasPrice drops exactly the non-local transactions below the new price. */
    method SetGasPrice(price: int, now: int)
      requires Valid()
      modifies this`gasPrice, this`pending, this`queue, this`beats, lookup, priced, noncer
      ensures Valid() && gasPrice == price
      ensures lookup.all == old(lookup.all) - Underpaid(old(lookup.all), price, locals)
      ensures old(Interval()) ==> Interval()
      ensures Sifted(old(pending), pending, Underpaid(old(lookup.all), price, locals))
    {
      hide Partition, HeapOk, Executable, Sifted, Sank;
      gasPrice := price;
      var drop := priced.Cap(price, locals);
      RemoveEachTx(drop, false, now);
    }

    /** Making room in a full pool: false if tx is underpriced. Otherwise the slots over the
        limit are freed, as far as Discard goes. */
    method MakeRoom(tx: Tx, local: bool, now: int) returns (ok: bool, ghost h: Trail)
      requires Valid()
      modifies this`pending, this`queue, this`beats, lookup, priced, noncer
      ensures Valid() && (old(Interval()) ==> Interval())
      ensures !ok <==> !local && tx.sender !in locals && old(lookup.all) != {} && NoneCheaper(old(lookup.all), tx)
      ensures h.before == old(priced.Heap()) && priced.Heap() == if ok then h.discarded else h.stripped
      ensures !ok ==> Views() == old(Views()) && Strips(h.before, h.stripped, h.head, lookup.all)
      ensures ok ==> HeapMade(h, old(Views()), Views(), tx, local, config)
      ensures RoomMade(old(Views()), Views())
      ensures Sank(state, old(noncer.nonces), noncer.nonces, HeldOf(old(pending), old(lookup.all) - lookup.all))
      ensures !ok ==> noncer.nonces == old(noncer.nonces)
    {
      hide Partition, HeapOk, Executable, CheapestFirst, NotOverfull, Sifted, Frees, Goal, SlotSum, Sank, Strips,
        Discards, HeldOf;
      ghost var p, head := priced.Heap(), multiset{};
      if !local {
        var underpriced;
        underpriced, head := priced.Underpriced(tx, locals);
        if underpriced {
          NoneDropped(lookup.all, locals, 0);
          NoneSifted(pending);
          NoneSank(state, noncer.nonces);
          assert lookup.all - lookup.all == {};
          return false, Trail(p, priced.Heap(), priced.Heap(), head, [], multiset{});
        }
      }
      ghost var q, all := priced.Heap(), lookup.all;
      InHeap(priced.items, lookup.all, priced.stales);
      var drop;
      ghost var popped, stale;
      drop, popped, stale := priced.Discard(
        lookup.slots - (config.globalSlots + config.globalQueue) + tx.NumSlots(), locals);
      ghost var r := priced.Heap();
      RemoveEachTx(drop, false, now);
      assert all - lookup.all == drop;
      return true, Trail(p, q, r, head, popped, stale);
    }

    /** The end of add: replace a pending transaction or enqueue. A transaction that replaces a
        pending one does not make its sender local. */
    method Place(tx: Tx, local: bool, now: int) returns (err: Verdict, replaced: bool)
      requires Valid() && tx !in lookup.all
      requires local || tx.sender in locals || tx.price >= gasPrice
      modifies this`pending, this`queue, this`beats, this`locals, lookup, priced
      ensures Valid() && (old(Interval()) ==> Interval())
      ensures err == Accepted || err == ReplaceUnderpriced
      ensures PlacedFrom(old(Views()), Views(), tx, local, config.priceBump, err == Accepted, replaced)
      ensures priced.Heap() == if err == Accepted
                               then Relisted(old(priced.Heap()), PlaceOf(old(Views()), tx), old(lookup.all), tx)
                               else old(priced.Heap())
    {
      hide Partition, HeapOk, Executable, Inserted, Admits, TxList.Add, TxList.Valid, FloorOk, Relisted, Occupant;
      var from := tx.sender;
      if from in pending && pending[from].Overlaps(tx) {
        err, replaced := ReplacePending(tx, now);
        return;
      }
      OccupantPooled(pending, queue, lookup.all, tx);
      ghost var more := if local then {from} else {};
      if Admits(queue, tx, config.priceBump) {
        EnqueueKeepsPartition(pending, queue, lookup.all, tx, config.priceBump);
        AddsFloor(lookup.all, Occupant(queue, tx), tx, locals, more, gasPrice);
      }
      var r := EnqueueTx(tx, now);
      if r.Err? {
        return ReplaceUnderpriced, false;
      }
      if local {
        locals := locals + {from};
      }
      assert locals == old(locals) + more;
      return Accepted, r.value;
    }

    /** The branch of add that replaces a pending transaction. The new one pays more than the
        one it replaces, which keeps the price floor even when it came in as local. */
    method ReplacePending(tx: Tx, now: int) returns (err: Verdict, replaced: bool)
      requires Valid() && tx !in lookup.all && Has(pending, tx.sender, tx.nonce)
      modifies this`pending, this`beats, lookup, priced
      ensures Valid() && (old(Interval()) ==> Interval())
      ensures err == if Admits(old(pending), tx, config.priceBump) then Accepted else ReplaceUnderpriced
      ensures err == Accepted ==>
                && pending == Inserted(old(pending), tx, true, config.priceBump) && replaced
                && lookup.all == old(lookup.all) - Occupant(old(pending), tx) + {tx}
                && beats == old(beats)[tx.sender := now]
      ensures err != Accepted ==>
                pending == old(pending) && lookup.all == old(lookup.all) && beats == old(beats) && !replaced
      ensures priced.Heap() == if err == Accepted
                               then Relisted(old(priced.Heap()), Occupant(old(pending), tx), old(lookup.all), tx)
                               else old(priced.Heap())
    {
      hide Partition, HeapOk, Executable, Inserted, Admits, TxList.Add, TxList.Valid, FloorOk, Relisted, Occupant;
      var from := tx.sender;
      AddReports(pending, tx, true, config.priceBump);
      var added := pending[from].Add(tx, config.priceBump);
      if !added.inserted {
        return ReplaceUnderpriced, false;
      }
      OccupantPooled(pending, queue, lookup.all, tx);
      ReplaceKeepsPartition(pending, queue, lookup.all, tx, config.priceBump);
      ReplaceKeepsFloor(pending, queue, lookup.all, tx, config.priceBump, locals, gasPrice);
      ReplaceHas(pending, queue, lookup.all, tx, config.priceBump);
      pending := pending[from := added.list];
      if old(Interval()) {
        SameHasExecutable(old(pending), pending, state, noncer.nonces);
      }
      Relist(added.replaced, tx);
      beats := beats[from := now];
      return Accepted, added.replaced.Some?;
    }

    /** add: validates a transaction, makes room for it in a full pool and places it. Local
        accounts only ever lose the transaction that tx replaces. */
    method Add(tx: Tx, local: bool, now: int) returns (err: Verdict, replaced: bool, ghost step: AddStep)
      requires Valid()
      modifies this`pending, this`queue, this`beats, this`locals, lookup, priced, noncer
      ensures Valid() && (old(Interval()) ==> Interval())
      ensures step == AddStep(old(Views()), step.room, Views(), err, replaced, step.heaps, priced.Heap())
      ensures step.heaps.before == old(priced.Heap())
      ensures TxAdded(step, tx, local, gasPrice, state, config) && HeapAdded(step, tx, local, gasPrice, state, config)
      ensures old(locals) <= locals && lookup.all <= old(lookup.all) + {tx} && (err == Accepted ==> tx in lookup.all)
      ensures old(AllAffordable()) && tx.gas <= maxGas ==> AllAffordable()
      ensures Sank(state, old(noncer.nonces), noncer.nonces, Taken(step))
      ensures !config.Full(old(lookup.all)) ==> noncer.nonces == old(noncer.nonces)
      ensures forall t :: t in old(lookup.all) && t !in lookup.all ==>
                t.sender !in old(locals) || (t.sender == tx.sender && t.nonce == tx.nonce)
    {
      hide Partition, HeapOk, Executable, Inserted, Admits, FloorOk, CheapestFirst, NoneCheaper, Placed, Occupant,
        Sifted, Affordable, HeapMade, Sank, HeldOf, Strips, Relisted;
      ghost var v, p, room := Views(), priced.Heap(), Views();
      ghost var h := Trail(p, p, p, multiset{}, [], multiset{});
      UnsankStep(state, noncer.nonces, v);
      var verdict := if tx in lookup.all then AlreadyKnown else ValidateTx(tx, local, locals, gasPrice, state);
      if verdict != Accepted {
        return verdict, false, AddStep(v, v, v, verdict, false, h, p);
      }
      if config.Full(lookup.all) {
        var ok;
        ok, h := MakeRoom(tx, local, now);
        if !ok {
          return Underpriced, false, AddStep(v, v, v, Underpriced, false, h, priced.Heap());
        }
        room := Views();
        if old(AllAffordable()) {
          SiftedWithin(v.pending, pending, v.all - room.all);
          WithinAffordable(pending, old(pending), state, maxGas);
        }
      }
      OccupantPooled(pending, queue, lookup.all, tx);
      assert local || tx.sender in locals || tx.price >= gasPrice;
      assert forall t :: t in old(lookup.all) && t !in lookup.all ==> t.sender !in locals;
      err, replaced := Place(tx, local, now);
      step := AddStep(v, room, Views(), err, replaced, h, priced.Heap());
      if old(AllAffordable()) && tx.gas <= maxGas {
        PlacedAffordable(room, Views(), tx, local, config.priceBump, err == Accepted, replaced, state, maxGas);
      }
    }

    /** promoteTx: inserts into the pending list, or discards tx if the pending one is better. */
    method PromoteTx(tx: Tx, now: int) returns (inserted: bool)
      requires Wired() && Occupant(pending, tx) <= lookup.all && tx in lookup.all
      requires Has(pending, tx.sender, tx.nonce) ==> HeapFits()
      modifies this`pending, this`beats, lookup, priced, noncer
      ensures Wired()
      ensures inserted <==> Admits(old(pending), tx, config.priceBump)
      ensures inserted ==>
                && pending == Inserted(old(pending), tx, true, config.priceBump)
                && lookup.all == old(lookup.all) - Occupant(old(pending), tx) + {tx}
                && noncer.nonces == old(noncer.nonces)[tx.sender := tx.nonce + 1]
                && beats == old(beats)[tx.sender := now]
      ensures !inserted ==>
                && pending == old(pending) && lookup.all == old(lookup.all) - {tx}
                && noncer.nonces == old(noncer.nonces) && beats == old(beats)
      ensures Has(old(pending), tx.sender, tx.nonce) ==> HeapFits()
      ensures !Has(old(pending), tx.sender, tx.nonce) ==>
                inserted && priced.items == old(priced.items) && priced.stales == old(priced.stales)
    {
      hide TxList.Add, Inserted, HeapOk, Relisted;
      AddReports(pending, tx, true, config.priceBump);
      var addr := tx.sender;
      var added := ListOf(pending, addr, true).Add(tx, config.priceBump);
      if !added.inserted {
        HeapRemove(priced.items, lookup.all, {tx}, priced.stales);
        lookup.Remove(tx);
        priced.Removed(1);
        return false;
      }
      pending := pending[addr := added.list];
      Relist(added.replaced, tx);
      noncer.Set(addr, tx.nonce + 1);
      beats := beats[addr := now];
      return true;
    }

    /** The loop that promotes the transactions of an account that became ready. None of them
        collides with a pending one. */
    method PromoteEach(readies: seq<Tx>, ghost addr: Address, ghost first: nat, now: int) returns (promoted: seq<Tx>)
      requires Wired() && ListsOk(pending, true) && NonEmpty(pending) && IsRun(readies, addr, first)
      requires FirstTxs(readies, |readies|) <= lookup.all && PlacesFree(pending, FirstTxs(readies, |readies|))
      modifies this`pending, this`beats, lookup, priced, noncer
      ensures Wired() && ListsOk(pending, true) && NonEmpty(pending)
      ensures Joined(pending, old(pending), FirstTxs(readies, |readies|)) && lookup.all == old(lookup.all)
      ensures priced.items == old(priced.items) && priced.stales == old(priced.stales)
      ensures noncer.nonces == if readies == [] then old(noncer.nonces)
                               else old(noncer.nonces)[addr := first + |readies|]
      ensures promoted == readies
    {
      hide ListsOk, NonEmpty, Inserted, Admits, HeapOk, Joined, PlacesFree;
      promoted := [];
      assert FirstTxs(readies, 0) == {};
      SameJoined(pending);
      for i := 0 to |readies|
        invariant Wired() && ListsOk(pending, true) && NonEmpty(pending)
        invariant Joined(pending, old(pending), FirstTxs(readies, i)) && lookup.all == old(lookup.all)
        invariant priced.items == old(priced.items) && priced.stales == old(priced.stales)
        invariant noncer.nonces == if i == 0 then old(noncer.nonces) else old(noncer.nonces)[addr := first + i]
        invariant promoted == readies[..i]
      {
        PromoteRound(pending, old(pending), readies, i, addr, first, config.priceBump);
        assert readies[i] in FirstTxs(readies, |readies|);
        var ok := PromoteTx(readies[i], now);
        if ok {
          promoted := promoted + [readies[i]];
        }
      }
    }

    /** How many future transactions an account may queue: locals have no limit. */
    function QueueLimit(a: Address): Option<nat>
      reads this
    {
      if a in locals then None else Some(config.accountQueue)
    }

    /** Removes what is too old or too costly in a list from the lookup. */
    method DropUnpayable(list: TxList, nonce: nat, balance: int) returns (affordable: TxList, removed: nat)
      requires lookup.Valid()
      requires var l1 := list.Forward(nonce);
               var l2 := l1.Filter(balance, maxGas);
               Gone(list, l1) + Gone(l1, l2) <= lookup.all && Gone(list, l1) !! Gone(l1, l2)
      modifies lookup
      ensures lookup.Valid() && affordable == list.Forward(nonce).Filter(balance, maxGas)
      ensures var l1 := list.Forward(nonce);
              && lookup.all == old(lookup.all) - (Gone(list, l1) + Gone(l1, affordable))
              && removed == |Gone(list, l1)| + |Gone(l1, affordable)|
    {
      hide TxList.Forward, TxList.Filter, Gone;
      var current := list.Forward(nonce);
      var forwards := Gone(list, current);
      lookup.RemoveEach(forwards);
      affordable := current.Filter(balance, maxGas);
      var drops := Gone(current, affordable);
      lookup.RemoveEach(drops);
      removed := |forwards| + |drops|;
    }

    /** The first part of a round of promoteExecutables: takes the list of addr apart, removing
        what is too old, too costly or over the limit and promoting the run that became
        executable. removed counts what left the lookup. */
    method TakeApart(addr: Address, now: int) returns (promoted: seq<Tx>, rest: TxList, removed: nat)
      requires Wired() && Partition(pending, queue, lookup.all) && addr in queue
      modifies this`pending, this`beats, lookup, priced, noncer
      ensures Wired() && ListsOk(pending, true) && NonEmpty(pending)
      ensures var l, start := queue[addr], NonceIn(state, old(noncer.nonces), addr);
              var nonce, balance := state.GetNonce(addr), state.GetBalance(addr);
              && rest == RestOf(l, nonce, balance, maxGas, start, QueueLimit(addr))
              && promoted == ReadyOf(l, nonce, balance, maxGas, start)
      ensures var on := FirstTxs(promoted, |promoted|);
              && Joined(pending, old(pending), on) && on <= Gone(queue[addr], rest) <= old(lookup.all)
              && lookup.all == old(lookup.all) - (Gone(queue[addr], rest) - on)
              && removed == |Gone(queue[addr], rest) - on|
      ensures priced.items == old(priced.items) && priced.stales == old(priced.stales)
      ensures Shrinks(queue[addr], rest) && rest.Valid(addr)
      ensures Raised(state, old(noncer.nonces), noncer.nonces, addr, promoted)
    {
      hide ListsOk, NonEmpty, NoClash, Covers, HeapOk, TxList.Valid, TxList.Forward, TxList.Filter, TxList.Ready,
        TxList.AfterReady, Capped, Gone, Joined, IsRun, Shrinks, PlacesFree, FirstTxs, Raised, FirstNonce;
      var list := queue[addr];
      var nonce, balance := state.GetNonce(addr), state.GetBalance(addr);
      PromotionFacts(pending, queue, lookup.all, addr, nonce, balance, maxGas,
                     NonceIn(state, noncer.nonces, addr), QueueLimit(addr));
      var affordable, dropped := DropUnpayable(list, nonce, balance);
      var start := noncer.Get(addr);
      var readies := affordable.Ready(start);
      var future := affordable.AfterReady(start);
      ghost var read := noncer.nonces;
      promoted := PromoteEach(readies, addr, FirstNonce(readies), now);
      RaisedBy(state, old(noncer.nonces), read, noncer.nonces, addr, promoted);
      rest := Capped(future, QueueLimit(addr));
      var caps := Gone(future, rest);
      lookup.RemoveEach(caps);
      removed := dropped + |caps|;
      ghost var current := list.Forward(nonce);
      assert Gone(list, rest) - FirstTxs(readies, |readies|) == Gone(list, current) + Gone(current, affordable) + caps;
    }

    /** One round of promoteExecutables. */
    method PromoteAccount(addr: Address, now: int) returns (promoted: seq<Tx>)
      requires Valid() && addr in queue
      modifies this`pending, this`queue, this`beats, lookup, priced, noncer
      ensures Valid()
      ensures var l, start := old(queue)[addr], NonceIn(state, old(noncer.nonces), addr);
              var nonce, balance := state.GetNonce(addr), state.GetBalance(addr);
              var rest := RestOf(l, nonce, balance, maxGas, start, QueueLimit(addr));
              && promoted == ReadyOf(l, nonce, balance, maxGas, start)
              && queue == Put(old(queue), addr, rest)
              && Joined(pending, old(pending), FirstTxs(promoted, |promoted|))
              && lookup.all == old(lookup.all) - (Gone(l, rest) - FirstTxs(promoted, |promoted|))
      ensures Raised(state, old(noncer.nonces), noncer.nonces, addr, promoted)
      ensures Drained(addr) && WithinLimit(addr) && Within(old(pending), pending)
      ensures (old(Interval()) ==> Interval()) && (Mending() <==> old(Mending()))
      ensures old(AllAffordable()) ==> AllAffordable()
    {
      hide ListsOk, NonEmpty, NoClash, Covers, HeapOk, TxList.Valid, Put, Gone, Joined, FloorOk, Shrinks, FirstTxs,
        RestOf, ReadyOf, Raised, Executable, AllMend, Has, NonceIn, Partition, Affordable, Within;
      ghost var all, pending0, nonces := lookup.all, pending, noncer.nonces;
      var rest, removed;
      promoted, rest, removed := TakeApart(addr, now);
      ghost var out := Gone(queue[addr], rest) - FirstTxs(promoted, |promoted|);
      HeapRemove(priced.items, all, out, priced.stales);
      priced.Removed(removed);
      QueueShrinks(pending0, queue, all, addr, rest, pending, FirstTxs(promoted, |promoted|));
      FloorShrinks(all, lookup.all, locals, gasPrice);
      JoinedWithin(pending, pending0, FirstTxs(promoted, |promoted|));
      if old(AllAffordable()) {
        PromoteAffordable(pending0, queue, all, pending, state, maxGas, addr, NonceIn(state, nonces, addr));
      }
      PutHas(queue, addr, rest);
      PromotedNonces(pending0, queue, all, pending, state, maxGas, nonces, noncer.nonces, addr, promoted, rest,
                     QueueLimit(addr));
      PromoteMendsEach(pending0, queue, all, pending, state, maxGas, nonces, noncer.nonces, addr, promoted, rest);
      queue := Put(queue, addr, rest);
      if rest.txs == map[] {
        beats := beats - {addr};
      }
    }

    /** promoteExecutables. Afterwards nothing executable is queued for these accounts. */
    method PromoteExecutables(accounts: seq<Address>, now: int) returns (promoted: seq<Tx>)
      requires Valid()
      modifies this`pending, this`queue, this`beats, lookup, priced, noncer
      ensures Valid() && lookup.all <= old(lookup.all)
      ensures (old(Interval()) ==> Interval()) && (Mending() <==> old(Mending()))
      ensures Within(old(pending), pending) && (old(AllAffordable()) ==> AllAffordable())
      ensures queue.Keys <= old(queue).Keys
      ensures forall a :: a in accounts ==> Drained(a) && WithinLimit(a)
      ensures forall t :: t in promoted ==> Holds(pending, t)
    {
      hide Partition, HeapOk, FloorOk, Executable, AllMend, RestOf, ReadyOf, Affordable;
      promoted := [];
      for i := 0 to |accounts|
        invariant Valid() && lookup.all <= old(lookup.all)
        invariant (old(Interval()) ==> Interval()) && (Mending() <==> old(Mending()))
        invariant queue.Keys <= old(queue).Keys
        invariant Within(old(pending), pending) && (old(AllAffordable()) ==> AllAffordable())
        invariant forall j :: 0 <= j < i ==> Drained(accounts[j]) && WithinLimit(accounts[j])
        invariant forall t :: t in promoted ==> Holds(pending, t)
      {
        var addr := accounts[i];
        if addr !in queue {
          continue;
        }
        ghost var queue0, nonces := queue, noncer.nonces;
        var more := PromoteAccount(addr, now);
        promoted := promoted + more;
        forall j | 0 <= j < i && accounts[j] != addr ensures Drained(accounts[j]) && WithinLimit(accounts[j]) {
          OthersDrained(queue0, addr, ListOf(queue, addr, false), state, nonces, noncer.nonces, more, accounts[j]);
        }
      }
    }

    /** Removes old and unpayable transactions from the lookup and tells the heap. */
    method DropOld(olds: set<Tx>, drops: set<Tx>)
      requires Wired() && HeapFits() && olds + drops <= lookup.all && |olds + drops| == |olds| + |drops|
      requires olds !! drops
      modifies lookup, priced
      ensures Wired() && HeapFits() && lookup.all == old(lookup.all) - (olds + drops)
    {
      hide HeapOk;
      HeapRemove(priced.items, lookup.all, olds + drops, priced.stales);
      lookup.RemoveEach(olds);
      lookup.RemoveEach(drops);
      assert lookup.all == old(lookup.all) - (olds + drops);
      priced.Removed(|olds| + |drops|);
    }

    /** The two loops of demoteUnexecutables that postpone transactions. */
    method Postpone(invalids: set<Tx>, gapped: set<Tx>, now: int)
      requires Wired() && ListsOk(queue, false) && NonEmpty(queue)
      requires invalids !! gapped && invalids + gapped <= lookup.all
      requires DistinctPlaces(invalids + gapped) && PlacesFree(queue, invalids + gapped)
      modifies this`queue, this`beats, lookup, priced
      ensures Wired() && ListsOk(queue, false) && NonEmpty(queue)
      ensures Joined(queue, old(queue), invalids + gapped) && lookup.all == old(lookup.all)
      ensures priced.items == old(priced.items) && priced.stales == old(priced.stales)
    {
      hide ListsOk, NonEmpty, DistinctPlaces, PlacesFree, Joined;
      SomePlaces(queue, invalids + gapped, invalids);
      SomePlaces(queue, invalids + gapped, gapped);
      EnqueueEach(invalids, now);
      StillFree(queue, old(queue), invalids, gapped);
      ghost var middle := queue;
      EnqueueEach(gapped, now);
      JoinedTwice(queue, middle, old(queue), invalids, gapped);
    }

    /** The end of a round of demoteUnexecutables: the pending list is cut to rest, whose lookup and
        heap entries are settled, and what is postponed joins the queue. */
    method CutPending(addr: Address, rest: TxList, invalids: set<Tx>, gapped: set<Tx>, ghost all: set<Tx>, now: int)
      requires Wired() && HeapFits() && Floor() && Partition(pending, queue, all) && addr in pending
      requires Shrinks(pending[addr], rest) && rest.Valid(addr)
      requires invalids !! gapped && invalids + gapped <= Gone(pending[addr], rest)
      requires DistinctPlaces(invalids + gapped) && PlacesFree(queue, invalids + gapped)
      requires invalids + gapped <= lookup.all && lookup.all == all - (Gone(pending[addr], rest) - (invalids + gapped))
      modifies this`pending, this`queue, this`beats, lookup, priced
      ensures Valid() && pending == Put(old(pending), addr, rest) && lookup.all == old(lookup.all)
      ensures Joined(queue, old(queue), invalids + gapped)
    {
      hide ListsOk, NonEmpty, NoClash, Covers, HeapOk, DistinctPlaces, PlacesFree, Joined, Gone, Shrinks, TxList.Valid,
        Put, FloorOk;
      Postpone(invalids, gapped, now);
      PendingShrinks(pending, old(queue), all, addr, rest, queue, invalids + gapped);
      pending := Put(pending, addr, rest);
    }

    /** One round of demoteUnexecutables: what is too old or too costly leaves the pool, what
        stood behind it goes back to the queue. */
    method DemoteAccount(addr: Address, now: int)
      requires Valid() && addr in pending
      modifies this`pending, this`queue, this`beats, lookup, priced
      ensures Valid()
      ensures var l := old(pending)[addr];
              var nonce, balance := state.GetNonce(addr), state.GetBalance(addr);
              var l' := StaysPending(l, nonce, balance, maxGas);
              var out := LeavesPool(l, nonce, balance, maxGas);
              && pending == Put(old(pending), addr, l')
              && lookup.all == old(lookup.all) - out
              && Joined(queue, old(queue), Gone(l, l') - out)
    {
      hide ListsOk, NonEmpty, NoClash, Covers, HeapOk, DistinctPlaces, PlacesFree, Joined, Gone, Shrinks, TxList.Valid,
        TxList.Forward, TxList.Filter, Degapped, OverOf, Put, FloorOk, StaysPending, LeavesPool;
      ghost var all := lookup.all;
      var list := pending[addr];
      var nonce, balance := state.GetNonce(addr), state.GetBalance(addr);
      DemotionFacts(pending, queue, all, addr, nonce, balance, maxGas);
      DemotionParts(list, nonce, balance, maxGas);
      var current := list.Forward(nonce);
      var affordable := current.Filter(balance, maxGas);
      var olds, cut := Gone(list, current), Gone(current, affordable);
      var drops := OverOf(cut, balance, maxGas);
      DropOld(olds, drops);
      var invalids := cut - drops;
      var rest := Degapped(affordable, nonce);
      var gapped := Gone(affordable, rest);
      DemotionSets(all, Gone(list, rest), olds, cut, drops, gapped);
      SomePlaces(queue, Gone(list, rest), invalids + gapped);
      FloorShrinks(all, lookup.all, locals, gasPrice);
      CutPending(addr, rest, invalids, gapped, all, now);
    }

    /** The pending list of a starts at the state nonce and is payable. */
    ghost predicate PayableAccount(a: Address)
      reads this
    {
      a in pending ==> Payable(pending[a], state.GetNonce(a), state.GetBalance(a), maxGas)
    }

    lemma EachPayable()
      requires forall a :: a in pending ==> PayableAccount(a)
      ensures AllPayable(pending, state, maxGas)
    {
      hide Payable;
      forall a | a in pending ensures Payable(pending[a], state.GetNonce(a), state.GetBalance(a), maxGas) {
        assert PayableAccount(a);
      }
    }

    /** demoteUnexecutables. Afterwards every pending list starts at the state nonce and all of
        it is payable. */
    method DemoteUnexecutables(now: int)
      requires Valid()
      modifies this`pending, this`queue, this`beats, lookup, priced
      ensures Valid() && lookup.all <= old(lookup.all)
      ensures AllPayable(pending, state, maxGas) && AllAffordable() && Within(pending, old(pending))
      ensures Settled(pending, state, noncer.nonces) <==>
              forall a :: Idle(old(pending), state, noncer.nonces, maxGas, a).Mends()
    {
      hide Partition, HeapOk, FloorOk, Account.Mends, HalfMended, Settled, Payable, StaysPending, LeavesPool, Joined,
        TxList.Valid, Within, Affordable, AllPayable, Idle;
      SameWithin(pending);
      StartHalfMended(pending, state, noncer.nonces, maxGas);
      var todo := pending.Keys;
      while todo != {}
        invariant Valid() && lookup.all <= old(lookup.all) && todo <= pending.Keys
        invariant forall a :: a in pending && a !in todo ==> PayableAccount(a)
        invariant Within(pending, old(pending))
        invariant HalfMended(old(pending), pending, state, noncer.nonces, maxGas, todo)
        decreases todo
      {
        var addr :| addr in todo;
        ghost var pending0 := pending;
        QueueList(pending, queue, lookup.all, addr);
        StaysPayable(pending[addr], addr, state.GetNonce(addr), state.GetBalance(addr), maxGas);
        DemotedWithin(pending, queue, lookup.all, addr, state.GetNonce(addr), state.GetBalance(addr), maxGas);
        DemoteAccount(addr, now);
        WithinTwice(pending, pending0, old(pending));
        StepHalfMended(old(pending), pending0, state, noncer.nonces, maxGas, todo, addr, pending);
        todo := todo - {addr};
      }
      EndHalfMended(old(pending), pending, state, noncer.nonces, maxGas);
      assert AllPayable(pending, state, maxGas) by {
        EachPayable();
      }
      PayableAffordable(pending, queue, lookup.all, state, maxGas);
    }

    /** list.Cap(list.Len() - 1) with its bookkeeping: drops the highest nonce of an account. */
    method DropHighest(addr: Address)
      requires Valid() && addr in pending && |pending[addr].txs| >= 2
      modifies this`pending, lookup, priced, noncer
      ensures Valid() && lookup.all <= old(lookup.all)
      ensures pending == old(pending)[addr := old(pending)[addr].Cap(|old(pending)[addr].txs| - 1)]
      ensures |pending[addr].txs| == |old(pending)[addr].txs| - 1
      ensures Lowered(state, old(noncer.nonces), noncer.nonces, addr, old(pending)[addr].LastElement().nonce)
    {
      hide ListsOk, NonEmpty, NoClash, Covers, HeapOk, Shrinks, TxList.Valid, TxList.Cap, Gone, FloorOk, Joined,
        Lowered, DistinctPlaces, PlacesFree, TxList.LastElement;
      ghost var all := lookup.all;
      var list := pending[addr];
      QueueList(pending, queue, all, addr);
      CapOne(list, addr);
      var rest := list.Cap(|list.txs| - 1);
      var caps := Gone(list, rest);
      GoneFromPending(pending, queue, all, addr, rest);
      HeapRemove(priced.items, all, caps, priced.stales);
      lookup.RemoveEach(caps);
      noncer.SetIfLower(addr, list.LastElement().nonce);
      priced.Removed(|caps|);
      SameJoined(queue);
      PendingShrinks(pending, queue, all, addr, rest, queue, {});
      assert all - (caps - {}) == lookup.all;
      FloorShrinks(all, lookup.all, locals, gasPrice);
      pending := pending[addr := rest];
    }

    /** The state of truncatePending: lists only trimmed since m0, and a counter that is the real
        number of pending transactions. */
    ghost predicate Cutting(m0: Lists, n0: map<Address, nat>, total: int)
      reads this, lookup, priced, noncer
    {
      && Valid() && Trims(m0, pending, locals, config.accountSlots) && total == Total(pending)
      && (forall b :: b !in m0 ==> NonceIn(state, noncer.nonces, b) == NonceIn(state, n0, b))
    }

    ghost predicate Level(offenders: seq<Address>, n: nat, length: nat)
      reads this
      requires n <= |offenders|
    {
      forall j :: 0 <= j < n ==> HasLength(pending, offenders[j], length) && offenders[j] !in locals
    }

    method CutOne(addr: Address, ghost total: int, ghost m0: Lists, ghost n0: map<Address, nat>)
      requires Cutting(m0, n0, total) && addr in pending && addr !in locals && |pending[addr].txs| > config.accountSlots
      modifies this`pending, lookup, priced, noncer
      ensures Cutting(m0, n0, total - 1) && lookup.all <= old(lookup.all)
      ensures pending == old(pending)[addr := pending[addr]] && addr in pending
      ensures |pending[addr].txs| == |old(pending)[addr].txs| - 1
    {
      hide Partition, HeapOk, FloorOk, Trims, Total, Lowered, TxList.Cap;
      TrimsStep(m0, pending, locals, config.accountSlots, addr);
      TrimsKeys(m0, pending, locals, config.accountSlots);
      TotalUpdate(pending, addr, pending[addr].Cap(|pending[addr].txs| - 1));
      ghost var nonces, top := noncer.nonces, pending[addr].LastElement().nonce;
      DropHighest(addr);
      LoweredOthers(state, nonces, noncer.nonces, addr, top);
    }

    /** One round over the first n offenders, all of the same length: each loses its highest
        nonce. */
    method DropRound(offenders: seq<Address>, n: nat, ghost length: nat, total: nat,
                     ghost m0: Lists, ghost n0: map<Address, nat>) returns (left: int)
      requires n <= |offenders| && Distinct(offenders)
      requires Cutting(m0, n0, total) && Level(offenders, n, length) && length > config.accountSlots
      modifies this`pending, lookup, priced, noncer
      ensures Cutting(m0, n0, left) && left == total - n && Level(offenders, n, length - 1)
      ensures pending.Keys == old(pending).Keys && lookup.all <= old(lookup.all)
      ensures forall a :: a in pending && a !in offenders[..n] ==> pending[a] == old(pending)[a]
    {
      hide Cutting, MidRound, HasLength, Distinct;
      RoundStart(pending, offenders, n, length - 1);
      left := total;
      for i := 0 to n
        invariant Cutting(m0, n0, left) && left == total - i && lookup.all <= old(lookup.all)
        invariant MidRound(old(pending), pending, offenders, i, n, length - 1)
      {
        ghost var before := pending;
        RoundAt(old(pending), pending, offenders, i, n, length - 1);
        CutOne(offenders[i], left, m0, n0);
        RoundStep(old(pending), before, offenders, i, n, length - 1, pending[offenders[i]]);
        left := left - 1;
      }
      RoundEnd(old(pending), pending, offenders, n, length - 1);
    }

    /** The loops of truncatePending: rounds over the first n offenders, all of the same length,
        until the pool is within its limit or they are down to floor. */
    method CutDown(offenders: seq<Address>, n: nat, ghost length: nat, floor: nat, total: nat,
                   ghost m0: Lists, ghost n0: map<Address, nat>) returns (left: int, ghost length': nat)
      requires 1 <= n <= |offenders| && Distinct(offenders)
      requires Cutting(m0, n0, total) && Level(offenders, n, length) && length >= floor >= config.accountSlots
      modifies this`pending, lookup, priced, noncer
      ensures Cutting(m0, n0, left) && left <= total && Level(offenders, n, length') && floor <= length' <= length
      ensures left <= config.globalSlots || length' == floor
      ensures total > config.globalSlots ==> left > config.globalSlots - n
      ensures total <= config.globalSlots ==> left == total
      ensures pending.Keys == old(pending).Keys && lookup.all <= old(lookup.all)
      ensures forall a :: a in pending && a !in offenders[..n] ==> pending[a] == old(pending)[a]
    {
      hide Cutting, Total;
      left, length' := total, length;
      while left > config.globalSlots && |pending[offenders[n - 1]].txs| > floor
        invariant Cutting(m0, n0, left) && left <= total && Level(offenders, n, length') && floor <= length' <= length
        invariant total > config.globalSlots ==> left > config.globalSlots - n
        invariant total <= config.globalSlots ==> left == total
        invariant pending.Keys == old(pending).Keys && lookup.all <= old(lookup.all)
        invariant forall a :: a in pending && a !in offenders[..n] ==> pending[a] == old(pending)[a]
        decreases length'
      {
        assert HasLength(pending, offenders[n - 1], length');
        left := DropRound(offenders, n, length', left, m0, n0);
        length' := length' - 1;
      }
      assert HasLength(pending, offenders[n - 1], length');
    }

    /** The counting loops of truncatePending and truncateQueue. */
    static method Count(lists: Lists) returns (n: nat)
      ensures n == Total(lists)
    {
      hide Total;
      n := 0;
      var todo := lists;
      EmptyTotal();
      while todo != map[]
        invariant n + Total(todo) == Total(lists)
        decreases |todo|
      {
        var a :| a in todo;
        TotalRemove(todo, a);
        RemoveSmaller(todo, a);
        n := n + |todo[a].txs|;
        todo := todo - {a};
      }
    }

    /** spammers.Pop: one of the accounts with the most transactions. */
    method PopLongest(spammers: set<Address>) returns (a: Address)
      requires spammers != {} && spammers <= pending.Keys
      ensures a in spammers && Longest(pending, spammers, a)
    {
      assert exists x :: x in spammers && Longest(pending, spammers, x) by {
        var x := LongestOf(pending, spammers);
      }
      a :| a in spammers && forall b :: b in spammers && b in pending ==> |pending[b].txs| <= |pending[a].txs|;
    }

    /** One round of the offender loop: the next account in the spam order joins the offenders,
        and the earlier ones are cut to its length. */
    method NextOffender(total: nat, offenders: seq<Address>, spammers: set<Address>, ghost length: nat,
                        ghost all: set<Address>, ghost m0: Lists, ghost n0: map<Address, nat>)
      returns (left: int, offenders': seq<Address>, spammers': set<Address>, ghost length': nat)
      requires total > config.globalSlots && spammers != {} && all == Spammers(m0, locals, config.accountSlots)
      requires Cutting(m0, n0, total) && Ranked(pending, m0, all, offenders, spammers, length)
      modifies this`pending, lookup, priced, noncer
      ensures Cutting(m0, n0, left) && pending.Keys == old(pending).Keys && lookup.all <= old(lookup.all)
      ensures left > config.globalSlots - |all| && spammers' < spammers
      ensures left > config.globalSlots ==>
                Ranked(pending, m0, all, offenders', spammers', length') && length' > config.accountSlots
    {
      hide Cutting, Ranked, Distinct, AllLength, Total;
      RankedFacts(pending, m0, all, offenders, spammers, length, locals, config.accountSlots);
      assert spammers <= pending.Keys;
      var a := PopLongest(spammers);
      spammers', offenders' := spammers - {a}, offenders + [a];
      AppendDistinct(offenders, a);
      ghost var m := pending;
      left, length' := total, |pending[a].txs|;
      if |offenders'| > 1 {
        var threshold := |pending[a].txs|;
        ghost var reached;
        left, reached := CutDown(offenders', |offenders'| - 1, length, threshold, total, m0, n0);
        assert offenders'[..|offenders|] == offenders;
        if left > config.globalSlots {
          SameLength(pending, offenders, offenders', threshold);
          RankedNext(m, pending, m0, all, offenders, spammers, length, a);
        }
      } else {
        SameLength(pending, offenders, offenders', length');
        RankedNext(m, pending, m0, all, offenders, spammers, length, a);
      }
    }

    /** truncatePending. It ends within the global limit or with every non-local account at its
        guaranteed slots; it never touches local accounts or those within their slots, takes no
        account below them, and always removes from the highest nonce down. It overshoots the
        limit by less than one round. */
    method TruncatePending()
      requires Valid()
      modifies this`pending, lookup, priced, noncer
      ensures Valid() && lookup.all <= old(lookup.all)
      ensures Trims(old(pending), pending, locals, config.accountSlots)
      ensures Total(pending) <= config.globalSlots ||
              forall a :: a in pending ==> a in locals || |pending[a].txs| <= config.accountSlots
      ensures Total(old(pending)) <= config.globalSlots ==> pending == old(pending)
      ensures Total(old(pending)) > config.globalSlots ==> Total(pending) + |pending| > config.globalSlots
      ensures forall b :: b !in old(pending) ==>
                NonceIn(state, noncer.nonces, b) == NonceIn(state, old(noncer.nonces), b)
    {
      hide Partition, HeapOk, FloorOk, Trims, Total, Ranked, AllLength, Distinct, Spammers;
      ghost var m0, n0 := pending, noncer.nonces;
      TrimsStart(m0, locals, config.accountSlots);
      var total: int := Count(pending);
      if total <= config.globalSlots {
        return;
      }
      var offenders, spammers := [], Spammers(pending, locals, config.accountSlots);
      ghost var all, length: nat := spammers, config.accountSlots;
      SpammersFew(pending, locals, config.accountSlots);
      RankedStart(pending, all, length);
      while total > config.globalSlots && spammers != {}
        invariant Cutting(m0, n0, total) && pending.Keys == m0.Keys && lookup.all <= old(lookup.all)
        invariant total > config.globalSlots - |all|
        invariant total > config.globalSlots ==>
                    Ranked(pending, m0, all, offenders, spammers, length) && length >= config.accountSlots
        decreases spammers
      {
        total, offenders, spammers, length := NextOffender(total, offenders, spammers, length, all, m0, n0);
      }
      if total > config.globalSlots {
        total := CutToSlots(total, offenders, length, all, m0, n0);
      }
      assert |pending| == |m0| by {
        assert |pending.Keys| == |m0.Keys|;
      }
    }

    /** The last part of truncatePending: all offenders have the same length and no other account
        may be cut. */
    method CutToSlots(total: nat, offenders: seq<Address>, ghost length: nat, ghost all: set<Address>,
                      ghost m0: Lists, ghost n0: map<Address, nat>) returns (left: int)
      requires total > config.globalSlots && all == Spammers(m0, locals, config.accountSlots)
      requires Cutting(m0, n0, total) && length >= config.accountSlots
      requires Ranked(pending, m0, all, offenders, {}, length)
      modifies this`pending, lookup, priced, noncer
      ensures Cutting(m0, n0, left) && pending.Keys == old(pending).Keys && lookup.all <= old(lookup.all)
      ensures left > config.globalSlots - |all| || left == total
      ensures left <= config.globalSlots ||
              forall a :: a in pending ==> a in locals || |pending[a].txs| <= config.accountSlots
    {
      hide Partition, HeapOk, FloorOk, Trims, Total, Ranked, AllLength, Distinct, Spammers;
      RankedFacts(pending, m0, all, offenders, {}, length, locals, config.accountSlots);
      left := total;
      ghost var reached := config.accountSlots;
      if |offenders| > 0 {
        left, reached := CutDown(offenders, |offenders|, length, config.accountSlots, total, m0, n0);
      }
      if left > config.globalSlots {
        SameLength(pending, offenders, offenders, config.accountSlots);
        TruncatedBound(pending, m0, locals, config.accountSlots, offenders);
      }
    }

    /** removeTx on a queued transaction of addr, as the queue limits use it. */
    method RemoveFromQueue(tx: Tx, now: int)
      requires Valid() && Holds(queue, tx)
      modifies this`pending, this`queue, this`beats, lookup, priced, noncer
      ensures Valid() && pending == old(pending) && noncer.nonces == old(noncer.nonces)
      ensures lookup.all == old(lookup.all) - {tx}
      ensures queue == Put(old(queue), tx.sender, old(queue)[tx.sender].Remove(tx.nonce))
      ensures SameBeats(old(beats), beats, tx.sender)
    {
      hide Partition, HeapOk, FloorOk, Put, TxList.Remove;
      QueuedIsPooled(pending, queue, lookup.all, tx);
      FloorShrinks(lookup.all, lookup.all - {tx}, locals, gasPrice);
      RemoveTx(tx, true, now);
    }

    /** Removes every queued transaction of an account. */
    method RemoveAccount(addr: Address, now: int)
      requires Valid() && addr in queue
      modifies this`pending, this`queue, this`beats, lookup, priced, noncer
      ensures Valid() && pending == old(pending) && noncer.nonces == old(noncer.nonces)
      ensures queue == old(queue) - {addr} && lookup.all <= old(lookup.all) && SameBeats(old(beats), beats, addr)
    {
      hide Partition, HeapOk, FloorOk, Put, TxList.Remove;
      while addr in queue
        invariant Valid() && pending == old(pending) && noncer.nonces == old(noncer.nonces)
        invariant queue - {addr} == old(queue) - {addr} && lookup.all <= old(lookup.all)
        invariant SameBeats(old(beats), beats, addr)
        decreases if addr in queue then |queue[addr].txs| + 1 else 0
      {
        var n := SomeNonce(addr);
        QueuedHolds(pending, queue, lookup.all, addr, n);
        RemoveFewer(queue[addr], n);
        PutWithout(queue, addr, queue[addr].Remove(n));
        PutAt(queue, addr, queue[addr].Remove(n), n);
        RemoveFromQueue(queue[addr].txs[n], now);
      }
      assert queue - {addr} == queue;
    }

    method SomeNonce(addr: Address) returns (n: nat)
      requires Valid() && addr in queue
      ensures n in queue[addr].txs
    {
      n :| n in queue[addr].txs;
    }

    /** Removes the highest nonces of a queued list one by one, k of them but not all. */
    method RemoveTop(addr: Address, k: nat, now: int)
      requires Valid() && addr in queue && k < |queue[addr].txs|
      modifies this`pending, this`queue, this`beats, lookup, priced, noncer
      ensures Valid() && pending == old(pending) && noncer.nonces == old(noncer.nonces)
      ensures queue == old(queue)[addr := old(queue)[addr].Cap(|old(queue)[addr].txs| - k)]
      ensures lookup.all <= old(lookup.all) && SameBeats(old(beats), beats, addr)
    {
      hide Partition, HeapOk, FloorOk, TxList.Cap, TxList.Remove, TxList.LastElement;
      ghost var list := queue[addr];
      CapAll(list);
      QueueList(pending, queue, lookup.all, addr);
      assert queue == queue[addr := list];
      for i := 0 to k
        invariant Valid() && pending == old(pending) && noncer.nonces == old(noncer.nonces)
        invariant queue == old(queue)[addr := list.Cap(|list.txs| - i)] && lookup.all <= old(lookup.all)
        invariant SameBeats(old(beats), beats, addr)
      {
        CapStep(list, |list.txs| - i);
        var top := queue[addr].LastElement();
        QueuedTop(pending, queue, lookup.all, addr);
        RemoveFromQueue(top, now);
        assert queue == old(queue)[addr := list.Cap(|list.txs| - (i + 1))];
      }
    }

    /** The end of the list of addresses sorted by heartbeat. */
    method PopNewest(addresses: set<Address>) returns (a: Address)
      requires addresses != {}
      ensures a in addresses && Newest(beats, addresses, a)
    {
      assert exists x :: x in addresses && Newest(beats, addresses, x) by {
        var x := NewestOf(beats, addresses);
      }
      a :| a in addresses && forall b :: b in addresses ==> Beat(beats, b) <= Beat(beats, a);
    }

    /** One round of truncateQueue on the most recently active account. */
    method DropNext(excess: int, addresses: set<Address>, ghost q0: Lists, ghost b0: map<Address, int>, now: int)
      returns (drop: int, rest: set<Address>)
      requires Valid() && excess > 0 && addresses != {} && Total(queue) == config.globalQueue + excess
      requires QueueCut(q0, queue, locals, b0, addresses) && Exhausted(queue, locals, addresses)
      requires forall a :: a in addresses ==> Beat(beats, a) == Beat(b0, a)
      modifies this`pending, this`queue, this`beats, lookup, priced, noncer
      ensures Valid() && pending == old(pending) && noncer.nonces == old(noncer.nonces)
      ensures drop >= 0 && Total(queue) == config.globalQueue + drop && lookup.all <= old(lookup.all)
      ensures QueueCut(q0, queue, locals, b0, rest) && (drop > 0 ==> Exhausted(queue, locals, rest))
      ensures rest < addresses && forall a :: a in rest ==> Beat(beats, a) == Beat(b0, a)
    {
      hide Partition, HeapOk, FloorOk, Total, TxList.Cap, QueueCut, Exhausted, Beat;
      var addr := PopNewest(addresses);
      assert Newest(b0, addresses, addr);
      rest := addresses - {addr};
      WaitingIntact(q0, queue, locals, b0, addresses, addr);
      var size := |queue[addr].txs|;
      TotalRemove(queue, addr);
      if size <= excess {
        QueueCutWhole(q0, queue, locals, b0, addresses, addr);
        RemoveAccount(addr, now);
        drop := excess - size;
      } else {
        QueueCutPart(q0, queue, locals, b0, addresses, addr, size - excess);
        TotalUpdate(queue, addr, queue[addr].Cap(size - excess));
        CapLength(queue[addr], size - excess);
        RemoveTop(addr, excess, now);
        drop := 0;
      }
    }

    /** truncateQueue drops exactly the excess over the limit, or all queued transactions of
        non-local accounts if that is not enough. Local accounts are not touched, whole accounts
        go in the order of the most recent activity, and the last one loses its highest nonces. */
    method TruncateQueue(now: int)
      requires Valid()
      modifies this`pending, this`queue, this`beats, lookup, priced, noncer
      ensures Valid() && pending == old(pending) && noncer.nonces == old(noncer.nonces)
      ensures lookup.all <= old(lookup.all)
      ensures Total(old(queue)) <= config.globalQueue ==> queue == old(queue)
      ensures Total(old(queue)) > config.globalQueue ==>
                Total(queue) == config.globalQueue || (Total(queue) > config.globalQueue && queue.Keys <= locals)
      ensures CutLists(old(queue), queue) && Untouched(old(queue), queue, locals)
      ensures OldestKept(old(queue), queue, locals, old(beats))
    {
      hide Partition, HeapOk, FloorOk, Total, QueueCut, CutLists, Untouched, OldestKept, Beat;
      var queued := Count(queue);
      QueueCutStart(queue, locals, beats);
      ghost var q0, b0 := queue, beats;
      if queued <= config.globalQueue {
        NewestGoFirst(q0, queue, locals, b0, set a | a in queue && a !in locals);
        return;
      }
      var addresses := set a | a in queue && a !in locals;
      var drop := queued - config.globalQueue;
      while drop > 0 && addresses != {}
        invariant Valid() && pending == old(pending) && noncer.nonces == old(noncer.nonces)
        invariant drop >= 0 && Total(queue) == config.globalQueue + drop && lookup.all <= old(lookup.all)
        invariant QueueCut(q0, queue, locals, b0, addresses)
        invariant drop > 0 ==> Exhausted(queue, locals, addresses)
        invariant forall a :: a in addresses ==> Beat(beats, a) == Beat(b0, a)
        decreases addresses
      {
        drop, addresses := DropNext(drop, addresses, q0, b0, now);
      }
      NewestGoFirst(q0, queue, locals, b0, addresses);
    }

    /** addTxsLocked: adds the transactions in turn. An account is dirty exactly if one of its
        transactions was accepted without replacing another. */
    method AddTxsLocked(txs: seq<Tx>, local: bool, now: int)
        returns (errs: seq<Verdict>, dirty: set<Address>, ghost steps: seq<AddStep>)
      requires Valid()
      modifies this`pending, this`queue, this`beats, this`locals, lookup, priced, noncer
      ensures Valid() && (old(Interval()) ==> Interval()) && old(locals) <= locals
      ensures AddedAll(steps, txs, local, gasPrice, state, config)
      ensures Chained(steps, old(Views()), Views(), old(priced.Heap()), priced.Heap())
      ensures |errs| == |txs| && forall i :: 0 <= i < |txs| ==> errs[i] == steps[i].err
      ensures DirtyOf(dirty, txs, steps)
      ensures lookup.all <= old(lookup.all) + set t | t in txs
      ensures old(AllAffordable()) && (forall t :: t in txs ==> t.gas <= maxGas) ==> AllAffordable()
      ensures Sank(state, old(noncer.nonces), noncer.nonces, TakenAll(steps))
      ensures (forall i :: 0 <= i < |txs| ==> !config.Full(steps[i].before.all)) ==>
                noncer.nonces == old(noncer.nonces)
    {
      hide Partition, HeapOk, FloorOk, Executable, Admits, Inserted, Placed, TxAdded, HeapAdded, Chained, Affordable,
        Sank, Taken, Config.Full, AddedFirst, DirtyOf;
      errs, dirty, steps := [], {}, [];
      NoSteps(Views(), priced.Heap(), txs, local, gasPrice, state, config);
      NoneSank(state, noncer.nonces);
      for i := 0 to |txs|
        invariant Valid() && (old(Interval()) ==> Interval()) && old(locals) <= locals
        invariant |errs| == |steps| == i
        invariant Chained(steps, old(Views()), Views(), old(priced.Heap()), priced.Heap())
        invariant AddedFirst(steps, txs, local, gasPrice, state, config) && DirtyOf(dirty, txs, steps)
        invariant forall j :: 0 <= j < i ==> errs[j] == steps[j].err
        invariant lookup.all <= old(lookup.all) + set t | t in txs
        invariant old(AllAffordable()) && (forall t :: t in txs ==> t.gas <= maxGas) ==> AllAffordable()
        invariant Sank(state, old(noncer.nonces), noncer.nonces, TakenAll(steps))
        invariant (forall j :: 0 <= j < i ==> !config.Full(steps[j].before.all)) ==>
                    noncer.nonces == old(noncer.nonces)
      {
        ghost var view, heap, nonces := Views(), priced.Heap(), noncer.nonces;
        var err, replaced;
        ghost var step;
        err, replaced, step := Add(txs[i], local, now);
        SankTwice(state, old(noncer.nonces), nonces, noncer.nonces, TakenAll(steps), Taken(step));
        TakenSnoc(steps, step);
        ChainedSnoc(steps, old(Views()), view, old(priced.Heap()), heap, step);
        AddedNext(steps, txs, local, gasPrice, state, config, step);
        DirtyNext(dirty, txs, steps, step);
        errs, steps := errs + [err], steps + [step];
        if err == Accepted && !replaced {
          dirty := dirty + {txs[i].sender};
        }
      }
    }

    /** The eviction tick: queued transactions of inactive non-local accounts are removed. */
    method Evict(now: int)
      requires Valid()
      modifies this`pending, this`queue, this`beats, lookup, priced, noncer
      ensures Valid() && pending == old(pending) && (old(Interval()) ==> Interval())
      ensures lookup.all <= old(lookup.all)
      ensures forall a :: a in queue <==>
                a in old(queue) && (a in locals || now - Beat(old(beats), a) <= config.lifetime)
      ensures forall a :: a in queue ==> queue[a] == old(queue)[a]
    {
      hide Partition, HeapOk, FloorOk, Executable;
      var todo := queue.Keys;
      while todo != {}
        invariant Valid() && pending == old(pending) && noncer.nonces == old(noncer.nonces)
        invariant lookup.all <= old(lookup.all) && todo <= queue.Keys
        invariant forall a :: a in queue <==>
                    a in old(queue) && (a in todo || a in locals || now - Beat(old(beats), a) <= config.lifetime)
        invariant forall a :: a in queue ==> queue[a] == old(queue)[a]
        invariant forall a :: a in todo ==> Beat(beats, a) == Beat(old(beats), a)
        decreases todo
      {
        var addr :| addr in todo;
        if addr !in locals && now - Beat(beats, addr) > config.lifetime {
          RemoveAccount(addr, now);
        }
        todo := todo - {addr};
      }
    }

    /** reset, given what it reads from the chain: with a state, the virtual nonces start anew and
        the dropped transactions are added; without one nothing changes. */
    method ResetTo(reset: Reset, now: int) returns (ghost mid: Halfway)
      requires Valid()
      modifies this`state, this`noncer, this`pending, this`queue, this`beats, this`locals, lookup, priced, noncer
      ensures Valid() && (noncer == old(noncer) || fresh(noncer))
      ensures LeadsTo(old(Views()), old(priced.Heap()), old(state), old(noncer.nonces), reset, mid, gasPrice, config)
      ensures mid.view == Views() && mid.heap == priced.Heap() && mid.state == state && mid.nonces == noncer.nonces
      ensures reset.loaded.None? && old(Interval()) ==> Interval()
    {
      hide Partition, HeapOk, FloorOk, Executable, TxAdded, HeapAdded, Chained, Affordable, Sank, TakenAll, Config.Full;
      if reset.loaded.None? {
        return Halfway([], Views(), priced.Heap(), state, noncer.nonces);
      }
      state := reset.loaded.value;
      noncer := new TxNoncer(state);
      var errs, dirty;
      ghost var steps;
      errs, dirty, steps := AddTxsLocked(reset.reinject, false, now);
      mid := Halfway(steps, Views(), priced.Heap(), state, noncer.nonces);
    }

    static method KeysOf(m: Lists) returns (keys: seq<Address>)
      ensures forall a :: a in keys <==> a in m
    {
      keys := [];
      var todo := m.Keys;
      while todo != {}
        invariant todo <= m.Keys && forall a :: a in keys <==> a in m && a !in todo
        decreases todo
      {
        var a :| a in todo;
        keys := keys + [a];
        todo := todo - {a};
      }
    }

    /** The last loop of runReorg: virtual nonces follow the last pending transactions. */
    method UpdateNonces()
      requires Valid()
      modifies noncer
      ensures forall a :: a in pending ==>
                (pending[a].txs != map[] && NonceIn(state, noncer.nonces, a) == Greatest(pending[a].txs.Keys) + 1)
      ensures forall a :: a !in pending ==> NonceIn(state, noncer.nonces, a) == NonceIn(state, old(noncer.nonces), a)
    {
      hide Partition, HeapOk, FloorOk, Greatest;
      PendingNonEmpty(pending, queue, lookup.all);
      var todo := pending.Keys;
      while todo != {}
        invariant todo <= pending.Keys
        invariant forall a :: a in pending && a !in todo ==>
                    NonceIn(state, noncer.nonces, a) == Greatest(pending[a].txs.Keys) + 1
        invariant forall a :: a !in pending ==>
                    NonceIn(state, noncer.nonces, a) == NonceIn(state, old(noncer.nonces), a)
        decreases todo
      {
        var addr :| addr in todo;
        LastNonce(pending, queue, lookup.all, addr);
        var highestPending := pending[addr].LastElement();
        noncer.Set(addr, highestPending.nonce + 1);
        todo := todo - {addr};
      }
    }

    /** The first part of runReorg: reset, promote and, after a reset, demote. */
    method Readjust(reset: Option<Reset>, dirty: seq<Address>, now: int)
        returns (promoted: seq<Tx>, ghost mid: Halfway)
      requires Valid()
      modifies this`state, this`noncer, this`pending, this`queue, this`beats, this`locals, lookup, priced, noncer
      ensures Valid() && (noncer == old(noncer) || fresh(noncer))
      ensures state == StateAfter(old(state), Reorg(reset, dirty))
      ensures old(Interval()) && reset.None? ==> Settled(pending, state, noncer.nonces)
      ensures reset.Some? ==>
                && LeadsTo(old(Views()), old(priced.Heap()), old(state), old(noncer.nonces), reset.value, mid,
                           gasPrice, config)
                && (Settled(pending, state, noncer.nonces) <==> mid.Mends(maxGas))
                && lookup.all <= mid.view.all
      ensures old(Interval()) && reset.Some? && reset.value.loaded.None? ==>
                FirstsPayable(old(pending), state, maxGas) || Orphan(pending, state, noncer.nonces)
      ensures reset.Some? ==> AllPayable(pending, state, maxGas)
      ensures reset.Some? || old(AllAffordable()) ==> AllAffordable()
    {
      hide Partition, HeapOk, FloorOk, Executable, Settled, FirstsPayable, Affordable, Within, AllPayable, Orphan,
        LeadsTo, Account.Mends, AccountOf, Halfway.Mends;
      mid := Halfway([], Views(), priced.Heap(), state, noncer.nonces);
      if reset.Some? {
        mid := ResetTo(reset.value, now);
        LeadsState(old(Views()), old(priced.Heap()), old(state), old(noncer.nonces), reset.value, mid, gasPrice,
                   config);
        promoted := Mend(mid, now);
      } else {
        promoted := PromoteExecutables(dirty, now);
        if old(Interval()) {
          PendingNonEmpty(pending, queue, lookup.all);
          ExecutableSettled(pending, state, noncer.nonces);
        }
      }
    }

    /** After a reset all queued accounts are promoted and all pending ones demoted. */
    method Mend(ghost mid: Halfway, now: int) returns (promoted: seq<Tx>)
      requires Valid() && mid.view == Views() && mid.state == state && mid.nonces == noncer.nonces
      modifies this`pending, this`queue, this`beats, lookup, priced, noncer
      ensures Valid() && lookup.all <= old(lookup.all)
      ensures Settled(pending, state, noncer.nonces) <==> mid.Mends(maxGas)
      ensures AllPayable(pending, state, maxGas) && AllAffordable()
      ensures old(Interval()) ==>
                FirstsPayable(old(pending), state, maxGas) || Orphan(pending, state, noncer.nonces)
    {
      hide ListsOk, Partition, HeapOk, FloorOk, Executable, Settled, FirstsPayable, Affordable, Within, AllPayable,
        Orphan, Account.Mends, AccountOf, Idle, DrainedIn, AllMend;
      PendingLists(pending, queue, lookup.all);
      var promoteAddrs := KeysOf(queue);
      promoted := PromoteExecutables(promoteAddrs, now);
      AllDrained();
      ghost var pending1 := pending;
      DemoteUnexecutables(now);
      if old(Interval()) && !FirstsPayable(old(pending), state, maxGas) {
        PendingLists(pending, queue, lookup.all);
        OrphanLeft(old(pending), pending1, pending, state, noncer.nonces, maxGas);
      }
    }

    /** When nothing executable waits, only the pending lists count. */
    lemma AllDrained()
      requires Valid() && forall a :: a in queue ==> Drained(a)
      ensures Mending() <==> forall a :: Idle(pending, state, noncer.nonces, maxGas, a).Mends()
    {
      hide HeapOk, FloorOk, Account.Mends, AccountOf, Idle, NonEmpty, NoClash, Covers;
      forall a ensures AccountOf(pending, queue, state, noncer.nonces, maxGas, a) ==
                       Idle(pending, state, noncer.nonces, maxGas, a)
      {
        DrainedIdle(pending, queue, state, noncer.nonces, maxGas, a);
      }
      if forall a :: Idle(pending, state, noncer.nonces, maxGas, a).Mends() {
        forall a ensures AccountOf(pending, queue, state, noncer.nonces, maxGas, a).Mends() {
          assert Idle(pending, state, noncer.nonces, maxGas, a).Mends();
        }
      }
    }

    /** The state part of runReorg. The limits hold at the end, and after a reset all pending
        transactions are payable. Whatever the virtual nonces were before, a reset leaves intervals
        if every account mends, and only then unless too many are pending and cut. All accounts
        mend if the chain moves forward; if the new state cannot be read, the intervals stay exactly
        if the first pending transaction of every account is payable. */
    method RunReorg(reset: Option<Reset>, dirty: seq<Address>, now: int)
        returns (promoted: seq<Tx>, ghost mid: Halfway)
      requires Valid()
      modifies this`state, this`noncer, this`pending, this`queue, this`beats, this`locals, lookup, priced, noncer
      ensures Valid() && (noncer == old(noncer) || fresh(noncer))
      ensures state == StateAfter(old(state), Reorg(reset, dirty))
      ensures Total(pending) <= config.globalSlots ||
              forall a :: a in pending ==> a in locals || |pending[a].txs| <= config.accountSlots
      ensures Total(queue) <= config.globalQueue || queue.Keys <= locals
      ensures old(Interval()) && reset.None? ==> Interval()
      ensures reset.Some? ==>
                && LeadsTo(old(Views()), old(priced.Heap()), old(state), old(noncer.nonces), reset.value, mid,
                           gasPrice, config)
                && lookup.all <= mid.view.all
                && (mid.Mends(maxGas) ==> Interval())
                && (|mid.view.all| <= config.globalSlots ==> (Interval() <==> mid.Mends(maxGas)))
      ensures old(Interval()) && reset.Some? && reset.value.loaded.Some? && MovesForward(old(state), reset.value) ==>
                Interval()
      ensures old(Interval()) && reset.Some? && reset.value.loaded.None? ==>
                (Interval() <==> FirstsPayable(old(pending), state, maxGas))
      ensures reset.Some? ==> AllPayable(pending, state, maxGas)
      ensures reset.Some? || old(AllAffordable()) ==> AllAffordable()
    {
      hide Partition, HeapOk, FloorOk, Executable, Settled, FirstsPayable, Affordable, AllPayable, Orphan, Total,
        MovesForward, LeadsTo, Halfway.Mends;
      promoted, mid := Readjust(reset, dirty, now);
      if reset.Some? && old(Interval()) {
        ForwardLeads(old(Views()), old(priced.Heap()), old(state), old(noncer.nonces), reset.value, mid, gasPrice,
                     config, maxGas);
      }
      ghost var pending1, nonces1, all1 := pending, noncer.nonces, lookup.all;
      Shorten(now);
      if Orphan(pending1, state, nonces1) {
        OrphanBreaks(pending1, pending, state, nonces1, noncer.nonces);
      }
      if reset.Some? {
        CardinalitySubset(all1, mid.view.all);
      }
    }

    /** The limits on the pending and queued transactions. */
    method Limit(now: int)
      requires Valid()
      modifies this`pending, this`queue, this`beats, lookup, priced, noncer
      ensures Valid() && pending.Keys == old(pending).Keys
      ensures Total(pending) <= config.globalSlots ||
              forall a :: a in pending ==> a in locals || |pending[a].txs| <= config.accountSlots
      ensures Total(queue) <= config.globalQueue || queue.Keys <= locals
      ensures Settled(old(pending), state, old(noncer.nonces)) ==> Settled(pending, state, noncer.nonces)
      ensures AllPayable(old(pending), state, maxGas) ==> AllPayable(pending, state, maxGas)
      ensures old(AllAffordable()) ==> AllAffordable()
      ensures forall a :: a !in pending ==> NonceIn(state, noncer.nonces, a) == NonceIn(state, old(noncer.nonces), a)
      ensures Total(old(pending)) <= config.globalSlots ==> pending == old(pending)
      ensures lookup.all <= old(lookup.all)
    {
      hide Partition, HeapOk, FloorOk, Settled, Trims, Total, CutLists, Untouched, OldestKept, Affordable, Within,
        AllPayable, NonceIn;
      TruncatePending();
      TrimsKeys(old(pending), pending, locals, config.accountSlots);
      if Settled(old(pending), state, old(noncer.nonces)) {
        TrimsSettled(old(pending), pending, locals, config.accountSlots, state, old(noncer.nonces), noncer.nonces);
      }
      if AllPayable(old(pending), state, maxGas) {
        TrimsAllPayable(old(pending), pending, locals, config.accountSlots, state, maxGas);
      }
      if old(AllAffordable()) {
        TrimsWithin(old(pending), pending, locals, config.accountSlots);
        WithinAffordable(pending, old(pending), state, maxGas);
      }
      TruncateQueue(now);
    }

    /** The end of runReorg: limits, then virtual nonces. */
    method Shorten(now: int)
      requires Valid()
      modifies this`pending, this`queue, this`beats, lookup, priced, noncer
      ensures Valid() && pending.Keys == old(pending).Keys && lookup.all <= old(lookup.all)
      ensures Total(pending) <= config.globalSlots ||
              forall a :: a in pending ==> a in locals || |pending[a].txs| <= config.accountSlots
      ensures Total(queue) <= config.globalQueue || queue.Keys <= locals
      ensures Settled(old(pending), state, old(noncer.nonces)) ==> Interval()
      ensures |old(lookup.all)| <= config.globalSlots ==>
                (Interval() <==> Settled(old(pending), state, old(noncer.nonces)))
      ensures AllPayable(old(pending), state, maxGas) ==> AllPayable(pending, state, maxGas)
      ensures old(AllAffordable()) ==> AllAffordable()
      ensures forall a :: a !in pending ==> NonceIn(state, noncer.nonces, a) == NonceIn(state, old(noncer.nonces), a)
    {
      hide Partition, HeapOk, FloorOk, Executable, Settled, Total, Affordable, AllPayable, NonceIn, Greatest;
      TotalHeld(pending, queue, lookup.all);
      Limit(now);
      ghost var nonces := noncer.nonces;
      UpdateNonces();
      PendingNonEmpty(pending, queue, lookup.all);
      if Settled(old(pending), state, old(noncer.nonces)) {
        SettledExecutable(pending, state, nonces, noncer.nonces);
      } else if pending == old(pending) && Interval() {
        CompletedSettled(pending, state, old(noncer.nonces), noncer.nonces);
      }
    }

    method Perform(op: Op, now: int) returns (ghost mid: Halfway)
      requires Valid()
      modifies this, lookup, priced, noncer
      ensures Valid() && state == StateAfter(old(state), op) && (noncer == old(noncer) || fresh(noncer))
      ensures Resets(op) ==>
                && LeadsTo(old(Views()), old(priced.Heap()), old(state), old(noncer.nonces), op.reset.value, mid,
                           old(gasPrice), config)
                && (mid.Mends(maxGas) ==> Interval())
      ensures old(Interval()) && !Resets(op) ==> Interval()
      ensures old(Interval()) && Harmless(op, old(pending), old(state), maxGas) ==> Interval()
      ensures old(AllAffordable()) && WithinGas(op, maxGas) ==> AllAffordable() && FirstsPayable(pending, state, maxGas)
    {
      hide Partition, HeapOk, FloorOk, Executable, Total, Affordable, FirstsPayable, Within, LeadsTo, Halfway.Mends,
        Sank, Sifted, AddedAll, Chained;
      ghost var pending0 := pending;
      mid := Halfway([], Views(), priced.Heap(), state, noncer.nonces);
      match op {
      case AddTxs(txs, local) =>
        var errs, dirty;
        ghost var steps;
        errs, dirty, steps := AddTxsLocked(txs, local, now);
      case SetPrice(price) => SetGasPrice(price, now);
      case EvictInactive => Evict(now);
      case Reorg(reset, dirty) =>
        var promoted;
        promoted, mid := RunReorg(reset, dirty, now);
      }
      if old(AllAffordable()) && WithinGas(op, maxGas) {
        if op.SetPrice? {
          SiftedWithin(pending0, pending, Underpaid(old(lookup.all), op.price, old(locals)));
          WithinAffordable(pending, pending0, state, maxGas);
        }
        PendingLists(pending, queue, lookup.all);
        AffordableFirsts(pending, state, maxGas);
      }
    }

    /** Any sequence of operations keeps the partition, the heap and the price floor. If the chain
        only moves forward the pending nonces stay exact intervals, provided that every state is
        read or that nothing pending is or becomes over the gas limit or its balance. */
    method Run(ops: seq<Op>, times: seq<int>)
      requires Valid() && |times| == |ops|
      modifies this, lookup, priced, noncer
      ensures Valid() && (noncer == old(noncer) || fresh(noncer))
      ensures old(Interval()) && OnlyForward(old(state), ops) && AllLoaded(ops) ==> Interval()
      ensures old(Interval()) && OnlyForward(old(state), ops) && old(AllAffordable()) && AllWithinGas(ops, maxGas) ==>
                Interval() && AllAffordable()
    {
      hide Valid, Interval, AllAffordable, FirstsPayable, MovesForward, WithinGas, FailsToLoad, LeadsTo,
        Halfway.Mends;
      var i := 0;
      ghost var affordable := old(AllAffordable()) && AllWithinGas(ops, maxGas);
      ghost var good := old(Interval()) && OnlyForward(old(state), ops) && (AllLoaded(ops) || affordable);
      if affordable {
        FirstsFit();
      }
      while i < |ops|
        invariant 0 <= i <= |ops| && Valid() && (noncer == old(noncer) || fresh(noncer))
        invariant affordable ==> AllAffordable() && FirstsPayable(pending, state, maxGas)
        invariant good ==> Interval() && OnlyForward(state, ops[i..])
        decreases |ops| - i
      {
        assert ops[i..][1..] == ops[i + 1..];
        ghost var mid := Perform(ops[i], times[i]);
        i := i + 1;
      }
    }

    lemma FirstsFit()
      requires Valid() && AllAffordable()
      ensures FirstsPayable(pending, state, maxGas)
    {
      hide HeapOk, FloorOk, Partition;
      PendingLists(pending, queue, lookup.all);
      AffordableFirsts(pending, state, maxGas);
    }
  }
}
