/** Transactions and the per-account lists of core/tx_list.go as values. The operations follow
    txList and txSortedMap; TxSortedMap.dfy shows the objects that carry them out. */
module TxLists {
  import opened Wrappers

  type Address = nat

  const TX_SLOT_SIZE := 32 * 1024
  const TX_MAX_SIZE := 4 * TX_SLOT_SIZE

  /** A transaction is identified with its hash, which id stands for; cost is the amount alone,
      as Transaction.Cost computes it. */
  datatype Tx = Tx(id: nat, sender: Address, signed: bool, nonce: nat, price: int, value: int, gas: nat, size: nat) {

    function Cost(): int {
      value
    }

    function NumSlots(): nat {
      (size + TX_SLOT_SIZE - 1) / TX_SLOT_SIZE
    }
  }

  /** A replacement must be dearer and reach the price bump. */
  predicate Replaces(tx: Tx, prev: Tx, priceBump: nat) {
    tx.price > prev.price && tx.price >= (100 + priceBump) * prev.price / 100
  }

  predicate Over(tx: Tx, costLimit: int, gasLimit: nat) {
    tx.gas > gasLimit || tx.Cost() > costLimit
  }

  lemma {:induction false} LeastOf(s: set<nat>) returns (m: nat)
    requires s != {}
    ensures m in s && forall k :: k in s ==> m <= k
  {
    var x :| x in s;
    m := x;
    var rest := s - {x};
    if rest != {} {
      var r := LeastOf(rest);
      m := if x <= r then x else r;
    }
    forall k | k in s ensures m <= k {
      assert k == x || k in rest;
    }
  }

  function Least(s: set<nat>): (m: nat)
    requires s != {}
    ensures m in s && forall k :: k in s ==> m <= k
  {
    assert exists m :: m in s && forall k :: k in s ==> m <= k by {
      var m := LeastOf(s);
    }
    var m :| m in s && forall k :: k in s ==> m <= k;
    m
  }

  lemma {:induction false} GreatestOf(s: set<nat>) returns (m: nat)
    requires s != {}
    ensures m in s && forall k :: k in s ==> k <= m
  {
    var x :| x in s;
    m := x;
    var rest := s - {x};
    if rest != {} {
      var r := GreatestOf(rest);
      m := if r <= x then x else r;
    }
    forall k | k in s ensures k <= m {
      assert k == x || k in rest;
    }
  }

  function Greatest(s: set<nat>): (m: nat)
    requires s != {}
    ensures m in s && forall k :: k in s ==> k <= m
  {
    assert exists m :: m in s && forall k :: k in s ==> k <= m by {
      var m := GreatestOf(s);
    }
    var m :| m in s && forall k :: k in s ==> k <= m;
    m
  }

  lemma {:induction false} DropSmaller(m: map<nat, Tx>, n: nat)
    requires n in m
    ensures |m - {n}| == |m| - 1
  {
    assert (m - {n}).Keys == m.Keys - {n};
  }

  /** The consecutive transactions from nonce n on. */
  function Run(m: map<nat, Tx>, n: nat): (txs: seq<Tx>)
    decreases |m|
  {
    if n in m then
      DropSmaller(m, n);
      [m[n]] + Run(m - {n}, n + 1)
    else []
  }

  /** Run is exactly the maximal consecutive stretch. */
  lemma {:induction false} RunMeaning(m: map<nat, Tx>, n: nat)
    ensures forall k :: n <= k < n + |Run(m, n)| ==> k in m && Run(m, n)[k - n] == m[k]
    ensures n + |Run(m, n)| !in m
    decreases |m|
  {
    if n in m {
      DropSmaller(m, n);
      RunMeaning(m - {n}, n + 1);
      var rest := Run(m - {n}, n + 1);
      forall k | n < k < n + |Run(m, n)| ensures k in m && Run(m, n)[k - n] == m[k] {
        assert k in m - {n} && Run(m, n)[k - n] == rest[k - (n + 1)];
      }
    }
  }

  /** The k lowest nonces. */
  function CapMap(m: map<nat, Tx>, k: nat): (r: map<nat, Tx>)
    ensures r.Keys <= m.Keys && forall n :: n in r ==> r[n] == m[n]
    ensures |r| == if |m| <= k then |m| else k
    ensures forall n, d :: n in r && d in m && d !in r ==> n < d
    ensures |m| <= k ==> r == m
    decreases |m|
  {
    if |m| <= k then m
    else
      var g := Greatest(m.Keys);
      assert (m - {g}).Keys == m.Keys - {g};
      CapMap(m - {g}, k)
  }

  function Restrict(m: map<nat, Tx>, keys: set<nat>): (r: map<nat, Tx>)
    ensures r.Keys == m.Keys * keys && forall n :: n in r ==> r[n] == m[n]
  {
    map n | n in m && n in keys :: m[n]
  }

  /** The result of txList.Add: whether it was inserted, and what it replaced. */
  datatype Added = Added(inserted: bool, replaced: Option<Tx>, list: TxList)

  datatype TxList = TxList(strict: bool, txs: map<nat, Tx>, costcap: int, gascap: nat) {

    predicate Overlaps(tx: Tx) {
      tx.nonce in txs
    }

    /** Every transaction is under its nonce and within the caps. */
    ghost predicate Valid(a: Address) {
      forall n :: n in txs ==>
        txs[n].nonce == n && txs[n].sender == a && txs[n].Cost() <= costcap && txs[n].gas <= gascap
    }

    function Add(tx: Tx, priceBump: nat): (r: Added) {
      if tx.nonce in txs && !Replaces(tx, txs[tx.nonce], priceBump) then Added(false, None, this)
      else
        Added(true, if tx.nonce in txs then Some(txs[tx.nonce]) else None,
              TxList(strict, txs[tx.nonce := tx],
                     if costcap < tx.Cost() then tx.Cost() else costcap,
                     if gascap < tx.gas then tx.gas else gascap))
    }

    function Keep(keys: set<nat>): TxList {
      this.(txs := Restrict(txs, keys))
    }

    function Forward(threshold: nat): TxList {
      Keep(set n | n in txs && n >= threshold)
    }

    function OverNonces(costLimit: int, gasLimit: nat): set<nat> {
      set n | n in txs && Over(txs[n], costLimit, gasLimit)
    }

    /** The list that Filter leaves, using the caps to skip the scan. */
    function Filter(costLimit: int, gasLimit: nat): TxList {
      if costcap <= costLimit && gascap <= gasLimit then this
      else
        var over := OverNonces(costLimit, gasLimit);
        var capped := this.(costcap := costLimit, gascap := gasLimit);
        if over == {} then capped
        else if strict then capped.Keep(set n | n in txs && n < Least(over))
        else capped.Keep(txs.Keys - over)
    }

    function Cap(threshold: nat): TxList {
      this.(txs := CapMap(txs, threshold))
    }

    /** Removing a nonce; in strict mode everything above it goes too. */
    function Remove(nonce: nat): TxList {
      if nonce !in txs then this
      else if strict then Keep(set n | n in txs && n < nonce)
      else Keep(txs.Keys - {nonce})
    }

    /** The consecutive run from the least stored nonce, if that is not above start. */
    function Ready(start: nat): (ready: seq<Tx>) {
      if txs == map[] || Least(txs.Keys) > start then [] else Run(txs, Least(txs.Keys))
    }

    function AfterReady(start: nat): TxList {
      var ready := Ready(start);
      if ready == [] then this
      else
        var first := Least(txs.Keys);
        Keep(set n | n in txs && n >= first + |ready|)
    }

    function LastElement(): Tx
      requires txs != map[]
    {
      txs[Greatest(txs.Keys)]
    }
  }

  function NewList(strict: bool): TxList {
    TxList(strict, map[], 0, 0)
  }

  ghost predicate NoGap(l: TxList, nonce: nat) {
    forall n: nat, k: nat :: n in l.txs && nonce <= k <= n ==> k in l.txs
  }

  ghost predicate From(l: TxList, nonce: nat) {
    forall n :: n in l.txs ==> n >= nonce
  }

  /** Consecutive nonces from first on. */
  ghost predicate Consecutive(l: TxList, first: nat) {
    From(l, first) && NoGap(l, first)
  }

  /** The shortcut through the caps changes nothing: Filter keeps exactly the transactions
      within the limits, and in strict mode those of them below every removed one. */
  lemma FilterMeaning(l: TxList, a: Address, costLimit: int, gasLimit: nat)
    requires l.Valid(a)
    ensures var r := l.Filter(costLimit, gasLimit);
            && r.Valid(a) && r.strict == l.strict
            && r.txs.Keys <= l.txs.Keys
            && (forall n :: n in r.txs ==> r.txs[n] == l.txs[n])
            && (!l.strict ==> forall n :: n in l.txs ==> (n in r.txs <==> !Over(l.txs[n], costLimit, gasLimit)))
            && (l.strict ==> forall n :: n in l.txs ==>
                  (n in r.txs <==> forall k :: k in l.txs && k <= n ==> !Over(l.txs[k], costLimit, gasLimit)))
  {
    var over := l.OverNonces(costLimit, gasLimit);
    assert forall n :: n in l.txs ==> (n in over <==> Over(l.txs[n], costLimit, gasLimit));
  }

  /** On consecutive nonces every operation leaves a consecutive prefix. */
  lemma FilterPrefix(l: TxList, a: Address, first: nat, costLimit: int, gasLimit: nat)
    requires l.Valid(a) && l.strict && Consecutive(l, first)
    ensures Consecutive(l.Filter(costLimit, gasLimit), first)
  {
    hide TxList.Filter, TxList.Valid, Over;
    FilterSubset(l, a, costLimit, gasLimit);
    var f := l.Filter(costLimit, gasLimit);
    forall n: nat, j: nat | n in f.txs && first <= j <= n ensures j in f.txs {
      FilterDownClosed(l, a, costLimit, gasLimit, n, j);
    }
  }

  lemma FilterSubset(l: TxList, a: Address, costLimit: int, gasLimit: nat)
    requires l.Valid(a)
    ensures l.Filter(costLimit, gasLimit).txs.Keys <= l.txs.Keys
  {
    FilterMeaning(l, a, costLimit, gasLimit);
  }

  /** In a strict list whatever is stored below a transaction that stays, stays. */
  lemma FilterDownClosed(l: TxList, a: Address, costLimit: int, gasLimit: nat, n: nat, k: nat)
    requires l.Valid(a) && l.strict && n in l.Filter(costLimit, gasLimit).txs && k in l.txs && k <= n
    ensures k in l.Filter(costLimit, gasLimit).txs
  {
    hide TxList.Filter, TxList.Valid, Over;
    FilterMeaning(l, a, costLimit, gasLimit);
  }

  lemma RemovePrefix(l: TxList, first: nat, nonce: nat)
    requires l.strict && Consecutive(l, first)
    ensures Consecutive(l.Remove(nonce), first)
  {
  }

  lemma CapPrefix(l: TxList, first: nat, k: nat)
    requires Consecutive(l, first)
    ensures Consecutive(l.Cap(k), first)
  {
    var c := l.Cap(k);
    forall n, j | n in c.txs && first <= j <= n ensures j in c.txs {
      assert j in l.txs;
    }
  }
}
