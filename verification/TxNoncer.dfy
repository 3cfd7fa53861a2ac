/** Chain state as the pool sees it, and the virtual nonces on top of it (core/tx_noncer.go). */
module TxNoncers {
  import opened TxLists

  /** Unknown accounts have nonce and balance zero. */
  datatype State = State(nonces: map<Address, nat>, balances: map<Address, int>) {

    function GetNonce(a: Address): nat {
      if a in nonces then nonces[a] else 0
    }

    function GetBalance(a: Address): int {
      if a in balances then balances[a] else 0
    }
  }

  /** The nonce an account has: its own entry, or the state's. */
  function NonceIn(fallback: State, nonces: map<Address, nat>, a: Address): nat {
    if a in nonces then nonces[a] else fallback.GetNonce(a)
  }

  /** The nonce of a, and no other, was lowered to n if it was higher. */
  ghost predicate Lowered(fallback: State, before: map<Address, nat>, after: map<Address, nat>, a: Address, n: nat) {
    && (var m := NonceIn(fallback, before, a); NonceIn(fallback, after, a) == if m <= n then m else n)
    && (forall b :: b != a ==> NonceIn(fallback, after, b) == NonceIn(fallback, before, b))
  }

  /** v is the least of n and the nonces of a's transactions in gone. */
  ghost predicate SankTo(n: nat, v: nat, gone: set<Tx>, a: Address) {
    && v <= n && (forall t :: t in gone && t.sender == a ==> v <= t.nonce)
    && (v == n || exists t :: t in gone && t.sender == a && t.nonce == v)
  }

  /** Every account's nonce was lowered to those of its transactions in gone. */
  ghost predicate Sank(fallback: State, before: map<Address, nat>, after: map<Address, nat>, gone: set<Tx>) {
    forall a :: SankTo(NonceIn(fallback, before, a), NonceIn(fallback, after, a), gone, a)
  }

  lemma NoneSank(fallback: State, nonces: map<Address, nat>)
    ensures Sank(fallback, nonces, nonces, {})
  {
  }

  lemma SankTwice(fallback: State, n0: map<Address, nat>, n1: map<Address, nat>, n2: map<Address, nat>,
                  g1: set<Tx>, g2: set<Tx>)
    requires Sank(fallback, n0, n1, g1) && Sank(fallback, n1, n2, g2)
    ensures Sank(fallback, n0, n2, g1 + g2)
  {
    forall a ensures SankTo(NonceIn(fallback, n0, a), NonceIn(fallback, n2, a), g1 + g2, a) {
      var v0, v1, v2 := NonceIn(fallback, n0, a), NonceIn(fallback, n1, a), NonceIn(fallback, n2, a);
      assert SankTo(v0, v1, g1, a) && SankTo(v1, v2, g2, a);
      hide NonceIn;
      SankToTwice(v0, v1, v2, g1, g2, a);
    }
  }

  lemma SankToTwice(v0: nat, v1: nat, v2: nat, g1: set<Tx>, g2: set<Tx>, a: Address)
    requires SankTo(v0, v1, g1, a) && SankTo(v1, v2, g2, a)
    ensures SankTo(v0, v2, g1 + g2, a)
  {
    if v2 != v1 {
      var t :| t in g2 && t.sender == a && t.nonce == v2;
      assert t in g1 + g2;
    } else if v1 != v0 {
      var t :| t in g1 && t.sender == a && t.nonce == v1;
      assert t in g1 + g2;
    }
  }

  lemma SankAlike(fallback: State, before: map<Address, nat>, n1: map<Address, nat>, n2: map<Address, nat>,
                  gone: set<Tx>)
    requires Sank(fallback, before, n1, gone) && Sank(fallback, before, n2, gone)
    ensures forall a :: NonceIn(fallback, n1, a) == NonceIn(fallback, n2, a)
  {
    forall a ensures NonceIn(fallback, n1, a) == NonceIn(fallback, n2, a) {
      var n, v1, v2 := NonceIn(fallback, before, a), NonceIn(fallback, n1, a), NonceIn(fallback, n2, a);
      assert SankTo(n, v1, gone, a) && SankTo(n, v2, gone, a);
      hide NonceIn;
    }
  }

  lemma LoweredSank(fallback: State, before: map<Address, nat>, after: map<Address, nat>, tx: Tx)
    requires Lowered(fallback, before, after, tx.sender, tx.nonce)
    ensures Sank(fallback, before, after, {tx})
  {
    hide NonceIn;
    assert tx in {tx};
  }

  lemma LoweredOthers(fallback: State, before: map<Address, nat>, after: map<Address, nat>, a: Address, n: nat)
    requires Lowered(fallback, before, after, a, n)
    ensures forall b :: b != a ==> NonceIn(fallback, after, b) == NonceIn(fallback, before, b)
  {
  }

  class TxNoncer {
    const fallback: State
    var nonces: map<Address, nat>

    constructor (state: State)
      ensures fallback == state && nonces == map[]
    {
      fallback, nonces := state, map[];
    }

    /** Reading memoises the fallback, which no one can tell from the nonces. */
    method Get(a: Address) returns (n: nat)
      modifies this
      ensures n == NonceIn(fallback, old(nonces), a)
      ensures forall b :: NonceIn(fallback, nonces, b) == NonceIn(fallback, old(nonces), b)
    {
      if a !in nonces {
        nonces := nonces[a := fallback.GetNonce(a)];
      }
      n := nonces[a];
    }

    method Set(a: Address, n: nat)
      modifies this
      ensures nonces == old(nonces)[a := n]
    {
      nonces := nonces[a := n];
    }

    method SetIfLower(a: Address, n: nat)
      modifies this
      ensures Lowered(fallback, old(nonces), nonces, a, n)
    {
      if a !in nonces {
        nonces := nonces[a := fallback.GetNonce(a)];
      }
      if nonces[a] <= n {
        return;
      }
      nonces := nonces[a := n];
    }
  }
}
