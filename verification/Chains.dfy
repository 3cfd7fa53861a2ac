/** The tree of headers by parent hash and the canonical number index that speeds it up. */
module Chains {

  type Hash = nat

  /** The hash that a missing database entry reads as. */
  const ZERO: Hash := 0
  const MAX_UINT64 := 0xffff_ffff_ffff_ffff

  datatype Header = Header(hash: Hash, number: nat, parent: Hash)

  type Headers = map<Hash, Header>
  type Index = map<nat, Hash>

  /** Headers sit under their hash, and numbers count up from a stored parent. */
  ghost predicate Linked(hs: Headers) {
    && ZERO !in hs
    && (forall h :: h in hs ==> hs[h].hash == h && hs[h].number < MAX_UINT64)
    && (forall h :: h in hs && hs[h].parent in hs ==> hs[h].number == hs[hs[h].parent].number + 1)
  }

  /** Parent-closed: every header but the genesis has its parent stored. */
  ghost predicate Rooted(hs: Headers, genesis: Hash) {
    && Linked(hs)
    && genesis in hs && hs[genesis].number == 0 && hs[genesis].parent == ZERO
    && (forall h :: h in hs ==> h == genesis || hs[h].parent in hs)
  }

  function ReadCanonicalHash(canon: Index, n: nat): Hash {
    if n in canon then canon[n] else ZERO
  }

  /** The number before n, as unsigned 64-bit arithmetic has it. */
  function Pred(n: nat): nat {
    if n == 0 then MAX_UINT64 else n - 1
  }

  /** canon has the head at its number, the parent of each entry below it, and nothing above. */
  ghost predicate Indexes(hs: Headers, canon: Index, head: Hash) {
    && head in hs
    && (forall n: nat :: n in canon <==> n <= hs[head].number)
    && (forall n :: n in canon ==> canon[n] in hs && hs[canon[n]].number == n)
    && canon[hs[head].number] == head
    && (forall n {:trigger hs[canon[n]].parent} :: n in canon && n > 0 ==> canon[n - 1] == hs[canon[n]].parent)
  }

  lemma IndexDomain(hs: Headers, canon: Index, head: Hash)
    requires Indexes(hs, canon, head)
    ensures head in hs && forall n: nat :: n in canon <==> n <= hs[head].number
    ensures canon[hs[head].number] == head
  {
  }

  lemma IndexEntry(hs: Headers, canon: Index, head: Hash, n: nat)
    requires Indexes(hs, canon, head) && n in canon
    ensures canon[n] in hs && hs[canon[n]].number == n
    ensures n > 0 ==> n - 1 in canon && canon[n - 1] == hs[canon[n]].parent
  {
  }

  /** k parent pointers up from h. */
  function Ancestor(hs: Headers, h: Hash, k: nat): Hash
    decreases k
  {
    if k == 0 || h !in hs then h else Ancestor(hs, hs[h].parent, k - 1)
  }

  lemma AncestorZero(hs: Headers, h: Hash)
    ensures Ancestor(hs, h, 0) == h
  {
  }

  lemma AncestorUp(hs: Headers, h: Hash, k: nat)
    requires h in hs && k > 0
    ensures Ancestor(hs, h, k) == Ancestor(hs, hs[h].parent, k - 1)
  {
  }

  lemma AncestorOne(hs: Headers, h: Hash)
    requires h in hs
    ensures Ancestor(hs, h, 1) == hs[h].parent
  {
    assert Ancestor(hs, hs[h].parent, 0) == hs[h].parent;
  }

  lemma {:induction false} AncestorSum(hs: Headers, h: Hash, j: nat, k: nat)
    ensures Ancestor(hs, Ancestor(hs, h, j), k) == Ancestor(hs, h, j + k)
    decreases j
  {
    if j > 0 && h in hs {
      AncestorSum(hs, hs[h].parent, j - 1, k);
    }
  }

  lemma {:induction false} AncestorStuck(hs: Headers, h: Hash, j: nat, k: nat)
    requires Ancestor(hs, h, j) !in hs && j <= k
    ensures Ancestor(hs, h, k) == Ancestor(hs, h, j)
    decreases j
  {
    if j > 0 && h in hs {
      AncestorStuck(hs, hs[h].parent, j - 1, k - 1);
    }
  }

  lemma {:induction false} AncestorNext(hs: Headers, h: Hash, k: nat)
    requires Ancestor(hs, h, k) in hs
    ensures Ancestor(hs, h, k + 1) == hs[Ancestor(hs, h, k)].parent
    decreases k
  {
    if k == 0 {
      assert Ancestor(hs, hs[h].parent, 0) == hs[h].parent;
    } else {
      AncestorNext(hs, hs[h].parent, k - 1);
    }
  }

  /** The index gives every ancestor of its entries directly. */
  lemma {:induction false} CanonAncestor(hs: Headers, canon: Index, head: Hash, n: nat, k: nat)
    requires Indexes(hs, canon, head) && k <= n <= hs[head].number
    ensures Ancestor(hs, canon[n], k) == canon[n - k]
    decreases k
  {
    hide Indexes, Ancestor;
    IndexDomain(hs, canon, head);
    if k == 0 {
      AncestorZero(hs, canon[n]);
    } else {
      IndexEntry(hs, canon, head, n);
      AncestorUp(hs, canon[n], k);
      CanonAncestor(hs, canon, head, n - 1, k - 1);
    }
  }

  /** There is one index for a head. */
  lemma IndexUnique(hs: Headers, c: Index, d: Index, head: Hash)
    requires Indexes(hs, c, head) && Indexes(hs, d, head)
    ensures c == d
  {
    hide Ancestor, Indexes;
    IndexDomain(hs, c, head);
    IndexDomain(hs, d, head);
    var top := hs[head].number;
    forall n | n in c ensures n in d && c[n] == d[n] {
      CanonAncestor(hs, c, head, top, top - n);
      CanonAncestor(hs, d, head, top, top - n);
    }
    assert c.Keys == d.Keys;
  }

  lemma {:induction false} RootedAncestor(hs: Headers, genesis: Hash, h: Hash, k: nat)
    requires Rooted(hs, genesis) && h in hs && k <= hs[h].number
    ensures Ancestor(hs, h, k) in hs && hs[Ancestor(hs, h, k)].number == hs[h].number - k
    decreases k
  {
    if k > 0 {
      RootedAncestor(hs, genesis, hs[h].parent, k - 1);
    }
  }

  /** In a parent-closed store every index starts at the genesis. */
  lemma IndexRoot(hs: Headers, genesis: Hash, canon: Index, head: Hash)
    requires Rooted(hs, genesis) && Indexes(hs, canon, head)
    ensures 0 in canon && canon[0] == genesis
  {
    assert canon[0] in hs && hs[canon[0]].number == 0;
  }

  /** Storing a further header leaves the index of an old head as it was. */
  lemma StoreKeepsIndex(hs: Headers, more: Headers, canon: Index, head: Hash)
    requires Indexes(hs, canon, head) && hs.Keys <= more.Keys && forall h :: h in hs ==> more[h] == hs[h]
    ensures Indexes(more, canon, head)
  {
    forall n | n in canon && n > 0 ensures canon[n - 1] == more[canon[n]].parent {
      assert hs[canon[n]].parent == canon[n - 1];
    }
  }

  /** The index of h: that of its parent and h on top. */
  lemma IndexExtend(hs: Headers, canon: Index, parent: Hash, h: Hash)
    requires Indexes(hs, canon, parent) && h in hs && hs[h].parent == parent && hs[h].number == hs[parent].number + 1
    ensures Indexes(hs, canon[hs[h].number := h], h)
  {
    var c := canon[hs[h].number := h];
    forall n | n in c && n > 0 ensures c[n - 1] == hs[c[n]].parent {
      assert n in canon ==> canon[n - 1] == hs[canon[n]].parent;
    }
  }

  /** The index cut at n is the index of its entry at n. */
  lemma IndexCut(hs: Headers, canon: Index, head: Hash, n: nat)
    requires Indexes(hs, canon, head) && n in canon
    ensures Indexes(hs, map k | k in canon && k <= n :: canon[k], canon[n])
  {
    var c := map k | k in canon && k <= n :: canon[k];
    forall k | k in c && k > 0 ensures c[k - 1] == hs[c[k]].parent {
      assert canon[k - 1] == hs[canon[k]].parent;
    }
  }

  /** Two indexes that agree at a number agree below it. */
  lemma IndexAgree(hs: Headers, c: Index, d: Index, head: Hash, other: Hash, n: nat)
    requires Indexes(hs, c, head) && Indexes(hs, d, other) && n in c && n in d && c[n] == d[n]
    ensures forall k :: 0 <= k <= n ==> k in c && k in d && c[k] == d[k]
  {
    hide Ancestor, Indexes;
    IndexDomain(hs, c, head);
    IndexDomain(hs, d, other);
    forall k | 0 <= k <= n ensures k in c && k in d && c[k] == d[k] {
      CanonAncestor(hs, c, head, n, n - k);
      CanonAncestor(hs, d, other, n, n - k);
    }
  }

  /** In a parent-closed store every header has an index. */
  lemma {:induction false} IndexOf(hs: Headers, genesis: Hash, h: Hash) returns (canon: Index)
    requires Rooted(hs, genesis) && h in hs
    ensures Indexes(hs, canon, h)
    decreases hs[h].number
  {
    if h == genesis {
      canon := map[0 := h];
    } else {
      canon := IndexOf(hs, genesis, hs[h].parent);
      IndexExtend(hs, canon, hs[h].parent, h);
      canon := canon[hs[h].number := h];
    }
  }
}
