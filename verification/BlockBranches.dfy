/** Two branches of stored blocks, walked down to where they meet, and what a switch must rewrite. */
module BlockBranches {
  import opened Wrappers
  import opened Chains

  type TxHash = nat
  type Lookup = map<TxHash, nat>

  datatype Block = Block(header: Header, txs: seq<TxHash>)

  type Blocks = map<Hash, Block>

  ghost function Hs(blocks: Blocks): Headers {
    map h | h in blocks :: blocks[h].header
  }

  function GetBlock(blocks: Blocks, hash: Hash, number: nat): Option<Block> {
    if hash in blocks && blocks[hash].header.number == number then Some(blocks[hash]) else None
  }

  /** chain holds the first blocks on the way from top to the root. */
  ghost predicate Walked(blocks: Blocks, top: Hash, chain: seq<Block>) {
    && top in blocks
    && forall i :: 0 <= i < |chain| ==> StepOk(blocks, top, chain[i], i)
  }

  ghost predicate StepOk(blocks: Blocks, top: Hash, b: Block, i: nat)
    requires top in blocks
  {
    var h := Ancestor(Hs(blocks), top, i);
    h in blocks && b == blocks[h] && b.header.number == blocks[top].header.number - i
  }

  /** One step further down: the parent is stored with the number below, or the walk ends. */
  lemma WalkOn(blocks: Blocks, top: Hash, chain: seq<Block>, b: Block)
    requires Linked(Hs(blocks)) && Walked(blocks, top, chain) && StepOk(blocks, top, b, |chain|)
    ensures Walked(blocks, top, chain + [b])
    ensures Ancestor(Hs(blocks), top, |chain| + 1) == b.header.parent
    ensures var next := GetBlock(blocks, b.header.parent, Pred(b.header.number));
            && (next.Some? ==> b.header.number > 0 && StepOk(blocks, top, next.value, |chain| + 1))
            && (next.None? ==> b.header.parent !in blocks)
  {
    hide Ancestor;
    var hs := Hs(blocks);
    var h := Ancestor(hs, top, |chain|);
    assert hs[h] == b.header;
    AncestorNext(hs, top, |chain|);
    if b.header.parent in blocks {
      assert hs[h].parent in hs;
    }
    forall i | 0 <= i < |chain| + 1 ensures StepOk(blocks, top, (chain + [b])[i], i) {
      assert i < |chain| ==> StepOk(blocks, top, chain[i], i);
    }
  }

  /** The transactions of the blocks in turn. */
  ghost function Txs(chain: seq<Block>): seq<TxHash> {
    if chain == [] then [] else Txs(chain[..|chain| - 1]) + chain[|chain| - 1].txs
  }

  lemma TxsSnoc(chain: seq<Block>, b: Block)
    ensures Txs(chain + [b]) == Txs(chain) + b.txs
  {
    assert (chain + [b])[..|chain|] == chain;
  }

  lemma {:induction false} TxsMember(chain: seq<Block>, t: TxHash)
    ensures t in Txs(chain) <==> exists i :: 0 <= i < |chain| && t in chain[i].txs
  {
    if chain != [] {
      var front := chain[..|chain| - 1];
      TxsMember(front, t);
      if t in Txs(front) {
        var i :| 0 <= i < |front| && t in front[i].txs;
        assert t in chain[i].txs;
      }
    }
  }

  /** Where a walk stands: at a stored block, or past the last stored one. */
  ghost predicate StandsAt(blocks: Blocks, top: Hash, at: Option<Block>, k: nat)
    requires top in blocks
  {
    match at
    case Some(b) => StepOk(blocks, top, b, k)
    case None => Ancestor(Hs(blocks), top, k) !in blocks
  }

  lemma WalkStep(blocks: Blocks, top: Hash, chain: seq<Block>, b: Block)
    requires Linked(Hs(blocks)) && Walked(blocks, top, chain) && StepOk(blocks, top, b, |chain|)
    ensures Walked(blocks, top, chain + [b])
    ensures StandsAt(blocks, top, GetBlock(blocks, b.header.parent, Pred(b.header.number)), |chain| + 1)
    ensures b.header.number == 0 ==> b.header.parent !in blocks
  {
    hide Ancestor;
    WalkOn(blocks, top, chain, b);
  }

  /** Reduces a chain to the given height, collecting the blocks above it. */
  method WalkDown(blocks: Blocks, top: Block, number: nat)
      returns (at: Option<Block>, chain: seq<Block>, txs: seq<TxHash>)
    requires Linked(Hs(blocks)) && top.header.hash in blocks && blocks[top.header.hash] == top
    requires number <= top.header.number
    ensures Walked(blocks, top.header.hash, chain) && txs == Txs(chain)
    ensures StandsAt(blocks, top.header.hash, at, |chain|)
    ensures at.Some? ==> at.value.header.number == number
    ensures |chain| <= top.header.number - number
  {
    hide Walked, StepOk, Ancestor, Txs, Linked;
    var hash := top.header.hash;
    at, chain, txs := Some(top), [], [];
    WalkStart(blocks, top);
    while at.Some? && at.value.header.number != number
      invariant Walked(blocks, hash, chain) && txs == Txs(chain) && StandsAt(blocks, hash, at, |chain|)
      invariant at.Some? ==> at.value.header.number == top.header.number - |chain| >= number
      invariant |chain| <= top.header.number - number
      decreases if at.Some? then at.value.header.number + 1 else 0
    {
      var b := at.value;
      WalkStep(blocks, hash, chain, b);
      TxsSnoc(chain, b);
      chain := chain + [b];
      txs := txs + b.txs;
      at := GetBlock(blocks, b.header.parent, Pred(b.header.number));
    }
  }

  lemma WalkStart(blocks: Blocks, top: Block)
    requires top.header.hash in blocks && blocks[top.header.hash] == top
    ensures Walked(blocks, top.header.hash, []) && StepOk(blocks, top.header.hash, top, 0) && Txs([]) == []
  {
  }

  /** The k-th ancestor of top is stored and canonical. */
  ghost predicate MeetsAt(blocks: Blocks, canon: Index, top: Hash, k: nat)
    requires top in blocks
  {
    var n, h := blocks[top].header.number, Ancestor(Hs(blocks), top, k);
    k <= n && h in blocks && n - k in canon && canon[n - k] == h
  }

  /** The stored branch of top meets the canonical chain. */
  ghost predicate Meets(blocks: Blocks, canon: Index, top: Hash)
    requires top in blocks
  {
    exists k: nat :: MeetsAt(blocks, canon, top, k)
  }

  /** The two walks stand at one canonical block, the first on the new branch. */
  ghost predicate Fork(blocks: Blocks, canon: Index, oldTop: Hash, newTop: Hash, oldChain: seq<Block>,
                       newChain: seq<Block>)
    requires oldTop in blocks && newTop in blocks
  {
    && Walked(blocks, oldTop, oldChain) && Walked(blocks, newTop, newChain)
    && MeetsAt(blocks, canon, newTop, |newChain|)
    && (forall k :: 0 <= k < |newChain| ==> !MeetsAt(blocks, canon, newTop, k))
    && blocks[oldTop].header.number - |oldChain| == blocks[newTop].header.number - |newChain|
  }

  lemma NeverMeets(blocks: Blocks, canon: Index, top: Hash, k: nat)
    requires top in blocks && forall j :: 0 <= j < k ==> !MeetsAt(blocks, canon, top, j)
    requires k > blocks[top].header.number || Ancestor(Hs(blocks), top, k) !in blocks
    ensures !Meets(blocks, canon, top)
  {
    hide Ancestor;
    forall j: nat ensures !MeetsAt(blocks, canon, top, j) {
      if j >= k && k <= blocks[top].header.number {
        AncestorStuck(Hs(blocks), top, k, j);
      }
    }
  }

  /** Where both walks stand at one height, the hashes are equal exactly at a meeting point. */
  lemma SameHashMeets(blocks: Blocks, canon: Index, oldTop: Hash, newTop: Hash, oldAt: Block, newAt: Block, i: nat,
                      k: nat)
    requires Linked(Hs(blocks)) && Indexes(Hs(blocks), canon, oldTop) && newTop in blocks && oldTop in blocks
    requires StepOk(blocks, oldTop, oldAt, i) && StepOk(blocks, newTop, newAt, k)
    requires oldAt.header.number == newAt.header.number
    ensures oldAt.header.hash == newAt.header.hash <==> MeetsAt(blocks, canon, newTop, k)
  {
    hide Ancestor;
    var hs := Hs(blocks);
    var n := blocks[oldTop].header.number;
    assert hs[oldTop].number == n;
    CanonAncestor(hs, canon, oldTop, n, i);
    assert hs[Ancestor(hs, oldTop, i)].hash == oldAt.header.hash;
    assert hs[Ancestor(hs, newTop, k)].hash == newAt.header.hash;
  }

  /** Above the old head nothing is canonical. */
  lemma AboveHead(blocks: Blocks, canon: Index, oldTop: Hash, newTop: Hash, k: nat)
    requires Indexes(Hs(blocks), canon, oldTop) && newTop in blocks
    requires k < blocks[newTop].header.number - blocks[oldTop].header.number
    ensures !MeetsAt(blocks, canon, newTop, k)
  {
    hide Ancestor;
    IndexDomain(Hs(blocks), canon, oldTop);
    assert Hs(blocks)[oldTop].number == blocks[oldTop].header.number;
  }

  /** The canonical side of the walk ends only below the root. */
  lemma OldSideEnds(blocks: Blocks, canon: Index, oldTop: Hash, i: nat)
    requires Indexes(Hs(blocks), canon, oldTop) && oldTop in blocks && Ancestor(Hs(blocks), oldTop, i) !in blocks
    ensures i > blocks[oldTop].header.number
  {
    hide Ancestor;
    var hs := Hs(blocks);
    var n := hs[oldTop].number;
    IndexDomain(hs, canon, oldTop);
    if i <= n {
      CanonAncestor(hs, canon, oldTop, n, i);
    }
  }

  /** Both branches down to where they meet; fails exactly when they do not. */
  method Branches(blocks: Blocks, ghost canon: Index, oldBlock: Block, newBlock: Block)
      returns (ok: bool, oldChain: seq<Block>, newChain: seq<Block>, deleted: seq<TxHash>)
    requires oldBlock.header.hash in blocks && blocks[oldBlock.header.hash] == oldBlock
    requires newBlock.header.hash in blocks && blocks[newBlock.header.hash] == newBlock
    requires Linked(Hs(blocks)) && Indexes(Hs(blocks), canon, oldBlock.header.hash)
    ensures ok <==> Meets(blocks, canon, newBlock.header.hash)
    ensures ok ==> Fork(blocks, canon, oldBlock.header.hash, newBlock.header.hash, oldChain, newChain)
    ensures ok ==> deleted == Txs(oldChain)
  {
    hide Walked, StepOk, Ancestor, Txs, Linked, Indexes, MeetsAt, Meets;
    ghost var oldTop, newTop := oldBlock.header.hash, newBlock.header.hash;
    var oldAt, newAt := Some(oldBlock), Some(newBlock);
    oldChain, newChain, deleted := [], [], [];
    WalkStart(blocks, oldBlock);
    WalkStart(blocks, newBlock);
    if oldBlock.header.number > newBlock.header.number {
      oldAt, oldChain, deleted := WalkDown(blocks, oldBlock, newBlock.header.number);
    } else {
      var unused;
      newAt, newChain, unused := WalkDown(blocks, newBlock, oldBlock.header.number);
      forall k | 0 <= k < |newChain| ensures !MeetsAt(blocks, canon, newTop, k) {
        AboveHead(blocks, canon, oldTop, newTop, k);
      }
    }
    if oldAt.None? {
      OldSideEnds(blocks, canon, oldTop, |oldChain|);
      assert false;
    }
    if newAt.None? {
      NeverMeets(blocks, canon, newTop, |newChain|);
      return false, [], [], [];
    }
    Heights(blocks, oldTop, oldAt.value, |oldChain|);
    Heights(blocks, newTop, newAt.value, |newChain|);
    SameHashMeets(blocks, canon, oldTop, newTop, oldAt.value, newAt.value, |oldChain|, |newChain|);
    while oldAt.value.header.hash != newAt.value.header.hash
      invariant oldAt.Some? && newAt.Some? && deleted == Txs(oldChain)
      invariant Walked(blocks, oldTop, oldChain) && StepOk(blocks, oldTop, oldAt.value, |oldChain|)
      invariant Walked(blocks, newTop, newChain) && StepOk(blocks, newTop, newAt.value, |newChain|)
      invariant oldAt.value.header.number == newAt.value.header.number
      invariant oldAt.value.header.hash == newAt.value.header.hash <==> MeetsAt(blocks, canon, newTop, |newChain|)
      invariant forall k :: 0 <= k < |newChain| ==> !MeetsAt(blocks, canon, newTop, k)
      decreases oldAt.value.header.number
    {
      var o, n := oldAt.value, newAt.value;
      WalkStep(blocks, oldTop, oldChain, o);
      WalkStep(blocks, newTop, newChain, n);
      TxsSnoc(oldChain, o);
      Heights(blocks, oldTop, o, |oldChain|);
      Heights(blocks, newTop, n, |newChain|);
      oldChain, deleted := oldChain + [o], deleted + o.txs;
      newChain := newChain + [n];
      oldAt := GetBlock(blocks, o.header.parent, Pred(o.header.number));
      if oldAt.None? {
        OldSideEnds(blocks, canon, oldTop, |oldChain|);
        NeverMeets(blocks, canon, newTop, |newChain|);
        return false, [], [], [];
      }
      newAt := GetBlock(blocks, n.header.parent, Pred(n.header.number));
      if newAt.None? {
        NeverMeets(blocks, canon, newTop, |newChain|);
        return false, [], [], [];
      }
      Heights(blocks, oldTop, oldAt.value, |oldChain|);
      Heights(blocks, newTop, newAt.value, |newChain|);
      SameHashMeets(blocks, canon, oldTop, newTop, oldAt.value, newAt.value, |oldChain|, |newChain|);
    }
    Heights(blocks, oldTop, oldAt.value, |oldChain|);
    Heights(blocks, newTop, newAt.value, |newChain|);
    MeetsBy(blocks, canon, newTop, |newChain|);
    ok := true;
  }

  lemma MeetsBy(blocks: Blocks, canon: Index, top: Hash, k: nat)
    requires top in blocks && MeetsAt(blocks, canon, top, k)
    ensures Meets(blocks, canon, top)
  {
  }

  lemma Heights(blocks: Blocks, top: Hash, b: Block, k: nat)
    requires top in blocks && StepOk(blocks, top, b, k)
    ensures b.header.number == blocks[top].header.number - k
  {
  }
}
