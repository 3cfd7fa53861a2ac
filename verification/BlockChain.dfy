/** BlockChain: the head, the number index and the transaction lookup, and switching them over. */
module BlockChains {
  import opened Chains
  import opened BlockBranches
  import opened BlockSwitches

  /** No stored branch has a transaction twice. */
  ghost predicate NoRepeats(blocks: Blocks) {
    forall canon, head :: Indexes(Hs(blocks), canon, head) ==> Distinct(blocks, canon)
  }

  /** added are the transactions of the target's blocks between lo and hi. */
  ghost predicate Added(blocks: Blocks, target: Index, added: seq<TxHash>, lo: int, hi: int) {
    forall t :: t in added <==>
      exists m :: m in target && lo < m < hi && target[m] in blocks && t in blocks[target[m]].txs
  }

  lemma AddedStep(blocks: Blocks, target: Index, added: seq<TxHash>, lo: int, m: nat)
    requires Added(blocks, target, added, lo, m) && lo < m && m in target && target[m] in blocks
    ensures Added(blocks, target, added + blocks[target[m]].txs, lo, m + 1)
  {
    var txs := blocks[target[m]].txs;
    forall t ensures t in added + txs <==>
      exists k :: k in target && lo < k < m + 1 && target[k] in blocks && t in blocks[target[k]].txs
    {
      if t in added {
        var k :| k in target && lo < k < m && target[k] in blocks && t in blocks[target[k]].txs;
        assert k < m + 1;
      }
    }
  }

  /** types.TxDifference: what is in a and not in b. */
  method TxDifference(a: seq<TxHash>, b: seq<TxHash>) returns (keep: seq<TxHash>)
    ensures forall t :: t in keep <==> t in a && t !in b
  {
    keep := [];
    var remove := {};
    for i := 0 to |b|
      invariant forall t :: t in remove <==> t in b[..i]
    {
      remove := remove + {b[i]};
    }
    assert b[..|b|] == b;
    for i := 0 to |a|
      invariant forall t :: t in keep <==> t in a[..i] && t !in b
    {
      if a[i] !in remove {
        keep := keep + [a[i]];
      }
    }
    assert a[..|a|] == a;
  }

  lemma EnteredNone(lookup: Lookup, number: nat)
    ensures Entered(lookup, [], number) == lookup
  {
  }

  lemma EnteredSnoc(lookup: Lookup, txs: seq<TxHash>, i: nat, number: nat)
    requires i < |txs|
    ensures Entered(lookup, txs[..i + 1], number) == Entered(lookup, txs[..i], number)[txs[i] := number]
  {
    assert forall t :: t in txs[..i + 1] <==> t in txs[..i] || t == txs[i];
  }

  /** b is the block that the target has at number m. */
  ghost predicate Placed(blocks: Blocks, target: Index, b: Block, m: int) {
    m >= 0 && m in target && target[m] in blocks && blocks[target[m]] == b
      && b.header.number == m && b.header.hash == target[m]
  }

  lemma NothingYet(blocks: Blocks, canon: Index, target: Index, lookup: Lookup, lo: nat, hi: int)
    requires hi <= lo + 1
    ensures Overlaid(canon, canon, target, lo, hi)
    ensures Entering(blocks, target, lookup, lookup, lo, hi)
    ensures Added(blocks, target, [], lo, hi)
  {
  }

  lemma ChainPlaced(blocks: Blocks, canon: Index, top: Hash, newChain: seq<Block>, i: nat)
    requires Linked(Hs(blocks)) && Walked(blocks, top, newChain) && top in blocks
    requires i < |newChain| <= blocks[top].header.number
    ensures Placed(blocks, Target(blocks, canon, top, newChain), newChain[i], blocks[top].header.number - i)
  {
    hide Target, Ancestor, Walked;
    var m := blocks[top].header.number - i;
    TargetAbove(blocks, canon, top, newChain, m);
    var h := Target(blocks, canon, top, newChain)[m];
    assert Hs(blocks)[h].hash == h;
  }

  /** With nothing between lo and hi the index is as before. */
  lemma OverlaidNothing(canon0: Index, canon: Index, target: Index, lo: int, hi: int)
    requires Overlaid(canon0, canon, target, lo, hi) && hi <= lo + 1
    ensures canon == canon0
  {
    assert canon.Keys == canon0.Keys;
  }

  lemma OverlaidDomain(blocks: Blocks, canon0: Index, canon: Index, target: Index, oldTop: Hash, top: Hash, lo: nat,
                       hi: nat)
    requires Linked(Hs(blocks)) && Indexes(Hs(blocks), canon0, oldTop) && Indexes(Hs(blocks), target, top)
    requires Overlaid(canon0, canon, target, lo, hi) && lo in canon0
    ensures var last := Hs(blocks)[oldTop].number;
            forall m: nat :: m in canon <==> m <= (if last < hi - 1 then hi - 1 else last)
    ensures forall m :: m in canon ==> canon[m] != ZERO
  {
    hide Indexes;
    IndexDomain(Hs(blocks), canon0, oldTop);
    forall m | m in canon ensures canon[m] != ZERO {
      if lo < m < hi {
        IndexEntry(Hs(blocks), target, top, m);
      } else {
        IndexEntry(Hs(blocks), canon0, oldTop, m);
      }
    }
  }

  /** The fork of two branches and the index of the new head. */
  lemma ForkAt(blocks: Blocks, canon: Index, oldBlock: Block, newBlock: Block, oldChain: seq<Block>,
               newChain: seq<Block>)
      returns (lo: nat, target: Index)
    requires oldBlock.header.hash in blocks && blocks[oldBlock.header.hash] == oldBlock
    requires newBlock.header.hash in blocks && blocks[newBlock.header.hash] == newBlock
    requires Linked(Hs(blocks)) && Indexes(Hs(blocks), canon, oldBlock.header.hash)
    requires Fork(blocks, canon, oldBlock.header.hash, newBlock.header.hash, oldChain, newChain)
    ensures lo == newBlock.header.number - |newChain| == oldBlock.header.number - |oldChain|
    ensures target == Target(blocks, canon, newBlock.header.hash, newChain)
    ensures Indexes(Hs(blocks), target, newBlock.header.hash)
    ensures forall m: nat :: m in target <==> m <= newBlock.header.number
    ensures target[newBlock.header.number] == newBlock.header.hash
    ensures forall m: nat :: m <= lo ==> m in canon && m in target && canon[m] == target[m]
    ensures forall i :: 0 <= i < |newChain| ==> Placed(blocks, target, newChain[i], newBlock.header.number - i)
  {
    hide Indexes, Linked, Walked, MeetsAt, Target, Placed;
    var top := newBlock.header.hash;
    ForkExists(blocks, canon, top, newChain);
    lo := newBlock.header.number - |newChain|;
    target := Target(blocks, canon, top, newChain);
    TargetIndexes(blocks, canon, oldBlock.header.hash, top, newChain);
    TargetDomain(blocks, canon, top, newChain);
    forall m: nat | m <= lo ensures m in canon && m in target && canon[m] == target[m] {
      TargetBelow(blocks, canon, oldBlock.header.hash, top, newChain, m);
    }
    forall i | 0 <= i < |newChain| ensures Placed(blocks, target, newChain[i], newBlock.header.number - i) {
      ChainPlaced(blocks, canon, top, newChain, i);
    }
  }

  lemma LookupSwitched(blocks: Blocks, canon: Index, oldBlock: Block, newBlock: Block, oldChain: seq<Block>,
                       target: Index,
                       lo: nat, tail: nat, lookup: Lookup, entered: Lookup, added: seq<TxHash>, dropped: seq<TxHash>)
    requires oldBlock.header.hash in blocks && blocks[oldBlock.header.hash] == oldBlock
    requires newBlock.header.hash in blocks && blocks[newBlock.header.hash] == newBlock
    requires Indexes(Hs(blocks), canon, oldBlock.header.hash)
    requires NoRepeats(blocks) && LookupOk(blocks, canon, lookup, tail)
    requires Walked(blocks, oldBlock.header.hash, oldChain)
    requires lo == oldBlock.header.number - |oldChain| && lo <= newBlock.header.number
    requires forall m: nat :: m in target <==> m <= newBlock.header.number
    requires target[newBlock.header.number] == newBlock.header.hash
    requires forall m: nat :: m <= lo ==> m in canon && m in target && canon[m] == target[m]
    requires Entering(blocks, target, lookup, entered, lo, newBlock.header.number)
    requires Added(blocks, target, added, lo, newBlock.header.number)
    requires forall t :: t in dropped <==> t in Txs(oldChain) && t !in added
    ensures var left := entered - (set t | t in dropped);
            LookupOk(blocks, target, Entered(left, newBlock.txs, newBlock.header.number), tail)
  {
    hide Indexes, Walked, LookupOk, Entering, Txs, Entered, Distinct;
    var deletedSet, addedSet := set t | t in Txs(oldChain), set t | t in added;
    forall t ensures t in deletedSet <==>
      exists n :: n in canon && n > lo && canon[n] in blocks && t in blocks[canon[n]].txs
    {
      OldTxs(blocks, canon, oldBlock.header.hash, oldChain, lo, t);
    }
    var left := entered - (set t | t in dropped);
    assert left == entered - (deletedSet - addedSet) by {
      assert (set t | t in dropped) == deletedSet - addedSet;
    }
    SwitchLookup(blocks, canon, target, newBlock, lo, tail, lookup, entered, deletedSet, addedSet,
                 Entered(left, newBlock.txs, newBlock.header.number));
  }

  /** The new head is no lower than the old one, or its parent is not canonical. */
  ghost predicate Clean(blocks: Blocks, canon: Index, head: Hash, block: Block)
    requires head in blocks
  {
    || block.header.number >= blocks[head].header.number
    || (block.header.number > 0 && ReadCanonicalHash(canon, block.header.number - 1) != block.header.parent)
  }

  /** What it is to meet the canonical chain at once and at the parent. */
  lemma MeetsNear(blocks: Blocks, canon: Index, block: Block)
    requires block.header.hash in blocks && blocks[block.header.hash] == block
    ensures var number, top, parent := block.header.number, block.header.hash, block.header.parent;
            && (MeetsAt(blocks, canon, top, 0) <==> number in canon && canon[number] == top)
            && (MeetsAt(blocks, canon, top, 1) <==>
                  number > 0 && parent in blocks && number - 1 in canon && canon[number - 1] == parent)
  {
    hide Ancestor;
    var hs, top := Hs(blocks), block.header.hash;
    assert hs[top] == block.header;
    AncestorZero(hs, top);
    AncestorOne(hs, top);
  }

  /** Two or more new blocks: the switch is clean. */
  lemma WideSwitch(blocks: Blocks, canon: Index, head: Hash, block: Block, newChain: seq<Block>)
    requires head in blocks && block.header.hash in blocks && blocks[block.header.hash] == block
    requires Indexes(Hs(blocks), canon, head) && Walked(blocks, block.header.hash, newChain) && |newChain| >= 2
    requires MeetsAt(blocks, canon, block.header.hash, |newChain|) && !MeetsAt(blocks, canon, block.header.hash, 1)
    ensures Clean(blocks, canon, head, block)
  {
    hide Ancestor, Indexes;
    var hs, top := Hs(blocks), block.header.hash;
    assert hs[head] == blocks[head].header && hs[top] == block.header;
    AncestorZero(hs, top);
    AncestorOne(hs, top);
    assert StepOk(blocks, top, newChain[1], 1);
    hide Walked, MeetsAt, StepOk;
    MeetsNear(blocks, canon, block);
    IndexDomain(hs, canon, head);
  }

  /** At most one new block: the head's entry alone makes the index, unless the old head is higher. */
  lemma NarrowSwitch(blocks: Blocks, canon: Index, head: Hash, block: Block, newChain: seq<Block>)
    requires head in blocks && block.header.hash in blocks && blocks[block.header.hash] == block
    requires Indexes(Hs(blocks), canon, head) && Linked(Hs(blocks)) && |newChain| <= 1
    requires MeetsAt(blocks, canon, block.header.hash, |newChain|)
    ensures var r := canon[block.header.number := block.header.hash];
            Indexes(Hs(blocks), r, block.header.hash) <==> Clean(blocks, canon, head, block)
  {
    hide Ancestor, Indexes, MeetsAt, Linked;
    var hs, top, number := Hs(blocks), block.header.hash, block.header.number;
    var r := canon[number := top];
    assert hs[top] == block.header && hs[head] == blocks[head].header;
    MeetsNear(blocks, canon, block);
    IndexDomain(hs, canon, head);
    if Indexes(hs, r, top) {
      IndexDomain(hs, r, top);
      assert blocks[head].header.number in r;
    }
    if |newChain| == 0 {
      assert r == canon;
      IndexEntry(hs, canon, head, number);
    } else if number >= blocks[head].header.number {
      IndexEntry(hs, canon, head, number - 1);
      IndexCut(hs, canon, head, number - 1);
      var c: Index := map k | k in canon && k <= number - 1 :: canon[k];
      IndexExtend(hs, c, block.header.parent, top);
      assert c[number := top] == r;
    }
  }

  /** A block on top of the head meets the canonical chain at once. */
  lemma ChildMeets(blocks: Blocks, canon: Index, head: Hash, block: Block)
    requires head in blocks && block.header.hash in blocks && blocks[block.header.hash] == block
    requires Indexes(Hs(blocks), canon, head) && Linked(Hs(blocks)) && block.header.parent == head
    ensures Meets(blocks, canon, block.header.hash) && block.header.number == blocks[head].header.number + 1
    ensures Indexes(Hs(blocks), canon[block.header.number := block.header.hash], block.header.hash)
  {
    hide Ancestor, MeetsAt;
    var hs, top := Hs(blocks), block.header.hash;
    assert hs[top] == block.header && hs[head] == blocks[head].header;
    MeetsNear(blocks, canon, block);
    assert MeetsAt(blocks, canon, top, 1);
    IndexExtend(hs, canon, head, top);
  }

  lemma ChildLookup(blocks: Blocks, canon: Index, head: Hash, block: Block, lookup: Lookup, tail: nat)
    requires head in blocks && block.header.hash in blocks && blocks[block.header.hash] == block
    requires Indexes(Hs(blocks), canon, head) && LookupOk(blocks, canon, lookup, tail)
    requires block.header.number == blocks[head].header.number + 1
    ensures LookupOk(blocks, canon[block.header.number := block.header.hash],
                     Entered(lookup, block.txs, block.header.number), tail)
  {
    hide Indexes;
    IndexDomain(Hs(blocks), canon, head);
    assert Hs(blocks)[head] == blocks[head].header;
  }

  const ROOT := Block(Header(1, 0, ZERO), [])
  const LOW := Block(Header(2, 1, 1), [])
  const HIGH := Block(Header(3, 2, 2), [])
  const SIBLING := Block(Header(4, 1, 1), [])

  function SampleBlocks(): Blocks {
    map[1 := ROOT, 2 := LOW, 3 := HIGH, 4 := SIBLING]
  }

  function SampleIndex(): Index {
    map[0 := 1, 1 := 2, 2 := 3]
  }

  function SampleHeaders(): Headers {
    map[1 := ROOT.header, 2 := LOW.header, 3 := HIGH.header, 4 := SIBLING.header]
  }

  lemma SampleChain()
    ensures Hs(SampleBlocks()) == SampleHeaders()
  {
  }

  lemma SampleIndexed()
    ensures Linked(SampleHeaders()) && Indexes(SampleHeaders(), SampleIndex(), 3)
  {
  }

  lemma SampleEmpty()
    ensures NoRepeats(SampleBlocks())
  {
    hide Indexes;
    assert forall h :: h in SampleBlocks() ==> SampleBlocks()[h].txs == [];
    hide SampleBlocks;
  }

  lemma SampleMeets()
    ensures MeetsAt(SampleBlocks(), SampleIndex(), 4, 1)
  {
    hide Ancestor;
    MeetsNear(SampleBlocks(), SampleIndex(), SIBLING);
    hide MeetsAt;
  }

  /** A switch to a lower block next to the canonical chain is not clean. */
  lemma UncleanSwitch()
    ensures Linked(Hs(SampleBlocks())) && NoRepeats(SampleBlocks()) && Indexes(Hs(SampleBlocks()), SampleIndex(), 3)
    ensures Meets(SampleBlocks(), SampleIndex(), 4) && !Clean(SampleBlocks(), SampleIndex(), 3, SIBLING)
  {
    hide MeetsAt, Linked, Indexes, NoRepeats;
    SampleChain();
    SampleIndexed();
    SampleEmpty();
    SampleMeets();
  }

  class BlockChain {
    ghost const tail: nat
    var blocks: Blocks
    var canon: Index
    var lookup: Lookup
    var current: Hash
    var headHeader: Hash
    var headFast: Hash

    /** The index is the ancestor path of the current block and the lookup fits it. */
    ghost predicate Valid()
      reads this
    {
      && Linked(Hs(blocks)) && NoRepeats(blocks)
      && Indexes(Hs(blocks), canon, current)
      && LookupOk(blocks, canon, lookup, tail)
    }

    /** A chain as it is found in the database. */
    constructor (blocks: Blocks, canon: Index, lookup: Lookup, head: Hash, ghost tail: nat)
      requires Linked(Hs(blocks)) && NoRepeats(blocks) && Indexes(Hs(blocks), canon, head)
      requires LookupOk(blocks, canon, lookup, tail)
      ensures Valid() && this.blocks == blocks && this.canon == canon && this.lookup == lookup
      ensures current == headHeader == headFast == head && this.tail == tail
    {
      this.blocks, this.canon, this.lookup, this.tail := blocks, canon, lookup, tail;
      current, headHeader, headFast := head, head, head;
    }

    method WriteTxLookupEntries(block: Block)
      modifies `lookup
      ensures lookup == Entered(old(lookup), block.txs, block.header.number)
    {
      hide Entered;
      EnteredNone(lookup, block.header.number);
      for i := 0 to |block.txs|
        invariant lookup == Entered(old(lookup), block.txs[..i], block.header.number)
      {
        EnteredSnoc(old(lookup), block.txs, i, block.header.number);
        lookup := lookup[block.txs[i] := block.header.number];
      }
      assert block.txs[..|block.txs|] == block.txs;
    }

    method WriteHeadBlock(block: Block)
      modifies `canon, `lookup, `current, `headHeader, `headFast
      ensures canon == old(canon)[block.header.number := block.header.hash]
      ensures lookup == Entered(old(lookup), block.txs, block.header.number)
      ensures current == block.header.hash
      ensures if ReadCanonicalHash(old(canon), block.header.number) != block.header.hash
              then headHeader == headFast == block.header.hash
              else headHeader == old(headHeader) && headFast == old(headFast)
    {
      var updateHeads := ReadCanonicalHash(canon, block.header.number) != block.header.hash;
      canon := canon[block.header.number := block.header.hash];
      WriteTxLookupEntries(block);
      if updateHeads {
        headHeader, headFast := block.header.hash, block.header.hash;
      }
      current := block.header.hash;
    }

    /** Writes the new branch, all but its head, from the fork upwards. */
    method InsertNew(top: Hash, newChain: seq<Block>, ghost target: Index, ghost lo: nat) returns (added: seq<TxHash>)
      requires Walked(blocks, top, newChain) && top in blocks && lo == blocks[top].header.number - |newChain|
      requires forall m: nat :: m in target <==> m <= blocks[top].header.number
      requires forall i :: 0 <= i < |newChain| ==> Placed(blocks, target, newChain[i], blocks[top].header.number - i)
      modifies `canon, `lookup, `current, `headHeader, `headFast
      ensures Overlaid(old(canon), canon, target, lo, blocks[top].header.number)
      ensures Entering(blocks, target, old(lookup), lookup, lo, blocks[top].header.number)
      ensures Added(blocks, target, added, lo, blocks[top].header.number)
      ensures current == if |newChain| >= 2 then target[blocks[top].header.number - 1] else old(current)
    {
      hide Overlaid, Entering, Added, Walked, Entered;
      added := [];
      ghost var number := blocks[top].header.number;
      var i := |newChain| - 1;
      NothingYet(blocks, canon, target, lookup, lo, number - i);
      if newChain == [] {
        NothingYet(blocks, canon, target, lookup, lo, number);
      }
      while i >= 1
        invariant |newChain| >= 1 ==> 0 <= i < |newChain|
        invariant |newChain| == 0 ==> i == -1 && canon == old(canon) && lookup == old(lookup) && added == []
        invariant Overlaid(old(canon), canon, target, lo, number - i)
        invariant Entering(blocks, target, old(lookup), lookup, lo, number - i)
        invariant Added(blocks, target, added, lo, number - i)
        invariant current == if i < |newChain| - 1 then target[number - i - 1] else old(current)
      {
        assert Placed(blocks, target, newChain[i], number - i);
        OverlaidStep(old(canon), canon, target, lo, number - i);
        EnteringStep(blocks, target, old(lookup), lookup, lo, number - i);
        AddedStep(blocks, target, added, lo, number - i);
        WriteHeadBlock(newChain[i]);
        added := added + newChain[i].txs;
        i := i - 1;
      }
    }

    method DeleteLookups(txs: seq<TxHash>)
      modifies `lookup
      ensures lookup == old(lookup) - set t | t in txs
    {
      for i := 0 to |txs|
        invariant lookup == old(lookup) - set t | t in txs[..i]
      {
        lookup := lookup - {txs[i]};
      }
      assert txs[..|txs|] == txs;
    }

    /** Deletes the numbers above the current block. */
    method DeleteAbove(ghost top: nat)
      requires current in blocks
      requires (forall m: nat :: m in canon <==> m <= top) && (forall m :: m in canon ==> canon[m] != ZERO)
      modifies `canon
      ensures canon == old(canon) - set m | m in old(canon) && m > blocks[current].header.number
    {
      var number := blocks[current].header.number;
      var stale := {};
      var i := number + 1;
      while ReadCanonicalHash(canon, i) != ZERO
        invariant i > number && stale == set m | m in canon && number < m < i
        decreases top + 1 - i
      {
        stale := stale + {i};
        i := i + 1;
      }
      canon := canon - stale;
    }

    /** Only the new head is left to write. */
    ghost predicate Prepared(newBlock: Block, canon0: Index, newChain: seq<Block>)
      requires newBlock.header.hash in blocks
      reads this
    {
      var hash, number := newBlock.header.hash, newBlock.header.number;
      var target := Target(blocks, canon0, hash, newChain);
      && Walked(blocks, hash, newChain) && MeetsAt(blocks, canon0, hash, |newChain|)
      && (forall k :: 0 <= k < |newChain| ==> !MeetsAt(blocks, canon0, hash, k))
      && LookupOk(blocks, target, Entered(lookup, newBlock.txs, number), tail)
      && (if |newChain| >= 2 then canon[number := hash] == target else canon == canon0)
    }

    /** Rewrites the tables for a new branch that parts from the old one where the two chains end. */
    method Switch(oldBlock: Block, newBlock: Block, oldChain: seq<Block>, newChain: seq<Block>, deleted: seq<TxHash>)
      requires Valid() && current == oldBlock.header.hash
      requires oldBlock.header.hash in blocks && blocks[oldBlock.header.hash] == oldBlock
      requires newBlock.header.hash in blocks && blocks[newBlock.header.hash] == newBlock
      requires Fork(blocks, canon, oldBlock.header.hash, newBlock.header.hash, oldChain, newChain)
      requires deleted == Txs(oldChain)
      modifies `canon, `lookup, `current, `headHeader, `headFast
      ensures Prepared(newBlock, old(canon), newChain)
    {
      hide Indexes, Linked, LookupOk, Walked, MeetsAt, Target, Overlaid, Entering, Added, Txs, Entered, NoRepeats;
      ghost var top, number := newBlock.header.hash, newBlock.header.number;
      ghost var lo, target := ForkAt(blocks, canon, oldBlock, newBlock, oldChain, newChain);
      var added := InsertNew(newBlock.header.hash, newChain, target, lo);
      ghost var entered, overlaid := lookup, canon;
      var dropped := TxDifference(deleted, added);
      DeleteLookups(dropped);
      LookupSwitched(blocks, old(canon), oldBlock, newBlock, oldChain, target, lo, tail, old(lookup), entered, added,
                     dropped);
      OverlaidDomain(blocks, old(canon), canon, target, oldBlock.header.hash, top, lo, number);
      if |newChain| >= 2 {
        assert Placed(blocks, target, newChain[1], number - 1);
      }
      DeleteAbove(if oldBlock.header.number < number - 1 then number - 1 else oldBlock.header.number);
      if |newChain| >= 2 {
        OverlaidTarget(old(canon), overlaid, target, lo, number,
                       set m | m in overlaid && m > blocks[current].header.number);
      } else {
        OverlaidNothing(old(canon), overlaid, target, lo, number);
        IndexDomain(Hs(blocks), old(canon), oldBlock.header.hash);
        assert canon == old(canon);
      }
    }

    /** Finds where the branches part, writes the new one below its head and clears what is stale. */
    method Reorg(oldBlock: Block, newBlock: Block) returns (ok: bool, ghost newChain: seq<Block>)
      requires Valid() && current == oldBlock.header.hash
      requires oldBlock.header.hash in blocks && blocks[oldBlock.header.hash] == oldBlock
      requires newBlock.header.hash in blocks && blocks[newBlock.header.hash] == newBlock
      modifies `canon, `lookup, `current, `headHeader, `headFast
      ensures ok <==> Meets(blocks, old(canon), newBlock.header.hash)
      ensures !ok ==> unchanged(this)
      ensures ok ==> Prepared(newBlock, old(canon), newChain)
    {
      hide Indexes, Linked, LookupOk, Walked, MeetsAt, Target, Txs, Entered, NoRepeats, Meets;
      var found, oldChain, chain, deleted := Branches(blocks, canon, oldBlock, newBlock);
      newChain := chain;
      if !found {
        return false, [];
      }
      ok := true;
      Switch(oldBlock, newBlock, oldChain, chain, deleted);
    }

    /**
     * Makes a stored block the head. This fails, changing nothing, exactly when its stored branch does not
     * meet the canonical chain. Otherwise the lookup fits the ancestor path of the new head, and the
     * number index is that path if and only if the switch is clean.
     */
    method WriteKnownBlock(block: Block) returns (ok: bool)
      requires Valid() && block.header.hash in blocks && blocks[block.header.hash] == block
      modifies `canon, `lookup, `current, `headHeader, `headFast
      ensures ok <==> Meets(blocks, old(canon), block.header.hash)
      ensures !ok ==> unchanged(this)
      ensures ok ==> current == block.header.hash
      ensures ok ==> exists path :: Indexes(Hs(blocks), path, current) && LookupOk(blocks, path, lookup, tail)
      ensures ok ==> (Indexes(Hs(blocks), canon, current) <==> Clean(blocks, old(canon), old(current), block))
      ensures ok && Clean(blocks, old(canon), old(current), block) ==> Valid()
    {
      hide Indexes, Linked, LookupOk, Walked, MeetsAt, Target, Entered, NoRepeats, Meets;
      InStore(blocks, canon, current);
      var oldBlock := blocks[current];
      if block.header.parent != oldBlock.header.hash {
        ghost var newChain;
        ok, newChain := Reorg(oldBlock, block);
        if !ok {
          return;
        }
        ghost var target := Target(blocks, old(canon), block.header.hash, newChain);
        TargetIndexes(blocks, old(canon), old(current), block.header.hash, newChain);
        if |newChain| >= 2 {
          WideSwitch(blocks, old(canon), old(current), block, newChain);
        } else {
          NarrowSwitch(blocks, old(canon), old(current), block, newChain);
        }
        WriteHeadBlock(block);
        if Indexes(Hs(blocks), canon, current) {
          IndexUnique(Hs(blocks), canon, target, current);
        }
      } else {
        ChildMeets(blocks, canon, current, block);
        ChildLookup(blocks, canon, current, block, lookup, tail);
        WriteHeadBlock(block);
        ok := true;
      }
    }
  }

  lemma InStore(blocks: Blocks, canon: Index, head: Hash)
    requires Linked(Hs(blocks)) && Indexes(Hs(blocks), canon, head)
    ensures head in blocks && blocks[head].header.hash == head
  {
    assert head in Hs(blocks) && Hs(blocks)[head].hash == head;
  }

  /** Switching to the sibling of a lower block leaves the number index wrong. */
  method StaleNumbersLeft() returns (chain: BlockChain)
    ensures chain.current == 4 && !Indexes(Hs(chain.blocks), chain.canon, chain.current)
  {
    hide Indexes, Linked, NoRepeats, Meets, Clean;
    UncleanSwitch();
    chain := new BlockChain(SampleBlocks(), SampleIndex(), map[], 3, 0);
    var ok := chain.WriteKnownBlock(SIBLING);
  }
}
