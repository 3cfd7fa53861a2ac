/** What a switch to another branch makes of the number index and of the transaction lookup. */
module BlockSwitches {
  import opened Chains
  import opened BlockBranches

  /** The number at which the branch of top leaves the canonical chain. */
  ghost function ForkNumber(blocks: Blocks, top: Hash, newChain: seq<Block>): int
    requires top in blocks
  {
    blocks[top].header.number - |newChain|
  }

  /** The index of top: the canonical one up to the fork, the new branch from there on. */
  ghost function Target(blocks: Blocks, canon: Index, top: Hash, newChain: seq<Block>): Index
    requires top in blocks
  {
    map m: nat | m <= blocks[top].header.number :: TargetAt(blocks, canon, top, newChain, m)
  }

  ghost function TargetAt(blocks: Blocks, canon: Index, top: Hash, newChain: seq<Block>, m: nat): Hash
    requires top in blocks && m <= blocks[top].header.number
  {
    var number := blocks[top].header.number;
    if m < number - |newChain| then ReadCanonicalHash(canon, m) else Ancestor(Hs(blocks), top, number - m)
  }

  lemma TargetBelow(blocks: Blocks, canon: Index, oldTop: Hash, top: Hash, newChain: seq<Block>, m: nat)
    requires Indexes(Hs(blocks), canon, oldTop) && top in blocks && MeetsAt(blocks, canon, top, |newChain|)
    requires m <= ForkNumber(blocks, top, newChain)
    ensures m in canon && m in Target(blocks, canon, top, newChain)
    ensures Target(blocks, canon, top, newChain)[m] == canon[m]
  {
    hide Ancestor, Indexes;
    IndexDomain(Hs(blocks), canon, oldTop);
  }

  lemma TargetAbove(blocks: Blocks, canon: Index, top: Hash, newChain: seq<Block>, m: nat)
    requires Walked(blocks, top, newChain)
    requires ForkNumber(blocks, top, newChain) < m <= blocks[top].header.number
    ensures m in Target(blocks, canon, top, newChain)
    ensures var b, h := newChain[blocks[top].header.number - m], Target(blocks, canon, top, newChain)[m];
            && h == Ancestor(Hs(blocks), top, blocks[top].header.number - m)
            && h in blocks && blocks[h] == b && b.header.number == m
  {
    hide Ancestor;
    var i := blocks[top].header.number - m;
    assert StepOk(blocks, top, newChain[i], i);
  }

  lemma TargetParent(blocks: Blocks, canon: Index, oldTop: Hash, top: Hash, newChain: seq<Block>, m: nat)
    requires Indexes(Hs(blocks), canon, oldTop) && Walked(blocks, top, newChain)
    requires top in blocks && MeetsAt(blocks, canon, top, |newChain|)
    requires 0 < m <= blocks[top].header.number
    ensures var t := Target(blocks, canon, top, newChain);
            t[m] in blocks && blocks[t[m]].header.number == m && t[m - 1] == blocks[t[m]].header.parent
  {
    hide Ancestor, Walked, Indexes, MeetsAt;
    var hs := Hs(blocks);
    var number := blocks[top].header.number;
    if m <= ForkNumber(blocks, top, newChain) {
      TargetBelow(blocks, canon, oldTop, top, newChain, m);
      TargetBelow(blocks, canon, oldTop, top, newChain, m - 1);
      IndexEntry(hs, canon, oldTop, m);
    } else {
      TargetAbove(blocks, canon, top, newChain, m);
      AncestorNext(hs, top, number - m);
    }
  }

  lemma TargetIndexes(blocks: Blocks, canon: Index, oldTop: Hash, top: Hash, newChain: seq<Block>)
    requires Indexes(Hs(blocks), canon, oldTop) && Walked(blocks, top, newChain)
    requires top in blocks && MeetsAt(blocks, canon, top, |newChain|)
    ensures Indexes(Hs(blocks), Target(blocks, canon, top, newChain), top)
  {
    hide Target, Walked, MeetsAt;
    var hs := Hs(blocks);
    var t := Target(blocks, canon, top, newChain);
    TargetDomain(blocks, canon, top, newChain);
    TargetBelow(blocks, canon, oldTop, top, newChain, 0) by {
      ForkExists(blocks, canon, top, newChain);
    }
    forall m | m in t ensures t[m] in hs && hs[t[m]].number == m {
      if m > 0 {
        TargetParent(blocks, canon, oldTop, top, newChain, m);
      }
    }
    forall m | m in t && m > 0 ensures t[m - 1] == hs[t[m]].parent {
      TargetParent(blocks, canon, oldTop, top, newChain, m);
    }
  }

  lemma ForkExists(blocks: Blocks, canon: Index, top: Hash, newChain: seq<Block>)
    requires top in blocks && MeetsAt(blocks, canon, top, |newChain|)
    ensures ForkNumber(blocks, top, newChain) >= 0
  {
  }

  lemma TargetDomain(blocks: Blocks, canon: Index, top: Hash, newChain: seq<Block>)
    requires top in blocks
    ensures var t := Target(blocks, canon, top, newChain);
            && (forall m: nat :: m in t <==> m <= blocks[top].header.number)
            && t[blocks[top].header.number] == top
  {
    assert Ancestor(Hs(blocks), top, 0) == top;
  }

  /** canon is canon0 with the target's entries strictly between lo and hi. */
  ghost predicate Overlaid(canon0: Index, canon: Index, target: Index, lo: int, hi: int) {
    && (forall m: nat :: m in canon <==> m in canon0 || lo < m < hi)
    && (forall m :: m in canon && lo < m < hi ==> m in target && canon[m] == target[m])
    && (forall m :: m in canon && !(lo < m < hi) ==> canon[m] == canon0[m])
  }

  lemma OverlaidStep(canon0: Index, canon: Index, target: Index, lo: int, m: nat)
    requires Overlaid(canon0, canon, target, lo, m) && lo < m && m in target
    ensures Overlaid(canon0, canon[m := target[m]], target, lo, m + 1)
  {
  }

  /** Once the entries from the new head's number on are gone, adding the head gives the target. */
  lemma OverlaidTarget(canon0: Index, canon: Index, target: Index, lo: int, number: nat, stale: set<nat>)
    requires Overlaid(canon0, canon, target, lo, number) && lo < number
    requires forall m: nat :: m in target <==> m <= number
    requires forall m: nat :: m <= lo ==> m in canon0 && canon0[m] == target[m]
    requires forall m: nat :: m in stale <==> m in canon && m >= number
    ensures (canon - stale)[number := target[number]] == target
  {
    var r := (canon - stale)[number := target[number]];
    assert r.Keys == target.Keys;
  }

  /** t is entered under a number between lo and hi whose block has it. */
  ghost predicate EnteredAt(blocks: Blocks, target: Index, lookup: Lookup, t: TxHash, lo: int, hi: int) {
    && t in lookup && lo < lookup[t] < hi && lookup[t] in target
    && target[lookup[t]] in blocks && t in blocks[target[lookup[t]]].txs
  }

  /** lookup is lookup0 with the transactions of the target's blocks between lo and hi entered. */
  ghost predicate Entering(blocks: Blocks, target: Index, lookup0: Lookup, lookup: Lookup, lo: int, hi: int) {
    && lookup0.Keys <= lookup.Keys
    && (forall t :: t in lookup ==>
          EnteredAt(blocks, target, lookup, t, lo, hi) || (t in lookup0 && lookup[t] == lookup0[t]))
    && (forall m, t :: m in target && lo < m < hi && target[m] in blocks && t in blocks[target[m]].txs ==>
          EnteredAt(blocks, target, lookup, t, lo, hi))
  }

  function Entered(lookup: Lookup, txs: seq<TxHash>, number: nat): Lookup {
    lookup + map t | t in txs :: number
  }

  lemma EnteringStep(blocks: Blocks, target: Index, lookup0: Lookup, lookup: Lookup, lo: int, m: nat)
    requires Entering(blocks, target, lookup0, lookup, lo, m) && lo < m && m in target && target[m] in blocks
    ensures Entering(blocks, target, lookup0, Entered(lookup, blocks[target[m]].txs, m), lo, m + 1)
  {
    var txs := blocks[target[m]].txs;
    var r := Entered(lookup, txs, m);
    forall t | t in r
      ensures EnteredAt(blocks, target, r, t, lo, m + 1) || (t in lookup0 && r[t] == lookup0[t])
    {
      if t !in txs && EnteredAt(blocks, target, lookup, t, lo, m) {
        assert EnteredAt(blocks, target, r, t, lo, m + 1);
      }
    }
    forall k, t | k in target && lo < k < m + 1 && target[k] in blocks && t in blocks[target[k]].txs
      ensures EnteredAt(blocks, target, r, t, lo, m + 1)
    {
      if t !in txs {
        assert EnteredAt(blocks, target, lookup, t, lo, m);
      }
    }
  }

  /** Every entry gives a canonical block with the transaction; from the tail on all are entered. */
  ghost predicate LookupOk(blocks: Blocks, canon: Index, lookup: Lookup, tail: nat) {
    && (forall t :: t in lookup ==>
          lookup[t] in canon && canon[lookup[t]] in blocks && t in blocks[canon[lookup[t]]].txs)
    && (forall n, t :: n in canon && n >= tail && canon[n] in blocks && t in blocks[canon[n]].txs ==> t in lookup)
  }

  /** No transaction is in two blocks of the chain. */
  ghost predicate Distinct(blocks: Blocks, canon: Index) {
    forall m, n, t ::
      (m in canon && canon[m] in blocks && t in blocks[canon[m]].txs) ==>
      (n in canon && canon[n] in blocks && t in blocks[canon[n]].txs) ==> m == n
  }

  /** With no transaction repeated, an entry is the number of the block. */
  lemma LookupExact(blocks: Blocks, canon: Index, lookup: Lookup, tail: nat, n: nat, t: TxHash)
    requires LookupOk(blocks, canon, lookup, tail) && Distinct(blocks, canon)
    requires n in canon && canon[n] in blocks && t in blocks[canon[n]].txs && (n >= tail || t in lookup)
    ensures t in lookup && lookup[t] == n
  {
  }

  /** The transactions above the fork on the old branch, as the walk collects them. */
  lemma OldTxs(blocks: Blocks, canon: Index, oldTop: Hash, oldChain: seq<Block>, lo: int, t: TxHash)
    requires Indexes(Hs(blocks), canon, oldTop) && Walked(blocks, oldTop, oldChain)
    requires lo == blocks[oldTop].header.number - |oldChain| && lo >= 0
    ensures t in Txs(oldChain) <==>
              exists n :: n in canon && n > lo && canon[n] in blocks && t in blocks[canon[n]].txs
  {
    hide Ancestor, Txs;
    var hs := Hs(blocks);
    var top := blocks[oldTop].header.number;
    IndexDomain(hs, canon, oldTop);
    TxsMember(oldChain, t);
    forall i | 0 <= i < |oldChain|
      ensures top - i in canon && canon[top - i] in blocks && oldChain[i] == blocks[canon[top - i]]
    {
      assert StepOk(blocks, oldTop, oldChain[i], i);
      CanonAncestor(hs, canon, oldTop, top, i);
    }
    if n :| n in canon && n > lo && canon[n] in blocks && t in blocks[canon[n]].txs {
      assert oldChain[top - n] == blocks[canon[n]];
    }
    if i :| 0 <= i < |oldChain| && t in oldChain[i].txs {
      assert canon[top - i] in blocks;
    }
  }

  /** After a switch the lookup fits the index of the new head. */
  lemma SwitchLookup(blocks: Blocks, canon: Index, target: Index, head: Block, lo: nat, tail: nat,
                     lookup0: Lookup, entered: Lookup, deleted: set<TxHash>, added: set<TxHash>, lookup: Lookup)
    requires LookupOk(blocks, canon, lookup0, tail) && Distinct(blocks, canon)
    requires forall m: nat :: m in target <==> m <= head.header.number
    requires head.header.hash in blocks && blocks[head.header.hash] == head
    requires target[head.header.number] == head.header.hash && lo <= head.header.number
    requires forall m: nat :: m <= lo ==> m in canon && m in target && canon[m] == target[m]
    requires Entering(blocks, target, lookup0, entered, lo, head.header.number)
    requires forall t :: t in deleted <==>
               exists n :: n in canon && n > lo && canon[n] in blocks && t in blocks[canon[n]].txs
    requires forall t :: t in added <==>
               exists m :: m in target && lo < m < head.header.number && target[m] in blocks
                 && t in blocks[target[m]].txs
    requires lookup == Entered(entered - (deleted - added), head.txs, head.header.number)
    ensures LookupOk(blocks, target, lookup, tail)
  {
    forall t | t in lookup
      ensures lookup[t] in target && target[lookup[t]] in blocks && t in blocks[target[lookup[t]]].txs
    {
      if t !in head.txs && !EnteredAt(blocks, target, entered, t, lo, head.header.number) {
        assert lookup0[t] > lo ==> t in deleted;
        assert lookup0[t] <= lo;
      }
    }
    forall m, t | m in target && m >= tail && target[m] in blocks && t in blocks[target[m]].txs
      ensures t in lookup
    {
      if m <= lo {
        assert t in lookup0 && t !in deleted;
      } else if m < head.header.number {
        assert EnteredAt(blocks, target, entered, t, lo, head.header.number);
        assert t in added;
      }
    }
  }
}
