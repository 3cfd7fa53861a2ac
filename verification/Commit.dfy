/** The acceptance guard of onCommitted and what two accepted messages say about the committee. */
module Commits {
  import opened Wrappers
  import opened AbiWords
  import opened Quorums
  import Chains

  const HALF_BYTE_LOOKUP: seq<nat> := [0, 1, 1, 2, 1, 2, 2, 3, 1, 2, 2, 3, 2, 3, 3, 4]
  const POWERS: seq<nat> := [1, 2, 4, 8, 16, 32, 64, 128]

  /** Bit i of a bitmap: bit i mod 8, from the low end, of byte i div 8. */
  predicate Bit(bitmap: seq<Byte>, i: nat) {
    i / 8 < |bitmap| && bitmap[i / 8] / POWERS[i % 8] % 2 == 1
  }

  ghost function BitsBelow(bitmap: seq<Byte>, n: nat): set<nat> {
    set i | 0 <= i < n && Bit(bitmap, i)
  }

  function CountOneBitsInByte(b: Byte): nat {
    HALF_BYTE_LOOKUP[b % 16] + HALF_BYTE_LOOKUP[b / 16]
  }

  lemma HalfByteCount(x: nat)
    requires x < 16
    ensures HALF_BYTE_LOOKUP[x] == x % 2 + x / 2 % 2 + x / 4 % 2 + x / 8 % 2
  {
  }

  /** The table gives the number of one bits. */
  lemma ByteCount(b: Byte)
    ensures CountOneBitsInByte(b)
         == b % 2 + b / 2 % 2 + b / 4 % 2 + b / 8 % 2 + b / 16 % 2 + b / 32 % 2 + b / 64 % 2 + b / 128 % 2
  {
    HalfByteCount(b % 16);
    HalfByteCount(b / 16);
    LowBits(b / 16, b % 16);
    assert b == 16 * (b / 16) + b % 16;
    assert b / 32 == b / 16 / 2 && b / 64 == b / 16 / 4 && b / 128 == b / 16 / 8;
  }

  lemma LowBits(h: nat, l: nat)
    requires l < 16
    ensures (16 * h + l) % 2 == l % 2 && (16 * h + l) / 2 % 2 == l / 2 % 2
    ensures (16 * h + l) / 4 % 2 == l / 4 % 2 && (16 * h + l) / 8 % 2 == l / 8 % 2
  {
    LowShifts(h, l);
    SameParity(8 * h, l);
    SameParity(4 * h, l / 2);
    SameParity(2 * h, l / 4);
    SameParity(h, l / 8);
  }

  lemma LowShifts(h: nat, l: nat)
    ensures (16 * h + l) / 2 == 8 * h + l / 2
    ensures (16 * h + l) / 4 == 4 * h + l / 4
    ensures (16 * h + l) / 8 == 2 * h + l / 8
  {
  }

  lemma SameParity(k: nat, x: nat)
    ensures (2 * k + x) % 2 == x % 2
  {
  }

  lemma BitsBelowStep(bitmap: seq<Byte>, n: nat)
    ensures |BitsBelow(bitmap, n + 1)| == |BitsBelow(bitmap, n)| + if Bit(bitmap, n) then 1 else 0
  {
    if Bit(bitmap, n) {
      assert BitsBelow(bitmap, n + 1) == BitsBelow(bitmap, n) + {n};
    } else {
      assert BitsBelow(bitmap, n + 1) == BitsBelow(bitmap, n);
    }
  }

  /** Bit j of byte k. */
  lemma BitOf(bitmap: seq<Byte>, k: nat, j: nat)
    requires k < |bitmap| && j < 8
    ensures (if Bit(bitmap, 8 * k + j) then 1 else 0) == bitmap[k] / POWERS[j] % 2
  {
    assert (8 * k + j) / 8 == k && (8 * k + j) % 8 == j;
  }

  lemma BitsBelowByte(bitmap: seq<Byte>, k: nat)
    requires k < |bitmap|
    ensures |BitsBelow(bitmap, 8 * k + 8)| == |BitsBelow(bitmap, 8 * k)| + CountOneBitsInByte(bitmap[k])
  {
    hide Bit, BitsBelow, CountOneBitsInByte;
    ByteCount(bitmap[k]);
    FourBits(bitmap, k, 0);
    FourBits(bitmap, k, 4);
  }

  lemma FourBits(bitmap: seq<Byte>, k: nat, j: nat)
    requires k < |bitmap| && j <= 4
    ensures var b := bitmap[k];
            |BitsBelow(bitmap, 8 * k + j + 4)| == |BitsBelow(bitmap, 8 * k + j)|
              + b / POWERS[j] % 2 + b / POWERS[j + 1] % 2 + b / POWERS[j + 2] % 2 + b / POWERS[j + 3] % 2
  {
    hide Bit, BitsBelow;
    BitsBelowStep(bitmap, 8 * k + j);
    BitsBelowStep(bitmap, 8 * k + j + 1);
    BitsBelowStep(bitmap, 8 * k + j + 2);
    BitsBelowStep(bitmap, 8 * k + j + 3);
    BitOf(bitmap, k, j);
    BitOf(bitmap, k, j + 1);
    BitOf(bitmap, k, j + 2);
    BitOf(bitmap, k, j + 3);
  }

  /** The number of one bits in the whole bitmap. */
  method CountOneBits(arr: seq<Byte>) returns (count: nat)
    ensures count == |BitsBelow(arr, 8 * |arr|)|
  {
    hide Bit, BitsBelow, CountOneBitsInByte;
    count := 0;
    NoBits(arr);
    for i := 0 to |arr|
      invariant count == |BitsBelow(arr, 8 * i)|
    {
      BitsBelowByte(arr, i);
      count := count + CountOneBitsInByte(arr[i]);
    }
  }

  lemma NoBits(arr: seq<Byte>)
    ensures BitsBelow(arr, 0) == {}
  {
  }

  /** A mask over n members has a bit for each of them and no others. */
  ghost predicate MaskOk(bitmap: seq<Byte>, n: nat) {
    forall i: nat :: Bit(bitmap, i) ==> i < n
  }

  lemma MaskBits(bitmap: seq<Byte>, n: nat)
    requires MaskOk(bitmap, n)
    ensures BitsBelow(bitmap, 8 * |bitmap|) == BitsBelow(bitmap, n)
  {
    forall i: nat | Bit(bitmap, i) ensures i < 8 * |bitmap| {
      assert i == 8 * (i / 8) + i % 8;
    }
  }

  /** Whether the members enabled in the mask are more than two thirds; no mask is no quorum. */
  method IsQuorumAchievedByMask(mask: Option<seq<Byte>>, members: seq<Key>) returns (achieved: bool)
    requires mask.Some? ==> MaskOk(mask.value, |members|)
    ensures achieved <==> mask.Some? && QuorumMask(mask.value, members)
  {
    if mask.None? {
      return false;
    }
    var count := CountOneBits(mask.value);
    MaskBits(mask.value, |members|);
    achieved := count >= TwoThirds(|members|);
  }

  ghost predicate QuorumMask(bitmap: seq<Byte>, members: seq<Key>) {
    3 * |BitsBelow(bitmap, |members|)| > 2 * |members|
  }

  function LittleEndian(n: nat, k: nat): (bs: seq<Byte>)
    ensures |bs| == k
  {
    if k == 0 then [] else [n % 256] + LittleEndian(n / 256, k - 1)
  }

  lemma {:induction false} LittleEndianInjective(m: nat, n: nat, k: nat)
    requires LittleEndian(m, k) == LittleEndian(n, k) && m < Pow256(k) && n < Pow256(k)
    ensures m == n
    decreases k
  {
    if k > 0 {
      var x, y := LittleEndian(m, k), LittleEndian(n, k);
      assert x[0] == y[0] && x[1..] == y[1..];
      assert x[1..] == LittleEndian(m / 256, k - 1) && y[1..] == LittleEndian(n / 256, k - 1);
      LittleEndianInjective(m / 256, n / 256, k - 1);
    }
  }

  type Hash = h: seq<Byte> | |h| == 32 witness seq(32, i => 0)

  /** Number and hash, and the view in a staking epoch. */
  function ConstructCommitPayload(staking: bool, hash: Hash, number: nat, viewID: nat): seq<Byte> {
    var payload := LittleEndian(number, 8) + hash;
    if !staking then payload else payload + LittleEndian(viewID, 8)
  }

  /** Different blocks have different payloads, in whatever epochs they lie. */
  lemma PayloadInjective(s1: bool, h1: Hash, n1: nat, v1: nat, s2: bool, h2: Hash, n2: nat, v2: nat)
    requires ConstructCommitPayload(s1, h1, n1, v1) == ConstructCommitPayload(s2, h2, n2, v2)
    requires n1 < Pow256(8) && n2 < Pow256(8)
    ensures h1 == h2 && n1 == n2 && s1 == s2
  {
    hide LittleEndian;
    var p, q := ConstructCommitPayload(s1, h1, n1, v1), ConstructCommitPayload(s2, h2, n2, v2);
    assert p[..8] == LittleEndian(n1, 8) && q[..8] == LittleEndian(n2, 8);
    assert p[8..40] == h1 && q[8..40] == h2;
    LittleEndianInjective(n1, n2, 8);
  }

  datatype Block = Block(hash: Hash, number: nat, staking: bool)

  datatype Message = Message(blockNum: nat, blockHash: Hash, payload: Option<(Signature, seq<Byte>)>)

  /** The members enabled in a mask. */
  function EnabledKeys(bitmap: seq<Byte>, members: seq<Key>, n: nat): set<Key>
    requires n <= |members|
  {
    if n == 0 then {}
    else EnabledKeys(bitmap, members, n - 1) + (if Bit(bitmap, n - 1) then {members[n - 1]} else {})
  }

  lemma {:induction false} EnabledSize(bitmap: seq<Byte>, members: seq<Key>, n: nat)
    requires n <= |members| && Unique(members)
    ensures EnabledKeys(bitmap, members, n) <= Keys(members[..n])
    ensures |EnabledKeys(bitmap, members, n)| == |BitsBelow(bitmap, n)|
  {
    hide Bit, BitsBelow, Keys, Unique;
    if n == 0 {
      NoBits(bitmap);
    } else {
      EnabledSize(bitmap, members, n - 1);
      BitsBelowStep(bitmap, n - 1);
      NextKey(members, n);
    }
  }

  lemma NextKey(members: seq<Key>, n: nat)
    requires 0 < n <= |members| && Unique(members)
    ensures Keys(members[..n]) == Keys(members[..n - 1]) + {members[n - 1]}
    ensures members[n - 1] !in Keys(members[..n - 1])
  {
    assert members[..n] == members[..n - 1] + [members[n - 1]];
  }

  /** The blocks of the log are under their hash, with 64-bit numbers. */
  ghost predicate LogOk(blocks: map<Hash, Block>) {
    forall h :: h in blocks ==> blocks[h].hash == h && blocks[h].number < Pow256(8)
  }

  function CommitPayload(b: Block): seq<Byte> {
    ConstructCommitPayload(b.staking, b.hash, b.number, 0)
  }

  /** What onCommitted asks of a message before it takes the aggregate signature as a commit. */
  ghost predicate Accepts(msg: Message, blockNum: nat, members: seq<Key>, blocks: map<Hash, Block>,
                          verify: (Signature, set<Key>, seq<Byte>) -> bool) {
    && msg.blockNum >= Chains.Pred(blockNum)
    && msg.payload.Some? && QuorumMask(msg.payload.value.1, members)
    && msg.blockHash in blocks
    && verify(msg.payload.value.0, EnabledKeys(msg.payload.value.1, members, |members|),
              CommitPayload(blocks[msg.blockHash]))
  }

  /** The guard of onCommitted; it yields the block that the message commits. */
  method OnCommitted(msg: Message, blockNum: nat, members: seq<Key>, blocks: map<Hash, Block>,
                     verify: (Signature, set<Key>, seq<Byte>) -> bool) returns (committed: Option<Block>)
    requires msg.payload.Some? ==> MaskOk(msg.payload.value.1, |members|)
    ensures committed.Some? <==> Accepts(msg, blockNum, members, blocks, verify)
    ensures committed.Some? ==> committed.value == blocks[msg.blockHash]
  {
    if msg.blockNum < Chains.Pred(blockNum) || msg.payload.None? {
      return None;
    }
    var aggSig, mask := msg.payload.value.0, msg.payload.value.1;
    var achieved := IsQuorumAchievedByMask(Some(mask), members);
    if !achieved {
      return None;
    }
    if msg.blockHash !in blocks {
      return None;
    }
    var block := blocks[msg.blockHash];
    if !verify(aggSig, EnabledKeys(mask, members, |members|), CommitPayload(block)) {
      return None;
    }
    return Some(block);
  }

  /** An aggregate over a set of keys verifies only if every one of them signed. */
  ghost predicate Sound(verify: (Signature, set<Key>, seq<Byte>) -> bool, signed: (Key, seq<Byte>) -> bool) {
    forall sig, keys, payload :: verify(sig, keys, payload) ==> forall k :: k in keys ==> signed(k, payload)
  }

  lemma Overlap(a: set<Key>, b: set<Key>, all: set<Key>)
    requires a <= all && b <= all
    ensures |a * b| >= |a| + |b| - |all|
  {
    assert |a + b| + |a * b| == |a| + |b|;
    SubsetSize(a + b, all);
  }

  /**
   * If messages for two different blocks are both accepted under one committee, then more than a third of
   * its members signed two different commit payloads.
   */
  lemma AccountableIntersection(m1: Message, m2: Message, blockNum1: nat, blockNum2: nat, members: seq<Key>,
                                blocks1: map<Hash, Block>, blocks2: map<Hash, Block>,
                                verify: (Signature, set<Key>, seq<Byte>) -> bool, signed: (Key, seq<Byte>) -> bool)
      returns (guilty: set<Key>)
    requires Unique(members) && LogOk(blocks1) && LogOk(blocks2) && Sound(verify, signed)
    requires Accepts(m1, blockNum1, members, blocks1, verify) && Accepts(m2, blockNum2, members, blocks2, verify)
    requires m1.blockHash != m2.blockHash
    ensures guilty <= Keys(members) && 3 * |guilty| > |members|
    ensures CommitPayload(blocks1[m1.blockHash]) != CommitPayload(blocks2[m2.blockHash])
    ensures forall k :: k in guilty ==>
              signed(k, CommitPayload(blocks1[m1.blockHash])) && signed(k, CommitPayload(blocks2[m2.blockHash]))
  {
    hide Bit, BitsBelow, EnabledKeys, CommitPayload;
    var n := |members|;
    var k1, k2 := EnabledKeys(m1.payload.value.1, members, n), EnabledKeys(m2.payload.value.1, members, n);
    EnabledSize(m1.payload.value.1, members, n);
    EnabledSize(m2.payload.value.1, members, n);
    assert members[..n] == members;
    UniqueSize(members);
    Overlap(k1, k2, Keys(members));
    guilty := k1 * k2;
    DifferentPayloads(blocks1[m1.blockHash], blocks2[m2.blockHash]);
  }

  lemma DifferentPayloads(a: Block, b: Block)
    requires a.hash != b.hash && a.number < Pow256(8) && b.number < Pow256(8)
    ensures CommitPayload(a) != CommitPayload(b)
  {
    if CommitPayload(a) == CommitPayload(b) {
      PayloadInjective(a.staking, a.hash, a.number, 0, b.staking, b.hash, b.number, 0);
    }
  }
}
