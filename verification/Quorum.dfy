/** cIdentities and uniformVoteWeight: ballot boxes by phase, aggregation and the quorum tests. */
module Quorums {
  import opened Wrappers

  type Key = nat
  type Signature = nat

  datatype Phase = Prepare | Commit | ViewChange | Unknown

  datatype Ballot = Ballot(keys: seq<Key>, headerHash: nat, signature: Signature, height: nat, viewID: nat)

  type Box = map<Key, Ballot>

  ghost predicate Unique(keys: seq<Key>) {
    forall i, j :: 0 <= i < j < |keys| ==> keys[i] != keys[j]
  }

  /** Every key lies in its own ballot, and all keys of a ballot have that ballot. */
  ghost predicate BoxOk(box: Box) {
    forall k :: k in box ==> k in box[k].keys && Unique(box[k].keys) && Together(box, box[k])
  }

  ghost predicate Together(box: Box, b: Ballot) {
    forall j :: j in b.keys ==> j in box && box[j] == b
  }

  /** The ballots of a box partition its keys. */
  lemma BallotsPartition(box: Box, k: Key, b: Ballot)
    requires BoxOk(box) && b in box.Values
    ensures k in b.keys <==> k in box && box[k] == b
  {
    var j :| j in box && box[j] == b;
    assert Together(box, b);
  }

  function Keys(keys: seq<Key>): set<Key> {
    set k | k in keys
  }

  /** The box with the ballot recorded for each of the keys. */
  function Cast(box: Box, keys: seq<Key>, b: Ballot): (r: Box)
    ensures r.Keys == box.Keys + Keys(keys)
    ensures forall k :: k in keys ==> k in r && r[k] == b
    ensures forall k :: k !in keys ==> (k in r <==> k in box) && (k in box ==> r[k] == box[k])
  {
    box + map k | k in keys :: b
  }

  lemma CastSnoc(box: Box, keys: seq<Key>, i: nat, b: Ballot)
    requires i < |keys|
    ensures Cast(box, keys[..i + 1], b) == Cast(box, keys[..i], b)[keys[i] := b]
  {
    assert forall k :: k in keys[..i + 1] <==> k in keys[..i] || k == keys[i];
  }

  lemma CastNone(box: Box, b: Ballot)
    ensures Cast(box, [], b) == box
  {
  }

  /** A ballot of new, distinct keys keeps the box in order and adds as many signers. */
  lemma CastKeepsBox(box: Box, b: Ballot)
    requires BoxOk(box) && Unique(b.keys) && forall k :: k in b.keys ==> k !in box
    ensures BoxOk(Cast(box, b.keys, b)) && |Cast(box, b.keys, b)| == |box| + |b.keys|
  {
    var r := Cast(box, b.keys, b);
    forall k | k in r ensures k in r[k].keys && Unique(r[k].keys) && Together(r, r[k]) {
      if k !in b.keys {
        assert Together(box, box[k]);
      }
    }
    CastSize(box, b);
  }

  lemma CastSize(box: Box, b: Ballot)
    requires Unique(b.keys) && forall k :: k in b.keys ==> k !in box
    ensures |Cast(box, b.keys, b)| == |box| + |b.keys|
  {
    UniqueSize(b.keys);
    var r := Cast(box, b.keys, b);
    assert box.Keys !! Keys(b.keys);
    assert |r.Keys| == |box.Keys| + |Keys(b.keys)|;
  }

  lemma {:induction false} UniqueSize(keys: seq<Key>)
    requires Unique(keys)
    ensures |Keys(keys)| == |keys|
  {
    if keys != [] {
      var front, last := keys[..|keys| - 1], keys[|keys| - 1];
      UniqueSize(front);
      assert last !in Keys(front);
      assert Keys(keys) == Keys(front) + {last} by {
        assert keys == front + [last];
      }
    }
  }

  function TwoThirds(n: nat): nat {
    n * 2 / 3 + 1
  }

  ghost function KeySet(bs: seq<Ballot>): set<Key> {
    if bs == [] then {} else KeySet(bs[..|bs| - 1]) + Keys(bs[|bs| - 1].keys)
  }

  ghost function KeyCount(bs: seq<Ballot>): nat {
    if bs == [] then 0 else KeyCount(bs[..|bs| - 1]) + |bs[|bs| - 1].keys|
  }

  lemma KeySnoc(bs: seq<Ballot>, b: Ballot)
    ensures KeySet(bs + [b]) == KeySet(bs) + Keys(b.keys)
    ensures KeyCount(bs + [b]) == KeyCount(bs) + |b.keys|
  {
    assert (bs + [b])[..|bs|] == bs;
  }

  lemma EmptyBoxOk()
    ensures BoxOk(map[])
  {
  }

  class Identities {
    var publicKeys: seq<Key>
    var prepare: Box
    var commit: Box
    var viewChange: Box

    ghost predicate Valid()
      reads this
    {
      forall p :: BoxOk(BoxOf(p))
    }

    constructor ()
      ensures Valid() && publicKeys == [] && prepare == commit == viewChange == map[]
    {
      publicKeys, prepare, commit, viewChange := [], map[], map[], map[];
    }

    function BoxOf(p: Phase): Box
      reads this
    {
      match p
      case Prepare => prepare
      case Commit => commit
      case ViewChange => viewChange
      case Unknown => map[]
    }

    function ReadBallot(p: Phase, key: Key): Option<Ballot>
      reads this
    {
      if key in BoxOf(p) then Some(BoxOf(p)[key]) else None
    }

    function SignersCount(p: Phase): nat
      reads this
    {
      |BoxOf(p)|
    }

    method UpdateParticipants(keys: seq<Key>)
      modifies `publicKeys
      ensures publicKeys == keys
    {
      publicKeys := keys;
    }

    /** The first loop of submitVote: no key twice and none that has voted. */
    method Fresh(p: Phase, keys: seq<Key>) returns (ok: bool)
      ensures ok <==> Unique(keys) && forall k :: k in keys ==> k !in BoxOf(p)
    {
      var seen := {};
      for i := 0 to |keys|
        invariant forall k :: k in seen <==> k in keys[..i]
        invariant Unique(keys[..i]) && forall k :: k in keys[..i] ==> k !in BoxOf(p)
      {
        if keys[i] in seen {
          var j :| 0 <= j < i && keys[..i][j] == keys[i];
          assert !Unique(keys) by {
            assert keys[j] == keys[i];
          }
          return false;
        }
        seen := seen + {keys[i]};
        if ReadBallot(p, keys[i]).Some? {
          return false;
        }
      }
      assert keys[..|keys|] == keys;
      return true;
    }

    /** One turn of the second loop: the ballot goes into the box of its phase. */
    method RecordOne(p: Phase, key: Key, ballot: Ballot) returns (ok: bool)
      modifies this
      ensures ok <==> p != Unknown
      ensures ok ==> BoxOf(p) == old(BoxOf(p))[key := ballot]
      ensures publicKeys == old(publicKeys) && forall q :: q != p ==> BoxOf(q) == old(BoxOf(q))
    {
      ok := true;
      match p
      case Prepare => prepare := prepare[key := ballot];
      case Commit => commit := commit[key := ballot];
      case ViewChange => viewChange := viewChange[key := ballot];
      case Unknown => ok := false;
    }

    method Record(p: Phase, ballot: Ballot) returns (ok: bool)
      modifies this
      ensures ok <==> p != Unknown || ballot.keys == []
      ensures p != Unknown ==> BoxOf(p) == Cast(old(BoxOf(p)), ballot.keys, ballot)
      ensures publicKeys == old(publicKeys) && forall q :: q != p ==> BoxOf(q) == old(BoxOf(q))
    {
      hide Cast, BoxOf;
      var keys := ballot.keys;
      ghost var box := BoxOf(p);
      CastNone(box, ballot);
      for i := 0 to |keys|
        invariant p == Unknown ==> i == 0
        invariant p != Unknown ==> BoxOf(p) == Cast(box, keys[..i], ballot)
        invariant publicKeys == old(publicKeys) && forall q :: q != p ==> BoxOf(q) == old(BoxOf(q))
      {
        CastSnoc(box, keys, i, ballot);
        ok := RecordOne(p, keys[i], ballot);
        if !ok {
          return;
        }
      }
      assert keys[..|keys|] == keys;
      ok := true;
    }

    /**
     * A vote is taken exactly when its keys are distinct and have not voted in the phase; an unknown phase is
     * refused unless there is no key at all. A refused vote changes nothing.
     */
    method SubmitVote(p: Phase, keys: seq<Key>, signature: Signature, headerHash: nat, height: nat, viewID: nat)
        returns (r: Result<Ballot>)
      requires Valid()
      modifies this
      ensures Valid() && publicKeys == old(publicKeys)
      ensures r.Ok? <==> Unique(keys) && (forall k :: k in keys ==> k !in old(BoxOf(p))) && (p.Unknown? ==> keys == [])
      ensures r.Err? ==> forall q :: BoxOf(q) == old(BoxOf(q))
      ensures r.Ok? ==> r.value == Ballot(keys, headerHash, signature, height, viewID)
      ensures r.Ok? ==> BoxOf(p) == Cast(old(BoxOf(p)), keys, r.value)
      ensures r.Ok? ==> SignersCount(p) == old(SignersCount(p)) + |keys|
      ensures r.Ok? ==> forall q :: q != p ==> BoxOf(q) == old(BoxOf(q))
    {
      hide BoxOk, Cast, BoxOf, Unique;
      var ok := Fresh(p, keys);
      if !ok {
        return Err;
      }
      var ballot := Ballot(keys, headerHash, signature, height, viewID);
      CastKeepsBox(BoxOf(p), ballot);
      CastNone(BoxOf(p), ballot);
      NoBox();
      ok := Record(p, ballot);
      NoBox();
      r := if ok then Ok(ballot) else Err;
    }

    lemma NoBox()
      ensures BoxOf(Unknown) == map[]
    {
    }

    method Reset(ps: seq<Phase>)
      requires Valid()
      modifies this
      ensures Valid() && publicKeys == old(publicKeys)
      ensures forall q :: BoxOf(q) == if q in ps then map[] else old(BoxOf(q))
    {
      EmptyBoxOk();
      for i := 0 to |ps|
        invariant publicKeys == old(publicKeys)
        invariant forall q :: BoxOf(q) == if q in ps[..i] then map[] else old(BoxOf(q))
      {
        assert ps[..i + 1] == ps[..i] + [ps[i]];
        match ps[i]
        case Prepare => prepare := map[];
        case Commit => commit := map[];
        case ViewChange => viewChange := map[];
        case Unknown =>
      }
      assert ps[..|ps|] == ps;
    }

    /** A quorum is more than two thirds of the participants. */
    method IsQuorumAchieved(p: Phase) returns (achieved: bool)
      ensures achieved <==> 3 * SignersCount(p) > 2 * |publicKeys|
    {
      achieved := SignersCount(p) >= TwoThirds(|publicKeys|);
    }

    method IsAllSigsCollected() returns (all: bool)
      ensures all && Unique(publicKeys) && commit.Keys <= Keys(publicKeys) ==> commit.Keys == Keys(publicKeys)
      ensures commit.Keys == Keys(publicKeys) && Unique(publicKeys) ==> all
    {
      all := SignersCount(Commit) == |publicKeys|;
      if Unique(publicKeys) {
        UniqueSize(publicKeys);
        if all && commit.Keys <= Keys(publicKeys) {
          AllSigned(commit, publicKeys);
        }
      }
    }

    /** The ballots in the order in which the map happens to be read: one for every key. */
    method ReadAllBallots(p: Phase, order: seq<Key>) returns (ballots: seq<Ballot>)
      requires Keys(order) == BoxOf(p).Keys
      ensures |ballots| == |order|
      ensures forall i :: 0 <= i < |order| ==> order[i] in BoxOf(p) && ballots[i] == BoxOf(p)[order[i]]
    {
      ballots := [];
      for i := 0 to |order|
        invariant |ballots| == i
        invariant forall j :: 0 <= j < i ==> order[j] in BoxOf(p) && ballots[j] == BoxOf(p)[order[j]]
      {
        assert order[i] in Keys(order);
        ballots := ballots + [BoxOf(p)[order[i]]];
      }
    }

    /**
     * For every reading order the signatures aggregated are those of the distinct ballots, each once,
     * and their keys are exactly the signers that SignersCount counts.
     */
    method AggregateVotes(p: Phase, order: seq<Key>) returns (sigs: seq<Signature>, picked: seq<Ballot>)
      requires Valid() && Keys(order) == BoxOf(p).Keys
      ensures multiset(picked) == multiset(BoxOf(p).Values)
      ensures |sigs| == |picked| && forall i :: 0 <= i < |sigs| ==> sigs[i] == picked[i].signature
      ensures KeySet(picked) == BoxOf(p).Keys && KeyCount(picked) == SignersCount(p)
    {
      hide BoxOf, BoxOk, Keys, KeySet, KeyCount, Collecting;
      ghost var box := BoxOf(p);
      var ballots := ReadAllBallots(p, order);
      sigs, picked := [], [];
      var collected := {};
      CollectingStart(box, order);
      for i := 0 to |ballots|
        invariant Collecting(box, order, i, picked, collected)
        invariant |sigs| == |picked| && forall j :: 0 <= j < |sigs| ==> sigs[j] == picked[j].signature
      {
        var alreadyCollected := AnyCollected(ballots[i].keys, collected);
        CollectingStep(box, order, i, picked, collected);
        if alreadyCollected {
          continue;
        }
        collected := collected + Keys(ballots[i].keys);
        sigs, picked := sigs + [ballots[i].signature], picked + [ballots[i]];
      }
      CollectingEnd(box, order, picked, collected);
    }
  }

  /** If all committee members are counted among the signers, every member has signed. */
  lemma AllSigned(box: Box, members: seq<Key>)
    requires Unique(members) && box.Keys <= Keys(members) && |box| == |members|
    ensures box.Keys == Keys(members)
  {
    UniqueSize(members);
    SameSizeSubset(box.Keys, Keys(members));
  }

  lemma {:induction false} SameSizeSubset(a: set<Key>, b: set<Key>)
    requires a <= b && |a| == |b|
    ensures a == b
  {
    if k :| k in b && k !in a {
      assert a <= b - {k};
      SubsetSize(a, b - {k});
    }
  }

  lemma {:induction false} SubsetSize(a: set<Key>, b: set<Key>)
    requires a <= b
    ensures |a| <= |b|
  {
    if a != {} {
      var k :| k in a;
      SubsetSize(a - {k}, b - {k});
    }
  }

  method AnyCollected(keys: seq<Key>, collected: set<Key>) returns (any: bool)
    ensures any <==> exists k :: k in keys && k in collected
  {
    for i := 0 to |keys|
      invariant forall j :: 0 <= j < i ==> keys[j] !in collected
    {
      if keys[i] in collected {
        return true;
      }
    }
    return false;
  }

  /** The ballots of the first n keys in the order have been picked, each once. */
  ghost predicate Collecting(box: Box, order: seq<Key>, n: nat, picked: seq<Ballot>, collected: set<Key>)
    requires n <= |order|
  {
    && collected <= box.Keys && collected == KeySet(picked) && KeyCount(picked) == |collected|
    && (forall k :: k in box ==> (k in collected <==> multiset(picked)[box[k]] == 1))
    && (forall b :: b in picked ==> b in box.Values && multiset(picked)[b] == 1)
    && (forall i :: 0 <= i < n ==> order[i] in collected)
  }

  lemma CollectingStart(box: Box, order: seq<Key>)
    ensures Collecting(box, order, 0, [], {})
  {
  }

  lemma CollectingStep(box: Box, order: seq<Key>, n: nat, picked: seq<Ballot>, collected: set<Key>)
    requires BoxOk(box) && n < |order| && order[n] in box && Collecting(box, order, n, picked, collected)
    ensures var b := box[order[n]];
            if exists k :: k in b.keys && k in collected then Collecting(box, order, n + 1, picked, collected)
            else Collecting(box, order, n + 1, picked + [b], collected + Keys(b.keys))
  {
    var b := box[order[n]];
    assert b in box.Values;
    if k :| k in b.keys && k in collected {
      BallotsPartition(box, k, b);
      assert order[n] in collected;
    } else {
      NewBallot(box, order, n, picked, collected);
    }
  }

  lemma NewBallot(box: Box, order: seq<Key>, n: nat, picked: seq<Ballot>, collected: set<Key>)
    requires BoxOk(box) && n < |order| && order[n] in box && Collecting(box, order, n, picked, collected)
    requires forall k :: k in box[order[n]].keys ==> k !in collected
    ensures var b := box[order[n]]; Collecting(box, order, n + 1, picked + [b], collected + Keys(b.keys))
  {
    hide KeySet, KeyCount, BoxOk, Together, Keys;
    var b := box[order[n]];
    KeySnoc(picked, b);
    NewKeys(box, order[n], collected);
    assert b !in picked;
    var more := picked + [b];
    assert multiset(more) == multiset(picked) + multiset{b};
    forall k | k in box ensures k in collected + Keys(b.keys) <==> multiset(more)[box[k]] == 1 {
      InKeys(b.keys, k);
      BallotsPartition(box, k, b);
    }
    forall c | c in more ensures c in box.Values && multiset(more)[c] == 1 {
      assert c == b || c in picked;
    }
    InKeys(b.keys, order[n]);
  }

  lemma InKeys(keys: seq<Key>, k: Key)
    ensures k in Keys(keys) <==> k in keys
  {
  }

  lemma NewKeys(box: Box, key: Key, collected: set<Key>)
    requires BoxOk(box) && key in box && forall k :: k in box[key].keys ==> k !in collected
    ensures key in box[key].keys && Keys(box[key].keys) <= box.Keys
    ensures |collected + Keys(box[key].keys)| == |collected| + |box[key].keys|
  {
    var b := box[key];
    assert Unique(b.keys) && Together(box, b);
    UniqueSize(b.keys);
    assert collected !! Keys(b.keys);
  }

  lemma CollectingEnd(box: Box, order: seq<Key>, picked: seq<Ballot>, collected: set<Key>)
    requires Collecting(box, order, |order|, picked, collected) && Keys(order) == box.Keys
    ensures multiset(picked) == multiset(box.Values) && KeySet(picked) == box.Keys && KeyCount(picked) == |box|
  {
    assert box.Keys <= collected by {
      forall k | k in box ensures k in collected {
        assert k in Keys(order);
      }
    }
    forall b ensures multiset(picked)[b] == multiset(box.Values)[b] {
      if b in box.Values {
        var k :| k in box && box[k] == b;
        assert k in collected;
      } else {
        assert b !in picked;
      }
    }
  }
}
