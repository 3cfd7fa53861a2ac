/** The head/tail layout of a list of encoded components, apart from what they encode. */
module AbiLayout {
  import opened AbiWords

  /** An encoded component: a static one is placed in the head part, a dynamic one in the
      tail part with a reference to it in the head part. */
  datatype Part = Part(dynamic: bool, bytes: seq<Byte>)

  /** The bytes w are found in s from position p on. */
  predicate At(s: seq<Byte>, p: nat, w: seq<Byte>) {
    p + |w| <= |s| && s[p..p + |w|] == w
  }

  /** What stands for a component in the head part, when its tail is at offset. */
  function HeadOf(p: Part, offset: nat): seq<Byte> {
    if p.dynamic then Num(offset) else p.bytes
  }

  function TailOf(p: Part): seq<Byte> {
    if p.dynamic then p.bytes else []
  }

  /** The bytes taken by the first n heads, hence where head n starts. */
  function HeadLength(ps: seq<Part>, n: nat): nat
    requires n <= |ps|
  {
    if n == 0 then 0 else HeadLength(ps, n - 1) + |HeadOf(ps[n - 1], 0)|
  }

  /** The first n tails. */
  function Tails(ps: seq<Part>, n: nat): seq<Byte>
    requires n <= |ps|
  {
    if n == 0 then [] else Tails(ps, n - 1) + TailOf(ps[n - 1])
  }

  /** The first n heads, when the whole head part takes base bytes. */
  function Heads(ps: seq<Part>, n: nat, base: nat): (bs: seq<Byte>)
    requires n <= |ps|
    ensures |bs| == HeadLength(ps, n)
  {
    if n == 0 then []
    else Heads(ps, n - 1, base) + HeadOf(ps[n - 1], base + |Tails(ps, n - 1)|)
  }

  /** head(X1) ... head(Xk) tail(X1) ... tail(Xk). */
  function Layout(ps: seq<Part>, base: nat): (bs: seq<Byte>) {
    Heads(ps, |ps|, base) + Tails(ps, |ps|)
  }

  /** One round of a packing loop; offset is where the next tail goes. */
  lemma Step(ps: seq<Part>, i: nat, base: nat, offset: nat)
    requires i < |ps|
    requires ps[i].dynamic ==> offset == base + |Tails(ps, i)|
    ensures Heads(ps, i + 1, base) ==
            Heads(ps, i, base) + if ps[i].dynamic then Num(offset) else ps[i].bytes
    ensures Tails(ps, i + 1) == Tails(ps, i) + TailOf(ps[i])
  {
    hide Heads, Tails, Num, TailOf;
    HeadsNext(ps, i, base);
    TailsNext(ps, i);
  }

  lemma HeadsNext(ps: seq<Part>, i: nat, base: nat)
    requires i < |ps|
    ensures Heads(ps, i + 1, base) == Heads(ps, i, base) + HeadOf(ps[i], base + |Tails(ps, i)|)
  {
    hide HeadOf, Tails, HeadLength;
  }

  lemma TailsNext(ps: seq<Part>, i: nat)
    requires i < |ps|
    ensures Tails(ps, i + 1) == Tails(ps, i) + TailOf(ps[i])
  {
    hide TailOf;
  }

  /** The parts written by a loop stay where they are when more parts follow. */
  lemma {:induction false} HeadsPrefix(ps: seq<Part>, i: nat, n: nat, base: nat)
    requires i <= n <= |ps|
    ensures Heads(ps, i, base) <= Heads(ps, n, base)
    decreases n
  {
    hide Heads, HeadOf, Tails;
    if i < n {
      HeadsPrefix(ps, i, n - 1, base);
      HeadsNext(ps, n - 1, base);
    }
  }

  lemma {:induction false} TailsPrefix(ps: seq<Part>, i: nat, n: nat)
    requires i <= n <= |ps|
    ensures Tails(ps, i) <= Tails(ps, n)
    decreases n
  {
    if i < n {
      TailsPrefix(ps, i, n - 1);
    }
  }

  /** Where the head of component i is, and what it holds. */
  lemma {:induction false} HeadLocated(ps: seq<Part>, i: nat, base: nat)
    requires i < |ps|
    ensures At(Layout(ps, base), HeadLength(ps, i), HeadOf(ps[i], base + |Tails(ps, i)|))
  {
    HeadsPrefix(ps, i + 1, |ps|, base);
    AtEnd(Heads(ps, i, base), HeadOf(ps[i], base + |Tails(ps, i)|), Heads(ps, |ps|, base), Tails(ps, |ps|));
  }

  /** A dynamic component is at the offset its head holds, when base is the true size of the
      head part. */
  lemma {:induction false} TailLocated(ps: seq<Part>, i: nat, base: nat)
    requires i < |ps| && base == HeadLength(ps, |ps|)
    ensures At(Layout(ps, base), base + |Tails(ps, i)|, TailOf(ps[i]))
  {
    TailsPrefix(ps, i + 1, |ps|);
    AtEnd(Tails(ps, i), TailOf(ps[i]), Tails(ps, |ps|), []);
    AtShifted(Heads(ps, |ps|, base), Tails(ps, |ps|), |Tails(ps, i)|, TailOf(ps[i]));
  }

  lemma AtEnd(a: seq<Byte>, w: seq<Byte>, s: seq<Byte>, rest: seq<Byte>)
    requires a + w <= s
    ensures At(s, |a|, w) && At(s + rest, |a|, w)
  {
    assert s[|a|..|a| + |w|] == (a + w)[|a|..|a| + |w|];
    assert (s + rest)[|a|..|a| + |w|] == s[|a|..|a| + |w|];
  }

  lemma AtShifted(front: seq<Byte>, s: seq<Byte>, p: nat, w: seq<Byte>)
    requires At(s, p, w)
    ensures At(front + s, |front| + p, w)
  {
    assert (front + s)[|front| + p..|front| + p + |w|] == s[p..p + |w|];
  }
}
