/** The binary heap behind nonceHeap, as container/heap maintains it. */
module NonceHeaps {

  function Parent(j: nat): (i: nat)
    requires j >= 1
    ensures i < j
  {
    (j - 1) / 2
  }

  ghost predicate EdgeOk(h: seq<nat>, j: nat)
    requires 1 <= j < |h|
  {
    h[Parent(j)] <= h[j]
  }

  /** The edges leaving lo and every later place are ok. */
  ghost predicate HeapFrom(h: seq<nat>, lo: nat) {
    forall j :: 1 <= j < |h| && Parent(j) >= lo ==> EdgeOk(h, j)
  }

  ghost predicate IsHeap(h: seq<nat>) {
    HeapFrom(h, 0)
  }

  /** The least element is at the front. */
  lemma {:induction false} FrontIsLeast(h: seq<nat>, j: nat)
    requires IsHeap(h) && j < |h|
    ensures h[0] <= h[j]
    decreases j
  {
    if j >= 1 {
      FrontIsLeast(h, Parent(j));
      assert EdgeOk(h, j);
    }
  }

  function Swap(h: seq<nat>, i: nat, j: nat): (r: seq<nat>)
    requires i < |h| && j < |h|
    ensures |r| == |h| && multiset(r) == multiset(h)
  {
    h[i := h[j]][j := h[i]]
  }

  /**
   * The edges leaving lo and later places are ok but those at i, and what is above i is no greater
   * than what is below it.
   */
  ghost predicate HeapBut(h: seq<nat>, i: nat, lo: nat) {
    && (forall j :: 1 <= j < |h| && Parent(j) >= lo && j != i && Parent(j) != i ==> EdgeOk(h, j))
    && (forall j :: 1 <= j < |h| && Parent(j) == i && i >= 1 && Parent(i) >= lo ==> h[Parent(i)] <= h[j])
  }

  /** heap.up: the element at k moves towards the root. */
  method Up(h: seq<nat>, k: nat) returns (r: seq<nat>)
    requires k < |h| && HeapBut(h, k, 0)
    requires forall j :: 1 <= j < |h| && Parent(j) == k ==> EdgeOk(h, j)
    ensures IsHeap(r) && multiset(r) == multiset(h)
  {
    r := h;
    var j: nat := k;
    while j >= 1 && r[j] < r[Parent(j)]
      invariant j < |r| == |h| && multiset(r) == multiset(h) && HeapBut(r, j, 0)
      invariant forall c :: 1 <= c < |r| && Parent(c) == j ==> EdgeOk(r, c)
      decreases j
    {
      var i := Parent(j);
      UpStep(r, j);
      r := Swap(r, i, j);
      j := i;
    }
    AllEdges(r, j, 0);
  }

  lemma AllEdges(h: seq<nat>, i: nat, lo: nat)
    requires i < |h| && HeapBut(h, i, lo) && (i >= 1 && Parent(i) >= lo ==> EdgeOk(h, i))
    requires forall j :: 1 <= j < |h| && Parent(j) == i ==> EdgeOk(h, j)
    ensures HeapFrom(h, lo)
  {
  }

  lemma UpStep(h: seq<nat>, j: nat)
    requires 1 <= j < |h| && HeapBut(h, j, 0) && h[j] < h[Parent(j)]
    requires forall c :: 1 <= c < |h| && Parent(c) == j ==> EdgeOk(h, c)
    ensures var i := Parent(j);
            var r := Swap(h, i, j);
            && HeapBut(r, i, 0)
            && (forall c :: 1 <= c < |r| && Parent(c) == i ==> EdgeOk(r, c))
  {
    var i := Parent(j);
    var r := Swap(h, i, j);
    forall c | 1 <= c < |r| && Parent(c) == i ensures EdgeOk(r, c) {
      assert c == j || EdgeOk(h, c);
    }
    forall c | 1 <= c < |r| && c != i && Parent(c) != i ensures EdgeOk(r, c) {
      if Parent(c) != j {
        assert EdgeOk(h, c);
      }
    }
    forall c | 1 <= c < |r| && Parent(c) == i && i >= 1 ensures r[Parent(i)] <= r[c] {
      assert EdgeOk(h, i);
      assert c == j || EdgeOk(h, c);
    }
  }

  /** heap.down: the element at i moves away from the root; says whether it moved. */
  method Down(h: seq<nat>, i: nat, ghost lo: nat) returns (r: seq<nat>, moved: bool)
    requires lo <= i < |h| && HeapBut(h, i, lo)
    ensures multiset(r) == multiset(h) && |r| == |h|
    ensures moved ==> HeapFrom(r, lo)
    ensures !moved ==> r == h && forall j :: 1 <= j < |h| && Parent(j) == i ==> EdgeOk(h, j)
  {
    hide HeapFrom, HeapBut, EdgeOk;
    r := h;
    var c := i;
    while true
      invariant c < |r| == |h| && multiset(r) == multiset(h) && HeapBut(r, c, lo)
      invariant c == i ==> r == h
      invariant c != i ==> c > i && EdgeOk(r, c)
      decreases |h| - c
    {
      var j := 2 * c + 1;
      if j >= |r| {
        break;
      }
      if j + 1 < |r| && r[j + 1] < r[j] {
        j := j + 1;
      }
      if r[j] >= r[c] {
        NoSmallerChild(r, c, j);
        break;
      }
      DownStep(r, c, j, lo);
      r := Swap(r, c, j);
      c := j;
    }
    moved := c > i;
    if moved {
      AllEdges(r, c, lo);
    }
  }

  lemma NoSmallerChild(h: seq<nat>, c: nat, j: nat)
    requires c < |h| && (j == 2 * c + 1 || j == 2 * c + 2) && j < |h| && h[c] <= h[j]
    requires forall k :: (k == 2 * c + 1 || k == 2 * c + 2) && k < |h| ==> h[j] <= h[k]
    ensures forall k :: 1 <= k < |h| && Parent(k) == c ==> EdgeOk(h, k)
  {
  }

  lemma DownStep(h: seq<nat>, c: nat, j: nat, lo: nat)
    requires lo <= c < |h| && HeapBut(h, c, lo) && (j == 2 * c + 1 || j == 2 * c + 2) && j < |h| && h[j] < h[c]
    requires forall k :: (k == 2 * c + 1 || k == 2 * c + 2) && k < |h| ==> h[j] <= h[k]
    ensures Parent(j) == c && HeapBut(Swap(h, c, j), j, lo) && EdgeOk(Swap(h, c, j), j)
  {
    var r := Swap(h, c, j);
    forall k | 1 <= k < |r| && Parent(k) >= lo && k != j && Parent(k) != j ensures EdgeOk(r, k) {
      if Parent(k) == c {
        assert k == 2 * c + 1 || k == 2 * c + 2;
      } else if k != c {
        assert EdgeOk(h, k);
      }
    }
    forall k | 1 <= k < |r| && Parent(k) == j && j >= 1 ensures r[Parent(j)] <= r[k] {
      assert EdgeOk(h, k);
    }
  }

  /** heap.Push. */
  method Push(h: seq<nat>, x: nat) returns (r: seq<nat>)
    requires IsHeap(h)
    ensures IsHeap(r) && multiset(r) == multiset(h) + multiset{x}
  {
    var grown := h + [x];
    forall j | 1 <= j < |grown| && j != |h| ensures EdgeOk(grown, j) {
      assert EdgeOk(h, j);
    }
    r := Up(grown, |h|);
  }

  /** Putting the last element in the place of i leaves a heap but for i. */
  lemma Refill(h: seq<nat>, i: nat)
    requires IsHeap(h) && i < |h| - 1
    ensures HeapBut(h[..|h| - 1][i := h[|h| - 1]], i, 0)
    ensures multiset(h[..|h| - 1][i := h[|h| - 1]]) == multiset(h) - multiset{h[i]}
  {
    var n := |h| - 1;
    var r := h[..n][i := h[n]];
    forall j | 1 <= j < n && j != i && Parent(j) != i ensures EdgeOk(r, j) {
      assert EdgeOk(h, j);
    }
    forall j | 1 <= j < n && Parent(j) == i && i >= 1 ensures r[Parent(i)] <= r[j] {
      assert EdgeOk(h, i) && EdgeOk(h, j);
    }
    assert h == h[..n] + [h[n]];
  }

  lemma WithoutLast(h: seq<nat>)
    requires IsHeap(h) && h != []
    ensures IsHeap(h[..|h| - 1])
    ensures multiset(h[..|h| - 1]) == multiset(h) - multiset{h[|h| - 1]}
  {
    var n := |h| - 1;
    forall j | 1 <= j < n ensures EdgeOk(h[..n], j) {
      assert EdgeOk(h, j);
    }
    assert h == h[..n] + [h[n]];
  }

  /** heap.Remove: takes out the element at i, wherever it stands. */
  method Remove(h: seq<nat>, i: nat) returns (x: nat, r: seq<nat>)
    requires IsHeap(h) && i < |h|
    ensures x == h[i] && IsHeap(r) && multiset(r) == multiset(h) - multiset{x}
  {
    hide HeapFrom, HeapBut, EdgeOk, Parent;
    var n := |h| - 1;
    x := h[i];
    if n == i {
      WithoutLast(h);
      r := h[..n];
    } else {
      Refill(h, i);
      var moved;
      r, moved := Down(h[..n][i := h[n]], i, 0);
      if !moved {
        r := Up(r, i);
      }
    }
  }

  /** heap.Pop: takes out the least element. */
  method Pop(h: seq<nat>) returns (x: nat, r: seq<nat>)
    requires IsHeap(h) && h != []
    ensures x in h && (forall y :: y in h ==> x <= y)
    ensures IsHeap(r) && multiset(r) == multiset(h) - multiset{x}
  {
    var n := |h| - 1;
    x := h[0];
    forall y | y in h ensures x <= y {
      var j: nat :| j < |h| && h[j] == y;
      FrontIsLeast(h, j);
    }
    if n == 0 {
      WithoutLast(h);
      r := h[..0];
    } else {
      Refill(h, 0);
      var moved;
      r, moved := Down(h[..n][0 := h[n]], 0, 0);
      if !moved {
        AllEdges(r, 0, 0);
      }
    }
  }

  /** heap.Init: makes a heap of any sequence. */
  method Init(h: seq<nat>) returns (r: seq<nat>)
    ensures IsHeap(r) && multiset(r) == multiset(h)
  {
    r := h;
    var i := |h| / 2;
    while i > 0
      invariant 0 <= i <= |h| / 2 && |r| == |h| && multiset(r) == multiset(h) && HeapFrom(r, i)
    {
      i := i - 1;
      var moved;
      assert HeapBut(r, i, i);
      r, moved := Down(r, i, i);
      if !moved {
        AllEdges(r, i, i);
      }
    }
  }
}
