/** 32-byte words: two's complement big-endian numbers and padding. */
module AbiWords {

  type Byte = x: int | 0 <= x < 256

  /** 256 to the power k. */
  function Pow256(k: nat): (p: int)
    ensures p >= 1
  {
    if k == 0 then 1 else 256 * Pow256(k - 1)
  }

  /** The k low-order bytes of n, most significant first. Euclidean division makes this the
      two's complement representation when n is negative. */
  function BigEndian(n: int, k: nat): (bs: seq<Byte>)
    ensures |bs| == k
    decreases k, n
  {
    if k == 0 then [] else BigEndian(n / 256, k - 1) + [n % 256]
  }

  /** The unsigned number a byte string stands for (big.Int.SetBytes). */
  function ValueOf(bs: seq<Byte>): (n: int)
    ensures 0 <= n < Pow256(|bs|)
  {
    if bs == [] then 0 else ValueOf(bs[..|bs| - 1]) * 256 + bs[|bs| - 1]
  }

  /** math.U256Bytes: the number modulo 2^256 as one word. */
  function Num(n: int): (bs: seq<Byte>)
    ensures |bs| == 32
  {
    BigEndian(n, 32)
  }

  /** Reading k bytes as a signed number: values with the top bit set are negative. */
  function Signed(n: int, k: nat): int {
    if 2 * n >= Pow256(k) then n - Pow256(k) else n
  }

  function Zeros(k: nat): (bs: seq<Byte>) {
    seq(k, _ => 0)
  }

  function LeftPad(bs: seq<Byte>, k: nat): seq<Byte> {
    if k <= |bs| then bs else Zeros(k - |bs|) + bs
  }

  function RightPad(bs: seq<Byte>, k: nat): seq<Byte> {
    if k <= |bs| then bs else bs + Zeros(k - |bs|)
  }

  lemma ModSplit(n: int, p: int)
    requires p >= 1
    ensures (n / 256 % p) * 256 + n % 256 == n % (256 * p)
  {
    var q, r := n / 256, n % 256;
    var a, b := q / p, q % p;
    var m := 256 * p;
    assert n == m * a + (256 * b + r) by {
      assert q == p * a + b;
      assert 256 * (p * a + b) == m * a + 256 * b;
    }
    assert 0 <= 256 * b + r < m;
    ModUnique(n, m, a, 256 * b + r);
  }

  lemma MulAtLeast(m: int, x: int)
    requires m >= 0 && x >= 1
    ensures m * x >= m
  {
  }

  lemma ModUnique(n: int, m: int, a: int, c: int)
    requires 0 <= c < m && n == m * a + c
    ensures n % m == c
  {
    var a', c' := n / m, n % m;
    var d := a - a';
    assert m * d == c' - c by {
      assert n == m * a' + c';
    }
    if d >= 1 {
      MulAtLeast(m, d);
    } else if d <= -1 {
      MulAtLeast(m, -d);
    }
  }

  /** Encoding a number on k bytes and reading it back keeps it modulo 256^k. */
  lemma {:induction false} BigEndianValue(n: int, k: nat)
    ensures ValueOf(BigEndian(n, k)) == n % Pow256(k)
    decreases k
  {
    if k != 0 {
      BigEndianValue(n / 256, k - 1);
      ModSplit(n, Pow256(k - 1));
      assert BigEndian(n, k)[..k - 1] == BigEndian(n / 256, k - 1);
    }
  }

  /** The low-order bytes of an encoding are the encoding on fewer bytes. */
  lemma {:induction false} BigEndianSuffix(n: int, m: nat, k: nat)
    requires k <= m
    ensures BigEndian(n, m)[m - k..] == BigEndian(n, k)
    decreases k
  {
    if k != 0 {
      BigEndianSuffix(n / 256, m - 1, k - 1);
    }
  }

  /** The k low-order bytes of a word give the number back modulo 256^k. */
  lemma NumLowBytes(n: int, k: nat)
    requires k <= 32
    ensures ValueOf(Num(n)[32 - k..]) == n % Pow256(k)
  {
    BigEndianSuffix(n, 32, k);
    BigEndianValue(n, k);
  }

  lemma ModInRange(n: int, p: int)
    requires p >= 1
    ensures 0 <= n < p ==> n % p == n
    ensures -p <= n < 0 ==> n % p == n + p
  {
    if 0 <= n < p {
      ModUnique(n, p, 0, n);
    } else if -p <= n < 0 {
      ModUnique(n, p, -1, n + p);
    }
  }

  /** Sign extension undoes the reduction exactly on the signed range. */
  lemma SignedInverse(n: int, k: nat)
    requires k >= 1
    ensures Signed(n % Pow256(k), k) == n <==> -Pow256(k) <= 2 * n < Pow256(k)
  {
    ModInRange(n, Pow256(k));
  }

  lemma NumValue(n: int)
    ensures ValueOf(Num(n)) == n % Pow256(32)
    ensures 0 <= n < Pow256(32) ==> ValueOf(Num(n)) == n
  {
    BigEndianValue(n, 32);
    ModInRange(n, Pow256(32));
  }

  lemma Associative(a: seq<Byte>, b: seq<Byte>, c: seq<Byte>)
    ensures (a + b) + c == a + (b + c)
  {
  }
}
