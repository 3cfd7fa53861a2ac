/** ABI types and the Go values they describe (accounts/abi/type.go, error.go). */
module AbiTypes {
  import opened AbiWords

  /** The types NewType can build. */
  datatype Type =
    | IntTy(size: nat)
    | UintTy(size: nat)
    | BoolTy
    | StringTy
    | SliceTy(elem: Type)
    | ArrayTy(elem: Type, size: nat)
    | TupleTy(elems: seq<Type>)
    | AddressTy
    | FixedBytesTy(size: nat)
    | BytesTy
    | FunctionTy

  /** Go values. Fixed is a Go byte array of any length (bytesN, address, function). */
  datatype Value =
    | Int(i: int)
    | Bool(b: bool)
    | Str(bs: seq<Byte>)
    | Bytes(bs: seq<Byte>)
    | Fixed(bs: seq<Byte>)
    | List(vs: seq<Value>)
    | Struct(vs: seq<Value>)

  /** Sizes with a Go integer type of their own; every other size is a *big.Int. */
  predicate Native(size: nat) {
    size == 8 || size == 16 || size == 32 || size == 64
  }

  /** The bytes of a word that hold an integer: its own width, or all of them for a *big.Int. */
  function Width(size: nat): (k: nat)
    ensures 1 <= k <= 32
  {
    if Native(size) then size / 8 else 32
  }

  predicate InUnsigned(i: int, k: nat) {
    0 <= i < Pow256(k)
  }

  predicate InSigned(i: int, k: nat) {
    -Pow256(k) <= 2 * i < Pow256(k)
  }

  predicate IsDynamic(t: Type) {
    match t
    case TupleTy(ts) => exists i :: 0 <= i < |ts| && IsDynamic(ts[i])
    case StringTy => true
    case BytesTy => true
    case SliceTy(_) => true
    case ArrayTy(e, _) => IsDynamic(e)
    case _ => false
  }

  predicate RequiresLengthPrefix(t: Type) {
    t.StringTy? || t.BytesTy? || t.SliceTy?
  }

  /** getTypeSize: bytes a type occupies in place, or one word for the reference to it. */
  function TypeSize(t: Type): (n: nat)
    decreases t, 0
  {
    match t
    case ArrayTy(e, k) =>
      if IsDynamic(e) then 32
      else if e.ArrayTy? || e.TupleTy? then k * TypeSize(e)
      else k * 32
    case TupleTy(ts) => if IsDynamic(t) then 32 else HeadSize(ts, |ts|)
    case _ => 32
  }

  /** The sum of the sizes of the first n components. */
  function HeadSize(ts: seq<Type>, n: nat): (size: nat)
    requires n <= |ts|
    decreases ts, n
  {
    if n == 0 then 0 else HeadSize(ts, n - 1) + TypeSize(ts[n - 1])
  }

  /** Types the decoder promises to read: no zero-sized static parts, bytesN with 1 <= N <= 32. */
  predicate WellFormed(t: Type) {
    match t
    case SliceTy(e) => WellFormed(e)
    case ArrayTy(e, k) => k >= 1 && WellFormed(e)
    case TupleTy(ts) => |ts| >= 1 && forall i :: 0 <= i < |ts| ==> WellFormed(ts[i])
    case FixedBytesTy(k) => 1 <= k <= 32
    case _ => true
  }

  predicate AllWellFormed(ts: seq<Type>) {
    forall i :: 0 <= i < |ts| ==> WellFormed(ts[i])
  }

  /** typeCheck: what pack accepts. A byte array given for an address or a function is only
      checked for being an array, and a *big.Int is accepted whatever its magnitude. */
  predicate Accepts(t: Type, v: Value)
    decreases v, 0
  {
    match t
    case IntTy(s) => v.Int? && (Native(s) ==> InSigned(v.i, Width(s)))
    case UintTy(s) => v.Int? && (Native(s) ==> InUnsigned(v.i, Width(s)))
    case BoolTy => v.Bool?
    case StringTy => v.Str?
    case BytesTy => v.Bytes?
    case AddressTy => v.Fixed?
    case FunctionTy => v.Fixed?
    case FixedBytesTy(k) => v.Fixed? && |v.bs| == k
    case SliceTy(e) => v.List? && AcceptsUpTo(Repeat(e, |v.vs|), v.vs, |v.vs|)
    case ArrayTy(e, k) => v.List? && |v.vs| == k && AcceptsUpTo(Repeat(e, k), v.vs, k)
    case TupleTy(ts) => v.Struct? && |v.vs| == |ts| && AcceptsUpTo(ts, v.vs, |ts|)
  }

  /** The first n components. */
  predicate AcceptsUpTo(ts: seq<Type>, vs: seq<Value>, n: nat)
    requires n <= |ts| == |vs|
    decreases vs, n + 1
  {
    n == 0 || (AcceptsUpTo(ts, vs, n - 1) && Accepts(ts[n - 1], vs[n - 1]))
  }

  predicate AcceptsAll(ts: seq<Type>, vs: seq<Value>) {
    |ts| == |vs| && AcceptsUpTo(ts, vs, |ts|)
  }

  /** The values of a type: integers that fit their word, addresses of 20 and functions of
      24 bytes. */
  predicate Matches(t: Type, v: Value)
    decreases v, 0
  {
    match t
    case IntTy(s) => v.Int? && InSigned(v.i, Width(s))
    case UintTy(s) => v.Int? && InUnsigned(v.i, Width(s))
    case BoolTy => v.Bool?
    case StringTy => v.Str?
    case BytesTy => v.Bytes?
    case AddressTy => v.Fixed? && |v.bs| == 20
    case FunctionTy => v.Fixed? && |v.bs| == 24
    case FixedBytesTy(k) => v.Fixed? && |v.bs| == k
    case SliceTy(e) => v.List? && MatchesUpTo(Repeat(e, |v.vs|), v.vs, |v.vs|)
    case ArrayTy(e, k) => v.List? && |v.vs| == k && MatchesUpTo(Repeat(e, k), v.vs, k)
    case TupleTy(ts) => v.Struct? && |v.vs| == |ts| && MatchesUpTo(ts, v.vs, |ts|)
  }

  /** The first n components. */
  predicate MatchesUpTo(ts: seq<Type>, vs: seq<Value>, n: nat)
    requires n <= |ts| == |vs|
    decreases vs, n + 1
  {
    n == 0 || (MatchesUpTo(ts, vs, n - 1) && Matches(ts[n - 1], vs[n - 1]))
  }

  predicate MatchesAll(ts: seq<Type>, vs: seq<Value>) {
    |ts| == |vs| && MatchesUpTo(ts, vs, |ts|)
  }

  /** T[k] is encoded like the tuple (T, ..., T) of k components. */
  function Repeat(e: Type, k: nat): (ts: seq<Type>)
    ensures |ts| == k
    ensures forall i :: 0 <= i < k ==> ts[i] == e
  {
    seq(k, _ => e)
  }

  lemma {:induction false} MatchesAccepts(t: Type, v: Value)
    requires Matches(t, v)
    ensures Accepts(t, v)
    decreases v, 0
  {
    match t
    case SliceTy(e) => AllMatchesAccepts(Repeat(e, |v.vs|), v.vs, |v.vs|);
    case ArrayTy(e, k) => AllMatchesAccepts(Repeat(e, k), v.vs, k);
    case TupleTy(ts) => AllMatchesAccepts(ts, v.vs, |ts|);
    case _ =>
  }

  lemma {:induction false} AllMatchesAccepts(ts: seq<Type>, vs: seq<Value>, n: nat)
    requires n <= |ts| == |vs| && MatchesUpTo(ts, vs, n)
    ensures AcceptsUpTo(ts, vs, n)
    decreases vs, n + 1
  {
    if n != 0 {
      AllMatchesAccepts(ts, vs, n - 1);
      MatchesAccepts(ts[n - 1], vs[n - 1]);
    }
  }

  lemma {:induction false} MatchesAt(ts: seq<Type>, vs: seq<Value>, n: nat, i: nat)
    requires i < n <= |ts| == |vs| && MatchesUpTo(ts, vs, n)
    ensures Matches(ts[i], vs[i])
    decreases n
  {
    if i < n - 1 {
      MatchesAt(ts, vs, n - 1, i);
    }
  }

  /** A refused component makes the whole list refused. */
  lemma {:induction false} RefusedAt(ts: seq<Type>, vs: seq<Value>, n: nat, i: nat)
    requires i < n <= |ts| == |vs| && !Accepts(ts[i], vs[i])
    ensures !AcceptsUpTo(ts, vs, n)
    decreases n
  {
    if i < n - 1 {
      RefusedAt(ts, vs, n - 1, i);
    }
  }

  /** Scalars fill one word, so a static array is always that many element sizes. */
  lemma ArraySize(e: Type, k: nat)
    ensures !IsDynamic(e) ==> TypeSize(ArrayTy(e, k)) == k * TypeSize(e)
  {
  }

  lemma {:induction false} HeadSizeRepeat(e: Type, k: nat, n: nat)
    requires n <= k
    ensures HeadSize(Repeat(e, k), n) == n * TypeSize(e)
    decreases n
  {
    if n != 0 {
      HeadSizeRepeat(e, k, n - 1);
    }
  }

  /** A well-formed type takes a positive whole number of words. */
  lemma {:induction false} SizeInWords(t: Type)
    requires WellFormed(t)
    ensures TypeSize(t) >= 32 && TypeSize(t) % 32 == 0
    decreases t, 0
  {
    match t
    case ArrayTy(e, k) =>
      SizeInWords(e);
      MulWords(k, TypeSize(e));
      MulWords(k, 32);
    case TupleTy(ts) => HeadSizeInWords(ts, |ts|);
    case _ =>
  }

  lemma {:induction false} HeadSizeInWords(ts: seq<Type>, n: nat)
    requires AllWellFormed(ts) && n <= |ts|
    ensures HeadSize(ts, n) >= 32 * n && HeadSize(ts, n) % 32 == 0
    decreases ts, n
  {
    hide TypeSize, WellFormed;
    if n != 0 {
      HeadSizeInWords(ts, n - 1);
      SizeInWords(ts[n - 1]);
    }
  }

  lemma MulWords(k: nat, n: nat)
    requires k >= 1 && n >= 32 && n % 32 == 0
    ensures k * n >= 32 && (k * n) % 32 == 0
  {
    var m := n / 32;
    ProductPositive(k, m);
    ProductOfWords(k, m);
    WholeWords(k * m);
    assert n == 32 * m;
  }

  lemma ProductPositive(k: nat, m: nat)
    requires k >= 1 && m >= 1
    ensures k * m >= 1
  {
  }

  lemma ProductOfWords(k: nat, m: nat)
    ensures k * (32 * m) == 32 * (k * m)
  {
  }

  lemma WholeWords(x: nat)
    ensures (32 * x) % 32 == 0
  {
  }
}
