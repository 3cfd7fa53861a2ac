/** The encoder: the head/tail rule of the Contract ABI Specification as functions, and the
    packing loops of accounts/abi/type.go, pack.go and argument.go proved to compute it. */
module AbiEncoding {
  import opened Wrappers
  import opened AbiWords
  import opened AbiTypes
  import opened AbiLayout

  /** Length word, then the bytes padded to whole words. */
  function PackBytesSlice(bs: seq<Byte>): seq<Byte> {
    Num(|bs|) + RightPad(bs, (|bs| + 31) / 32 * 32)
  }

  /** packElement; the result only matters for a value that pack accepts. */
  function PackElement(t: Type, v: Value): seq<Byte> {
    match (t, v)
    case (IntTy(_), Int(i)) => Num(i)
    case (UintTy(_), Int(i)) => Num(i)
    case (BoolTy, Bool(b)) => if b then Num(1) else Num(0)
    case (StringTy, Str(bs)) => PackBytesSlice(bs)
    case (BytesTy, Bytes(bs)) => PackBytesSlice(bs)
    case (AddressTy, Fixed(bs)) => LeftPad(bs, 32)
    case (FixedBytesTy(_), Fixed(bs)) => RightPad(bs, 32)
    case (FunctionTy, Fixed(bs)) => RightPad(bs, 32)
    case _ => []
  }

  /** enc(X) of the specification. */
  function Enc(t: Type, v: Value): seq<Byte>
    decreases v, 0
  {
    match (t, v)
    case (SliceTy(e), List(vs)) => Num(|vs|) + EncList(e, vs)
    case (ArrayTy(e, _), List(vs)) => EncList(e, vs)
    case (TupleTy(ts), Struct(vs)) => if |ts| == |vs| then EncAll(ts, vs) else []
    case _ => PackElement(t, v)
  }

  /** enc((X1, ..., Xk)) = head(X1) ... head(Xk) tail(X1) ... tail(Xk). */
  function EncAll(ts: seq<Type>, vs: seq<Value>): seq<Byte>
    requires |ts| == |vs|
    decreases vs, 2
  {
    Layout(Parts(ts, vs), HeadSize(ts, |ts|))
  }

  /** enc of k components of one type: like a tuple of them. */
  function EncList(e: Type, vs: seq<Value>): seq<Byte>
    decreases vs, 2
  {
    Layout(Parts(Repeat(e, |vs|), vs), TypeSize(e) * |vs|)
  }

  /** The encoded components of a tuple or an argument list. */
  function Parts(ts: seq<Type>, vs: seq<Value>): (ps: seq<Part>)
    requires |ts| == |vs|
    ensures |ps| == |vs|
    ensures forall i :: 0 <= i < |ps| ==> ps[i] == Part(IsDynamic(ts[i]), Enc(ts[i], vs[i]))
    decreases vs, 1
  {
    seq(|vs|, i requires 0 <= i < |vs| => Part(IsDynamic(ts[i]), Enc(ts[i], vs[i])))
  }

  /** The checks pack makes on a value before it looks at the components. */
  predicate KindOk(t: Type, v: Value) {
    match t
    case SliceTy(_) => v.List?
    case ArrayTy(_, k) => v.List? && |v.vs| == k
    case TupleTy(ts) => v.Struct? && |v.vs| == |ts|
    case _ => Accepts(t, v)
  }

  /** Type.pack. */
  method Pack(t: Type, v: Value) returns (r: Result<seq<Byte>>)
    ensures r == if Accepts(t, v) then Ok(Enc(t, v)) else Err
    decreases v, 1
  {
    if !KindOk(t, v) {
      return Err;
    }
    match t
    case SliceTy(_) => r := PackList(t.elem, v.vs, RequiresLengthPrefix(t));
    case ArrayTy(_, _) =>
      r := PackList(t.elem, v.vs, RequiresLengthPrefix(t));
      assert [] + EncList(t.elem, v.vs) == EncList(t.elem, v.vs);
    case TupleTy(_) => r := PackTuple(t.elems, v.vs);
    case _ => r := Ok(PackElement(t, v));
  }

  /** The SliceTy, ArrayTy case of Type.pack, for element type e. */
  method PackList(e: Type, vs: seq<Value>, lengthPrefix: bool) returns (r: Result<seq<Byte>>)
    ensures r == if AcceptsUpTo(Repeat(e, |vs|), vs, |vs|)
                 then Ok((if lengthPrefix then Num(|vs|) else []) + EncList(e, vs))
                 else Err
    decreases vs, 0
  {
    hide Accepts, Enc, BigEndian, IsDynamic, TypeSize;
    var ret := [];
    if lengthPrefix {
      ret := Num(|vs|);
    }
    var offset: nat := 0;
    var offsetReq := IsDynamic(e);
    if offsetReq {
      offset := TypeSize(e) * |vs|;
    }
    var tail := [];
    ghost var ts, prefix := Repeat(e, |vs|), ret;
    ghost var ps, base: nat := Parts(ts, vs), TypeSize(e) * |vs|;
    for i := 0 to |vs|
      invariant AcceptsUpTo(ts, vs, i)
      invariant tail == Tails(ps, i)
      invariant offsetReq ==> offset == base + |tail|
      invariant ret == prefix + Heads(ps, i, base)
    {
      var val := Pack(e, vs[i]);
      if val.Err? {
        RefusedAt(ts, vs, |vs|, i);
        return Err;
      }
      Step(ps, i, base, offset);
      assert ps[i] == Part(offsetReq, val.value);
      if !offsetReq {
        Associative(prefix, Heads(ps, i, base), val.value);
        ret := ret + val.value;
      } else {
        Associative(prefix, Heads(ps, i, base), Num(offset));
        ret := ret + Num(offset);
        offset := offset + |val.value|;
        tail := tail + val.value;
      }
    }
    Associative(prefix, Heads(ps, |vs|, base), tail);
    return Ok(ret + tail);
  }

  /** The TupleTy case of Type.pack. */
  method PackTuple(ts: seq<Type>, vs: seq<Value>) returns (r: Result<seq<Byte>>)
    requires |ts| == |vs|
    ensures r == if AcceptsUpTo(ts, vs, |ts|) then Ok(EncAll(ts, vs)) else Err
    decreases vs, 0
  {
    hide Accepts, Enc, BigEndian;
    var offset := HeadTotal(ts);
    var ret, tail := [], [];
    ghost var ps, base := Parts(ts, vs), offset;
    for i := 0 to |ts|
      invariant AcceptsUpTo(ts, vs, i)
      invariant tail == Tails(ps, i)
      invariant offset == base + |tail|
      invariant ret == Heads(ps, i, base)
    {
      var val := Pack(ts[i], vs[i]);
      if val.Err? {
        RefusedAt(ts, vs, |vs|, i);
        return Err;
      }
      Step(ps, i, base, offset);
      assert ps[i] == Part(IsDynamic(ts[i]), val.value);
      if IsDynamic(ts[i]) {
        ret := ret + Num(offset);
        tail := tail + val.value;
        offset := offset + |val.value|;
      } else {
        ret := ret + val.value;
      }
    }
    return Ok(ret + tail);
  }

  /** The loop that adds up the prefix occupied by the heads. */
  method HeadTotal(ts: seq<Type>) returns (offset: nat)
    ensures offset == HeadSize(ts, |ts|)
  {
    offset := 0;
    for i := 0 to |ts|
      invariant offset == HeadSize(ts, i)
    {
      offset := offset + TypeSize(ts[i]);
    }
  }

  /** Arguments.Pack: fails exactly on a wrong number of arguments or a refused value. */
  method PackArguments(ts: seq<Type>, args: seq<Value>) returns (r: Result<seq<Byte>>)
    ensures r == if AcceptsAll(ts, args) then Ok(EncAll(ts, args)) else Err
  {
    hide Accepts, Enc, BigEndian;
    if |args| != |ts| {
      return Err;
    }
    var variableInput := [];
    var inputOffset := HeadTotal(ts);
    var ret := [];
    ghost var ps, base := Parts(ts, args), inputOffset;
    for i := 0 to |args|
      invariant AcceptsUpTo(ts, args, i)
      invariant variableInput == Tails(ps, i)
      invariant inputOffset == base + |variableInput|
      invariant ret == Heads(ps, i, base)
    {
      var packed := Pack(ts[i], args[i]);
      if packed.Err? {
        RefusedAt(ts, args, |args|, i);
        return Err;
      }
      Step(ps, i, base, inputOffset);
      assert ps[i] == Part(IsDynamic(ts[i]), packed.value);
      if IsDynamic(ts[i]) {
        ret := ret + Num(inputOffset);
        inputOffset := inputOffset + |packed.value|;
        variableInput := variableInput + packed.value;
      } else {
        ret := ret + packed.value;
      }
    }
    ret := ret + variableInput;
    return Ok(ret);
  }

  /** A static value takes exactly the size of its type. */
  lemma {:induction false} StaticLength(t: Type, v: Value)
    requires WellFormed(t) && Matches(t, v) && !IsDynamic(t)
    ensures |Enc(t, v)| == TypeSize(t)
    decreases v, 0
  {
    match t
    case ArrayTy(e, k) =>
      var ts := Repeat(e, k);
      HeadsLength(ts, v.vs, k);
      HeadSizeRepeat(e, k, k);
      ArraySize(e, k);
      NoTails(Parts(ts, v.vs), k);
    case TupleTy(ts) =>
      HeadsLength(ts, v.vs, |ts|);
      NoTails(Parts(ts, v.vs), |ts|);
    case _ =>
  }

  /** The heads of a list take exactly its head size. */
  lemma {:induction false} HeadsLength(ts: seq<Type>, vs: seq<Value>, n: nat)
    requires AllWellFormed(ts) && MatchesAll(ts, vs) && n <= |ts|
    ensures HeadLength(Parts(ts, vs), n) == HeadSize(ts, n)
    decreases vs, n + 1
  {
    if n != 0 {
      HeadsLength(ts, vs, n - 1);
      MatchesAt(ts, vs, |ts|, n - 1);
      if !IsDynamic(ts[n - 1]) {
        StaticLength(ts[n - 1], vs[n - 1]);
      }
    }
  }

  lemma {:induction false} NoTails(ps: seq<Part>, n: nat)
    requires n <= |ps| && forall i :: 0 <= i < n ==> !ps[i].dynamic
    ensures Tails(ps, n) == []
  {
    if n != 0 {
      NoTails(ps, n - 1);
    }
  }
}
