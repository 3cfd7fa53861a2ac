/** Decoding undoes encoding, on exactly the values of the types. */
module AbiRoundTrip {
  import opened Wrappers
  import opened AbiWords
  import opened AbiTypes
  import opened AbiLayout
  import opened AbiEncoding
  import opened AbiDecoding

  // ---- Words

  lemma {:induction false} IntegerWord(t: Type, i: int)
    requires (t.IntTy? || t.UintTy?) && Matches(t, Int(i))
    ensures ReadInteger(t, Num(i)) == Int(i)
  {
    var k := Width(t.size);
    NumLowBytes(i, k);
    if t.UintTy? {
      ModInRange(i, Pow256(k));
    } else {
      SignedInverse(i, k);
    }
  }

  lemma {:induction false} BoolWord(b: bool)
    ensures ReadBool(if b then Num(1) else Num(0)) == Ok(Bool(b))
  {
    var n := if b then 1 else 0;
    SmallNum(n);
  }

  /** A byte in a word has zeros before it. */
  lemma {:induction false} SmallNum(n: int)
    requires 0 <= n < 256
    ensures Num(n) == Zeros(31) + [n]
  {
    ZeroBigEndian(31);
    assert Num(n) == BigEndian(n / 256, 31) + [n % 256];
  }

  lemma {:induction false} ZeroBigEndian(k: nat)
    ensures BigEndian(0, k) == Zeros(k)
  {
    if k != 0 {
      ZeroBigEndian(k - 1);
    }
  }

  lemma {:induction false} ZeroValue(k: nat)
    ensures ValueOf(Zeros(k)) == 0
  {
    if k != 0 {
      ZeroValue(k - 1);
      assert Zeros(k)[..k - 1] == Zeros(k - 1);
    }
  }

  /** Reading a word type from its encoding. */
  lemma {:induction false} WordRoundTrip(t: Type, v: Value)
    requires WellFormed(t) && IsWord(t) && Matches(t, v)
    ensures |Enc(t, v)| == 32 && ReadWord(t, Enc(t, v)) == Ok(v)
  {
    match t
    case BoolTy => BoolWord(v.b);
    case AddressTy => assert LeftPad(v.bs, 32)[12..] == v.bs;
    case FixedBytesTy(k) => assert RightPad(v.bs, 32)[..k] == v.bs;
    case FunctionTy =>
      assert RightPad(v.bs, 32)[..24] == v.bs;
      assert RightPad(v.bs, 32)[24..] == Zeros(8);
      ZeroValue(8);
    case IntTy(_) => IntegerWord(t, v.i);
    case UintTy(_) => IntegerWord(t, v.i);
  }

  // ---- Positions

  /** Component (t, v) can be found from position p of out: in place when static, through the
      reference off when dynamic. */
  predicate Placed(t: Type, v: Value, p: nat, off: nat, out: seq<Byte>) {
    if IsDynamic(t) then At(out, p, Num(off)) && At(out, off, Enc(t, v)) else At(out, p, Enc(t, v))
  }

  lemma {:induction false} AtInside(out: seq<Byte>, s: seq<Byte>, p: nat, w: seq<Byte>)
    requires At(out, 0, s) && At(s, p, w)
    ensures At(out, p, w)
  {
    assert out[p..p + |w|] == out[0..|s|][p..p + |w|];
  }

  lemma {:induction false} AtDrop(out: seq<Byte>, p: nat, w: seq<Byte>)
    requires At(out, p, w)
    ensures At(out[p..], 0, w)
  {
    assert out[p..][0..|w|] == out[p..p + |w|];
  }

  lemma {:induction false} AtSplit(out: seq<Byte>, p: nat, a: seq<Byte>, b: seq<Byte>)
    requires At(out, p, a + b)
    ensures At(out, p, a) && At(out, p + |a|, b)
  {
    assert out[p..p + |a|] == out[p..p + |a + b|][..|a|];
    assert out[p + |a|..p + |a| + |b|] == out[p..p + |a + b|][|a|..];
  }

  /** In an encoded list every component can be found from the end of the heads before it. */
  lemma {:induction false} ComponentPlaced(ts: seq<Type>, vs: seq<Value>, i: nat, out: seq<Byte>)
    requires AllWellFormed(ts) && MatchesAll(ts, vs) && i < |ts|
    requires At(out, 0, EncAll(ts, vs))
    ensures Placed(ts[i], vs[i], HeadSize(ts, i), HeadSize(ts, |ts|) + |Tails(Parts(ts, vs), i)|, out)
  {
    hide IsDynamic, Enc, Matches, WellFormed, MatchesUpTo, TypeSize, HeadSize, HeadLength, Heads, Tails;
    hide At, Layout, BigEndian;
    var ps, base := Parts(ts, vs), HeadSize(ts, |ts|);
    HeadsLength(ts, vs, |ts|);
    HeadsLength(ts, vs, i);
    HeadLocated(ps, i, base);
    TailLocated(ps, i, base);
    AtInside(out, Layout(ps, base), HeadSize(ts, i), HeadOf(ps[i], base + |Tails(ps, i)|));
    AtInside(out, Layout(ps, base), base + |Tails(ps, i)|, TailOf(ps[i]));
  }

  // ---- References

  lemma {:induction false} LengthPrefixRead(p: nat, off: nat, out: seq<Byte>, n: nat, content: seq<Byte>)
    requires At(out, p, Num(off)) && At(out, off, Num(n) + content)
    requires n <= |content| && |out| < INT_LIMIT
    ensures LengthPrefixPointsTo(p, out) == Ok((off + 32, n))
    ensures At(out[off + 32..], 0, content)
  {
    hide BigEndian, ValueOf, Pow256;
    SmallerThanWord(|out|);
    NumValue(off);
    NumValue(n);
    AtSplit(out, off, Num(n), content);
    AtDrop(out, off + 32, content);
  }

  lemma {:induction false} SmallerThanWord(n: nat)
    requires n < INT_LIMIT
    ensures n < Pow256(8) <= Pow256(32)
  {
    assert Pow256(4) == 0x1_0000_0000;
    assert Pow256(8) == 0x1_0000_0000_0000_0000;
    PowGrows(8, 32);
  }

  lemma {:induction false} PowGrows(a: nat, b: nat)
    requires a <= b
    ensures Pow256(a) <= Pow256(b)
    decreases b
  {
    if a < b {
      PowGrows(a, b - 1);
    }
  }

  lemma {:induction false} OffsetRead(p: nat, off: nat, out: seq<Byte>)
    requires At(out, p, Num(off)) && off <= |out| < INT_LIMIT
    ensures TuplePointsTo(p, out) == Ok(off)
    ensures ArrayPointsTo(p, out) == Ok(off)
  {
    hide BigEndian, ValueOf, Pow256;
    SmallerThanWord(|out|);
    NumValue(off);
    NumLowBytes(off, 8);
    ModInRange(off, Pow256(8));
    assert out[p + 24..p + 32] == out[p..p + 32][24..];
  }

  // ---- Round trips

  /** toGoType finds a value wherever its encoding was placed. */
  lemma {:induction false} PlacedRoundTrip(t: Type, v: Value, p: nat, off: nat, out: seq<Byte>)
    requires WellFormed(t) && Matches(t, v) && Placed(t, v, p, off, out) && |out| < INT_LIMIT
    ensures Decode(p, t, out) == Ok(v)
    decreases v, 1
  {
    hide Decode, Enc, Placed;
    match t
    case TupleTy(ts) =>
      TuplePlaced(ts, v.vs, p, off, out);
      assert v == Struct(v.vs);
    case ArrayTy(e, k) =>
      ArrayPlaced(e, v.vs, p, off, out);
      assert v == List(v.vs);
    case SliceTy(e) =>
      SlicePlaced(e, v.vs, p, off, out);
      assert v == List(v.vs);
    case StringTy => BytesPlaced(t, v, p, off, out);
    case BytesTy => BytesPlaced(t, v, p, off, out);
    case _ => WordPlaced(t, v, p, off, out);
  }

  lemma {:induction false} WordPlaced(t: Type, v: Value, p: nat, off: nat, out: seq<Byte>)
    requires WellFormed(t) && IsWord(t) && Matches(t, v) && Placed(t, v, p, off, out)
    ensures Decode(p, t, out) == Ok(v)
  {
    hide Enc, ReadWord, Matches;
    WordRoundTrip(t, v);
  }

  lemma {:induction false} BytesPlaced(t: Type, v: Value, p: nat, off: nat, out: seq<Byte>)
    requires (t.StringTy? || t.BytesTy?) && Matches(t, v) && Placed(t, v, p, off, out) && |out| < INT_LIMIT
    ensures Decode(p, t, out) == Ok(v)
  {
    hide PackBytesSlice, BigEndian, ValueOf;
    BytesRoundTrip(v.bs, p, off, out);
  }

  lemma {:induction false} TuplePlaced(ts: seq<Type>, vs: seq<Value>, p: nat, off: nat, out: seq<Byte>)
    requires WellFormed(TupleTy(ts)) && Matches(TupleTy(ts), Struct(vs))
    requires Placed(TupleTy(ts), Struct(vs), p, off, out) && |out| < INT_LIMIT
    ensures Decode(p, TupleTy(ts), out) == Ok(Struct(vs))
    decreases vs, |ts| + 2
  {
    hide BigEndian, ValueOf, DecodeTuple, Parts, Placed, At, IsDynamic, TypeSize;
    var begin := Begin(TupleTy(ts), Struct(vs), p, off, out);
    TupleRoundTrip(ts, vs, out[begin..], |ts|);
    assert vs[..|ts|] == vs;
  }

  lemma {:induction false} ArrayPlaced(e: Type, vs: seq<Value>, p: nat, off: nat, out: seq<Byte>)
    requires WellFormed(ArrayTy(e, |vs|)) && Matches(ArrayTy(e, |vs|), List(vs))
    requires Placed(ArrayTy(e, |vs|), List(vs), p, off, out) && |out| < INT_LIMIT
    ensures Decode(p, ArrayTy(e, |vs|), out) == Ok(List(vs))
    decreases vs, |vs| + 2
  {
    hide BigEndian, ValueOf, DecodeElements, Parts, Placed, TypeSize, EncList;
    var begin := Begin(ArrayTy(e, |vs|), List(vs), p, off, out);
    ListLength(e, vs);
    ListRoundTrip(e, vs, out[begin..], |vs|);
    assert vs[..|vs|] == vs;
  }

  lemma {:induction false} SlicePlaced(e: Type, vs: seq<Value>, p: nat, off: nat, out: seq<Byte>)
    requires WellFormed(e) && Matches(SliceTy(e), List(vs))
    requires Placed(SliceTy(e), List(vs), p, off, out) && |out| < INT_LIMIT
    ensures Decode(p, SliceTy(e), out) == Ok(List(vs))
    decreases vs, |vs| + 2
  {
    hide BigEndian, ValueOf, DecodeElements, Parts, TypeSize, EncList;
    ListLength(e, vs);
    LengthPrefixRead(p, off, out, |vs|, EncList(e, vs));
    ListRoundTrip(e, vs, out[off + 32..], |vs|);
    assert vs[..|vs|] == vs;
  }

  lemma {:induction false} BytesRoundTrip(bs: seq<Byte>, p: nat, off: nat, out: seq<Byte>)
    requires At(out, p, Num(off)) && At(out, off, PackBytesSlice(bs)) && |out| < INT_LIMIT
    ensures LengthPrefixPointsTo(p, out) == Ok((off + 32, |bs|))
    ensures out[off + 32..off + 32 + |bs|] == bs
  {
    var padded := RightPad(bs, (|bs| + 31) / 32 * 32);
    assert padded[..|bs|] == bs;
    LengthPrefixRead(p, off, out, |bs|, padded);
    assert out[off + 32..off + 32 + |bs|] == out[off + 32..][0..|padded|][..|bs|];
  }

  /** Where the components of a tuple or an array start: in place, or at the reference. */
  lemma {:induction false} Begin(t: Type, v: Value, p: nat, off: nat, out: seq<Byte>) returns (begin: nat)
    requires t.TupleTy? || t.ArrayTy?
    requires WellFormed(t) && Matches(t, v) && Placed(t, v, p, off, out) && |out| < INT_LIMIT
    ensures p + 32 <= |out|
    ensures begin == if IsDynamic(t) then off else p
    ensures begin <= |out| && At(out[begin..], 0, Enc(t, v))
    ensures IsDynamic(t) ==> TuplePointsTo(p, out) == Ok(off) && ArrayPointsTo(p, out) == Ok(off)
  {
    hide Matches, Enc, WellFormed, BigEndian, ValueOf, Pow256;
    if IsDynamic(t) {
      begin := off;
      OffsetRead(p, off, out);
    } else {
      begin := p;
      StaticLength(t, v);
      SizeInWords(t);
    }
    AtDrop(out, begin, Enc(t, v));
  }

  lemma {:induction false} ListLength(e: Type, vs: seq<Value>)
    requires WellFormed(e) && MatchesAll(Repeat(e, |vs|), vs)
    ensures |EncList(e, vs)| >= 32 * |vs|
  {
    hide Matches, Enc, WellFormed, IsDynamic;
    var ts := Repeat(e, |vs|);
    assert AllWellFormed(ts);
    HeadsLength(ts, vs, |vs|);
    HeadSizeInWords(ts, |vs|);
  }

  lemma {:induction false} TupleRoundTrip(ts: seq<Type>, vs: seq<Value>, out: seq<Byte>, n: nat)
    requires AllWellFormed(ts) && MatchesAll(ts, vs) && n <= |ts|
    requires At(out, 0, EncAll(ts, vs)) && |out| < INT_LIMIT
    ensures DecodeTuple(ts, out, n) == Ok(vs[..n])
    decreases vs, n + 1
  {
    hide Matches, Enc, WellFormed, IsDynamic, Decode, MatchesUpTo, TypeSize, HeadSize, Tails, At, Placed, Layout;
    if n != 0 {
      assert vs[..n - 1] + [vs[n - 1]] == vs[..n];
      TupleRoundTrip(ts, vs, out, n - 1);
      MatchesAt(ts, vs, |ts|, n - 1);
      ComponentPlaced(ts, vs, n - 1, out);
      PlacedRoundTrip(ts[n - 1], vs[n - 1], HeadSize(ts, n - 1),
                      HeadSize(ts, |ts|) + |Tails(Parts(ts, vs), n - 1)|, out);
    }
  }

  lemma {:induction false} ListRoundTrip(e: Type, vs: seq<Value>, out: seq<Byte>, n: nat)
    requires WellFormed(e) && MatchesAll(Repeat(e, |vs|), vs) && n <= |vs|
    requires At(out, 0, EncList(e, vs)) && |out| < INT_LIMIT
    ensures DecodeElements(e, out, n) == Ok(vs[..n])
    decreases vs, n + 1
  {
    hide Matches, Enc, WellFormed, IsDynamic, Decode, MatchesUpTo, TypeSize, HeadSize, Tails, At, Placed, Layout;
    var ts := Repeat(e, |vs|);
    if n != 0 {
      assert vs[..n - 1] + [vs[n - 1]] == vs[..n];
      ListRoundTrip(e, vs, out, n - 1);
      MatchesAt(ts, vs, |ts|, n - 1);
      HeadSizeRepeat(e, |vs|, |vs|);
      HeadSizeRepeat(e, |vs|, n - 1);
      assert AllWellFormed(ts);
      ComponentPlaced(ts, vs, n - 1, out);
      PlacedRoundTrip(e, vs[n - 1], (n - 1) * TypeSize(e),
                      HeadSize(ts, |ts|) + |Tails(Parts(ts, vs), n - 1)|, out);
    }
  }

  // ---- What the decoder can return

  lemma {:induction false} MatchesSame(ts: seq<Type>, vs: seq<Value>, ts': seq<Type>, vs': seq<Value>, n: nat)
    requires n <= |ts| == |vs| && n <= |ts'| == |vs'| && MatchesUpTo(ts, vs, n)
    requires forall i :: 0 <= i < n ==> ts[i] == ts'[i] && vs[i] == vs'[i]
    ensures MatchesUpTo(ts', vs', n)
    decreases n
  {
    hide Matches;
    if n != 0 {
      MatchesSame(ts, vs, ts', vs', n - 1);
    }
  }

  /** Whatever the bytes, a decoded value is a value of the type. */
  lemma {:induction false} DecodeSound(index: nat, t: Type, out: seq<Byte>)
    requires WellFormed(t)
    ensures Decode(index, t, out).Ok? ==> Matches(t, Decode(index, t, out).value)
    decreases t, 0, 0
  {
    hide MatchesUpTo, DecodeElements, DecodeTuple, TypeSize, BigEndian, ValueOf;
    if index + 32 <= |out| {
      match t
      case TupleTy(ts) =>
        forall begin: nat | begin <= |out| ensures TupleOk(ts, out[begin..]) {
          TupleSound(ts, out[begin..], |ts|);
          assert ts[..|ts|] == ts;
        }
      case ArrayTy(e, k) =>
        forall begin: nat | begin <= |out| ensures ElementsOk(e, out[begin..], k) {
          ElementsSound(e, out[begin..], k);
        }
      case SliceTy(e) =>
        var pointsTo := LengthPrefixPointsTo(index, out);
        if pointsTo.Ok? {
          ElementsSound(e, out[pointsTo.value.0..], pointsTo.value.1);
        }
      case StringTy =>
      case BytesTy =>
      case _ => WordSound(t, out[index..index + 32]);
    }
  }

  ghost predicate TupleOk(ts: seq<Type>, out: seq<Byte>)
    requires AllWellFormed(ts)
  {
    DecodeTuple(ts, out, |ts|).Ok? ==> MatchesUpTo(ts, DecodeTuple(ts, out, |ts|).value, |ts|)
  }

  ghost predicate ElementsOk(e: Type, out: seq<Byte>, n: nat)
    requires WellFormed(e)
  {
    DecodeElements(e, out, n).Ok? ==> MatchesUpTo(Repeat(e, n), DecodeElements(e, out, n).value, n)
  }

  lemma {:induction false} WordSound(t: Type, word: seq<Byte>)
    requires WellFormed(t) && IsWord(t) && |word| == 32
    ensures ReadWord(t, word).Ok? ==> Matches(t, ReadWord(t, word).value)
  {
    if t.IntTy? || t.UintTy? {
      var k := Width(t.size);
      assert |word[32 - k..]| == k;
      SignedRange(ValueOf(word[32 - k..]), k);
    }
  }

  lemma SignedRange(n: int, k: nat)
    requires 0 <= n < Pow256(k)
    ensures InSigned(Signed(n, k), k)
  {
  }

  lemma {:induction false} ElementsSound(e: Type, out: seq<Byte>, n: nat)
    requires WellFormed(e)
    ensures ElementsOk(e, out, n)
    decreases e, 1, n
  {
    hide Decode, Matches, TypeSize;
    if n != 0 && DecodeElements(e, out, n).Ok? {
      ElementsSound(e, out, n - 1);
      DecodeSound((n - 1) * TypeSize(e), e, out);
      MatchesSame(Repeat(e, n - 1), DecodeElements(e, out, n - 1).value,
                  Repeat(e, n), DecodeElements(e, out, n).value, n - 1);
    }
  }

  lemma {:induction false} TupleSound(ts: seq<Type>, out: seq<Byte>, n: nat)
    requires AllWellFormed(ts) && n <= |ts|
    ensures DecodeTuple(ts, out, n).Ok? ==> MatchesUpTo(ts[..n], DecodeTuple(ts, out, n).value, n)
    decreases ts, 1, n
  {
    hide Decode, Matches, TypeSize;
    if n != 0 && DecodeTuple(ts, out, n).Ok? {
      TupleSound(ts, out, n - 1);
      DecodeSound(HeadSize(ts, n - 1), ts[n - 1], out);
      MatchesSame(ts[..n - 1], DecodeTuple(ts, out, n - 1).value,
                  ts[..n], DecodeTuple(ts, out, n).value, n - 1);
    }
  }

  // ---- The theorems

  /** UnpackValues(Pack(args)) gives the arguments back exactly when they are values of their
      types: an accepted *big.Int beyond its word, or a byte array of the wrong length for an
      address or a function, never comes back. */
  lemma {:induction false} RoundTrip(ts: seq<Type>, vs: seq<Value>)
    requires AllWellFormed(ts) && AcceptsAll(ts, vs) && |EncAll(ts, vs)| < INT_LIMIT
    ensures DecodeTuple(ts, EncAll(ts, vs), |ts|) == Ok(vs) <==> MatchesAll(ts, vs)
  {
    hide Decode, Matches, Accepts, Enc, TypeSize;
    var out := EncAll(ts, vs);
    if MatchesAll(ts, vs) {
      assert At(out, 0, out);
      TupleRoundTrip(ts, vs, out, |ts|);
      assert vs[..|ts|] == vs;
    }
    TupleSound(ts, out, |ts|);
    assert ts[..|ts|] == ts;
  }

  /** Encoding is injective on the values of the types. */
  lemma {:induction false} EncodingInjective(ts: seq<Type>, vs: seq<Value>, ws: seq<Value>)
    requires AllWellFormed(ts) && MatchesAll(ts, vs) && MatchesAll(ts, ws)
    requires EncAll(ts, vs) == EncAll(ts, ws) && |EncAll(ts, vs)| < INT_LIMIT
    ensures vs == ws
  {
    hide Decode, Matches, Accepts, Enc, TypeSize;
    AllMatchesAccepts(ts, vs, |ts|);
    AllMatchesAccepts(ts, ws, |ts|);
    RoundTrip(ts, vs);
    RoundTrip(ts, ws);
  }

  /** Arguments.Pack followed by Arguments.UnpackValues. */
  method PackUnpack(arguments: seq<Argument>, args: seq<Value>)
      returns (packed: Result<seq<Byte>>, r: Result<seq<Value>>)
    requires forall i :: 0 <= i < |arguments| ==> !arguments[i].indexed
    requires AllWellFormed(NonIndexed(arguments))
    ensures packed.Ok? <==> AcceptsAll(NonIndexed(arguments), args)
    ensures packed.Ok? && |packed.value| < INT_LIMIT ==>
              (r == Ok(args) <==> MatchesAll(NonIndexed(arguments), args))
  {
    hide Decode, Matches, Accepts, Enc, TypeSize;
    var ts := NonIndexed(arguments);
    packed := PackArguments(ts, args);
    r := Err;
    if packed.Ok? {
      r := UnpackValues(arguments, packed.value);
      if |packed.value| < INT_LIMIT {
        RoundTrip(ts, args);
      }
    }
  }
}
