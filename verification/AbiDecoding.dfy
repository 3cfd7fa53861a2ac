/** The decoder: offset chasing over an arbitrary byte string (accounts/abi/unpack.go and
    Arguments.UnpackValues), as functions and as the loops proved to compute them. Every
    function is total: it terminates by descent on the type and all its slices are in range,
    whatever the bytes are. */
module AbiDecoding {
  import opened Wrappers
  import opened AbiWords
  import opened AbiTypes

  /** Go ints are below this. */
  const INT_LIMIT := 0x8000_0000_0000_0000

  function ReadInteger(t: Type, word: seq<Byte>): Value
    requires (t.IntTy? || t.UintTy?) && |word| == 32
  {
    var k := Width(t.size);
    var n := ValueOf(word[32 - k..]);
    if t.UintTy? then Int(n) else Int(Signed(n, k))
  }

  function ReadBool(word: seq<Byte>): Result<Value>
    requires |word| == 32
  {
    if word[..31] != Zeros(31) || word[31] > 1 then Err else Ok(Bool(word[31] == 1))
  }

  function ReadFunction(word: seq<Byte>): Result<Value>
    requires |word| == 32
  {
    if ValueOf(word[24..]) != 0 then Err else Ok(Fixed(word[..24]))
  }

  predicate IsWord(t: Type) {
    t.IntTy? || t.UintTy? || t.BoolTy? || t.AddressTy? || t.FixedBytesTy? || t.FunctionTy?
  }

  /** The types whose value is one word. */
  function ReadWord(t: Type, word: seq<Byte>): Result<Value>
    requires IsWord(t) && WellFormed(t) && |word| == 32
  {
    match t
    case BoolTy => ReadBool(word)
    case AddressTy => Ok(Fixed(word[12..]))
    case FixedBytesTy(k) => Ok(Fixed(word[..k]))
    case FunctionTy => ReadFunction(word)
    case _ => Ok(ReadInteger(t, word))
  }

  /** Where the content after a length prefix starts, and the length. */
  function LengthPrefixPointsTo(index: nat, out: seq<Byte>): (r: Result<(nat, nat)>)
    requires index + 32 <= |out|
    ensures r.Ok? ==> r.value.0 + r.value.1 <= |out|
  {
    var offsetEnd := ValueOf(out[index..index + 32]) + 32;
    if offsetEnd > |out| || offsetEnd >= INT_LIMIT then Err
    else
      var length := ValueOf(out[offsetEnd - 32..offsetEnd]);
      var totalSize := offsetEnd + length;
      if totalSize >= INT_LIMIT || totalSize > |out| then Err else Ok((offsetEnd, length))
  }

  function TuplePointsTo(index: nat, out: seq<Byte>): (r: Result<nat>)
    requires index + 32 <= |out|
    ensures r.Ok? ==> r.value <= |out|
  {
    var offset := ValueOf(out[index..index + 32]);
    if offset > |out| || offset >= INT_LIMIT then Err else Ok(offset)
  }

  /** The offset of a dynamic array is read from eight bytes only. */
  function ArrayPointsTo(index: nat, out: seq<Byte>): (r: Result<nat>)
    requires index + 32 <= |out|
    ensures r.Ok? ==> r.value <= |out|
  {
    var offset := ValueOf(out[index + 24..index + 32]);
    if offset > |out| then Err else Ok(offset)
  }

  function Decode(index: nat, t: Type, out: seq<Byte>): Result<Value>
    requires WellFormed(t)
    decreases t, 0, 0
  {
    if index + 32 > |out| then Err
    else match t
      case TupleTy(ts) =>
        var begin :- if IsDynamic(t) then TuplePointsTo(index, out) else Ok(index);
        var vs :- DecodeTuple(ts, out[begin..], |ts|);
        Ok(Struct(vs))
      case ArrayTy(e, k) =>
        var begin :- if IsDynamic(e) then ArrayPointsTo(index, out) else Ok(index);
        var vs :- DecodeList(e, out[begin..], k);
        Ok(List(vs))
      case SliceTy(e) =>
        var (begin, length) :- LengthPrefixPointsTo(index, out);
        var vs :- DecodeList(e, out[begin..], length);
        Ok(List(vs))
      case StringTy =>
        var (begin, length) :- LengthPrefixPointsTo(index, out);
        Ok(Str(out[begin..begin + length]))
      case BytesTy =>
        var (begin, length) :- LengthPrefixPointsTo(index, out);
        Ok(Bytes(out[begin..begin + length]))
      case _ => ReadWord(t, out[index..index + 32])
  }

  /** size elements from the start of out, refused when they cannot all have a head there. */
  function DecodeList(e: Type, out: seq<Byte>, size: nat): Result<seq<Value>>
    requires WellFormed(e)
    decreases e, 2, 0
  {
    if 32 * size > |out| then Err else DecodeElements(e, out, size)
  }

  /** The first n elements. */
  function DecodeElements(e: Type, out: seq<Byte>, n: nat): (r: Result<seq<Value>>)
    requires WellFormed(e)
    ensures r.Ok? ==> |r.value| == n
    decreases e, 1, n
  {
    if n == 0 then Ok([])
    else
      var vs :- DecodeElements(e, out, n - 1);
      var v :- Decode((n - 1) * TypeSize(e), e, out);
      Ok(vs + [v])
  }

  /** The first n components, each at the end of the heads before it. */
  function DecodeTuple(ts: seq<Type>, out: seq<Byte>, n: nat): (r: Result<seq<Value>>)
    requires AllWellFormed(ts) && n <= |ts|
    ensures r.Ok? ==> |r.value| == n
    decreases ts, 1, n
  {
    if n == 0 then Ok([])
    else
      var vs :- DecodeTuple(ts, out, n - 1);
      var v :- Decode(HeadSize(ts, n - 1), ts[n - 1], out);
      Ok(vs + [v])
  }

  /** toGoType. */
  method ToGoType(index: nat, t: Type, out: seq<Byte>) returns (r: Result<Value>)
    requires WellFormed(t)
    ensures r == Decode(index, t, out)
    decreases t, 0, 0
  {
    hide DecodeTuple, DecodeList, DecodeElements, ReadWord, IsDynamic, TypeSize,
      LengthPrefixPointsTo, TuplePointsTo, ArrayPointsTo;
    if index + 32 > |out| {
      return Err;
    }
    var begin, length := 0, 0;
    if RequiresLengthPrefix(t) {
      var pointsTo :- LengthPrefixPointsTo(index, out);
      begin, length := pointsTo.0, pointsTo.1;
    }
    match t
    case TupleTy(ts) =>
      begin := index;
      if IsDynamic(t) {
        begin :- TuplePointsTo(index, out);
      }
      var vs :- ForTupleUnpack(ts, out[begin..]);
      r := Ok(Struct(vs));
    case SliceTy(e) =>
      var vs :- ForEachUnpack(e, out[begin..], length);
      r := Ok(List(vs));
    case ArrayTy(e, k) =>
      begin := index;
      if IsDynamic(e) {
        begin :- ArrayPointsTo(index, out);
      }
      var vs :- ForEachUnpack(e, out[begin..], k);
      r := Ok(List(vs));
    case StringTy => r := Ok(Str(out[begin..begin + length]));
    case BytesTy => r := Ok(Bytes(out[begin..begin + length]));
    case _ => r := ReadWord(t, out[index..index + 32]);
  }

  /** forEachUnpack, which is always called with start 0. */
  method ForEachUnpack(e: Type, out: seq<Byte>, size: nat) returns (r: Result<seq<Value>>)
    requires WellFormed(e)
    ensures r == DecodeList(e, out, size)
    decreases e, 1, 0
  {
    hide Decode;
    if 32 * size > |out| {
      return Err;
    }
    var elemSize := TypeSize(e);
    var slice := [];
    var i, j := 0, 0;
    while j < size
      invariant j <= size && i == j * elemSize
      invariant DecodeElements(e, out, j) == Ok(slice)
    {
      var inter := ToGoType(i, e, out);
      if inter.Err? {
        ErrStays(e, out, j + 1, size);
        return Err;
      }
      slice := slice + [inter.value];
      i, j := i + elemSize, j + 1;
    }
    return Ok(slice);
  }

  /** forTupleUnpack: counts words, static arrays and tuples adding virtual arguments. */
  method ForTupleUnpack(ts: seq<Type>, out: seq<Byte>) returns (r: Result<seq<Value>>)
    requires AllWellFormed(ts)
    ensures r == DecodeTuple(ts, out, |ts|)
    decreases ts, 1, 0
  {
    hide Decode;
    var retval := [];
    var virtualArgs: nat := 0;
    for index := 0 to |ts|
      invariant (index + virtualArgs) * 32 == HeadSize(ts, index)
      invariant DecodeTuple(ts, out, index) == Ok(retval)
    {
      var value := ToGoType((index + virtualArgs) * 32, ts[index], out);
      SizeInWords(ts[index]);
      if (ts[index].ArrayTy? || ts[index].TupleTy?) && !IsDynamic(ts[index]) {
        virtualArgs := virtualArgs + (TypeSize(ts[index]) / 32 - 1);
      }
      if value.Err? {
        TupleErrStays(ts, out, index + 1, |ts|);
        return Err;
      }
      retval := retval + [value.value];
    }
    return Ok(retval);
  }

  lemma {:induction false} ErrStays(e: Type, out: seq<Byte>, n: nat, m: nat)
    requires WellFormed(e) && n <= m && DecodeElements(e, out, n).Err?
    ensures DecodeElements(e, out, m).Err?
    decreases m
  {
    if n < m {
      ErrStays(e, out, n, m - 1);
    }
  }

  lemma {:induction false} TupleErrStays(ts: seq<Type>, out: seq<Byte>, n: nat, m: nat)
    requires AllWellFormed(ts) && n <= m <= |ts| && DecodeTuple(ts, out, n).Err?
    ensures DecodeTuple(ts, out, m).Err?
    decreases m
  {
    if n < m {
      TupleErrStays(ts, out, n, m - 1);
    }
  }

  datatype Argument = Argument(typ: Type, indexed: bool)

  /** The types of the arguments that are not indexed. */
  function NonIndexed(arguments: seq<Argument>): (ts: seq<Type>)
  {
    if arguments == [] then []
    else (if arguments[0].indexed then [] else [arguments[0].typ]) + NonIndexed(arguments[1..])
  }

  /** Arguments.UnpackValues: indexed arguments are skipped. */
  method UnpackValues(arguments: seq<Argument>, data: seq<Byte>) returns (r: Result<seq<Value>>)
    requires AllWellFormed(NonIndexed(arguments))
    ensures r == DecodeTuple(NonIndexed(arguments), data, |NonIndexed(arguments)|)
  {
    hide Decode;
    var ts := NonIndexed(arguments);
    var retval := [];
    var virtualArgs: nat := 0;
    for index := 0 to |ts|
      invariant (index + virtualArgs) * 32 == HeadSize(ts, index)
      invariant DecodeTuple(ts, data, index) == Ok(retval)
    {
      var value := ToGoType((index + virtualArgs) * 32, ts[index], data);
      SizeInWords(ts[index]);
      if (ts[index].ArrayTy? || ts[index].TupleTy?) && !IsDynamic(ts[index]) {
        virtualArgs := virtualArgs + (TypeSize(ts[index]) / 32 - 1);
      }
      if value.Err? {
        TupleErrStays(ts, data, index + 1, |ts|);
        return Err;
      }
      retval := retval + [value.value];
    }
    return Ok(retval);
  }
}
