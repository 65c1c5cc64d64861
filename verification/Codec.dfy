/** Records as field lists: fixed-width account fields and Borsh options, read by an advancing cursor. */
module Codec {
  import opened Bytes

  datatype Kind = Raw(width: nat) | Uint(width: nat) | Int64 | Bool | OptUint(width: nat) | OptBool

  datatype Value = Raws(bytes: seq<byte>) | Num(n: int) | Flag(on: bool) | Absent

  datatype ReadError = SliceTooShort | WrongDiscriminator | InvalidOptionTag | InvalidBool

  datatype Result<+T> = Ok(value: T) | Err(error: ReadError) {
    predicate IsFailure() { Err? }
    function PropagateFailure<U>(): Result<U> requires Err? { Err(error) }
    function Extract(): T requires Ok? { value }
  }

  /** The values a field of this kind can hold. */
  predicate Fits(k: Kind, v: Value)
  {
    match k
    case Raw(w) => v.Raws? && |v.bytes| == w
    case Uint(w) => v.Num? && 0 <= v.n < Pow256(w)
    case Int64 => v.Num? && I64_MIN <= v.n <= I64_MAX
    case Bool => v.Flag?
    case OptUint(w) => v.Absent? || (v.Num? && 0 <= v.n < Pow256(w))
    case OptBool => v.Absent? || v.Flag?
  }

  function Bit(on: bool): byte { if on then 1 else 0 }

  function Encode(k: Kind, v: Value): seq<byte>
    requires Fits(k, v)
  {
    match k
    case Raw(_) => v.bytes
    case Uint(w) => EncodeLE(v.n, w)
    case Int64 => EncodeLE(ToU64(v.n), 8)
    case Bool => [Bit(v.on)]
    case OptUint(w) => if v.Absent? then [0] else [1] + EncodeLE(v.n, w)
    case OptBool => if v.Absent? then [0] else [1, Bit(v.on)]
  }

  /** Read a field that is not an option at the cursor; yields the value and the advanced cursor. */
  function DecodePlain(k: Kind, data: seq<byte>, off: nat): Result<(Value, nat)>
    requires !k.OptUint? && !k.OptBool?
  {
    var end := off + Width(k);
    if |data| < end then Err(SliceTooShort)
    else if k.Bool? && data[off] > 1 then Err(InvalidBool)
    else Ok((Spelled(k, data[off..end]), end))
  }

  /** Bytes taken by a field that is not an option. */
  function Width(k: Kind): nat
  {
    match k
    case Raw(w) => w
    case Uint(w) => w
    case Int64 => 8
    case _ => 1
  }

  /** The value that the field's bytes spell. */
  function Spelled(k: Kind, x: seq<byte>): Value
    requires |x| == Width(k)
  {
    match k
    case Raw(_) => Raws(x)
    case Int64 => Num(ToI64(DecodeLE(x)))
    case Bool => Flag(x[0] == 1)
    case _ => Num(DecodeLE(x))
  }

  /** Read one field at the cursor; an option is a tag byte followed by the field if the tag is 1. */
  function Decode(k: Kind, data: seq<byte>, off: nat): Result<(Value, nat)>
  {
    match k
    case OptUint(w) =>
      var tag :- Tag(data, off);
      if tag == 0 then Ok((Absent, off + 1)) else DecodePlain(Uint(w), data, off + 1)
    case OptBool =>
      var tag :- Tag(data, off);
      if tag == 0 then Ok((Absent, off + 1)) else DecodePlain(Bool, data, off + 1)
    case _ => DecodePlain(k, data, off)
  }

  function Tag(data: seq<byte>, off: nat): Result<byte>
  {
    if |data| < off + 1 then Err(SliceTooShort)
    else if data[off] > 1 then Err(InvalidOptionTag)
    else Ok(data[off])
  }

  /** The bytes `x` are the encoding of `v` exactly when they spell it. */
  lemma SpelledExact(k: Kind, v: Value, x: seq<byte>)
    requires !k.OptUint? && !k.OptBool? && |x| == Width(k) && (k.Bool? ==> x[0] <= 1)
    ensures Fits(k, Spelled(k, x)) && Encode(k, Spelled(k, x)) == x
    ensures Fits(k, v) && Encode(k, v) == x ==> Spelled(k, x) == v
  {
    Widths();
    EncodeDecode(x);
    if Fits(k, v) && k.Uint? { DecodeEncode(v.n, k.width); }
    if Fits(k, v) && k.Int64? { DecodeEncode(ToU64(v.n), 8); }
  }

  lemma EncodedWidth(k: Kind, v: Value)
    requires !k.OptUint? && !k.OptBool? && Fits(k, v)
    ensures |Encode(k, v)| == Width(k) && (k.Bool? ==> Encode(k, v)[0] <= 1)
  {
  }

  /** A plain field reads as `v` exactly when the encoding of `v` stands at the cursor. */
  lemma PlainExact(k: Kind, v: Value, data: seq<byte>, off: nat)
    requires !k.OptUint? && !k.OptBool?
    ensures var d := DecodePlain(k, data, off);
      && (Fits(k, v) && Holds(data, off, Encode(k, v)) <==> d.Ok? && d.value.0 == v)
      && (d.Ok? ==> Fits(k, d.value.0) && d.value.1 == off + |Encode(k, d.value.0)|)
  {
    hide Spelled, Fits, Encode;
    var end := off + Width(k);
    if Fits(k, v) { EncodedWidth(k, v); }
    if end <= |data| && (k.Bool? ==> data[off] <= 1) {
      SpelledExact(k, v, data[off..end]);
    }
  }

  /** A byte followed by a string stands at the cursor exactly when both do. */
  lemma HoldsCons(data: seq<byte>, off: nat, b: byte, x: seq<byte>)
    ensures Holds(data, off, [b] + x) <==> off < |data| && data[off] == b && Holds(data, off + 1, x)
  {
    if off + 1 + |x| <= |data| {
      assert data[off..off + 1 + |x|] == [data[off]] + data[off + 1..off + 1 + |x|];
      assert ([b] + x)[0] == b && ([b] + x)[1..] == x;
      assert ([data[off]] + data[off + 1..off + 1 + |x|])[1..] == data[off + 1..off + 1 + |x|];
    }
  }

  /** The same for every kind, options included. */
  lemma FieldExact(k: Kind, v: Value, data: seq<byte>, off: nat)
    ensures var d := Decode(k, data, off);
      && (Fits(k, v) && Holds(data, off, Encode(k, v)) <==> d.Ok? && d.value.0 == v)
      && (d.Ok? ==> Fits(k, d.value.0) && d.value.1 == off + |Encode(k, d.value.0)|)
  {
    match k
    case OptUint(w) =>
      PlainExact(Uint(w), v, data, off + 1);
      HoldsCons(data, off, 0, []);
      if Fits(k, v) && v.Num? { HoldsCons(data, off, 1, EncodeLE(v.n, w)); }
    case OptBool =>
      PlainExact(Bool, v, data, off + 1);
      HoldsCons(data, off, 0, []);
      if v.Flag? {
        HoldsCons(data, off, 1, [Bit(v.on)]);
        assert [1, Bit(v.on)] == [1] + [Bit(v.on)];
      }
    case _ => PlainExact(k, v, data, off);
  }

  // ----- field lists -----

  predicate AllFit(ks: seq<Kind>, vs: seq<Value>)
  {
    |vs| == |ks| && forall i :: 0 <= i < |ks| ==> Fits(ks[i], vs[i])
  }

  function EncodeAll(ks: seq<Kind>, vs: seq<Value>): seq<byte>
    requires AllFit(ks, vs)
  {
    if |ks| == 0 then [] else Encode(ks[0], vs[0]) + EncodeAll(ks[1..], vs[1..])
  }

  function DecodeAll(ks: seq<Kind>, data: seq<byte>, off: nat): Result<seq<Value>>
  {
    if |ks| == 0 then Ok([])
    else
      var (v, at) :- Decode(ks[0], data, off);
      var vs :- DecodeAll(ks[1..], data, at);
      Ok([v] + vs)
  }

  lemma HoldsConcat(data: seq<byte>, off: nat, x: seq<byte>, y: seq<byte>)
    ensures Holds(data, off, x + y) <==> Holds(data, off, x) && Holds(data, off + |x|, y)
  {
    var n, m := off + |x|, off + |x| + |y|;
    if m <= |data| {
      assert data[off..m] == data[off..n] + data[n..m];
      assert (x + y)[..|x|] == x && (x + y)[|x|..] == y;
      assert (data[off..n] + data[n..m])[..|x|] == data[off..n] && (data[off..n] + data[n..m])[|x|..] == data[n..m];
    }
  }

  /** A field list reads as `vs` exactly when the values fit and their encodings stand at the cursor, whatever follows. */
  lemma {:induction false} ExactlyEncodings(ks: seq<Kind>, vs: seq<Value>, data: seq<byte>, off: nat)
    requires off <= |data|
    ensures AllFit(ks, vs) && Holds(data, off, EncodeAll(ks, vs)) <==> DecodeAll(ks, data, off) == Ok(vs)
    decreases |ks|
  {
    if |ks| > 0 {
      var d := Decode(ks[0], data, off);
      if |vs| > 0 {
        FieldExact(ks[0], vs[0], data, off);
        assert vs == [vs[0]] + vs[1..];
        if Fits(ks[0], vs[0]) { Tail(ks, vs); }
        if d.Ok? && d.value.0 == vs[0] {
          ExactlyEncodings(ks[1..], vs[1..], data, d.value.1);
        }
        if AllFit(ks, vs) {
          HoldsConcat(data, off, Encode(ks[0], vs[0]), EncodeAll(ks[1..], vs[1..]));
        }
      }
    }
  }

  lemma Tail(ks: seq<Kind>, vs: seq<Value>)
    requires 0 < |ks| && 0 < |vs| && Fits(ks[0], vs[0])
    ensures AllFit(ks, vs) <==> AllFit(ks[1..], vs[1..])
  {
    if AllFit(ks[1..], vs[1..]) {
      forall i | 0 <= i < |ks| ensures Fits(ks[i], vs[i]) {
        if i > 0 { assert Fits(ks[1..][i - 1], vs[1..][i - 1]); }
      }
    }
  }

  /** No record's encoding is a prefix of another's. */
  lemma PrefixFree(ks: seq<Kind>, vs: seq<Value>, vs': seq<Value>)
    requires AllFit(ks, vs) && AllFit(ks, vs') && EncodeAll(ks, vs) <= EncodeAll(ks, vs')
    ensures vs == vs'
  {
    var data := EncodeAll(ks, vs');
    ExactlyEncodings(ks, vs, data, 0);
    ExactlyEncodings(ks, vs', data, 0);
  }
}
