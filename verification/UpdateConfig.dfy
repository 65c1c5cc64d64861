/** The arguments of `update_config`: seven Borsh options behind a discriminator. */
module UpdateConfig {
  import opened Basics
  import opened Bytes
  import opened Codec

  datatype Args = Args(
    feeBps: Option<nat>, ticketUnit: Option<nat>, roundDurationSec: Option<nat>, minParticipants: Option<nat>,
    minTotalTickets: Option<nat>, paused: Option<bool>, maxDepositPerUser: Option<nat>)

  const FIELDS: seq<Kind> := [OptUint(2), OptUint(8), OptUint(4), OptUint(2), OptUint(8), OptBool, OptUint(8)]

  function Number(v: Value): Option<nat> { if v.Num? && v.n >= 0 then Some(v.n) else None }

  function Truth(v: Value): Option<bool> { if v.Flag? then Some(v.on) else None }

  function FromValues(v: seq<Value>): Args
    requires |v| == 7
  {
    Args(Number(v[0]), Number(v[1]), Number(v[2]), Number(v[3]), Number(v[4]), Truth(v[5]), Number(v[6]))
  }

  /** `UpdateConfigArgsCompat::parse`. */
  function Parse(disc: seq<byte>, data: seq<byte>): Result<Args>
    requires |disc| == 8
  {
    if |data| < 8 then Err(SliceTooShort)
    else if data[..8] != disc then Err(WrongDiscriminator)
    else
      var v :- DecodeAll(FIELDS, data, 8);
      ExactlyEncodings(FIELDS, v, data, 8);
      Ok(FromValues(v))
  }

  function NumberValue(v: Option<nat>): Value { if v.Some? then Num(v.value) else Absent }

  function Values(a: Args): seq<Value>
  {
    [NumberValue(a.feeBps), NumberValue(a.ticketUnit), NumberValue(a.roundDurationSec), NumberValue(a.minParticipants),
     NumberValue(a.minTotalTickets), if a.paused.Some? then Flag(a.paused.value) else Absent,
     NumberValue(a.maxDepositPerUser)]
  }

  /** Every present number fits its width. */
  predicate Valid(a: Args) { AllFit(FIELDS, Values(a)) }

  function Encode(disc: seq<byte>, a: Args): seq<byte>
    requires Valid(a)
  {
    disc + EncodeAll(FIELDS, Values(a))
  }

  lemma NumberInverse(v: Value, width: nat)
    requires Fits(OptUint(width), v)
    ensures NumberValue(Number(v)) == v
  {
  }

  lemma ValuesInverse(v: seq<Value>)
    requires AllFit(FIELDS, v)
    ensures Values(FromValues(v)) == v
  {
    hide Number, NumberValue;
    assert Fits(FIELDS[5], v[5]);
    NumberInverse(v[0], 2);
    NumberInverse(v[1], 8);
    NumberInverse(v[2], 4);
    NumberInverse(v[3], 2);
    NumberInverse(v[4], 8);
    NumberInverse(v[6], 8);
  }

  lemma FromValuesInverse(a: Args)
    ensures FromValues(Values(a)) == a
  {
  }

  /** Parsing yields `a` exactly when `a` is valid and the data starts with its encoding, whatever follows. */
  lemma ParseExact(disc: seq<byte>, a: Args, data: seq<byte>)
    requires |disc| == 8
    ensures Parse(disc, data) == Ok(a) <==> Valid(a) && Encode(disc, a) <= data
  {
    hide DecodeAll, EncodeAll, AllFit, Values, FromValues;
    FromValuesInverse(a);
    if |data| >= 8 {
      var d := DecodeAll(FIELDS, data, 8);
      if d.Ok? {
        ExactlyEncodings(FIELDS, d.value, data, 8);
        ValuesInverse(d.value);
      }
      ExactlyEncodings(FIELDS, Values(a), data, 8);
      if Valid(a) {
        HoldsConcat(data, 0, disc, EncodeAll(FIELDS, Values(a)));
        assert data[0..8] == data[..8];
      }
    }
  }

  /** No encoding of one record is a prefix of an encoding of another. */
  lemma EncodingsPrefixFree(disc: seq<byte>, a: Args, b: Args)
    requires |disc| == 8 && Valid(a) && Valid(b) && Encode(disc, a) <= Encode(disc, b)
    ensures a == b
  {
    ParseExact(disc, a, Encode(disc, b));
    ParseExact(disc, b, Encode(disc, b));
  }

  // ----- the wire format -----

  /** An option on the wire: a tag byte, then the number if it is present. */
  function Wire(v: Option<nat>, width: nat): seq<byte>
  {
    if v.None? then [0] else [1] + EncodeLE(v.value, width)
  }

  function WireFlag(v: Option<bool>): seq<byte> { if v.None? then [0] else [1, if v.value then 1 else 0] }

  predicate Within(v: Option<nat>, max: int) { v.Some? ==> v.value <= max }

  /** The encoding from field `i` on. */
  function From(v: seq<Value>, i: nat): seq<byte>
    requires AllFit(FIELDS, v) && i <= 7
  {
    EncodeAll(FIELDS[i..], v[i..])
  }

  lemma FromNext(v: seq<Value>, i: nat)
    requires AllFit(FIELDS, v) && i < 7
    ensures From(v, i) == Encoded(FIELDS[i], v[i]) + From(v, i + 1)
  {
    assert FIELDS[i..][1..] == FIELDS[i + 1..] && v[i..][1..] == v[i + 1..];
  }

  function Encoded(k: Kind, v: Value): seq<byte>
    requires Fits(k, v)
  {
    Codec.Encode(k, v)
  }

  lemma WireNumber(v: Option<nat>, width: nat)
    ensures Fits(OptUint(width), NumberValue(v)) <==> Within(v, Pow256(width) - 1)
    ensures Within(v, Pow256(width) - 1) ==> Encoded(OptUint(width), NumberValue(v)) == Wire(v, width)
  {
  }

  /** The seven options in their order and widths. */
  lemma WireFormat(disc: seq<byte>, a: Args)
    ensures Valid(a) <==>
              && Within(a.feeBps, U16_MAX) && Within(a.ticketUnit, U64_MAX) && Within(a.roundDurationSec, U32_MAX)
              && Within(a.minParticipants, U16_MAX) && Within(a.minTotalTickets, U64_MAX)
              && Within(a.maxDepositPerUser, U64_MAX)
    ensures Valid(a) ==>
              Encode(disc, a) ==
              disc + (Wire(a.feeBps, 2) + (Wire(a.ticketUnit, 8) + (Wire(a.roundDurationSec, 4) +
              (Wire(a.minParticipants, 2) + (Wire(a.minTotalTickets, 8) + (WireFlag(a.paused) +
              (Wire(a.maxDepositPerUser, 8) + [])))))))
  {
    Widths();
    WireNumber(a.feeBps, 2);
    WireNumber(a.ticketUnit, 8);
    WireNumber(a.roundDurationSec, 4);
    WireNumber(a.minParticipants, 2);
    WireNumber(a.minTotalTickets, 8);
    WireNumber(a.maxDepositPerUser, 8);
    FitsAll(a);
    if Valid(a) {
      WireFields(a);
      assert FIELDS[0..] == FIELDS && Values(a)[0..] == Values(a);
    }
  }

  lemma FitsAll(a: Args)
    ensures Valid(a) <==>
              && Fits(OptUint(2), NumberValue(a.feeBps)) && Fits(OptUint(8), NumberValue(a.ticketUnit))
              && Fits(OptUint(4), NumberValue(a.roundDurationSec)) && Fits(OptUint(2), NumberValue(a.minParticipants))
              && Fits(OptUint(8), NumberValue(a.minTotalTickets)) && Fits(OptUint(8), NumberValue(a.maxDepositPerUser))
  {
    hide Pow256, NumberValue;
    var v := Values(a);
    assert Fits(FIELDS[5], v[5]);
    if Valid(a) {
      assert Fits(FIELDS[0], v[0]) && Fits(FIELDS[1], v[1]) && Fits(FIELDS[2], v[2]) && Fits(FIELDS[3], v[3]);
      assert Fits(FIELDS[4], v[4]) && Fits(FIELDS[6], v[6]);
    }
  }

  lemma WireFields(a: Args)
    requires Valid(a)
    ensures From(Values(a), 0) ==
            Wire(a.feeBps, 2) + (Wire(a.ticketUnit, 8) + (Wire(a.roundDurationSec, 4) + (Wire(a.minParticipants, 2) +
            (Wire(a.minTotalTickets, 8) + (WireFlag(a.paused) + (Wire(a.maxDepositPerUser, 8) + []))))))
  {
    FitsAll(a);
    WireNumber(a.feeBps, 2);
    WireNumber(a.ticketUnit, 8);
    WireNumber(a.roundDurationSec, 4);
    WireNumber(a.minParticipants, 2);
    WireNumber(a.minTotalTickets, 8);
    WireNumber(a.maxDepositPerUser, 8);
    hide Wire, Within, Pow256;
    var v := Values(a);
    FromNext(v, 0);
    FromNext(v, 1);
    FromNext(v, 2);
    FromNext(v, 3);
    FromNext(v, 4);
    FromNext(v, 5);
    FromNext(v, 6);
    assert From(v, 7) == [];
    assert Encoded(FIELDS[5], v[5]) == WireFlag(a.paused);
    hide From, Encoded;
  }
}
