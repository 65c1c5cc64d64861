/** The config, degen config, degen claim and participant accounts: field lists behind a discriminator. */
module AccountViews {
  import opened Bytes
  import opened Codec
  import Layout

  const PUBKEY := Raw(32)

  /** admin, usdc_mint, treasury_usdc_ata, fee_bps, ticket_unit, round_duration_sec, min_participants,
      min_total_tickets, paused, bump, max_deposit_per_user, reserved. */
  const CONFIG: seq<Kind> :=
    [PUBKEY, PUBKEY, PUBKEY, Uint(2), Uint(8), Uint(4), Uint(2), Uint(8), Bool, Uint(1), Uint(8), Raw(24)]

  /** executor, fallback_timeout_sec, bump, reserved. */
  const DEGEN_CONFIG: seq<Kind> := [PUBKEY, Uint(4), Uint(1), Raw(27)]

  /** round, winner, round_id, status, bump, selected_candidate_rank, fallback_reason, token_index, pool_version,
      candidate_window, padding0, requested_at, fulfilled_at, claimed_at, fallback_after_ts, payout_raw, min_out_raw,
      receiver_pre_balance, token_mint, executor, receiver_token_ata, randomness, route_hash, reserved. */
  const DEGEN_CLAIM: seq<Kind> :=
    [PUBKEY, PUBKEY, Uint(8), Uint(1), Uint(1), Uint(1), Uint(1), Uint(4), Uint(4), Uint(1), Raw(7),
     Int64, Int64, Int64, Int64, Uint(8), Uint(8), Uint(8), PUBKEY, PUBKEY, PUBKEY, Raw(32), Raw(32), Raw(32)]

  /** round, user, index, bump, tickets_total, usdc_total, deposits_count, reserved. */
  const PARTICIPANT: seq<Kind> := [PUBKEY, PUBKEY, Uint(2), Uint(1), Uint(8), Uint(8), Uint(4), Raw(16)]

  predicate Plain(ks: seq<Kind>) { forall k :: k in ks ==> !k.OptUint? && !k.OptBool? }

  /** The body offset of field `i`; of the whole body when `i` is the number of fields. */
  function Offset(ks: seq<Kind>, i: nat): nat
    requires i <= |ks|
  {
    if i == 0 then 0 else Offset(ks, i - 1) + Width(ks[i - 1])
  }

  function Size(ks: seq<Kind>): nat { Offset(ks, |ks|) }

  /** `read_from_account_data`. */
  function ReadAccount(ks: seq<Kind>, data: seq<byte>): Result<seq<Value>>
  {
    if |data| < Layout.DISC + Size(ks) then Err(SliceTooShort) else DecodeAll(ks, data, Layout.DISC)
  }

  lemma {:induction false} OffsetTail(ks: seq<Kind>, i: nat)
    requires 0 < i <= |ks|
    ensures Offset(ks, i) == Width(ks[0]) + Offset(ks[1..], i - 1)
  {
    if i > 1 { OffsetTail(ks, i - 1); }
  }

  lemma {:induction false} EncodedSize(ks: seq<Kind>, vs: seq<Value>)
    requires Plain(ks) && AllFit(ks, vs)
    ensures |EncodeAll(ks, vs)| == Size(ks)
    decreases |ks|
  {
    if |ks| > 0 {
      EncodedWidth(ks[0], vs[0]);
      EncodedSize(ks[1..], vs[1..]);
      OffsetTail(ks, |ks|);
    }
  }

  /** `write_to_account_data`: the fields one after another, in place. */
  method WriteAccount(ks: seq<Kind>, vs: seq<Value>, data: array<byte>) returns (r: Result<()>)
    requires Plain(ks) && AllFit(ks, vs)
    modifies data
    ensures r.Ok? <==> data.Length >= Layout.DISC + Size(ks)
    ensures r.Err? ==> r.error == SliceTooShort && data[..] == old(data[..])
    ensures r.Ok? ==> ReadAccount(ks, data[..]) == Ok(vs)
    ensures r.Ok? ==> SameExcept(old(data[..]), data[..], Layout.DISC, Size(ks))
  {
    if data.Length < Layout.DISC + Size(ks) { return Err(SliceTooShort); }
    ghost var before := data[..];
    var i, off := 0, Layout.DISC;
    while i < |ks|
      invariant i <= |ks| && off == Layout.DISC + Offset(ks, i)
      invariant SameExcept(before, data[..], Layout.DISC, Offset(ks, i))
      invariant Written(ks, vs, i, data[..])
    {
      OffsetsGrow(ks, i + 1, |ks|);
      EncodedWidth(ks[i], vs[i]);
      ghost var prev := data[..];
      WriteBytes(data, off, Codec.Encode(ks[i], vs[i]));
      WrittenNext(ks, vs, i, prev, data[..]);
      off := off + Width(ks[i]);
      i := i + 1;
    }
    WrittenReads(ks, vs, data[..]);
    return Ok(());
  }

  /** The first `n` fields stand at the start of the body. */
  ghost predicate Written(ks: seq<Kind>, vs: seq<Value>, n: nat, b: seq<byte>)
    requires AllFit(ks, vs) && n <= |ks|
  {
    Holds(b, Layout.DISC, EncodeAll(ks[..n], vs[..n]))
  }

  lemma WrittenNext(ks: seq<Kind>, vs: seq<Value>, n: nat, b: seq<byte>, b': seq<byte>)
    requires Plain(ks) && AllFit(ks, vs) && n < |ks| && Written(ks, vs, n, b)
    requires SameExcept(b, b', Layout.DISC + Offset(ks, n), Width(ks[n]))
    requires Holds(b', Layout.DISC + Offset(ks, n), Codec.Encode(ks[n], vs[n]))
    ensures Written(ks, vs, n + 1, b')
  {
    hide EncodeAll, Codec.Encode, Fits;
    var x := EncodeAll(ks[..n], vs[..n]);
    EncodeSnoc(ks, vs, n + 1);
    EncodedSize(ks[..n], vs[..n]);
    OffsetPrefix(ks, n, n);
    assert b'[Layout.DISC..Layout.DISC + |x|] == b[Layout.DISC..Layout.DISC + |x|];
    HoldsConcat(b', Layout.DISC, x, Codec.Encode(ks[n], vs[n]));
  }

  lemma {:induction false} OffsetPrefix(ks: seq<Kind>, n: nat, i: nat)
    requires i <= n <= |ks|
    ensures Offset(ks[..n], i) == Offset(ks, i)
  {
    if i > 0 { OffsetPrefix(ks, n, i - 1); }
  }

  lemma WrittenReads(ks: seq<Kind>, vs: seq<Value>, b: seq<byte>)
    requires AllFit(ks, vs) && Layout.DISC + Size(ks) <= |b| && Written(ks, vs, |ks|, b)
    ensures ReadAccount(ks, b) == Ok(vs)
  {
    hide EncodeAll, DecodeAll;
    assert ks[..|ks|] == ks && vs[..|ks|] == vs;
    ExactlyEncodings(ks, vs, b, Layout.DISC);
  }

  method WriteBytes(data: array<byte>, off: nat, x: seq<byte>)
    requires off + |x| <= data.Length
    modifies data
    ensures Holds(data[..], off, x)
    ensures SameExcept(old(data[..]), data[..], off, |x|)
  {
    var k := 0;
    while k < |x|
      invariant k <= |x|
      invariant forall p :: 0 <= p < k ==> data[off + p] == x[p]
      invariant forall p :: 0 <= p < data.Length && !(off <= p < off + k) ==> data[p] == old(data[p])
    {
      data[off + k] := x[k];
      k := k + 1;
    }
  }

  lemma {:induction false} OffsetsGrow(ks: seq<Kind>, i: nat, j: nat)
    requires i <= j <= |ks|
    ensures Offset(ks, i) <= Offset(ks, j)
  {
    if i < j { OffsetsGrow(ks, i, j - 1); }
  }

  lemma {:induction false} EncodeSnoc(ks: seq<Kind>, vs: seq<Value>, n: nat)
    requires AllFit(ks, vs) && 0 < n <= |ks|
    ensures EncodeAll(ks[..n], vs[..n]) == EncodeAll(ks[..n - 1], vs[..n - 1]) + Codec.Encode(ks[n - 1], vs[n - 1])
    decreases |ks|
  {
    hide Codec.Encode, Fits;
    if n == 1 {
      assert ks[..1][1..] == [] && vs[..1][1..] == [];
    } else {
      EncodeSnoc(ks[1..], vs[1..], n - 1);
      assert ks[..n][1..] == ks[1..][..n - 1] && vs[..n][1..] == vs[1..][..n - 1];
      assert ks[..n - 1][1..] == ks[1..][..n - 2] && vs[..n - 1][1..] == vs[1..][..n - 2];
    }
  }

  /** Writing back what was read changes no byte. */
  lemma ReadThenWrite(ks: seq<Kind>, vs: seq<Value>, b: seq<byte>)
    requires Plain(ks) && ReadAccount(ks, b) == Ok(vs)
    ensures AllFit(ks, vs) && |EncodeAll(ks, vs)| == Size(ks)
    ensures Splice(b, Layout.DISC, EncodeAll(ks, vs)) == b
  {
    hide EncodeAll, DecodeAll;
    ExactlyEncodings(ks, vs, b, Layout.DISC);
    EncodedSize(ks, vs);
  }

  /** The bytes of field `i`, the first field standing at `off`. */
  function Slot(ks: seq<Kind>, i: nat, b: seq<byte>, off: nat): (x: seq<byte>)
    requires i < |ks| && off + Size(ks) <= |b|
    ensures |x| == Width(ks[i])
  {
    OffsetsFit(ks, i);
    b[off + Offset(ks, i)..off + Offset(ks, i) + Width(ks[i])]
  }

  ghost predicate BoolsLegal(ks: seq<Kind>, b: seq<byte>, off: nat)
    requires off + Size(ks) <= |b|
  {
    forall i :: 0 <= i < |ks| && ks[i].Bool? ==> Slot(ks, i, b, off)[0] <= 1
  }

  lemma OffsetsFit(ks: seq<Kind>, i: nat)
    requires i < |ks|
    ensures Offset(ks, i) + Width(ks[i]) <= Size(ks)
  {
    OffsetsGrow(ks, i + 1, |ks|);
  }

  lemma SlotTail(ks: seq<Kind>, i: nat, b: seq<byte>, off: nat)
    requires 0 < i < |ks| && off + Size(ks) <= |b|
    ensures Size(ks) == Width(ks[0]) + Size(ks[1..])
    ensures Slot(ks, i, b, off) == Slot(ks[1..], i - 1, b, off + Width(ks[0]))
  {
    OffsetTail(ks, i);
    OffsetTail(ks, |ks|);
  }

  lemma BoolsTail(ks: seq<Kind>, b: seq<byte>, off: nat)
    requires 0 < |ks| && off + Size(ks) <= |b| && Size(ks) == Width(ks[0]) + Size(ks[1..])
    ensures BoolsLegal(ks, b, off) <==> (ks[0].Bool? ==> b[off] <= 1) && BoolsLegal(ks[1..], b, off + Width(ks[0]))
  {
    hide Size;
    var t, at := ks[1..], off + Width(ks[0]);
    assert ks[0].Bool? ==> Slot(ks, 0, b, off)[0] == b[off];
    forall i | 0 <= i < |t| ensures t[i] == ks[i + 1] && Slot(t, i, b, at) == Slot(ks, i + 1, b, off) {
      SlotTail(ks, i + 1, b, off);
    }
    if (ks[0].Bool? ==> b[off] <= 1) && BoolsLegal(t, b, at) {
      forall i | 0 <= i < |ks| && ks[i].Bool? ensures Slot(ks, i, b, off)[0] <= 1 {
        if i > 0 { assert t[i - 1] == ks[i]; }
      }
    }
  }

  /** Field `i` reads as what its own bytes spell. */
  ghost predicate Reads(ks: seq<Kind>, b: seq<byte>, off: nat, vs: seq<Value>)
    requires off + Size(ks) <= |b|
  {
    |vs| == |ks| && forall i :: 0 <= i < |ks| ==> vs[i] == Spelled(ks[i], Slot(ks, i, b, off))
  }

  lemma ReadsCons(ks: seq<Kind>, b: seq<byte>, off: nat, vs: seq<Value>)
    requires 0 < |ks| && off + Size(ks) <= |b| && Size(ks) == Width(ks[0]) + Size(ks[1..])
    requires Reads(ks[1..], b, off + Width(ks[0]), vs)
    ensures Reads(ks, b, off, [Spelled(ks[0], b[off..off + Width(ks[0])])] + vs)
  {
    hide Spelled, Size;
    var all := [Spelled(ks[0], b[off..off + Width(ks[0])])] + vs;
    forall i | 0 <= i < |ks| ensures all[i] == Spelled(ks[i], Slot(ks, i, b, off)) {
      if i > 0 {
        SlotTail(ks, i, b, off);
        assert all[i] == vs[i - 1] && ks[1..][i - 1] == ks[i];
      }
    }
  }

  /** A long enough account reads exactly when its booleans are 0 or 1, and every field is what its own bytes spell. */
  lemma {:induction false} FieldsAt(ks: seq<Kind>, b: seq<byte>, off: nat)
    requires Plain(ks) && off + Size(ks) <= |b|
    ensures DecodeAll(ks, b, off).Ok? <==> BoolsLegal(ks, b, off)
    ensures DecodeAll(ks, b, off).Err? ==> DecodeAll(ks, b, off).error == InvalidBool
    ensures DecodeAll(ks, b, off).Ok? ==> Reads(ks, b, off, DecodeAll(ks, b, off).value)
    decreases |ks|
  {
    if |ks| > 0 {
      OffsetTail(ks, |ks|);
      FieldsAt(ks[1..], b, off + Width(ks[0]));
      Step(ks, b, off);
    }
  }

  lemma Step(ks: seq<Kind>, b: seq<byte>, off: nat)
    requires 0 < |ks| && Plain(ks) && off + Size(ks) <= |b| && Size(ks) == Width(ks[0]) + Size(ks[1..])
    requires var d := DecodeAll(ks[1..], b, off + Width(ks[0]));
      && (d.Ok? <==> BoolsLegal(ks[1..], b, off + Width(ks[0])))
      && (d.Err? ==> d.error == InvalidBool)
      && (d.Ok? ==> Reads(ks[1..], b, off + Width(ks[0]), d.value))
    ensures DecodeAll(ks, b, off).Ok? <==> BoolsLegal(ks, b, off)
    ensures DecodeAll(ks, b, off).Err? ==> DecodeAll(ks, b, off).error == InvalidBool
    ensures DecodeAll(ks, b, off).Ok? ==> Reads(ks, b, off, DecodeAll(ks, b, off).value)
  {
    hide Spelled, Size, Reads, BoolsLegal;
    var d := DecodeAll(ks[1..], b, off + Width(ks[0]));
    BoolsTail(ks, b, off);
    if d.Ok? { ReadsCons(ks, b, off, d.value); }
  }

  // ----- the offset tables -----

  ghost predicate Steps(ks: seq<Kind>, at: seq<nat>)
  {
    && |at| == |ks| + 1 && at[0] == 0
    && forall i :: 0 <= i < |ks| ==> at[i + 1] == at[i] + Width(ks[i])
  }

  lemma {:induction false} OffsetsAre(ks: seq<Kind>, at: seq<nat>, i: nat)
    requires Steps(ks, at) && i <= |ks|
    ensures Offset(ks, i) == at[i]
  {
    if i > 0 { OffsetsAre(ks, at, i - 1); }
  }

  const CONFIG_OFFSETS: seq<nat> := [0, 32, 64, 96, 98, 106, 110, 112, 120, 121, 122, 130, 154]

  const DEGEN_CONFIG_OFFSETS: seq<nat> := [0, 32, 36, 37, 64]

  const DEGEN_CLAIM_OFFSETS: seq<nat> :=
    [0, 32, 64, 72, 73, 74, 75, 76, 80, 84, 85, 92, 100, 108, 116, 124, 132, 140, 148, 180, 212, 244, 276, 308, 340]

  const PARTICIPANT_OFFSETS: seq<nat> := [0, 32, 64, 66, 67, 75, 83, 87, 103]

  /** The field lists stand at these offsets and fill the body lengths of the source. */
  lemma OffsetTables()
    ensures forall i :: 0 <= i <= 12 ==> Offset(CONFIG, i) == CONFIG_OFFSETS[i]
    ensures forall i :: 0 <= i <= 4 ==> Offset(DEGEN_CONFIG, i) == DEGEN_CONFIG_OFFSETS[i]
    ensures forall i :: 0 <= i <= 8 ==> Offset(PARTICIPANT, i) == PARTICIPANT_OFFSETS[i]
    ensures Size(CONFIG) == 154 && Size(DEGEN_CONFIG) == 64 && Size(PARTICIPANT) == 103
  {
    forall i | 0 <= i <= 12 ensures Offset(CONFIG, i) == CONFIG_OFFSETS[i] {
      OffsetsAre(CONFIG, CONFIG_OFFSETS, i);
    }
    forall i | 0 <= i <= 4 ensures Offset(DEGEN_CONFIG, i) == DEGEN_CONFIG_OFFSETS[i] {
      OffsetsAre(DEGEN_CONFIG, DEGEN_CONFIG_OFFSETS, i);
    }
    forall i | 0 <= i <= 8 ensures Offset(PARTICIPANT, i) == PARTICIPANT_OFFSETS[i] {
      OffsetsAre(PARTICIPANT, PARTICIPANT_OFFSETS, i);
    }
  }

  lemma DegenClaimOffsets()
    ensures forall i :: 0 <= i <= 24 ==> Offset(DEGEN_CLAIM, i) == DEGEN_CLAIM_OFFSETS[i]
    ensures Size(DEGEN_CLAIM) == 340
  {
    forall i | 0 <= i <= 24 ensures Offset(DEGEN_CLAIM, i) == DEGEN_CLAIM_OFFSETS[i] {
      OffsetsAre(DEGEN_CLAIM, DEGEN_CLAIM_OFFSETS, i);
    }
  }
}
