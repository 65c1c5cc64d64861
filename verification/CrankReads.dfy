/** What the crank reads from accounts at literal offsets, against what the program reads there. */
module CrankReads {
  import opened Basics
  import opened Bytes
  import opened Layout
  import opened RoundLayout
  import opened AccountViews
  import Codec
  import RoundProgram

  /** `DataView.getUint*`; the callers stay inside the buffer. */
  function At(d: seq<byte>, at: nat, width: nat): nat
    requires at + width <= |d|
  {
    DecodeLE(d[at..at + width])
  }

  /** `Buffer.subarray`, clipped to the buffer. */
  function Subarray(d: seq<byte>, from: nat, to: nat): seq<byte>
    requires from <= to
  {
    d[Min(from, |d|)..Min(to, |d|)]
  }

  // ----- the round account -----

  datatype RoundData = RoundData(
    roundId: nat, status: byte, bump: byte, startTs: int, endTs: int, firstDepositTs: int, vaultUsdcAta: Key,
    totalUsdc: nat, totalTickets: nat, participantsCount: nat, randomness: Key, winningTicket: nat, winner: seq<byte>,
    participants: seq<seq<byte>>, vrfPayer: seq<byte>)

  /** `parseRound`, on any buffer: a range error below 144 bytes; else numbers from their fixed places, and keys made
      from slices that a short buffer cuts off. On accounts of the program's size every field is what the program reads. */
  method ParseRound(d: seq<byte>) returns (r: Option<RoundData>)
    ensures r.None? <==> |d| < 8 + 136
    ensures r.Some? ==>
      && |r.value.participants| == r.value.participantsCount
      && (forall i :: 0 <= i < |r.value.participants| ==> r.value.participants[i] == KeySlice(d, i))
      && r.value.winner == Subarray(d, 8 + 136, 8 + 168) && r.value.vrfPayer == Subarray(d, 8 + 8176, 8 + 8208)
    ensures |d| >= ROUND_ACCOUNT_LEN ==> Same(r.value, View(d))
  {
    if |d| < 8 + 136 { return None; }
    var count := At(d, 8 + 88, 2);
    var participants: seq<seq<byte>> := [];
    var i := 0;
    while i < count
      invariant i <= count && |participants| == i
      invariant forall k :: 0 <= k < i ==> participants[k] == KeySlice(d, k)
    {
      var s := 8 + 168 + i * 32;
      participants := participants + [Subarray(d, s, s + 32)];
      i := i + 1;
    }
    r := Some(RoundData(At(d, 8, 8), d[8 + 8], d[8 + 9], ToI64(At(d, 8 + 16, 8)), ToI64(At(d, 8 + 24, 8)),
      ToI64(At(d, 8 + 32, 8)), At(d, 8 + 40, 32), At(d, 8 + 72, 8), At(d, 8 + 80, 8), count, At(d, 8 + 96, 32),
      At(d, 8 + 128, 8), Subarray(d, 8 + 136, 8 + 168), participants, Subarray(d, 8 + 8176, 8 + 8208)));
  }

  /** The parsed record agrees with what the account says, its key list apart. */
  predicate Same(r: RoundData, v: RoundView)
  {
    && v.life == Lifecycle(r.roundId, r.status, r.bump, r.startTs, r.endTs, r.firstDepositTs, r.totalUsdc,
                           r.totalTickets, r.participantsCount)
    && v.vault == r.vaultUsdcAta && v.randomness == r.randomness && v.winningTicket == r.winningTicket
    && v.winner == DecodeLE(r.winner) && v.vrfPayer == DecodeLE(r.vrfPayer)
  }

  /** The slice that entry `i` of the key list is made from. */
  function KeySlice(d: seq<byte>, i: nat): seq<byte> { Subarray(d, 8 + 168 + i * 32, 8 + 168 + i * 32 + 32) }

  /** `read_participant_pubkey_from_account_data`. */
  function ReadParticipant(d: seq<byte>, i: nat): Result<seq<byte>>
  {
    if |d| < ROUND_ACCOUNT_LEN || i >= MAX_PARTICIPANTS then Err(SliceTooShort) else Ok(Get(d, Participant(i)))
  }

  /** The crank's key list is what the program's reader yields exactly when the stored count is at most 200. */
  lemma ParticipantsAgree(d: seq<byte>)
    requires |d| >= ROUND_ACCOUNT_LEN
    ensures var n := View(d).life.participantsCount;
      (forall i: nat :: i < n ==> ReadParticipant(d, i) == Ok(KeySlice(d, i))) <==> n <= MAX_PARTICIPANTS
  {
    var n := View(d).life.participantsCount;
    if n > MAX_PARTICIPANTS {
      assert ReadParticipant(d, MAX_PARTICIPANTS) != Ok(KeySlice(d, MAX_PARTICIPANTS));
    }
  }

  /** The degen mode is absent when the buffer ends before it. */
  datatype RoundMeta = RoundMeta(status: byte, totalUsdc: nat, degenModeStatus: Option<byte>)

  /** `parseRoundMeta`, on any buffer; absent stands for the range error. */
  function ParseRoundMeta(d: seq<byte>): (m: Option<RoundMeta>)
    ensures m.None? <==> |d| < 8 + 80
    ensures |d| >= ROUND_ACCOUNT_LEN ==>
              m == Some(RoundMeta(View(d).life.status, View(d).life.totalUsdc, Some(View(d).degenMode)))
  {
    if |d| < 8 + 80 then None
    else Some(RoundMeta(d[8 + 8], At(d, 8 + 72, 8), if |d| <= 8 + 8209 then None else Some(d[8 + 8209])))
  }

  /** `parseRoundVrfPayer`, on any buffer: on accounts of the program's size the payer exactly when the program still
      owes the reimbursement; no payer where the flag is cut off. */
  function ParseRoundVrfPayer(d: seq<byte>): (k: Option<Key>)
    ensures |d| >= ROUND_ACCOUNT_LEN ==> (k.Some? <==> View(d).vrfPayer != 0 && View(d).vrfReimbursed == 0)
    ensures |d| >= ROUND_ACCOUNT_LEN && k.Some? ==> k.value == View(d).vrfPayer
    ensures |d| <= 8 + 8208 ==> k.None?
  {
    if |d| <= 8 + 8208 then None
    else
      var payer := At(d, 8 + 8176, 32);
      if payer == 0 then None else if d[8 + 8208] != 0 then None else Some(payer)
  }

  // ----- participant and config accounts -----

  datatype ParticipantData = ParticipantData(
    round: seq<byte>, user: seq<byte>, index: nat, bump: nat, ticketsTotal: nat, usdcTotal: nat, depositsCount: nat)

  /** `parseParticipant`; absent stands for the range error. */
  function ParseParticipant(d: seq<byte>): Option<ParticipantData>
  {
    if |d| < 8 + 83 + 4 then None
    else Some(ParticipantData(Subarray(d, 8, 8 + 32), Subarray(d, 8 + 32, 8 + 64), At(d, 8 + 64, 2), d[8 + 66],
                              At(d, 8 + 67, 8), At(d, 8 + 75, 8), At(d, 8 + 83, 4)))
  }

  /** Every participant account the program can read, the crank reads as the same record. */
  lemma ParticipantAgrees(d: seq<byte>)
    ensures ReadAccount(PARTICIPANT, d).Ok? <==> |d| >= 8 + 103
    ensures var r := ReadAccount(PARTICIPANT, d);
      r.Ok? ==>
        && |r.value| == 8
        && r.value[0].Raws? && r.value[1].Raws? && (forall i :: 2 <= i < 7 ==> r.value[i].Num? && r.value[i].n >= 0)
        && ParseParticipant(d) == Some(ParticipantData(r.value[0].bytes, r.value[1].bytes, r.value[2].n, r.value[3].n,
                                                       r.value[4].n, r.value[5].n, r.value[6].n))
  {
    assert Size(PARTICIPANT) == 103 by { OffsetTables(); }
    if |d| >= 8 + 103 {
      FieldsAt(PARTICIPANT, d, 8);
      ParticipantSlots(d);
      hide Codec.DecodeAll, Offset, Slot, At, Subarray, BoolsLegal;
      assert forall i :: 0 <= i < 8 ==> !PARTICIPANT[i].Bool?;
      assert BoolsLegal(PARTICIPANT, d, 8) by { NoBools(PARTICIPANT, d); }
    }
  }

  lemma NoBools(ks: seq<Codec.Kind>, d: seq<byte>)
    requires 8 + Size(ks) <= |d| && forall i :: 0 <= i < |ks| ==> !ks[i].Bool?
    ensures BoolsLegal(ks, d, 8)
  {
  }

  /** The slices the crank takes are the fields' own. */
  lemma ParticipantSlots(d: seq<byte>)
    requires 8 + Size(PARTICIPANT) <= |d| && |d| >= 8 + 103
    ensures Slot(PARTICIPANT, 0, d, 8) == Subarray(d, 8, 8 + 32) && Slot(PARTICIPANT, 1, d, 8) == Subarray(d, 8 + 32, 8 + 64)
    ensures DecodeLE(Slot(PARTICIPANT, 2, d, 8)) == At(d, 8 + 64, 2) && DecodeLE(Slot(PARTICIPANT, 3, d, 8)) == d[8 + 66]
    ensures DecodeLE(Slot(PARTICIPANT, 4, d, 8)) == At(d, 8 + 67, 8)
    ensures DecodeLE(Slot(PARTICIPANT, 5, d, 8)) == At(d, 8 + 75, 8)
    ensures DecodeLE(Slot(PARTICIPANT, 6, d, 8)) == At(d, 8 + 83, 4)
  {
    OffsetTables();
    hide Offset;
    assert d[74..75] == [d[74]];
    assert DecodeLE([d[74]]) == d[74] + 256 * DecodeLE([]);
  }

  /** `parseConfigFeeBps`; absent stands for the range error. */
  function ParseConfigFeeBps(d: seq<byte>): Option<nat>
  {
    if |d| < 8 + 96 + 2 then None else Some(At(d, 8 + 96, 2))
  }

  /** A config account reads exactly when it is long enough and `paused` is 0 or 1; the crank then sees the same fee. */
  lemma ConfigFeeAgrees(d: seq<byte>)
    ensures ReadAccount(CONFIG, d).Ok? <==> |d| >= 8 + 154 && d[8 + 120] <= 1
    ensures var r := ReadAccount(CONFIG, d);
      r.Ok? ==>
        && |r.value| == 12 && r.value[3].Num? && r.value[3].n >= 0
        && ParseConfigFeeBps(d) == Some(r.value[3].n)
  {
    assert Offset(CONFIG, 3) == 96 && Size(CONFIG) == 154 by { OffsetTables(); }
    if |d| >= 8 + 154 {
      FieldsAt(CONFIG, d, 8);
      ConfigBools(d);
      hide Codec.DecodeAll, BoolsLegal, Offset;
      assert CONFIG[3] == Codec.Uint(2);
    }
  }

  lemma ConfigBools(d: seq<byte>)
    requires 8 + Size(CONFIG) <= |d| && |d| >= 8 + 154
    ensures BoolsLegal(CONFIG, d, 8) <==> d[8 + 120] <= 1
  {
    assert Offset(CONFIG, 8) == 120 by { OffsetTables(); }
    assert CONFIG[8].Bool? && Slot(CONFIG, 8, d, 8)[0] == d[128];
  }

  // ----- the payout the executor quotes for -----

  /** Division of big integers, toward zero. */
  function Quot(a: int, b: int): int
    requires b > 0
  {
    if a >= 0 then a / b else -((-a) / b)
  }

  /** `computeBeginDegenPayout`. */
  function BeginDegenPayout(totalUsdc: nat, feeBps: nat, reimburse: bool): int
  {
    var pool := totalUsdc - if reimburse then 200_000 else 0;
    pool - Quot(pool * feeBps, 10_000)
  }

  /** The executor quotes exactly what the program will transfer, unless a pot too small for a due reimbursement
      meets a fee below 100%; the program keeps the fee within 10000 basis points. */
  lemma PayoutsAgree(totalUsdc: nat, feeBps: nat, reimburse: bool)
    requires totalUsdc <= U64_MAX && feeBps <= 10_000
    ensures RoundProgram.ClaimAmounts(totalUsdc, feeBps, reimburse).Done?
    ensures BeginDegenPayout(totalUsdc, feeBps, reimburse) ==
            RoundProgram.ClaimAmounts(totalUsdc, feeBps, reimburse).value.payout
            <==> !reimburse || totalUsdc >= 200_000 || feeBps == 10_000
  {
    var pot := RoundProgram.Pot(totalUsdc, reimburse);
    FeeWithin(pot, feeBps);
    if reimburse && totalUsdc < 200_000 {
      FeeShort(200_000 - totalUsdc, feeBps);
    }
  }

  lemma FeeWithin(pot: nat, feeBps: nat)
    requires feeBps <= 10_000
    ensures 0 <= pot * feeBps / 10_000 <= pot
  {
    assert pot * feeBps <= pot * 10_000;
  }

  lemma FeeShort(debt: nat, feeBps: nat)
    requires feeBps <= 10_000 && debt > 0
    ensures debt * feeBps / 10_000 == debt <==> feeBps == 10_000
  {
    if feeBps < 10_000 {
      assert debt * feeBps <= debt * 9_999;
    }
  }
}
