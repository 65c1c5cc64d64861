/** The flat byte layout of a Round account and what each region of it means. */
module RoundLayout {
  import opened Bytes
  import opened Layout

  const MAX_PARTICIPANTS: nat := 200
  const ROUND_ACCOUNT_LEN: nat := 8248

  const RoundId := Field(DISC, 8)
  const Status := Field(DISC + 8, 1)
  const Bump := Field(DISC + 9, 1)
  const StartTs := Field(DISC + 16, 8)
  const EndTs := Field(DISC + 24, 8)
  const FirstDepositTs := Field(DISC + 32, 8)
  const Vault := Field(DISC + 40, 32)
  const TotalUsdc := Field(DISC + 72, 8)
  const TotalTickets := Field(DISC + 80, 8)
  const ParticipantsCount := Field(DISC + 88, 2)
  const Randomness := Field(DISC + 96, 32)
  const WinningTicket := Field(DISC + 128, 8)
  const Winner := Field(DISC + 136, 32)
  function Participant(p: nat): Field { Field(DISC + 168 + 32 * p, 32) }
  const BIT_START: nat := DISC + 168 + 32 * MAX_PARTICIPANTS
  const BIT_LEN: nat := 8 * (MAX_PARTICIPANTS + 1)
  function Node(j: nat): Field { Field(BIT_START + 8 * j, 8) }
  const VrfPayer := Field(BIT_START + BIT_LEN, 32)
  const VrfReimbursed := Field(BIT_START + BIT_LEN + 32, 1)
  const DegenMode := Field(BIT_START + BIT_LEN + 33, 1)

  /** The participant keys and the Fenwick nodes together. */
  const Tables := Field(DISC + 168, 32 * MAX_PARTICIPANTS + BIT_LEN)

  /** The regions by their literal places in the account. */
  lemma RoundOffsets()
    ensures RoundId == Field(8, 8) && Status == Field(16, 1) && Bump == Field(17, 1) && StartTs == Field(24, 8)
    ensures EndTs == Field(32, 8) && FirstDepositTs == Field(40, 8) && Vault == Field(48, 32)
    ensures TotalUsdc == Field(80, 8) && TotalTickets == Field(88, 8) && ParticipantsCount == Field(96, 2)
    ensures Randomness == Field(104, 32) && WinningTicket == Field(136, 8) && Winner == Field(144, 32)
    ensures forall p: nat {:trigger Participant(p)} :: Participant(p) == Field(176 + 32 * p, 32)
    ensures forall j: nat {:trigger Node(j)} :: Node(j) == Field(6576 + 8 * j, 8)
    ensures VrfPayer == Field(8184, 32) && VrfReimbursed == Field(8216, 1) && DegenMode == Field(8217, 1)
  {
  }

  datatype Lifecycle = Lifecycle(
    roundId: nat, status: byte, bump: byte, startTs: int, endTs: int, firstDepositTs: int,
    totalUsdc: nat, totalTickets: nat, participantsCount: nat)
  {
    /** Every field fits the integer type of the source. */
    predicate Valid() {
      && roundId <= U64_MAX && totalUsdc <= U64_MAX && totalTickets <= U64_MAX
      && participantsCount <= U16_MAX
      && I64_MIN <= startTs <= I64_MAX && I64_MIN <= endTs <= I64_MAX
      && I64_MIN <= firstDepositTs <= I64_MAX
    }
  }

  /** Everything a Round account says. */
  datatype RoundView = RoundView(
    life: Lifecycle, vault: Key, randomness: Key, winningTicket: nat, winner: Key,
    participants: seq<Key>, bit: seq<nat>, vrfPayer: Key, vrfReimbursed: byte, degenMode: byte)

  /** `RoundLifecycleView::read_body`. */
  function ReadLifecycle(b: seq<byte>): Lifecycle
    requires |b| >= ROUND_ACCOUNT_LEN
  {
    Lifecycle(Uint(b, RoundId), Get(b, Status)[0], Get(b, Bump)[0], Int64(b, StartTs), Int64(b, EndTs),
              Int64(b, FirstDepositTs), Uint(b, TotalUsdc), Uint(b, TotalTickets), Uint(b, ParticipantsCount))
  }

  function Nodes(b: seq<byte>): (r: seq<nat>)
    requires |b| >= ROUND_ACCOUNT_LEN
    ensures |r| == MAX_PARTICIPANTS + 1
  {
    seq(MAX_PARTICIPANTS + 1, j requires 0 <= j <= MAX_PARTICIPANTS => Uint(b, Node(j)))
  }

  function Participants(b: seq<byte>): (r: seq<Key>)
    requires |b| >= ROUND_ACCOUNT_LEN
    ensures |r| == MAX_PARTICIPANTS
  {
    seq(MAX_PARTICIPANTS, p requires 0 <= p < MAX_PARTICIPANTS => Uint(b, Participant(p)))
  }

  function View(b: seq<byte>): RoundView
    requires |b| >= ROUND_ACCOUNT_LEN
  {
    RoundView(ReadLifecycle(b), Uint(b, Vault), Uint(b, Randomness), Uint(b, WinningTicket),
              Uint(b, Winner), Participants(b), Nodes(b), Uint(b, VrfPayer),
              Get(b, VrfReimbursed)[0], Get(b, DegenMode)[0])
  }

  lemma ViewParts(b: seq<byte>)
    requires |b| >= ROUND_ACCOUNT_LEN
    ensures View(b).life == ReadLifecycle(b) && View(b).bit == Nodes(b) && View(b).participants == Participants(b)
  {
  }

  /** Every number read from an account fits its integer type. */
  lemma ViewInRange(b: seq<byte>)
    requires |b| >= ROUND_ACCOUNT_LEN
    ensures ReadLifecycle(b).Valid()
    ensures View(b).winningTicket <= U64_MAX
    ensures forall j :: 0 <= j <= MAX_PARTICIPANTS ==> Nodes(b)[j] <= U64_MAX
  {
    Widths();
    UintBound(b, RoundId);
    UintBound(b, StartTs);
    UintBound(b, EndTs);
    UintBound(b, FirstDepositTs);
    UintBound(b, TotalUsdc);
    UintBound(b, TotalTickets);
    UintBound(b, ParticipantsCount);
    UintBound(b, WinningTicket);
    forall j | 0 <= j <= MAX_PARTICIPANTS ensures Nodes(b)[j] <= U64_MAX { UintBound(b, Node(j)); }
  }

  // ----- the lifecycle header -----

  /** The nine writes of `RoundLifecycleView::write_body`, in order. */
  ghost function HeaderWrites(l: Lifecycle): (ws: seq<Write>)
    requires l.Valid()
    ensures Table(ws, ROUND_ACCOUNT_LEN)
  {
    [ Write(RoundId, EncodeLE(l.roundId, 8)),
      Write(Status, [l.status]),
      Write(Bump, [l.bump]),
      Write(StartTs, EncodeLE(ToU64(l.startTs), 8)),
      Write(EndTs, EncodeLE(ToU64(l.endTs), 8)),
      Write(FirstDepositTs, EncodeLE(ToU64(l.firstDepositTs), 8)),
      Write(TotalUsdc, EncodeLE(l.totalUsdc, 8)),
      Write(TotalTickets, EncodeLE(l.totalTickets, 8)),
      Write(ParticipantsCount, EncodeLE(l.participantsCount, 2)) ]
  }

  ghost function PutLifecycle(b: seq<byte>, l: Lifecycle): (r: seq<byte>)
    requires |b| >= ROUND_ACCOUNT_LEN && l.Valid()
    ensures |r| == |b|
  {
    PutAll(b, HeaderWrites(l), 9)
  }

  lemma LifecycleRead(b: seq<byte>, l: Lifecycle)
    requires |b| >= ROUND_ACCOUNT_LEN && l.Valid()
    ensures ReadLifecycle(PutLifecycle(b, l)) == l
  {
    Widths();
    var ws := HeaderWrites(l);
    forall k: nat | k < 9 ensures Get(PutAll(b, ws, 9), ws[k].f) == ws[k].x { PutAllRead(b, ws, 9, k); }
    assert ws[0].f == RoundId && ws[1].f == Status && ws[2].f == Bump && ws[3].f == StartTs && ws[4].f == EndTs;
    assert ws[5].f == FirstDepositTs && ws[6].f == TotalUsdc && ws[7].f == TotalTickets && ws[8].f == ParticipantsCount;
    DecodeEncode(l.roundId, 8);
    DecodeEncode(ToU64(l.startTs), 8);
    DecodeEncode(ToU64(l.endTs), 8);
    DecodeEncode(ToU64(l.firstDepositTs), 8);
    DecodeEncode(l.totalUsdc, 8);
    DecodeEncode(l.totalTickets, 8);
    DecodeEncode(l.participantsCount, 2);
  }

  /** Writing the lifecycle header is read back and changes nothing else the account says. */
  lemma LifecycleWritten(b: seq<byte>, l: Lifecycle)
    requires |b| >= ROUND_ACCOUNT_LEN && l.Valid()
    ensures View(PutLifecycle(b, l)) == View(b).(life := l)
    ensures Get(PutLifecycle(b, l), Discriminator) == Get(b, Discriminator)
  {
    LifecycleRead(b, l);
    HeaderFrame(b, l, Discriminator);
    HeaderFrame(b, l, Vault);
    HeaderFrame(b, l, Randomness);
    HeaderFrame(b, l, WinningTicket);
    HeaderFrame(b, l, Winner);
    HeaderFrame(b, l, Tables);
    HeaderFrame(b, l, VrfPayer);
    HeaderFrame(b, l, VrfReimbursed);
    HeaderFrame(b, l, DegenMode);
    TablesSame(b, PutLifecycle(b, l));
  }

  /** The discriminator, the vault key and all behind the header are apart from its nine numbers. */
  lemma HeaderFrame(b: seq<byte>, l: Lifecycle, g: Field)
    requires |b| >= ROUND_ACCOUNT_LEN && l.Valid() && g.End() <= |b|
    requires g.End() <= DISC || (Vault.at <= g.at && g.End() <= TotalUsdc.at) || Randomness.at <= g.at
    ensures Get(PutLifecycle(b, l), g) == Get(b, g)
  {
    PutAllFrame(b, HeaderWrites(l), 9, g);
  }

  lemma TablesSame(b: seq<byte>, b': seq<byte>)
    requires |b| == |b'| >= ROUND_ACCOUNT_LEN && Get(b', Tables) == Get(b, Tables)
    ensures Participants(b') == Participants(b) && Nodes(b') == Nodes(b)
  {
    forall lo: nat, hi: nat | Tables.at <= lo <= hi <= Tables.End() ensures b'[lo..hi] == b[lo..hi] {
      SliceOfSlice(b, Tables.at, Tables.End(), lo, hi);
      SliceOfSlice(b', Tables.at, Tables.End(), lo, hi);
    }
    assert forall p :: 0 <= p < MAX_PARTICIPANTS ==> Participants(b')[p] == Participants(b)[p];
    assert forall j :: 0 <= j <= MAX_PARTICIPANTS ==> Nodes(b')[j] == Nodes(b)[j];
  }

  // ----- single regions -----

  /** What the account says when one of its keys is written. */
  lemma KeyWritten(b: seq<byte>, b': seq<byte>, f: Field, x: seq<byte>)
    requires |b| >= ROUND_ACCOUNT_LEN && Wrote(b, b', f, x)
    requires f == Vault || f == Randomness || f == Winner || f == VrfPayer
    ensures f == Vault ==> View(b') == View(b).(vault := DecodeLE(x))
    ensures f == Randomness ==> View(b') == View(b).(randomness := DecodeLE(x))
    ensures f == Winner ==> View(b') == View(b).(winner := DecodeLE(x))
    ensures f == VrfPayer ==> View(b') == View(b).(vrfPayer := DecodeLE(x))
  {
    TablesSame(b, b');
    assert ReadLifecycle(b') == ReadLifecycle(b);
  }

  /** What the account says when one of its flags or the winning ticket is written. */
  lemma FlagWritten(b: seq<byte>, b': seq<byte>, f: Field, x: seq<byte>)
    requires |b| >= ROUND_ACCOUNT_LEN && Wrote(b, b', f, x)
    requires f == Status || f == WinningTicket || f == VrfReimbursed || f == DegenMode
    ensures f == Status ==> View(b') == View(b).(life := View(b).life.(status := x[0]))
    ensures f == WinningTicket ==> View(b') == View(b).(winningTicket := DecodeLE(x))
    ensures f == VrfReimbursed ==> View(b') == View(b).(vrfReimbursed := x[0])
    ensures f == DegenMode ==> View(b') == View(b).(degenMode := x[0])
  {
    TablesSame(b, b');
    if f == Status {
      assert ReadLifecycle(b') == ReadLifecycle(b).(status := x[0]);
    } else {
      assert ReadLifecycle(b') == ReadLifecycle(b);
    }
  }

  /** A participant key, written. */
  lemma ParticipantWritten(b: seq<byte>, b': seq<byte>, p: nat, x: seq<byte>)
    requires |b| >= ROUND_ACCOUNT_LEN && p < MAX_PARTICIPANTS && Wrote(b, b', Participant(p), x)
    ensures View(b') == View(b).(participants := View(b).participants[p := DecodeLE(x)])
  {
    SlotsChanged(b, b', p);
    assert ReadLifecycle(b') == ReadLifecycle(b);
  }

  lemma SlotsChanged(b: seq<byte>, b': seq<byte>, p: nat)
    requires |b| == |b'| >= ROUND_ACCOUNT_LEN && p < MAX_PARTICIPANTS
    requires forall g: Field :: g.End() <= |b| && Apart(Participant(p), g) ==> Get(b', g) == Get(b, g)
    ensures Participants(b') == Participants(b)[p := Participants(b')[p]]
    ensures Nodes(b') == Nodes(b)
  {
    forall q | 0 <= q < MAX_PARTICIPANTS && q != p ensures Participants(b')[q] == Participants(b)[q] {
      assert Get(b', Participant(q)) == Get(b, Participant(q));
    }
    forall j | 0 <= j <= MAX_PARTICIPANTS ensures Nodes(b')[j] == Nodes(b)[j] {
      assert Get(b', Node(j)) == Get(b, Node(j));
    }
  }

  /** A Fenwick node, written. */
  lemma NodeSet(b: seq<byte>, b': seq<byte>, j: nat, v: nat)
    requires |b| >= ROUND_ACCOUNT_LEN && j <= MAX_PARTICIPANTS && v <= U64_MAX
    requires Wrote(b, b', Node(j), EncodeLE(v, 8))
    ensures Participants(b') == Participants(b)
    ensures Nodes(b') == Nodes(b)[j := v]
  {
    Widths();
    DecodeEncode(v, 8);
    NodesChanged(b, b', j);
  }

  lemma NodesChanged(b: seq<byte>, b': seq<byte>, j: nat)
    requires |b| == |b'| >= ROUND_ACCOUNT_LEN && j <= MAX_PARTICIPANTS
    requires forall g: Field :: g.End() <= |b| && Apart(Node(j), g) ==> Get(b', g) == Get(b, g)
    ensures Participants(b') == Participants(b)
    ensures Nodes(b') == Nodes(b)[j := Nodes(b')[j]]
  {
    forall q | 0 <= q < MAX_PARTICIPANTS ensures Participants(b')[q] == Participants(b)[q] {
      assert Get(b', Participant(q)) == Get(b, Participant(q));
    }
    forall k | 0 <= k <= MAX_PARTICIPANTS && k != j ensures Nodes(b')[k] == Nodes(b)[k] {
      assert Get(b', Node(k)) == Get(b, Node(k));
    }
  }

  // ----- the Fenwick region byte for byte -----

  /** Outside the Fenwick region nothing differs. */
  ghost predicate SameOutsideBit(b: seq<byte>, b': seq<byte>)
  {
    SameExcept(b, b', BIT_START, BIT_LEN)
  }

  /** A change inside the Fenwick region changes nothing but the nodes. */
  lemma BitView(b: seq<byte>, b': seq<byte>)
    requires |b| >= ROUND_ACCOUNT_LEN && SameOutsideBit(b, b')
    ensures View(b') == View(b).(bit := Nodes(b'))
    ensures Get(b', Discriminator) == Get(b, Discriminator)
  {
    forall g: Field | g.End() <= |b| && (g.End() <= BIT_START || BIT_START + BIT_LEN <= g.at)
      ensures Get(b', g) == Get(b, g)
    {
      SliceFrame(b, b', BIT_START, BIT_LEN, g.at, g.End());
    }
    forall p | 0 <= p < MAX_PARTICIPANTS ensures Participants(b')[p] == Participants(b)[p] {
      assert Get(b', Participant(p)) == Get(b, Participant(p));
    }
    assert Participants(b') == Participants(b);
    assert ReadLifecycle(b') == ReadLifecycle(b);
  }

  /** The node values and the bytes outside their region determine the whole account. */
  lemma NodesDetermineBytes(b: seq<byte>, b': seq<byte>)
    requires |b| >= ROUND_ACCOUNT_LEN && SameOutsideBit(b, b') && Nodes(b) == Nodes(b')
    ensures b == b'
  {
    forall p | 0 <= p < |b| ensures b[p] == b'[p] {
      if BIT_START <= p < BIT_START + BIT_LEN {
        var j := (p - BIT_START) / 8;
        assert Uint(b, Node(j)) == Nodes(b)[j] == Nodes(b')[j] == Uint(b', Node(j));
        DecodeInjective(Get(b, Node(j)), Get(b', Node(j)));
        var q := p - Node(j).at;
        assert Get(b, Node(j))[q] == b[p] && Get(b', Node(j))[q] == b'[p];
      }
    }
  }
}
