/** The accessors of a Round account, working in place on its bytes. */
module RoundAccount {
  import opened Basics
  import opened Bytes
  import opened LowBit
  import opened Fenwick
  import opened Layout
  import opened RoundLayout

  /** `write_*_at`: copy bytes over a region that lies inside the buffer. */
  method WriteAt(data: array<byte>, f: Field, x: seq<byte>)
    requires f.End() <= data.Length && |x| == f.width
    modifies data
    ensures data[..] == Put(old(data[..]), f, x)
  {
    forall k | 0 <= k < f.width { data[f.at + k] := x[k]; }
    assert data[..] == Put(old(data[..]), f, x);
  }

  /** The body shared by the single-region writers: refuse a short account, else write. */
  method WriteRegion(data: array<byte>, f: Field, x: seq<byte>) returns (r: Result<()>)
    requires f.End() <= ROUND_ACCOUNT_LEN && |x| == f.width
    modifies data
    ensures data.Length < ROUND_ACCOUNT_LEN ==> r == Err(SliceTooShort) && data[..] == old(data[..])
    ensures data.Length >= ROUND_ACCOUNT_LEN ==>
              && r == Ok(())
              && Wrote(old(data[..]), data[..], f, x)
              && SameExcept(old(data[..]), data[..], f.at, f.width)
  {
    if data.Length < ROUND_ACCOUNT_LEN {
      return Err(SliceTooShort);
    }
    PutWrote(data[..], f, x);
    WriteAt(data, f, x);
    r := Ok(());
  }

  /** `write_participant_pubkey_to_account_data`. */
  method WriteParticipant(data: array<byte>, p: nat, key: Key) returns (r: Result<()>)
    requires key < Pow256(32)
    modifies data
    ensures data.Length < ROUND_ACCOUNT_LEN || p >= MAX_PARTICIPANTS ==>
              r == Err(SliceTooShort) && data[..] == old(data[..])
    ensures data.Length >= ROUND_ACCOUNT_LEN && p < MAX_PARTICIPANTS ==>
              && r == Ok(())
              && View(data[..]) == View(old(data[..])).(participants := View(old(data[..])).participants[p := key])
              && Get(data[..], Discriminator) == Get(old(data[..]), Discriminator)
  {
    if data.Length < ROUND_ACCOUNT_LEN || p >= MAX_PARTICIPANTS {
      return Err(SliceTooShort);
    }
    r := WriteRegion(data, Participant(p), EncodeLE(key, 32));
    DecodeEncode(key, 32);
    ParticipantWritten(old(data[..]), data[..], p, EncodeLE(key, 32));
  }

  /** The next write of a table of writes. */
  method WriteNext(data: array<byte>, f: Field, x: seq<byte>, ghost b: seq<byte>, ghost ws: seq<Write>, ghost n: nat)
    requires |b| == data.Length && Table(ws, |b|) && n < |ws| && ws[n] == Write(f, x)
    requires data[..] == PutAll(b, ws, n)
    modifies data
    ensures data[..] == PutAll(b, ws, n + 1)
  {
    WriteAt(data, f, x);
  }

  /** `RoundLifecycleView::write_to_account_data`: nine writes in order. */
  method WriteLifecycle(data: array<byte>, l: Lifecycle) returns (r: Result<()>)
    requires l.Valid()
    modifies data
    ensures data.Length < ROUND_ACCOUNT_LEN ==> r == Err(SliceTooShort) && data[..] == old(data[..])
    ensures data.Length >= ROUND_ACCOUNT_LEN ==>
              && r == Ok(())
              && data[..] == PutLifecycle(old(data[..]), l)
              && View(data[..]) == View(old(data[..])).(life := l)
              && Get(data[..], Discriminator) == Get(old(data[..]), Discriminator)
  {
    if data.Length < ROUND_ACCOUNT_LEN {
      return Err(SliceTooShort);
    }
    ghost var b, ws := data[..], HeaderWrites(l);
    TableFits(ws, ROUND_ACCOUNT_LEN, |b|);
    WriteNext(data, RoundId, EncodeLE(l.roundId, 8), b, ws, 0);
    WriteNext(data, Status, [l.status], b, ws, 1);
    WriteNext(data, Bump, [l.bump], b, ws, 2);
    WriteNext(data, StartTs, EncodeLE(ToU64(l.startTs), 8), b, ws, 3);
    WriteNext(data, EndTs, EncodeLE(ToU64(l.endTs), 8), b, ws, 4);
    WriteNext(data, FirstDepositTs, EncodeLE(ToU64(l.firstDepositTs), 8), b, ws, 5);
    WriteNext(data, TotalUsdc, EncodeLE(l.totalUsdc, 8), b, ws, 6);
    WriteNext(data, TotalTickets, EncodeLE(l.totalTickets, 8), b, ws, 7);
    WriteNext(data, ParticipantsCount, EncodeLE(l.participantsCount, 2), b, ws, 8);
    LifecycleWritten(b, l);
    r := Ok(());
  }

  // ----- the Fenwick tree -----

  method ReadNode(data: array<byte>, j: nat) returns (v: nat)
    requires data.Length >= ROUND_ACCOUNT_LEN && j <= MAX_PARTICIPANTS
    ensures v == Nodes(data[..])[j] && v <= U64_MAX
  {
    Widths();
    UintBound(data[..], Node(j));
    assert Node(j).End() <= ROUND_ACCOUNT_LEN;
    v := DecodeLE(data[Node(j).at..Node(j).End()]);
    assert data[Node(j).at..Node(j).End()] == Get(data[..], Node(j));
  }

  method WriteNode(data: array<byte>, j: nat, v: nat)
    requires data.Length >= ROUND_ACCOUNT_LEN && j <= MAX_PARTICIPANTS && v <= U64_MAX
    modifies data
    ensures Nodes(data[..]) == Nodes(old(data[..]))[j := v]
    ensures SameOutsideBit(old(data[..]), data[..])
  {
    assert Node(j).End() <= ROUND_ACCOUNT_LEN;
    var r := WriteRegion(data, Node(j), EncodeLE(v, 8));
    NodeSet(old(data[..]), data[..], j, v);
  }

  /**
   The outcome of `bit_add`/`bit_sub`. It succeeds exactly when no covering node leaves the `u64` range;
   when it fails, the covering nodes below the first one out of range were already changed.
   */
  ghost predicate UpdateOutcome(nodes: seq<nat>, nodes': seq<nat>, i: nat, delta: int, r: Result<()>)
  {
    if Fits(nodes, i, delta) then
      r == Ok(()) && nodes' == Updated(nodes, i, delta)
    else
      && r == Err(MathOverflow)
      && exists k :: FirstMisfit(nodes, i, delta, k) && nodes' == Bumped(nodes, i, delta, k)
  }

  ghost predicate FirstMisfit(nodes: seq<nat>, i: nat, delta: int, k: nat)
  {
    && k < |nodes| && Covers(k, i) && !(0 <= nodes[k] + delta <= U64_MAX)
    && FitsBelow(nodes, i, delta, k)
  }

  ghost predicate FitsBelow(nodes: seq<nat>, i: nat, delta: int, k: nat)
  {
    forall j :: 0 <= j < |nodes| && j < k && Covers(j, i) ==> 0 <= nodes[j] + delta <= U64_MAX
  }

  /** The update has changed the covering nodes below `k`, the next covering node, and nothing else. */
  ghost predicate InWalk(b0: seq<byte>, b: seq<byte>, i: nat, delta: int, k: nat)
  {
    && |b0| >= ROUND_ACCOUNT_LEN && SameOutsideBit(b0, b)
    && Covers(k, i)
    && Nodes(b) == Bumped(Nodes(b0), i, delta, k)
    && FitsBelow(Nodes(b0), i, delta, k)
  }

  lemma WalkStarts(b0: seq<byte>, i: nat, delta: int)
    requires |b0| >= ROUND_ACCOUNT_LEN && 1 <= i
    ensures InWalk(b0, b0, i, delta, i)
  {
    FirstCovering(i);
  }

  lemma WalkStep(b0: seq<byte>, b: seq<byte>, b': seq<byte>, i: nat, delta: int, k: nat)
    requires InWalk(b0, b, i, delta, k) && k <= MAX_PARTICIPANTS
    requires 0 <= Nodes(b0)[k] + delta <= U64_MAX
    requires SameOutsideBit(b, b') && Nodes(b') == Nodes(b)[k := Nodes(b0)[k] + delta]
    ensures InWalk(b0, b', i, delta, k + Low(k))
  {
    NextCovering(k, i);
    BumpStep(Nodes(b0), i, delta, k);
    SameOutsideTrans(b0, b, b');
  }

  lemma BumpStep(nodes: seq<nat>, i: nat, delta: int, k: nat)
    requires k < |nodes| && Covers(k, i) && 0 <= nodes[k] + delta <= U64_MAX && FitsBelow(nodes, i, delta, k)
    ensures Bumped(nodes, i, delta, k + Low(k)) == Bumped(nodes, i, delta, k)[k := nodes[k] + delta]
    ensures FitsBelow(nodes, i, delta, k + Low(k))
  {
    NextCovering(k, i);
  }

  lemma SameOutsideTrans(b0: seq<byte>, b: seq<byte>, b': seq<byte>)
    requires SameOutsideBit(b0, b) && SameOutsideBit(b, b')
    ensures SameOutsideBit(b0, b')
  {
  }

  lemma WalkDone(b0: seq<byte>, b: seq<byte>, i: nat, delta: int, k: nat)
    requires InWalk(b0, b, i, delta, k) && k > MAX_PARTICIPANTS
    ensures UpdateOutcome(Nodes(b0), Nodes(b), i, delta, Ok(()))
  {
    assert Fits(Nodes(b0), i, delta);
    BumpedAll(Nodes(b0), i, delta, k);
  }

  lemma WalkStopped(b0: seq<byte>, b: seq<byte>, i: nat, delta: int, k: nat)
    requires InWalk(b0, b, i, delta, k) && k <= MAX_PARTICIPANTS
    requires !(0 <= Nodes(b)[k] + delta <= U64_MAX)
    ensures UpdateOutcome(Nodes(b0), Nodes(b), i, delta, Err(MathOverflow))
  {
    assert FirstMisfit(Nodes(b0), i, delta, k);
  }

  /** Write the node under the walk and step up by its low bit. */
  method Advance(data: array<byte>, index: nat, v: nat, ghost b0: seq<byte>, ghost i: nat, ghost delta: int)
    returns (next: nat)
    requires InWalk(b0, data[..], i, delta, index) && index <= MAX_PARTICIPANTS
    requires v == Nodes(data[..])[index] + delta && v <= U64_MAX
    modifies data
    ensures InWalk(b0, data[..], i, delta, next) && next > index
  {
    WriteNode(data, index, v);
    WalkStep(b0, old(data[..]), data[..], i, delta, index);
    LowBitTrick(index);
    next := index + BitAnd(index, Not(index) + 1);
  }

  ghost predicate Refused(len: nat, index: nat)
  {
    len < ROUND_ACCOUNT_LEN || index == 0 || index > MAX_PARTICIPANTS
  }

  /** The loop of both updates; a subtraction is an addition of `-delta`. */
  method BitUpdate(data: array<byte>, start: nat, delta: int) returns (r: Result<()>)
    requires -U64_MAX <= delta <= U64_MAX
    modifies data
    ensures Refused(data.Length, start) ==> r == Err(SliceTooShort) && data[..] == old(data[..])
    ensures !Refused(data.Length, start) ==>
              && SameOutsideBit(old(data[..]), data[..])
              && UpdateOutcome(Nodes(old(data[..])), Nodes(data[..]), start, delta, r)
  {
    if data.Length < ROUND_ACCOUNT_LEN || start == 0 || start > MAX_PARTICIPANTS {
      return Err(SliceTooShort);
    }
    ghost var b0 := data[..];
    WalkStarts(b0, start, delta);
    var index := start;
    while index <= MAX_PARTICIPANTS
      invariant InWalk(b0, data[..], start, delta, index)
      decreases MAX_PARTICIPANTS + 1 - index
    {
      var current := ReadNode(data, index);
      if current + delta < 0 || current + delta > U64_MAX {
        WalkStopped(b0, data[..], start, delta, index);
        return Err(MathOverflow);
      }
      index := Advance(data, index, current + delta, b0, start, delta);
    }
    WalkDone(b0, data[..], start, delta, index);
    r := Ok(());
  }

  /** `bit_add_in_account_data`: `checked_add` fails on overflow. */
  method BitAdd(data: array<byte>, start: nat, delta: nat) returns (r: Result<()>)
    requires delta <= U64_MAX
    modifies data
    ensures Refused(data.Length, start) ==> r == Err(SliceTooShort) && data[..] == old(data[..])
    ensures !Refused(data.Length, start) ==>
              && SameOutsideBit(old(data[..]), data[..])
              && UpdateOutcome(Nodes(old(data[..])), Nodes(data[..]), start, delta, r)
  {
    r := BitUpdate(data, start, delta);
  }

  /** `bit_sub_in_account_data`: `checked_sub` fails below zero. */
  method BitSub(data: array<byte>, start: nat, delta: int) returns (r: Result<()>)
    requires 0 <= delta <= U64_MAX
    modifies data
    ensures Refused(data.Length, start) ==> r == Err(SliceTooShort) && data[..] == old(data[..])
    ensures !Refused(data.Length, start) ==>
              && SameOutsideBit(old(data[..]), data[..])
              && UpdateOutcome(Nodes(old(data[..])), Nodes(data[..]), start, -delta, r)
  {
    r := BitUpdate(data, start, -delta);
  }

  /** `bit_find_prefix_in_account_data`. */
  method BitFindPrefix(data: array<byte>, target: nat) returns (r: Result<nat>)
    requires target <= U64_MAX
    ensures data.Length < ROUND_ACCOUNT_LEN ==> r == Err(SliceTooShort)
    ensures data.Length >= ROUND_ACCOUNT_LEN ==> r == Found(FindPrefix(Nodes(data[..]), target))
  {
    if data.Length < ROUND_ACCOUNT_LEN {
      return Err(SliceTooShort);
    }
    var bitMask := BitMask(MAX_PARTICIPANTS);
    ghost var nodes := Nodes(data[..]);
    NodesHeld(data[..], nodes, |nodes|);
    r := Probes(data, target, bitMask, nodes);
  }

  /** The first `n` entries of `nodes` are what the account's Fenwick region holds. */
  ghost predicate Held(b: seq<byte>, nodes: seq<nat>, n: nat)
    requires |b| >= ROUND_ACCOUNT_LEN && n <= |nodes| == MAX_PARTICIPANTS + 1
  {
    n == 0 || (Held(b, nodes, n - 1) && nodes[n - 1] == Uint(b, Node(n - 1)))
  }

  lemma {:induction false} NodesHeld(b: seq<byte>, nodes: seq<nat>, n: nat)
    requires |b| >= ROUND_ACCOUNT_LEN && n <= |nodes| && nodes == Nodes(b)
    ensures Held(b, nodes, n)
  {
    if n > 0 { NodesHeld(b, nodes, n - 1); }
  }

  lemma {:induction false} HeldAt(b: seq<byte>, nodes: seq<nat>, n: nat, j: nat)
    requires |b| >= ROUND_ACCOUNT_LEN && j < n <= |nodes| == MAX_PARTICIPANTS + 1 && Held(b, nodes, n)
    ensures nodes[j] == Nodes(b)[j]
  {
    if j < n - 1 { HeldAt(b, nodes, n - 1, j); }
  }

  method ReadHeld(data: array<byte>, j: nat, ghost nodes: seq<nat>) returns (v: nat)
    requires data.Length >= ROUND_ACCOUNT_LEN && j < |nodes| == MAX_PARTICIPANTS + 1
    requires Held(data[..], nodes, |nodes|)
    ensures v == nodes[j]
  {
    v := ReadNode(data, j);
    HeldAt(data[..], nodes, |nodes|, j);
  }

  /** The probing loop. */
  method Probes(data: array<byte>, target: nat, bitMask: nat, ghost nodes: seq<nat>) returns (r: Result<nat>)
    requires data.Length >= ROUND_ACCOUNT_LEN && |nodes| == MAX_PARTICIPANTS + 1
    requires Held(data[..], nodes, |nodes|)
    ensures r == Found(Descend(nodes, target, 0, 0, bitMask))
  {
    ghost var answer := Descend(nodes, target, 0, 0, bitMask);
    var idx: nat, cur: nat, step: nat := 0, 0, bitMask;
    while step > 0
      invariant Descend(nodes, target, idx, cur, step) == answer
      decreases step
    {
      var next := idx + step;
      if next <= MAX_PARTICIPANTS {
        var node := ReadHeld(data, next, nodes);
        if cur + node > U64_MAX {
          return Err(MathOverflow);
        }
        if cur + node < target {
          idx, cur := next, cur + node;
        }
      }
      step := step / 2;
    }
    r := Ok(idx + 1);
  }

  method BitMask(n: nat) returns (bitMask: nat)
    requires n > 0
    ensures bitMask == MaskAbove(1, n)
  {
    bitMask := 1;
    while bitMask <= n
      invariant 1 <= bitMask <= 2 * n && MaskAbove(bitMask, n) == MaskAbove(1, n)
      decreases 2 * n - bitMask
    {
      bitMask := bitMask * 2;
    }
  }

  function Found(o: Option<nat>): Result<nat>
  {
    if o.Some? then Ok(o.value) else Err(MathOverflow)
  }

  // ----- undoing -----

  /** A `bit_sub` right after a successful `bit_add` succeeds and restores the account byte for byte. */
  method AddThenSub(data: array<byte>, i: nat, delta: int) returns (added: Result<()>, undone: Result<()>)
    requires 0 <= delta <= U64_MAX && !Refused(data.Length, i)
    modifies data
    ensures added.Ok? ==> undone.Ok? && data[..] == old(data[..])
  {
    ghost var b := data[..];
    ViewInRange(b);
    added := BitAdd(data, i, delta);
    ghost var b1 := data[..];
    undone := Ok(());
    if added.Ok? {
      UpdateUndone(Nodes(b), i, delta);
      undone := BitSub(data, i, delta);
      SameOutsideTrans(b, b1, data[..]);
      NodesDetermineBytes(data[..], b);
    }
  }
}
