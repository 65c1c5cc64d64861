/** Searches over round ids by the site and its API: newest first in batches, and the highest id by probing. */
module RoundSearch {
  import opened Basics

  // ----- newest first -----

  /** Consecutive ids, downwards from `start`. */
  ghost predicate Down(ids: seq<int>, start: int) { forall k :: 0 <= k < |ids| ==> ids[k] == start - k }

  function Joined(batches: seq<seq<int>>): seq<int>
  {
    if |batches| == 0 then [] else Joined(batches[..|batches| - 1]) + batches[|batches| - 1]
  }

  lemma JoinedNext(batches: seq<seq<int>>, ids: seq<int>)
    ensures Joined(batches + [ids]) == Joined(batches) + ids
  {
    assert (batches + [ids])[..|batches|] == batches;
  }

  /** `descendingBatches`: every id from `start` down to `end` once, in order, in batches of at most `batchSize`. */
  method DescendingBatches(start: int, end: int, batchSize: nat) returns (batches: seq<seq<int>>)
    requires batchSize >= 1
    ensures Down(Joined(batches), start) && |Joined(batches)| == Max(0, start - end + 1)
    ensures forall b :: b in batches ==> 0 < |b| <= batchSize
  {
    hide Joined;
    batches := [];
    assert Joined([]) == [] by { JoinedNone(); }
    var current := start;
    while current >= end
      invariant current <= start && Down(Joined(batches), start)
      invariant |Joined(batches)| == if current >= end then start - current else Max(0, start - end + 1)
      invariant forall b :: b in batches ==> 0 < |b| <= batchSize
      decreases current - end + batchSize
    {
      var ids := OneBatch(current, end, batchSize);
      JoinedNext(batches, ids);
      batches := batches + [ids];
      current := current - batchSize;
    }
  }

  lemma JoinedNone()
    ensures Joined([]) == []
  {
  }

  method OneBatch(current: int, end: int, batchSize: nat) returns (ids: seq<int>)
    requires batchSize >= 1 && current >= end
    ensures Down(ids, current) && |ids| == if current - batchSize >= end then batchSize else current - end + 1
    ensures 0 < |ids| <= batchSize
  {
    ids := [];
    var i := 0;
    while i < batchSize && current - i >= end
      invariant 0 <= i <= batchSize && |ids| == i && current - i + 1 >= end && Down(ids, current)
    {
      ids := ids + [current - i];
      i := i + 1;
    }
  }

  /** The answer to a search for the newest: the greatest id of the range that qualifies, or nothing if none does. */
  ghost predicate Newest(good: int -> bool, latest: int, min: int, r: Option<int>)
  {
    match r
    case None => forall id :: min <= id <= latest ==> !good(id)
    case Some(x) => min <= x <= latest && good(x) && forall id :: x < id <= latest ==> !good(id)
  }

  /** Nothing above `id` qualifies, as far as the search has come. */
  ghost predicate NoneAbove(good: int -> bool, latest: int, id: int) { forall x :: id < x <= latest ==> !good(x) }

  lemma {:induction false} BatchStarts(batches: seq<seq<int>>, start: int, j: nat)
    requires Down(Joined(batches), start) && j < |batches|
    ensures Down(batches[j], start - |Joined(batches[..j])|)
    ensures |Joined(batches[..j + 1])| == |Joined(batches[..j])| + |batches[j]| <= |Joined(batches)|
    decreases |batches|
  {
    var n := |batches| - 1;
    assert batches[..j + 1] == batches[..j] + [batches[j]];
    JoinedNext(batches[..j], batches[j]);
    if j < n {
      assert Joined(batches)[..|Joined(batches[..n])|] == Joined(batches[..n]);
      BatchStarts(batches[..n], start, j);
      assert batches[..n][..j] == batches[..j] && batches[..n][..j + 1] == batches[..j + 1];
    } else {
      assert batches[..j + 1] == batches;
      forall k | 0 <= k < |batches[j]| ensures batches[j][k] == start - |Joined(batches[..j])| - k {
        assert Joined(batches)[|Joined(batches[..j])| + k] == batches[j][k];
      }
    }
  }

  const SETTLED: nat := 3
  const CANCELLED: nat := 5

  /** What stands at a round's address, and at a user's participant address in it. */
  datatype RoundAt = NoRound | BadRound | Round(status: nat, winner: nat)
  datatype ParticipantAt = NoParticipant | BadParticipant | Participant(user: nat, usdc: nat)

  predicate Claimable(r: RoundAt, asker: nat) { r.Round? && r.status == SETTLED && r.winner == asker }

  predicate Cancelled(r: RoundAt) { r.Round? && r.status == CANCELLED }

  predicate Funded(p: ParticipantAt, asker: nat) { p.Participant? && p.user == asker && p.usdc > 0 }

  /** `findLatestClaimableRoundId`: the newest of the recent rounds that is settled and won by the asker. */
  method FindLatestClaimable(rounds: int -> RoundAt, asker: nat, latest: int, lookback: nat, batchSize: nat)
    returns (r: Option<int>)
    requires batchSize >= 1 && latest >= 1
    ensures Newest(id => Claimable(rounds(id), asker), latest, Max(1, latest - lookback), r)
  {
    hide Joined;
    var min := Max(1, latest - lookback);
    var batches := DescendingBatches(latest, min, batchSize);
    JoinedNone();
    ghost var good := id => Claimable(rounds(id), asker);
    var j := 0;
    assert batches[..0] == [];
    while j < |batches|
      invariant j <= |batches| && NoneAbove(good, latest, latest - |Joined(batches[..j])|)
    {
      BatchStarts(batches, latest, j);
      var ids := batches[j];
      var i := 0;
      while i < |ids|
        invariant i <= |ids| && NoneAbove(good, latest, latest - |Joined(batches[..j])| - i)
      {
        var info := rounds(ids[i]);
        if info.Round? && info.status == SETTLED && info.winner == asker { return Some(ids[i]); }
        assert !good(ids[i]);
        i := i + 1;
      }
      j := j + 1;
    }
    assert batches[..j] == batches;
    return None;
  }

  /** `findLatestRefundableRoundId`: the newest recent cancelled round where the asker still has a deposit; each batch
      is filtered for cancelled rounds first, then the participant accounts of those are read. */
  method FindLatestRefundable(rounds: int -> RoundAt, participants: int -> ParticipantAt, asker: nat, latest: int,
                              lookback: nat, batchSize: nat)
    returns (r: Option<int>)
    requires batchSize >= 1 && latest >= 1
    ensures Newest(id => Cancelled(rounds(id)) && Funded(participants(id), asker), latest, Max(1, latest - lookback), r)
  {
    hide Joined;
    var min := Max(1, latest - lookback);
    var batches := DescendingBatches(latest, min, batchSize);
    JoinedNone();
    ghost var good := id => Cancelled(rounds(id)) && Funded(participants(id), asker);
    var j := 0;
    assert batches[..0] == [];
    while j < |batches|
      invariant j <= |batches| && NoneAbove(good, latest, latest - |Joined(batches[..j])|)
    {
      BatchStarts(batches, latest, j);
      r := RefundableIn(rounds, participants, asker, batches[j], latest - |Joined(batches[..j])|);
      if r.Some? { return; }
      j := j + 1;
    }
    assert batches[..j] == batches;
    return None;
  }

  /** One batch of the refund search. */
  method RefundableIn(rounds: int -> RoundAt, participants: int -> ParticipantAt, asker: nat, ids: seq<int>,
                      ghost start: int)
    returns (r: Option<int>)
    requires Down(ids, start)
    ensures Newest(id => Cancelled(rounds(id)) && Funded(participants(id), asker), start, start - |ids| + 1, r)
  {
    var chosen: seq<int> := [];
    var i := 0;
    while i < |ids|
      invariant i <= |ids| && Sieved(rounds, start, i, chosen)
    {
      if Cancelled(rounds(ids[i])) { chosen := chosen + [ids[i]]; }
      i := i + 1;
    }
    var k := 0;
    while k < |chosen|
      invariant k <= |chosen| && forall m :: 0 <= m < k ==> !Funded(participants(chosen[m]), asker)
    {
      if Funded(participants(chosen[k]), asker) { return Some(chosen[k]); }
      k := k + 1;
    }
    return None;
  }

  /** The cancelled ids among the first `n` downwards from `start`, in that order. */
  ghost predicate Sieved(rounds: int -> RoundAt, start: int, n: nat, chosen: seq<int>)
  {
    && (forall m :: 0 <= m < |chosen| ==> start - n < chosen[m] <= start && Cancelled(rounds(chosen[m])))
    && (forall m, m' :: 0 <= m < m' < |chosen| ==> chosen[m] > chosen[m'])
    && forall id :: start - n < id <= start && Cancelled(rounds(id)) ==> id in chosen
  }

  // ----- the highest id -----

  const PROBE_BATCH: nat := 20

  ghost predicate EmptyFrom(known: nat -> bool, at: nat) { forall id :: at <= id < at + PROBE_BATCH ==> !known(id) }

  /** Only finitely many rounds exist. */
  ghost predicate Bounded(known: nat -> bool, bound: nat) { forall id: nat :: known(id) ==> id <= bound }

  /** The first of the probes from `at` on that finds nothing. */
  ghost function FirstEmpty(known: nat -> bool, at: nat, bound: nat): nat
    requires Bounded(known, bound)
    decreases bound + 1 - at
  {
    if EmptyFrom(known, at) then at
    else
      assert at <= bound;
      FirstEmpty(known, at + PROBE_BATCH, bound)
  }

  /** The greatest existing id in the range, or its lower end if there is none. */
  ghost function LastIn(known: nat -> bool, lo: nat, hi: nat): (r: nat)
    ensures lo <= r && (r == lo || (r < hi && known(r)))
    ensures forall id :: lo <= id < hi && known(id) ==> id <= r
    decreases hi
  {
    if hi <= lo then lo else if known(hi - 1) then hi - 1 else LastIn(known, lo, hi - 1)
  }

  /** A probe that finds something moves the search on by one probe, its last find becoming the greatest so far. */
  lemma ProbeMoves(known: nat -> bool, start: nat, at: nat, bound: nat, found: nat)
    requires Bounded(known, bound) && start <= at && LastOfProbe(known, at, found)
    ensures at <= bound && FirstEmpty(known, at, bound) == FirstEmpty(known, at + PROBE_BATCH, bound)
    ensures found == LastIn(known, start, at + PROBE_BATCH)
  {
    LastInUnique(known, start, at + PROBE_BATCH, found);
  }

  lemma ProbeEnds(known: nat -> bool, start: nat, at: nat, bound: nat)
    requires Bounded(known, bound) && start <= at && EmptyFrom(known, at)
    ensures FirstEmpty(known, at, bound) == at
    ensures forall id :: LastIn(known, start, at) < id <= at ==> !known(id)
  {
  }

  lemma ProbeStarts(known: nat -> bool, start: nat)
    ensures LastIn(known, start, start) == start
  {
  }

  lemma LastInUnique(known: nat -> bool, lo: nat, hi: nat, r: nat)
    requires lo <= r && (r == lo || (r < hi && known(r))) && forall id :: lo <= id < hi && known(id) ==> id <= r
    ensures r == LastIn(known, lo, hi)
  {
  }

  /** `findMaxRoundId`: the last id that exists before the first empty probe, not below the archive. */
  method FindMaxRoundId(known: nat -> bool, archivedMax: nat, ghost bound: nat) returns (r: nat)
    requires Bounded(known, bound)
    ensures r >= archivedMax
    ensures var start := Max(1, archivedMax); r == LastIn(known, start, FirstEmpty(known, start, bound))
  {
    var low: nat, high: nat := 1, 1;
    if archivedMax > 0 { low, high := archivedMax, archivedMax; }
    hide FirstEmpty, LastIn, Bounded, EmptyFrom, LastOfProbe;
    var start := low;
    ProbeStarts(known, start);
    var found: Option<nat> := LastExisting(known, high);
    while found.Some?
      invariant start <= low <= high && FirstEmpty(known, start, bound) == FirstEmpty(known, high, bound)
      invariant low == LastIn(known, start, high) && (found.None? ==> EmptyFrom(known, high))
      invariant found.Some? ==> found.value < high + PROBE_BATCH && LastOfProbe(known, high, found.value)
      decreases bound + PROBE_BATCH - high
    {
      ProbeMoves(known, start, high, bound, found.value);
      low, high := found.value, high + PROBE_BATCH;
      found := LastExisting(known, high);
    }
    ProbeEnds(known, start, high, bound);
    r := Bisect(known, low, high);
    if r < archivedMax { r := archivedMax; }
  }

  ghost predicate LastOfProbe(known: nat -> bool, at: nat, r: nat)
  {
    at <= r < at + PROBE_BATCH && known(r) && forall id :: r < id < at + PROBE_BATCH ==> !known(id)
  }

  /** One probe of `PROBE_BATCH` ids, searched from its end. */
  method LastExisting(known: nat -> bool, at: nat) returns (r: Option<nat>)
    ensures r.None? <==> EmptyFrom(known, at)
    ensures r.Some? ==> r.value < at + PROBE_BATCH && LastOfProbe(known, at, r.value)
  {
    var i := PROBE_BATCH;
    while i > 0
      invariant forall id :: at + i <= id < at + PROBE_BATCH ==> !known(id)
    {
      i := i - 1;
      if known(at + i) { return Some(at + i); }
    }
    return None;
  }

  /** The binary search of `findMaxRoundId`: above `low` nothing exists, so it comes back to `low`. */
  method Bisect(known: nat -> bool, low0: nat, high0: nat) returns (low: nat)
    requires low0 <= high0 && forall id :: low0 < id <= high0 ==> !known(id)
    ensures low == low0
  {
    var high := high0;
    low := low0;
    while low < high
      invariant low == low0 <= high <= high0
      decreases high - low
    {
      var mid := (low + high + 1) / 2;
      if known(mid) { low := mid; } else { high := mid - 1; }
    }
  }

  /** The `k`-th probe from `start` finds nothing. */
  ghost predicate EmptyProbe(known: nat -> bool, start: nat, k: nat) { EmptyFrom(known, start + PROBE_BATCH * k) }

  /** The answer is the highest round there is if and only if no empty probe lies below an existing round. */
  lemma MaxExact(known: nat -> bool, start: nat, bound: nat)
    requires Bounded(known, bound)
    ensures var r := LastIn(known, start, FirstEmpty(known, start, bound));
      (forall id: nat :: id >= start && known(id) ==> id <= r) <==>
      (forall k: nat, id: nat :: EmptyProbe(known, start, k) && known(id) ==> id < start + PROBE_BATCH * k)
  {
    var first := FirstEmptyProbe(known, start, 0, bound);
    var h, r := start + PROBE_BATCH * first, LastIn(known, start, start + PROBE_BATCH * first);
    if forall id: nat :: id >= start && known(id) ==> id <= r {
      forall k: nat, id: nat | EmptyProbe(known, start, k) && known(id) ensures id < start + PROBE_BATCH * k {}
    }
    if forall k: nat, id: nat :: EmptyProbe(known, start, k) && known(id) ==> id < start + PROBE_BATCH * k {
      forall id: nat | id >= start && known(id) ensures id <= r {
        assert EmptyProbe(known, start, first);
      }
    }
  }

  /** The first empty probe from the `k`-th on, and that it is the first. */
  lemma {:induction false} FirstEmptyProbe(known: nat -> bool, start: nat, k: nat, bound: nat) returns (first: nat)
    requires Bounded(known, bound)
    ensures first >= k && FirstEmpty(known, start + PROBE_BATCH * k, bound) == start + PROBE_BATCH * first
    ensures EmptyProbe(known, start, first) && forall j: nat :: k <= j < first ==> !EmptyProbe(known, start, j)
    decreases bound + 1 - (start + PROBE_BATCH * k)
  {
    var at := start + PROBE_BATCH * k;
    if EmptyFrom(known, at) {
      first := k;
    } else {
      assert at <= bound;
      assert at + PROBE_BATCH == start + PROBE_BATCH * (k + 1);
      first := FirstEmptyProbe(known, start, k + 1, bound);
      forall j: nat | k <= j < first ensures !EmptyProbe(known, start, j) {
        if j == k { assert !EmptyFrom(known, start + PROBE_BATCH * j); }
      }
    }
  }

  /** Rounds 1 and 41 exist and nothing between: the search answers 1. */
  lemma GapHidesRounds()
    ensures var only := (id: nat) => id == 1 || id == 41;
      Bounded(only, 41) && LastIn(only, 1, FirstEmpty(only, 1, 41)) == 1
  {
    var only := (id: nat) => id == 1 || id == 41;
    assert only(1) && !EmptyFrom(only, 1) && EmptyFrom(only, 21);
    assert FirstEmpty(only, 1, 41) == FirstEmpty(only, 21, 41) == 21;
    LastInUnique(only, 1, 21, 1);
  }
}
