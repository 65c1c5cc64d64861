/** Finding the round to start from: a batched scan over round ids that gives up after a long gap. */
module ActiveScan {
  import opened Basics
  import opened Division

  datatype Entry = Missing | Invalid | Round(status: nat)

  /** `isActiveRoundStatus`: open, locked, VRF requested or settled. */
  predicate Active(e: Entry) { e.Round? && e.status in {0, 1, 2, 3} }

  // ----- one id at a time -----

  datatype State = State(maxExisting: nat, activeRound: nat, nullStreak: nat) {
    predicate Stopped(limit: nat) { maxExisting > 0 && nullStreak >= limit }

    function See(id: nat, e: Entry): State
    {
      match e
      case Missing => this.(nullStreak := nullStreak + 1)
      case Invalid => this.(nullStreak := 0)
      case Round(_) => State(id, if Active(e) then id else activeRound, 0)
    }

    function Answer(archivedMax: nat): nat
    {
      if activeRound > 0 then activeRound else Max(maxExisting, archivedMax) + 1
    }
  }

  /** Look at the ids from `start` one by one, at most `n` of them, and stop at the cut-off. */
  function OneByOne(chain: nat -> Entry, start: nat, n: nat, limit: nat): State
  {
    if n == 0 then State(0, 0, 0)
    else
      var s := OneByOne(chain, start, n - 1, limit);
      if s.Stopped(limit) then s else s.See(start + n - 1, chain(start + n - 1))
  }

  lemma {:induction false} StoppedStays(chain: nat -> Entry, start: nat, n: nat, m: nat, limit: nat)
    requires n <= m && OneByOne(chain, start, n, limit).Stopped(limit)
    ensures OneByOne(chain, start, m, limit) == OneByOne(chain, start, n, limit)
    decreases m
  {
    if n < m { StoppedStays(chain, start, n, m - 1, limit); }
  }

  /** How many ids the batched scan asks for. */
  function Window(maxScan: int, batchSize: nat): nat
    requires batchSize >= 1
  {
    if maxScan < 0 then 0 else (maxScan / batchSize + 1) * batchSize
  }

  /** One batch of `scanForActiveRound`, from the state after `n` ids. */
  method ScanBatch(chain: nat -> Entry, start: nat, n: nat, batchSize: nat, limit: nat, s0: State) returns (s: State)
    requires limit >= 1 && s0 == OneByOne(chain, start, n, limit) && !s0.Stopped(limit)
    ensures s == OneByOne(chain, start, n + batchSize, limit)
  {
    s := s0;
    var i := 0;
    while i < batchSize
      invariant i <= batchSize
      invariant s == OneByOne(chain, start, n + i, limit) && !s.Stopped(limit)
    {
      var entry := chain(start + n + i);
      s := s.See(start + n + i, entry);
      assert s == OneByOne(chain, start, n + i + 1, limit);
      if entry.Missing? && s.Stopped(limit) {
        StoppedStays(chain, start, n + i + 1, n + batchSize, limit);
        return;
      }
      i := i + 1;
    }
  }

  /** `scanForActiveRound`: batching makes no difference to the one-by-one scan of the same window. */
  method ScanForActiveRound(chain: nat -> Entry, start: nat, archivedMax: nat, maxScan: int, batchSize: nat, limit: nat)
    returns (r: nat)
    requires start >= 1 && batchSize >= 1 && limit >= 1
    ensures r == OneByOne(chain, start, Window(maxScan, batchSize), limit).Answer(archivedMax)
  {
    hide OneByOne, Window;
    var s := State(0, 0, 0);
    assert s == OneByOne(chain, start, 0, limit) by { NothingScanned(chain, start, limit); }
    var base := start;
    ghost var k := 0;
    while base <= start + maxScan
      invariant base >= start && Batches(base - start, k, batchSize, maxScan)
      invariant s == OneByOne(chain, start, base - start, limit) && !s.Stopped(limit)
      decreases start + maxScan - base
    {
      s := ScanBatch(chain, start, base - start, batchSize, limit, s);
      NextBatch(base - start, k, batchSize, maxScan);
      if s.Stopped(limit) {
        StoppedStays(chain, start, base - start + batchSize, Window(maxScan, batchSize), limit);
        return s.Answer(archivedMax);
      }
      base := base + batchSize;
      k := k + 1;
    }
    WindowDone(base - start, k, batchSize, maxScan);
    return s.Answer(archivedMax);
  }

  /** The window is whole batches and the fewest that reach the last id asked for. */
  lemma WindowCovers(maxScan: nat, batchSize: nat)
    requires batchSize >= 1
    ensures maxScan < Window(maxScan, batchSize) <= maxScan + batchSize
    ensures exists k: nat :: Window(maxScan, batchSize) == k * batchSize
  {
    var q := maxScan / batchSize;
    assert (q + 1) * batchSize == q * batchSize + batchSize;
    assert Window(maxScan, batchSize) == (q + 1) * batchSize;
  }

  lemma NothingScanned(chain: nat -> Entry, start: nat, limit: nat)
    ensures OneByOne(chain, start, 0, limit) == State(0, 0, 0)
  {
  }

  /** `n` ids are `k` batches, the last of which began within the limit. */
  ghost predicate Batches(n: nat, k: nat, batchSize: nat, maxScan: int)
  {
    n == k * batchSize && (k > 0 ==> (k - 1) * batchSize <= maxScan)
  }

  lemma NextBatch(n: nat, k: nat, batchSize: nat, maxScan: int)
    requires Batches(n, k, batchSize, maxScan) && n <= maxScan && batchSize >= 1
    ensures Batches(n + batchSize, k + 1, batchSize, maxScan) && n + batchSize <= Window(maxScan, batchSize)
  {
    AtMostQuotient(maxScan, batchSize, k);
    MulMono(k + 1, maxScan / batchSize + 1, batchSize);
    assert (k + 1) * batchSize == k * batchSize + batchSize;
  }

  lemma WindowDone(n: nat, k: nat, batchSize: nat, maxScan: int)
    requires Batches(n, k, batchSize, maxScan) && n > maxScan && batchSize >= 1
    ensures n == Window(maxScan, batchSize)
  {
    if k > 0 {
      if maxScan < 0 { MulMono(0, k - 1, batchSize); }
      assert (k - 1) * batchSize + batchSize == k * batchSize;
      Quotient(maxScan, batchSize, k - 1);
    }
  }

  // ----- what the scan finds -----

  /** The cut-off: `limit` missing ids in a row, after some round, all before `start + n`. */
  ghost predicate Gap(chain: nat -> Entry, start: nat, n: nat, limit: nat)
  {
    exists a :: start < a <= start + n - limit && GapAt(chain, start, a, limit)
  }

  ghost predicate GapAt(chain: nat -> Entry, start: nat, a: nat, limit: nat)
  {
    && (exists r :: start <= r < a && chain(r).Round?)
    && forall id :: a <= id < a + limit ==> chain(id).Missing?
  }

  /** What an unstopped scan of `n` ids knows: the last round, the last active round and
      the run of missing ids it ends with. */
  ghost predicate Knows(chain: nat -> Entry, start: nat, n: nat, s: State)
  {
    && (s.maxExisting == 0 || (start <= s.maxExisting < start + n && chain(s.maxExisting).Round?))
    && (forall id :: start <= id < start + n && chain(id).Round? ==> id <= s.maxExisting)
    && (s.activeRound == 0 || (start <= s.activeRound < start + n && Active(chain(s.activeRound))))
    && (forall id :: start <= id < start + n && Active(chain(id)) ==> id <= s.activeRound)
    && s.nullStreak <= n && (forall id :: start + n - s.nullStreak <= id < start + n ==> chain(id).Missing?)
    && (s.nullStreak < n ==> !chain(start + n - 1 - s.nullStreak).Missing?)
  }

  lemma {:induction false} ScanKnows(chain: nat -> Entry, start: nat, n: nat, limit: nat)
    requires start >= 1 && (n == 0 || !OneByOne(chain, start, n - 1, limit).Stopped(limit))
    ensures Knows(chain, start, n, OneByOne(chain, start, n, limit))
  {
    hide Knows;
    if n == 0 {
      NothingKnown(chain, start);
    } else {
      ScanKnows(chain, start, n - 1, limit);
      KnowsNext(chain, start, n - 1, OneByOne(chain, start, n - 1, limit));
    }
  }

  lemma NothingKnown(chain: nat -> Entry, start: nat)
    ensures Knows(chain, start, 0, State(0, 0, 0))
  {
  }

  lemma KnowsNext(chain: nat -> Entry, start: nat, n: nat, s: State)
    requires start >= 1 && Knows(chain, start, n, s)
    ensures Knows(chain, start, n + 1, s.See(start + n, chain(start + n)))
  {
  }

  /** The scan stops within `n` ids exactly when there is a gap in them. */
  lemma {:induction false} StopsAtGap(chain: nat -> Entry, start: nat, n: nat, limit: nat)
    requires start >= 1 && limit >= 1
    ensures OneByOne(chain, start, n, limit).Stopped(limit) <==> Gap(chain, start, n, limit)
  {
    if n > 0 {
      StopsAtGap(chain, start, n - 1, limit);
      var s, s' := OneByOne(chain, start, n - 1, limit), OneByOne(chain, start, n, limit);
      if s.Stopped(limit) {
        var a :| start < a <= start + n - 1 - limit && GapAt(chain, start, a, limit);
        assert Gap(chain, start, n, limit);
      } else {
        ScanKnows(chain, start, n, limit);
        LastGap(chain, start, n, limit, s');
      }
    }
  }

  /** With no gap before the last id, there is one exactly when the state says stop. */
  lemma LastGap(chain: nat -> Entry, start: nat, n: nat, limit: nat, s: State)
    requires start >= 1 && limit >= 1 && n >= 1 && !Gap(chain, start, n - 1, limit) && Knows(chain, start, n, s)
    ensures s.Stopped(limit) <==> Gap(chain, start, n, limit)
  {
    if s.Stopped(limit) {
      assert s.maxExisting < start + n - s.nullStreak;
      assert GapAt(chain, start, start + n - limit, limit);
    }
    if Gap(chain, start, n, limit) {
      var a :| start < a <= start + n - limit && GapAt(chain, start, a, limit);
      assert a == start + n - limit;
      var r :| start <= r < a && chain(r).Round?;
      assert s.nullStreak < limit ==> a <= start + n - 1 - s.nullStreak < a + limit;
    }
  }

  /** The greatest active round of the window is found if no gap comes before it. */
  lemma GreatestActiveFound(chain: nat -> Entry, start: nat, n: nat, limit: nat, archivedMax: nat, g: nat)
    requires start >= 1 && limit >= 1 && start <= g < start + n && Active(chain(g))
    requires forall id :: g < id < start + n ==> !Active(chain(id))
    requires !Gap(chain, start, g - start, limit)
    ensures OneByOne(chain, start, n, limit).Answer(archivedMax) == g
  {
    StopsAtGap(chain, start, g - start, limit);
    ActiveStays(chain, start, g - start + 1, n, limit, g);
  }

  lemma {:induction false} ActiveStays(chain: nat -> Entry, start: nat, n: nat, m: nat, limit: nat, g: nat)
    requires n <= m && OneByOne(chain, start, n, limit).activeRound == g
    requires forall id :: start + n <= id < start + m ==> !Active(chain(id))
    ensures OneByOne(chain, start, m, limit).activeRound == g
    decreases m
  {
    if n < m { ActiveStays(chain, start, n, m - 1, limit, g); }
  }

  /** With no active round seen, the answer is the next id after the archive or after the last round the scan looked at,
      whichever is later. */
  lemma AnswerIsFree(chain: nat -> Entry, start: nat, n: nat, limit: nat, archivedMax: nat)
    requires start >= 1 && OneByOne(chain, start, n, limit).activeRound == 0
    ensures var last := OneByOne(chain, start, n, limit).Answer(archivedMax) - 1;
            last == archivedMax || (archivedMax < last && start <= last < start + n && chain(last).Round?)
    ensures OneByOne(chain, start, n, limit).Answer(archivedMax) > archivedMax
    ensures forall id :: start <= id < start + n && chain(id).Round? &&
                         !OneByOne(chain, start, id - start, limit).Stopped(limit) ==>
              OneByOne(chain, start, n, limit).Answer(archivedMax) > id
  {
    LastSeen(chain, start, n, limit);
    forall id | start <= id < start + n && chain(id).Round? && !OneByOne(chain, start, id - start, limit).Stopped(limit)
      ensures OneByOne(chain, start, n, limit).Answer(archivedMax) > id
    {
      SeenBelow(chain, start, id - start + 1, n, limit);
    }
  }

  lemma {:induction false} SeenBelow(chain: nat -> Entry, start: nat, n: nat, m: nat, limit: nat)
    requires n <= m
    ensures OneByOne(chain, start, n, limit).maxExisting <= OneByOne(chain, start, m, limit).maxExisting
    decreases m
  {
    if n < m {
      SeenBelow(chain, start, n, m - 1, limit);
      Within(chain, start, m - 1, limit);
    }
  }

  lemma {:induction false} LastSeen(chain: nat -> Entry, start: nat, n: nat, limit: nat)
    requires start >= 1
    ensures var last := OneByOne(chain, start, n, limit).maxExisting;
            last == 0 || (start <= last < start + n && chain(last).Round?)
  {
    if n > 0 { LastSeen(chain, start, n - 1, limit); }
  }

  lemma {:induction false} Within(chain: nat -> Entry, start: nat, n: nat, limit: nat)
    ensures OneByOne(chain, start, n, limit).maxExisting <= start + n
  {
    if n > 0 { Within(chain, start, n - 1, limit); }
  }
}
