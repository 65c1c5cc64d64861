/** The crank's per-round tables: which rounds are in background cleanup, and when each is tried again. */
module CrankTables {
  import opened Cleanup
  import Retry

  datatype Tables = Tables(
    background: set<nat>, archived: set<nat>, nextAttemptAt: map<nat, int>, backoff: map<nat, int>,
    retryCount: map<nat, nat>, lastReason: map<nat, Retry.Reason>, lastStats: map<nat, Stats>)
  {
    /** The schedule covers exactly the background rounds, the rest at most them, and every delay is within the limit. */
    ghost predicate Consistent(maxDelay: int)
    {
      && nextAttemptAt.Keys == background && backoff.Keys == background && retryCount.Keys == background
      && archived <= background && lastReason.Keys <= background && lastStats.Keys <= background
      && forall id :: id in backoff ==> 0 < backoff[id] <= maxDelay
    }

    /** Tracking a round that is new to the tables; a known one keeps its schedule. */
    function Track(id: nat, firstAttempt: int, minDelay: int): Tables
    {
      this.(background := background + {id},
            nextAttemptAt := if id in nextAttemptAt then nextAttemptAt else nextAttemptAt[id := firstAttempt],
            backoff := if id in backoff then backoff else backoff[id := minDelay],
            retryCount := if id in retryCount then retryCount else retryCount[id := 0])
    }

    function Clear(id: nat): Tables
    {
      Tables(background - {id}, archived - {id}, nextAttemptAt - {id}, backoff - {id}, retryCount - {id},
             lastReason - {id}, lastStats - {id})
    }

    function Reschedule(id: nat, u: Retry.Update): Tables
    {
      this.(backoff := backoff[id := u.nextDelay], nextAttemptAt := nextAttemptAt[id := u.nextAttemptAt],
            retryCount := retryCount[id := u.nextRetryCount], lastReason := lastReason[id := u.lastReason])
    }
  }

  /** No other round is rescheduled. */
  ghost predicate OthersKept(t: Tables, t': Tables, id: nat)
  {
    forall r :: r != id && r in t.nextAttemptAt ==> r in t'.nextAttemptAt && t'.nextAttemptAt[r] == t.nextAttemptAt[r]
  }

  lemma OthersSame(t: Tables, t': Tables, id: nat)
    requires t.nextAttemptAt == t'.nextAttemptAt
    ensures OthersKept(t, t', id)
  {
  }

  lemma OthersKeptTwice(t: Tables, t': Tables, t'': Tables, id: nat)
    requires OthersKept(t, t', id) && OthersKept(t', t'', id)
    ensures OthersKept(t, t'', id)
  {
  }

  const EMPTY := Tables({}, {}, map[], map[], map[], map[], map[])

  lemma TrackKeeps(t: Tables, id: nat, firstAttempt: int, minDelay: int, maxDelay: int)
    requires t.Consistent(maxDelay) && 0 < minDelay <= maxDelay
    ensures t.Track(id, firstAttempt, minDelay).Consistent(maxDelay)
    ensures id in t.background ==> t.Track(id, firstAttempt, minDelay) == t
    ensures var t' := t.Track(id, firstAttempt, minDelay);
      && t'.background == t.background + {id} && t'.archived == t.archived && t'.lastReason == t.lastReason
      && t'.lastStats == t.lastStats
      && (id !in t.background ==>
            t'.nextAttemptAt[id] == firstAttempt && t'.backoff[id] == minDelay && t'.retryCount[id] == 0)
      && forall r :: r in t.background ==>
           && t'.nextAttemptAt[r] == t.nextAttemptAt[r] && t'.backoff[r] == t.backoff[r]
           && t'.retryCount[r] == t.retryCount[r]
  {
    if id in t.background { assert t.background + {id} == t.background; }
  }

  /** Clearing forgets the round everywhere and keeps every other round's schedule. */
  lemma ClearKeeps(t: Tables, id: nat, maxDelay: int)
    requires t.Consistent(maxDelay)
    ensures t.Clear(id).Consistent(maxDelay) && t.Clear(id).background == t.background - {id}
    ensures forall r :: r in t.background && r != id ==>
              && r in t.Clear(id).background && t.Clear(id).nextAttemptAt[r] == t.nextAttemptAt[r]
              && t.Clear(id).backoff[r] == t.backoff[r] && t.Clear(id).retryCount[r] == t.retryCount[r]
  {
  }

  /** Tracking a new round and clearing it again leaves the tables as they were. */
  lemma TrackThenClear(t: Tables, id: nat, firstAttempt: int, minDelay: int, maxDelay: int)
    requires t.Consistent(maxDelay) && id !in t.background
    ensures t.Track(id, firstAttempt, minDelay).Clear(id) == t
  {
    assert t.background + {id} - {id} == t.background && t.archived - {id} == t.archived;
    assert t.nextAttemptAt[id := firstAttempt] - {id} == t.nextAttemptAt && t.backoff[id := minDelay] - {id} == t.backoff;
    assert t.retryCount[id := 0] - {id} == t.retryCount;
    assert t.lastReason - {id} == t.lastReason && t.lastStats - {id} == t.lastStats;
  }

  lemma NoteKeeps(t: Tables, id: nat, stats: Stats, maxDelay: int)
    requires t.Consistent(maxDelay) && id in t.background
    ensures t.(archived := t.archived + {id}).Consistent(maxDelay)
    ensures t.(lastStats := t.lastStats[id := stats]).Consistent(maxDelay)
  {
  }

  lemma RescheduleKeeps(t: Tables, id: nat, u: Retry.Update, maxDelay: int)
    requires t.Consistent(maxDelay) && id in t.background && 0 < u.nextDelay <= maxDelay
    ensures t.Reschedule(id, u).Consistent(maxDelay)
    ensures var t' := t.Reschedule(id, u);
      && t'.background == t.background && t'.archived == t.archived && t'.lastStats == t.lastStats
      && t'.nextAttemptAt[id] == u.nextAttemptAt && t'.backoff[id] == u.nextDelay
      && t'.retryCount[id] == u.nextRetryCount && id in t'.lastReason && t'.lastReason[id] == u.lastReason
      && forall r :: r in t.background && r != id ==>
           && t'.nextAttemptAt[r] == t.nextAttemptAt[r] && t'.backoff[r] == t.backoff[r]
           && t'.retryCount[r] == t.retryCount[r]
  {
    assert t.background + {id} == t.background;
  }
}
