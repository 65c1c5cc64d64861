/** The crank: one tick at a time it advances the current round and cleans up the rounds behind it. */
module Crank {
  import opened Basics
  import opened Cleanup
  import opened CrankTables
  import opened CrankTrace
  import Retry

  datatype Config = Config(
    lockBuffer: int, closeDelay: int, minDelay: int, maxDelay: int, batch: nat, cooldown: int, backfill: nat)

  /** A round whose timer may run out with nobody in it. */
  predicate Empty(r: Round) { r.participantsCount < 1 || r.totalTickets == 0 }

  predicate Terminal(f: Fetched) { f.Got? && f.round.status in {SETTLED, CLAIMED, CANCELLED} }

  /** The finished rounds from `lo` up to, not including, `hi`. */
  ghost function FinishedIn(chain: nat -> Fetched, lo: nat, hi: nat): set<nat>
  {
    set id | lo <= id < hi && Terminal(chain(id))
  }

  lemma FinishedNext(chain: nat -> Fetched, lo: nat, n: nat)
    requires lo <= n
    ensures FinishedIn(chain, lo, lo) == {}
    ensures FinishedIn(chain, lo, n + 1) ==
            if Terminal(chain(n)) then FinishedIn(chain, lo, n) + {n} else FinishedIn(chain, lo, n)
  {
  }

  ghost function Recoverable(chain: nat -> Fetched, current: nat, backfill: nat): set<nat>
  {
    if current <= 1 then {} else FinishedIn(chain, if current - backfill > 1 then current - backfill else 1, current + 1)
  }

  lemma RecoverableIs(chain: nat -> Fetched, current: nat, backfill: nat, id: nat)
    ensures id in Recoverable(chain, current, backfill) <==>
              && 1 < current && 1 <= id <= current <= id + backfill
              && chain(id).Got? && chain(id).round.status in {3, 4, 5}
  {
  }

  /** The next attempt at the round may be made. */
  predicate Due(t: Tables, id: nat, now: int) { id in t.nextAttemptAt && t.nextAttemptAt[id] <= now }

  class Crank {
    const cfg: Config
    ghost const first: nat

    var currentRoundId: nat
    var lastLockedRound: nat
    var lastCreatedRound: nat
    var lastVrfSentAt: int
    var tables: Tables
    var clock: int
    ghost var trace: seq<Event>

    /** The tables are consistent, and the state is what the run so far has made it: the background rounds are those
        tracked and not cleared, and the guards remember what was confirmed. */
    ghost predicate Valid()
      reads this
    {
      && 0 < cfg.minDelay <= cfg.maxDelay && tables.Consistent(cfg.maxDelay)
      && Lawful(first, cfg.cooldown, cfg.batch, trace)
      && tables.background == Pending(trace) && currentRoundId == Current(first, trace)
      && 0 <= lastVrfSentAt <= clock && Guarded(trace, currentRoundId, lastVrfSentAt, lastLockedRound, lastCreatedRound)
    }

    /** The crank at its first round, nothing tracked yet. */
    constructor (cfg: Config, found: nat, time: int)
      requires 0 < cfg.minDelay <= cfg.maxDelay && time >= 0
      ensures Valid() && this.cfg == cfg && currentRoundId == first == found && tables == EMPTY && trace == []
    {
      this.cfg := cfg;
      first := found;
      currentRoundId, lastLockedRound, lastCreatedRound, lastVrfSentAt := found, 0, 0, 0;
      tables, clock, trace := EMPTY, time, [];
    }

    // ----- the world -----

    /** `now`: a clock that does not go back. */
    method Now() returns (t: int)
      modifies this`clock
      ensures t == clock >= old(clock)
    {
      var passed :| passed >= 0;
      clock := clock + passed;
      t := clock;
    }

    /** Record an event other than a transaction. */
    ghost method Emit(e: Event)
      requires Lawful(first, cfg.cooldown, cfg.batch, trace)
      requires Allowed(first, cfg.cooldown, cfg.batch, trace, e) && !e.Sent?
      requires Guarded(trace, currentRoundId, lastVrfSentAt, lastLockedRound, lastCreatedRound)
      modifies this`trace
      ensures trace == old(trace) + [e] && Lawful(first, cfg.cooldown, cfg.batch, trace)
      ensures Pending(trace) == Kept(old(Pending(trace)), e)
      ensures Current(first, trace) == old(Current(first, trace)) + if e.Advanced? then 1 else 0
      ensures Guarded(trace, currentRoundId, lastVrfSentAt, lastLockedRound, lastCreatedRound)
    {
      hide Lawful, Allowed, Pending, Kept, Current, Guarded;
      GuardKept(trace, e, currentRoundId, lastVrfSentAt, lastLockedRound, lastCreatedRound);
      Extend(first, cfg.cooldown, cfg.batch, trace, e);
      trace := trace + [e];
    }

    /** `fetchRound`: any answer may come back. */
    method FetchRound(id: nat) returns (f: Fetched)
      requires Valid()
      modifies this`trace
      ensures Valid() && trace == old(trace) + [Read(id, f)]
    {
      hide Lawful, Pending, Current, Guarded;
      f := *;
      Emit(Read(id, f));
    }

    /** `signAndSend`, the only way out for a transaction: it has to be one the rules allow, and it is recorded with the
        answer, whatever that is. Confirmations the guards have to remember leave that to the caller. */
    method SignAndSend(tx: Tx) returns (reply: Reply)
      requires Valid() && MaySend(first, cfg.cooldown, cfg.batch, trace, tx, clock)
      modifies this`trace, this`clock
      ensures clock >= old(clock) && trace == old(trace) + [Sent(tx, reply, old(clock), clock)]
      ensures Lawful(first, cfg.cooldown, cfg.batch, trace)
      ensures tables.background == Pending(trace) && currentRoundId == Current(first, trace)
      ensures !Sent(tx, reply, old(clock), clock).Remembered() ==> Valid()
    {
      hide Lawful, MaySend, Pending, Current, Guarded;
      var before := clock;
      reply := *;
      var t := Now();
      ghost var e := Sent(tx, reply, before, t);
      Extend(first, cfg.cooldown, cfg.batch, trace, e);
      if !e.Remembered() { GuardKept(trace, e, currentRoundId, lastVrfSentAt, lastLockedRound, lastCreatedRound); }
      trace := trace + [e];
    }

    // ----- the tables -----

    /** `trackBackgroundRound`. */
    method TrackBackgroundRound(id: nat)
      requires Valid()
      modifies this`tables, this`clock, this`trace
      ensures clock >= old(clock)
      ensures Valid() && trace == old(trace) + [Tracked(id)]
      ensures tables == old(tables).Track(id, clock + cfg.closeDelay, cfg.minDelay)
    {
      hide Lawful, Pending, Current, Guarded;
      var t := Now();
      TrackKeeps(tables, id, t + cfg.closeDelay, cfg.minDelay, cfg.maxDelay);
      tables := tables.Track(id, t + cfg.closeDelay, cfg.minDelay);
      Emit(Tracked(id));
    }

    /** `clearBackgroundRound`, after a read that found nothing or a confirmed close. */
    method ClearBackgroundRound(id: nat)
      requires Valid() && |trace| > 0
      requires (trace[|trace| - 1] == Read(id, Missing) || trace[|trace| - 1].Did(CloseRoundTx(id)))
      modifies this`tables, this`trace
      ensures Valid() && trace == old(trace) + [Cleared(id)] && tables == old(tables).Clear(id)
    {
      hide Lawful, Pending, Current, Guarded;
      ClearKeeps(tables, id, cfg.maxDelay);
      tables := tables.Clear(id);
      Emit(Cleared(id));
    }

    /** `scheduleCleanupRetryOutcome`: the planned retry, unless the outcome leaves nothing pending. */
    method ScheduleCleanupRetry(id: nat, outcome: Retry.RetryOutcome) returns (scheduled: bool)
      requires Valid() && id in tables.background
      modifies this`tables, this`clock
      ensures clock >= old(clock)
      ensures Valid() && tables.background == old(tables.background)
      ensures id in tables.nextAttemptAt && (scheduled ==> tables.nextAttemptAt[id] > clock)
      ensures scheduled ==> id in tables.lastReason && Retry.Explains(outcome, tables.lastReason[id])
      ensures OthersKept(old(tables), tables, id)
      ensures scheduled <==> !(outcome.ParticipantsPending? && outcome.stats.existing <= outcome.stats.closed)
      ensures var plan := Retry.Plan(clock, outcome, cfg.minDelay, cfg.maxDelay,
                                    Some(old(tables).backoff[id]), Some(old(tables).retryCount[id]));
        tables == if plan.None? then old(tables) else old(tables).Reschedule(id, plan.value)
    {
      hide Lawful, Pending, Current, Guarded, Retry.Plan;
      var t := Now();
      var u := Retry.Plan(t, outcome, cfg.minDelay, cfg.maxDelay, Some(tables.backoff[id]), Some(tables.retryCount[id]));
      Retry.PlanLaw(t, outcome, cfg.minDelay, cfg.maxDelay, Some(tables.backoff[id]), Some(tables.retryCount[id]));
      if u.None? { return false; }
      RescheduleKeeps(tables, id, u.value, cfg.maxDelay);
      tables := tables.Reschedule(id, u.value);
      return true;
    }

    // ----- the current round -----

    /** Leave the current round to background cleanup and go on to the next, resetting the guards. */
    method Advance(vrfReset: bool)
      requires Valid()
      modifies this
      ensures clock >= old(clock)
      ensures Valid() && trace == old(trace) + [Tracked(old(currentRoundId)), Advanced(old(currentRoundId))]
      ensures currentRoundId == old(currentRoundId) + 1 && lastLockedRound == 0
      ensures lastVrfSentAt == (if vrfReset then 0 else old(lastVrfSentAt)) && lastCreatedRound == old(lastCreatedRound)
      ensures tables == old(tables).Track(old(currentRoundId), clock + cfg.closeDelay, cfg.minDelay)
    {
      hide Lawful, Pending, Current, Guarded;
      TrackBackgroundRound(currentRoundId);
      Emit(Advanced(currentRoundId));
      var vrf := if vrfReset then 0 else lastVrfSentAt;
      GuardAdvanced(trace, currentRoundId, lastVrfSentAt, lastLockedRound, lastCreatedRound, vrf, 0);
      currentRoundId, lastLockedRound, lastVrfSentAt := currentRoundId + 1, 0, vrf;
    }

    /** `handleStartRound`: start_round is sent only for a round just read as missing, and not again once confirmed. */
    method StartRound() returns (created: bool)
      requires Valid()
      modifies this`lastCreatedRound, this`trace, this`clock
      ensures clock >= old(clock)
      ensures Valid() && old(trace) <= trace
      ensures lastCreatedRound == old(lastCreatedRound) || old(lastCreatedRound) < lastCreatedRound == currentRoundId
      ensures created <==> |trace| > |old(trace)| && trace[|trace| - 1].Did(StartTx(currentRoundId))
      ensures old(lastCreatedRound) >= currentRoundId ==> trace == old(trace)
      ensures old(lastCreatedRound) < currentRoundId ==> StartsAt(trace, |old(trace)|, currentRoundId)
      ensures old(lastCreatedRound) < currentRoundId ==>
                lastCreatedRound == if KnownStarted(trace, currentRoundId) then currentRoundId else old(lastCreatedRound)
    {
      hide Lawful, Pending, Current, Guarded;
      if lastCreatedRound >= currentRoundId { return false; }
      var info := FetchRound(currentRoundId);
      if info.Threw? { return false; }
      if info.Got? {
        GuardRaised(trace, currentRoundId, lastVrfSentAt, lastLockedRound, lastCreatedRound);
        lastCreatedRound := currentRoundId;
        return false;
      }
      GuardTells(trace, currentRoundId, lastVrfSentAt, lastLockedRound, lastCreatedRound, 0);
      ghost var before := trace;
      var reply := SignAndSend(StartTx(currentRoundId));
      if reply.Confirmed? {
        GuardStarted(before, trace[|before|], currentRoundId, lastVrfSentAt, lastLockedRound, lastCreatedRound);
        lastCreatedRound := currentRoundId;
        return true;
      }
      var check := FetchRound(currentRoundId);
      if check.Got? {
        GuardRaised(trace, currentRoundId, lastVrfSentAt, lastLockedRound, lastCreatedRound);
        lastCreatedRound := currentRoundId;
      }
      return false;
    }

    /** `handleLockAndVrf` on the current round: nothing before the deadline and its buffer; then, on a fresh read that
        is open, an empty round or one rejected for its minimum requirements is passed over, any other is locked. */
    method LockAndVrf(rd: Round) returns (acted: bool, ghost again: Fetched, ghost s: Reply)
      requires Valid()
      modifies this
      ensures clock >= old(clock)
      ensures Valid() && old(trace) <= trace && lastCreatedRound == old(lastCreatedRound)
      ensures trace != old(trace) ==>
                old(lastLockedRound != currentRoundId) && rd.endTs != 0 && rd.endTs + cfg.lockBuffer <= clock
      ensures acted ==>
                again.Got? && again.round.status == OPEN && old(trace) + [Read(old(currentRoundId), again)] <= trace
      ensures acted && (Empty(again.round) || s.Rejected?) ==>
                && currentRoundId == old(currentRoundId) + 1 && old(currentRoundId) in tables.background
                && (Empty(again.round) || s.minRequirements)
      ensures acted && !Empty(again.round) && s.Confirmed? ==>
                && currentRoundId == old(currentRoundId) == lastLockedRound
                && |trace| == |old(trace)| + 2 && trace[|old(trace)| + 1].Did(LockTx(currentRoundId))
      ensures !acted ==>
                currentRoundId == old(currentRoundId) && tables == old(tables) && lastVrfSentAt == old(lastVrfSentAt)
      ensures old(lastLockedRound != currentRoundId) && rd.endTs != 0 && rd.endTs + cfg.lockBuffer <= old(clock) ==>
                LocksAt(trace, |old(trace)|, old(currentRoundId))
      ensures lastLockedRound != old(lastLockedRound) ==>
                if currentRoundId == old(currentRoundId)
                then lastLockedRound == currentRoundId && KnownLocked(trace, currentRoundId)
                else lastLockedRound == 0
    {
      again, s := Missing, Confirmed;
      hide Lawful, Pending, Current, Guarded;
      var id := currentRoundId;
      acted := false;
      if lastLockedRound == id { return; }
      var t := Now();
      if rd.endTs == 0 || t < rd.endTs + cfg.lockBuffer { return; }

      var seen := FetchRound(id);
      again := seen;
      if !seen.Got? || seen.round.status != OPEN { return; }
      if Empty(seen.round) {
        Advance(false);
        acted := true;
        return;
      }

      GuardTells(trace, id, lastVrfSentAt, lastLockedRound, lastCreatedRound, 0);
      ghost var before := trace;
      var reply := SignAndSend(LockTx(id));
      s := reply;
      if reply.Confirmed? {
        var done := Now();
        GuardRequested(before, trace[|before|], id, lastVrfSentAt, lastLockedRound, lastCreatedRound, done);
        lastLockedRound := id;
        lastVrfSentAt := done;
        acted := true;
        return;
      }
      if reply.minRequirements {
        Advance(false);
        acted := true;
        return;
      }
      var retry := FetchRound(id);
      if retry.Got? && retry.round.status != OPEN {
        GuardRaised(trace, id, lastVrfSentAt, lastLockedRound, lastCreatedRound);
        lastLockedRound := id;
      }
    }

    /** `handleRequestVrf` on the current round. */
    method RequestVrf() returns (acted: bool)
      requires Valid()
      modifies this`trace, this`clock, this`lastVrfSentAt
      ensures clock >= old(clock)
      ensures Valid() && old(trace) <= trace
      ensures acted ==> lastVrfSentAt >= old(lastVrfSentAt) + cfg.cooldown
      ensures acted <==> |trace| == |old(trace)| + 2 && trace[|old(trace)| + 1].Did(VrfTx(currentRoundId))
      ensures !acted ==> lastVrfSentAt == old(lastVrfSentAt)
      ensures ReadsAt(trace, |old(trace)|, currentRoundId)
      ensures old(clock - lastVrfSentAt) >= cfg.cooldown ==> RequestsAt(trace, |old(trace)|, currentRoundId)
    {
      hide Lawful, Pending, Current, Guarded;
      var id := currentRoundId;
      var again := FetchRound(id);
      if !again.Got? || again.round.status != LOCKED { return false; }
      var t := Now();
      if t - lastVrfSentAt < cfg.cooldown { return false; }
      GuardTells(trace, id, lastVrfSentAt, lastLockedRound, lastCreatedRound, t - cfg.cooldown);
      ghost var before := trace;
      var reply := SignAndSend(VrfTx(id));
      if reply.Rejected? { return false; }
      var done := Now();
      GuardRequested(before, trace[|before|], id, lastVrfSentAt, lastLockedRound, lastCreatedRound, done);
      lastVrfSentAt := done;
      return true;
    }

    // ----- background cleanup -----

    /** Save the round to the archive once; a failure is left for a later pass. */
    method Archive(id: nat)
      requires Valid() && id in tables.background
      modifies this`tables
      ensures Valid() && tables.background == old(tables.background) && OthersKept(old(tables), tables, id)
      ensures tables.nextAttemptAt == old(tables.nextAttemptAt)
    {
      hide Lawful, Pending, Current, Guarded, Tables.Consistent;
      if id !in tables.archived {
        var saved: bool := *;
        NoteKeeps(tables, id, Stats(0, 0, 0, 0, 0), cfg.maxDelay);
        if saved { tables := tables.(archived := tables.archived + {id}); }
      }
    }

    /** Ask for all participant accounts of a round just read as finished: an error, or any answer. */
    method LookAtParticipants(id: nat, cancelled: bool) returns (threw: bool, accounts: seq<Account>)
      requires Valid() && LastReads(trace, id, if cancelled then CANCELLED else CLAIMED)
      modifies this`trace
      ensures Valid() && trace == old(trace) + [if threw then LookFailed(id) else Looked(id, cancelled, accounts)]
    {
      hide Lawful, Pending, Current, Guarded;
      threw, accounts := *, *;
      Emit(if threw then LookFailed(id) else Looked(id, cancelled, accounts));
    }

    /** Send the closings of the first closable accounts after a look; `sent` tells which were confirmed. */
    method CloseBatch(id: nat, cancelled: bool, accounts: seq<Account>, users: seq<nat>) returns (sent: seq<bool>)
      requires Valid() && |trace| > 0 && trace[|trace| - 1] == Looked(id, cancelled, accounts)
      requires users == ClosableAt(accounts, cancelled)
      modifies this`trace, this`clock
      ensures clock >= old(clock) && Valid() && old(trace) <= trace
      ensures PassDone(trace, |old(trace)| - 1, id, cfg.batch, Pass(cancelled, accounts, sent))
    {
      hide Lawful, Pending, Current, Guarded, ClosableAt;
      ghost var w := |trace| - 1;
      sent := [];
      while |sent| < Min(cfg.batch, |users|)
        invariant Valid() && clock >= old(clock) && old(trace) <= trace
        invariant |trace| == w + 1 + |sent| && |sent| <= Min(cfg.batch, |users|) && PassFrom(trace, w, id)
        invariant forall m :: 0 <= m < |sent| ==> sent[m] == trace[w + 1 + m].reply.Confirmed?
      {
        assert NextToClose(trace, w, id, cfg.batch, users[|sent|]);
        var reply := SignAndSend(CloseParticipantTx(id, users[|sent|]));
        sent := sent + [reply.Confirmed?];
      }
      assert PassOf(trace, w).sent == sent;
    }

    /** `cleanupParticipantPdas` and the retry it calls for: a pass over the participants, recorded with what was there
        and what was confirmed closed, and a retry if it leaves anything pending. */
    method CloseParticipants(id: nat, cancelled: bool) returns (threw: bool, pending: bool)
      requires Valid() && id in tables.background && LastReads(trace, id, if cancelled then CANCELLED else CLAIMED)
      modifies this`tables, this`clock, this`trace
      ensures clock >= old(clock)
      ensures Valid() && old(trace) <= trace && tables.background == old(tables.background)
      ensures !threw ==> |trace| > |old(trace)| && trace[|trace| - 1].Scanned? && trace[|trace| - 1].id == id
      ensures !threw ==>
                var stats := trace[|trace| - 1].pass.Counted();
                pending <==> stats.existing > stats.closed
      ensures !threw && pending ==> id in tables.nextAttemptAt && tables.nextAttemptAt[id] > clock
      ensures OthersKept(old(tables), tables, id)
      ensures !threw && pending ==> id in tables.lastReason
      ensures !threw && pending ==>
                var c := trace[|trace| - 1].pass.Counted();
                Retry.Explains(Retry.ParticipantsPending(Retry.Counts(c.existing, c.closed, c.blockedByRefund)),
                               tables.lastReason[id])
      ensures !threw && |trace[|trace| - 1].pass.accounts| > 0 ==>
                id in tables.lastStats && tables.lastStats[id] == trace[|trace| - 1].pass.Counted()
      ensures threw ==> trace == old(trace) + [LookFailed(id)]
      ensures !threw ==> PassDone(trace[..|trace| - 1], |old(trace)|, id, cfg.batch, trace[|trace| - 1].pass)
    {
      hide Lawful, Pending, Current, Guarded, Tables.Consistent, Pass.Counted, Pass.Valid, PassDone, Retry.Explains;
      hide OthersKept;
      var accounts;
      pending := false;
      threw, accounts := LookAtParticipants(id, cancelled);
      OthersSame(old(tables), tables, id);
      if threw { return; }
      var existing, blocked, unreadable, users := Scan(cancelled, accounts);
      var sent := CloseBatch(id, cancelled, accounts, users);
      ghost var pass := Pass(cancelled, accounts, sent);
      Emit(Scanned(id, pass));
      var stats := Count(existing, blocked, unreadable, |users|, sent);
      CountedIs(pass, stats);
      pending := NotePass(id, stats, |accounts| > 0);
    }

    /** Note the counters of a pass, if it looked at any address, and plan a retry if it leaves anything pending. */
    method NotePass(id: nat, stats: Stats, any: bool) returns (pending: bool)
      requires Valid() && id in tables.background
      modifies this`tables, this`clock
      ensures clock >= old(clock) && Valid() && tables.background == old(tables.background)
      ensures OthersKept(old(tables), tables, id) && (pending <==> stats.existing > stats.closed)
      ensures pending ==> id in tables.nextAttemptAt && tables.nextAttemptAt[id] > clock && id in tables.lastReason
      ensures pending ==>
                var counts := Retry.Counts(stats.existing, stats.closed, stats.blockedByRefund);
                Retry.Explains(Retry.ParticipantsPending(counts), tables.lastReason[id])
      ensures any ==> id in tables.lastStats && tables.lastStats[id] == stats
    {
      hide Lawful, Pending, Current, Guarded, Tables.Consistent, Retry.Plan, Retry.Explains;
      NoteKeeps(tables, id, stats, cfg.maxDelay);
      if any { tables := tables.(lastStats := tables.lastStats[id := stats]); }
      var counts := Retry.Counts(stats.existing, stats.closed, stats.blockedByRefund);
      pending := ScheduleCleanupRetry(id, Retry.ParticipantsPending(counts));
    }

    /** Send close_round for a round just read as finished, after a pass that left nothing pending. */
    method CloseRound(id: nat)
      requires Valid() && id in tables.background
      requires MaySend(first, cfg.cooldown, cfg.batch, trace, CloseRoundTx(id), clock)
      modifies this`tables, this`clock, this`trace
      ensures clock >= old(clock)
      ensures Valid() && old(trace) <= trace
      ensures tables.background in {old(tables.background), old(tables.background) - {id}}
      ensures id !in tables.background ==> |trace| == |old(trace)| + 2 && trace[|old(trace)|].Did(CloseRoundTx(id))
      ensures id in tables.background ==> id in tables.nextAttemptAt && tables.nextAttemptAt[id] > clock
      ensures OthersKept(old(tables), tables, id) && SendsAt(trace, |old(trace)|, CloseRoundTx(id))
      ensures trace[|old(trace)|].reply.Confirmed? ==>
                |trace| == |old(trace)| + 2 && trace[|old(trace)| + 1] == Cleared(id)
      ensures trace[|old(trace)|].reply.Rejected? ==>
                id in tables.lastReason && tables.lastReason[id] == Retry.CloseFailed(trace[|old(trace)|].reply.message)
    {
      hide Lawful, Pending, Current, Guarded, Tables.Consistent, MaySend, Retry.Plan;
      var reply := SignAndSend(CloseRoundTx(id));
      if reply.Confirmed? {
        ClearBackgroundRound(id);
      } else {
        var _ := ScheduleCleanupRetry(id, Retry.CloseRoundFailed(reply.message));
      }
    }

    /** `handleTerminalRoundCleanup`: archive, close participants, and close the round once nothing is pending. */
    method CleanUpRound(id: nat, rd: Round) returns (threw: bool)
      requires Valid() && id in tables.background && |trace| > 0 && trace[|trace| - 1] == Read(id, Got(rd))
      requires rd.status == CLAIMED || rd.status == CANCELLED
      modifies this`tables, this`clock, this`trace
      ensures clock >= old(clock)
      ensures Valid() && old(trace) <= trace
      ensures tables.background in {old(tables.background), old(tables.background) - {id}}
      ensures threw ==> id in tables.background
      ensures !threw && id in tables.background ==> id in tables.nextAttemptAt && tables.nextAttemptAt[id] > old(clock)
      ensures OthersKept(old(tables), tables, id)
      ensures Due(old(tables), id, old(clock)) ==>
                CleansAt(trace, |old(trace)|, id, cfg.batch)
    {
      hide Lawful, Pending, Current, Guarded, Tables.Consistent, Pass.Counted, PassDone, CleansAt, ClosesAt, OthersKept;
      hide Retry.Explains;
      var due := AllowCleanupNow(id);
      if !due {
        OthersSame(old(tables), tables, id);
        return false;
      }
      Archive(id);
      ghost var archived := tables;
      var pending;
      threw, pending := CloseParticipants(id, rd.status == CANCELLED);
      OthersKeptTwice(old(tables), archived, tables, id);
      ghost var scanned, closed := trace, tables;
      if threw {
        LookEnded(trace, |old(trace)|, id, cfg.batch);
        return;
      }
      if !pending {
        threw := Conclude(id);
        OthersKeptTwice(old(tables), closed, tables, id);
      }
      PassEnded(scanned, trace, |old(trace)|, id, cfg.batch);
    }

    /** The end of `handleTerminalRoundCleanup`, after a pass that left nothing pending: read the round again and close it
        if it is still finished. */
    method Conclude(id: nat) returns (threw: bool)
      requires Valid() && id in tables.background && |trace| > 0
      requires trace[|trace| - 1].Scanned? && trace[|trace| - 1].id == id
      requires trace[|trace| - 1].pass.Counted().existing <= trace[|trace| - 1].pass.Counted().closed
      modifies this`tables, this`clock, this`trace
      ensures clock >= old(clock) && Valid() && old(trace) <= trace
      ensures tables.background in {old(tables.background), old(tables.background) - {id}}
      ensures threw ==> id in tables.background
      ensures !threw && id in tables.background ==> id in tables.nextAttemptAt && tables.nextAttemptAt[id] > old(clock)
      ensures OthersKept(old(tables), tables, id) && ClosesAt(trace, |old(trace)|, id)
      ensures var f := trace[|old(trace)|].seen;
        f.Got? && f.round.status != CLAIMED && f.round.status != CANCELLED ==>
          id in tables.lastReason && tables.lastReason[id] == Retry.LeftTerminal(f.round.status)
    {
      hide Lawful, Pending, Current, Guarded, Tables.Consistent, Pass.Counted, Retry.Plan, MaySend;
      ghost var scanned := trace;
      var again := FetchRound(id);
      if again.Threw? { return true; }
      if again.Missing? {
        ClearBackgroundRound(id);
      } else if again.round.status != CLAIMED && again.round.status != CANCELLED {
        var _ := ScheduleCleanupRetry(id, Retry.LeftTerminalState(again.round.status));
      } else {
        ReadyToClose(first, cfg.cooldown, cfg.batch, scanned, id, again.round, clock);
        CloseRound(id);
      }
      return false;
    }

    /** `allowCleanupNow`: if not, the next attempt lies ahead. */
    method AllowCleanupNow(id: nat) returns (due: bool)
      requires Valid() && id in tables.background
      modifies this`clock
      ensures clock >= old(clock) && Valid()
      ensures id in tables.nextAttemptAt && (due <==> clock >= tables.nextAttemptAt[id])
    {
      hide Lawful, Pending, Current, Guarded;
      var t := Now();
      due := t >= tables.nextAttemptAt[id];
    }

    /** `processBackgroundRounds`: each background round in turn, in any order, is read; an error is a reason to retry. */
    method ProcessBackgroundRounds()
      requires Valid()
      modifies this`tables, this`clock, this`trace
      ensures clock >= old(clock)
      ensures Valid() && old(trace) <= trace && tables.background <= old(tables.background)
      ensures forall id :: id in old(tables.background) ==>
                Served(trace, |old(trace)|, id, cfg.batch, Due(old(tables), id, old(clock)))
    {
      hide Lawful, Pending, Current, Guarded, Tables.Consistent, Served, ServesAt, Retry.Plan;
      var todo := tables.background;
      while todo != {}
        invariant Valid() && clock >= old(clock) && old(trace) <= trace
        invariant todo <= tables.background <= old(tables.background)
        invariant forall id :: id in todo && id in old(tables).nextAttemptAt ==>
                    id in tables.nextAttemptAt && tables.nextAttemptAt[id] == old(tables).nextAttemptAt[id]
        invariant forall id :: id in old(tables.background) - todo ==>
                    Served(trace, |old(trace)|, id, cfg.batch, Due(old(tables), id, old(clock)))
        decreases |todo|
      {
        var id :| id in todo;
        todo := todo - {id};
        ghost var before, due := trace, Due(tables, id, clock);
        ProcessRound(id);
        ServedNow(trace, |old(trace)|, |before|, id, cfg.batch, due, Due(old(tables), id, old(clock)));
        forall r | r in old(tables.background) - todo && r != id
          ensures Served(trace, |old(trace)|, r, cfg.batch, Due(old(tables), r, old(clock)))
        {
          ServedGrows(before, trace, |old(trace)|, r, cfg.batch, Due(old(tables), r, old(clock)));
        }
      }
    }

    /** One round of `processBackgroundRounds`. */
    method ProcessRound(id: nat)
      requires Valid() && id in tables.background
      modifies this`tables, this`clock, this`trace
      ensures clock >= old(clock)
      ensures Valid() && old(trace) <= trace
      ensures tables.background in {old(tables.background), old(tables.background) - {id}}
      ensures |old(trace)| < |trace| && trace[|old(trace)|].Read? && trace[|old(trace)|].id == id
      ensures trace[|old(trace)|].seen.Missing? ==> id !in tables.background
      ensures var f := trace[|old(trace)|].seen;
        id in tables.background && (f.Threw? || (f.Got? && f.round.status in {CLAIMED, CANCELLED})) ==>
          id in tables.nextAttemptAt && tables.nextAttemptAt[id] > old(clock)
      ensures OthersKept(old(tables), tables, id)
      ensures ServesAt(trace, |old(trace)|, id, cfg.batch, Due(old(tables), id, old(clock)))
      ensures trace[|old(trace)|].seen.Threw? ==>
                id in tables.lastReason && tables.lastReason[id] == Retry.Background("")
    {
      hide Lawful, Pending, Current, Guarded, Tables.Consistent, Retry.Plan;
      var rd := FetchRound(id);
      var threw := rd.Threw?;
      if rd.Missing? {
        ClearBackgroundRound(id);
      } else if rd.Got? && (rd.round.status == CLAIMED || rd.round.status == CANCELLED) {
        threw := CleanUpRound(id, rd.round);
      }
      if threw {
        var _ := ScheduleCleanupRetry(id, Retry.BackgroundError(""));
      }
    }

    // ----- the loop -----

    /** `tick`: the background rounds are all read and served, then the current round is read, at position `at`. A missing
        one is started, an open one past its end locked, a locked one given its VRF request, each unless its guard says
        that was done; a finished one is passed on to the background. Otherwise nothing happens. */
    method Tick() returns (ghost seen: Fetched, ghost at: nat)
      requires Valid()
      modifies this
      ensures clock >= old(clock)
      ensures Valid() && old(trace) <= trace
      ensures forall id :: id in old(tables.background) ==>
                Served(trace, |old(trace)|, id, cfg.batch, Due(old(tables), id, old(clock)))
      ensures old(currentRoundId) <= currentRoundId <= old(currentRoundId) + 1
      ensures currentRoundId > old(currentRoundId) ==> old(currentRoundId) in tables.background
      ensures Terminal(seen) ==> currentRoundId == old(currentRoundId) + 1 && lastVrfSentAt == 0
      ensures !Terminal(seen) && !(seen.Got? && seen.round.status == OPEN) ==> currentRoundId == old(currentRoundId)
      ensures |old(trace)| <= at < |trace| && trace[at] == Read(old(currentRoundId), seen)
      ensures seen.Missing? ==>
                if old(lastCreatedRound < currentRoundId) then StartsAt(trace, at + 1, old(currentRoundId))
                else |trace| == at + 1
      ensures Reads(trace[at], old(currentRoundId), OPEN) && old(lastLockedRound != currentRoundId) &&
              seen.round.endTs != 0 && seen.round.endTs + cfg.lockBuffer <= old(clock) ==>
                LocksAt(trace, at + 1, old(currentRoundId))
      ensures Reads(trace[at], old(currentRoundId), OPEN) &&
              (old(lastLockedRound == currentRoundId) || seen.round.endTs == 0 ||
               clock < seen.round.endTs + cfg.lockBuffer) ==>
                |trace| == at + 1
      ensures Reads(trace[at], old(currentRoundId), LOCKED) && old(clock - lastVrfSentAt) >= cfg.cooldown ==>
                RequestsAt(trace, at + 1, old(currentRoundId))
      ensures lastCreatedRound != old(lastCreatedRound) ==>
                lastCreatedRound == currentRoundId && KnownStarted(trace, currentRoundId)
      ensures lastLockedRound != old(lastLockedRound) ==>
                if currentRoundId == old(currentRoundId)
                then lastLockedRound == currentRoundId && KnownLocked(trace, currentRoundId)
                else lastLockedRound == 0
      ensures Terminal(seen) ==> |trace| == at + 3 && MovesOnAt(trace, at + 1, old(currentRoundId))
      ensures seen.Threw? || Reads(trace[at], old(currentRoundId), VRF_REQUESTED) ==> |trace| == at + 1
    {
      hide Lawful, Pending, Current, Guarded, Tables.Consistent, Served;
      ProcessBackgroundRounds();
      ghost var processed := trace;
      at := |trace|;
      var rd := FetchRound(currentRoundId);
      seen := rd;
      if rd.Missing? {
        var _ := StartRound();
      } else if rd.Got? && rd.round.status == OPEN {
        var _, _, _ := LockAndVrf(rd.round);
      } else if rd.Got? && rd.round.status == LOCKED {
        var _ := RequestVrf();
      } else if rd.Got? && rd.round.status in {SETTLED, CLAIMED, CANCELLED} {
        Advance(true);
      }
      forall id | id in old(tables.background)
        ensures Served(trace, |old(trace)|, id, cfg.batch, Due(old(tables), id, old(clock)))
      {
        ServedGrows(processed, trace, |old(trace)|, id, cfg.batch, Due(old(tables), id, old(clock)));
      }
    }

    /** `recoverBackgroundRoundsOnStartup`: of the last rounds up to the current one, those already finished are
        tracked. */
    method RecoverBackgroundRounds(chain: nat -> Fetched)
      requires Valid()
      modifies this`tables, this`clock, this`trace
      ensures clock >= old(clock)
      ensures Valid() && old(trace) <= trace
      ensures tables.background == old(tables.background) + Recoverable(chain, currentRoundId, cfg.backfill)
      ensures forall id :: id in tables.background <==>
                id in old(tables.background) ||
                (1 < currentRoundId && 1 <= id <= currentRoundId <= id + cfg.backfill &&
                 chain(id).Got? && chain(id).round.status in {3, 4, 5})
    {
      hide Lawful, Pending, Current, Guarded, Tables.Consistent, FinishedIn, Terminal;
      ghost var was := tables.background;
      forall id { RecoverableIs(chain, currentRoundId, cfg.backfill, id); }
      if currentRoundId <= 1 {
        assert was + {} == was;
        return;
      }
      var start := if currentRoundId - cfg.backfill > 1 then currentRoundId - cfg.backfill else 1;
      FinishedNext(chain, start, start);
      assert was + {} == was;
      var base := start;
      while base <= currentRoundId
        invariant Valid() && clock >= old(clock) && old(trace) <= trace && start <= base
        invariant tables.background == was + FinishedIn(chain, start, Min(base, currentRoundId + 1))
      {
        var end := Min(base + 25, currentRoundId + 1);
        var id := base;
        while id < end
          invariant Valid() && clock >= old(clock) && old(trace) <= trace && base <= id <= end
          invariant tables.background == was + FinishedIn(chain, start, id)
        {
          FinishedNext(chain, start, id);
          if Terminal(chain(id)) {
            TrackBackgroundRound(id);
            assert was + FinishedIn(chain, start, id) + {id} == was + (FinishedIn(chain, start, id) + {id});
          }
          id := id + 1;
        }
        base := base + 25;
      }
    }

    /** Any number of ticks: no round that was passed over is lost. */
    method Run(ticks: nat)
      requires Valid()
      modifies this
      ensures Valid() && old(trace) <= trace && old(currentRoundId) <= currentRoundId <= old(currentRoundId) + ticks
      ensures forall id :: first <= id < currentRoundId ==>
                id in tables.background || exists j :: ClearedFor(trace, j, id)
    {
      hide Lawful, Pending, Current, Guarded, Tables.Consistent, ClearedFor;
      for i := 0 to ticks
        invariant Valid() && old(trace) <= trace && old(currentRoundId) <= currentRoundId <= old(currentRoundId) + i
      {
        var _, _ := Tick();
      }
      forall id | first <= id < currentRoundId ensures id in tables.background || exists j :: ClearedFor(trace, j, id) {
        NoRoundLost(first, cfg.cooldown, cfg.batch, trace, id);
      }
    }
  }
}
