/** What a run of the crank does, as a list of events, and what every lawful list of events guarantees. */
module CrankTrace {
  import opened Basics
  import opened Cleanup

  const OPEN: nat := 0
  const LOCKED: nat := 1
  const VRF_REQUESTED: nat := 2
  const SETTLED: nat := 3
  const CLAIMED: nat := 4
  const CANCELLED: nat := 5

  /** The fields of a round that the crank decides by. */
  datatype Round = Round(status: nat, endTs: int, participantsCount: nat, totalTickets: nat)

  datatype Fetched = Threw | Missing | Got(round: Round)

  /** The transactions of the crank; a participant is named by the position of its key in the round. */
  datatype Tx =
    | StartTx(id: nat)
    | LockTx(id: nat)
    | VrfTx(id: nat)
    | CloseParticipantTx(id: nat, position: nat)
    | CloseRoundTx(id: nat)

  datatype Reply = Confirmed | Rejected(minRequirements: bool, message: string)

  /** `Looked` is the answer to the request for all participant accounts, `LookFailed` an error instead of one, `Scanned`
      the pass that came of it. */
  datatype Event =
    | Read(id: nat, seen: Fetched)
    | Sent(tx: Tx, reply: Reply, sentAt: int, doneAt: int)
    | Looked(id: nat, cancelled: bool, accounts: seq<Account>)
    | LookFailed(id: nat)
    | Scanned(id: nat, pass: Pass)
    | Tracked(id: nat)
    | Advanced(id: nat)
    | Cleared(id: nat)
  {
    /** A confirmed transaction. */
    predicate Did(t: Tx) { Sent? && reply.Confirmed? && tx == t }

    predicate IsVrf(round: nat) { Did(LockTx(round)) || Did(VrfTx(round)) }

    /** Confirmations the guards of the crank remember. */
    predicate Remembered() { Sent? && reply.Confirmed? && (tx.LockTx? || tx.VrfTx? || tx.StartTx?) }
  }

  /** The rounds tracked and not cleared since. */
  function Pending(t: seq<Event>): set<nat>
  {
    if |t| == 0 then {} else Kept(Pending(t[..|t| - 1]), t[|t| - 1])
  }

  function Kept(pending: set<nat>, e: Event): set<nat>
  {
    if e.Tracked? then pending + {e.id} else if e.Cleared? then pending - {e.id} else pending
  }

  /** The round the crank is at after `t`, having started at `first`. */
  function Current(first: nat, t: seq<Event>): nat
  {
    if |t| == 0 then first else Current(first, t[..|t| - 1]) + if t[|t| - 1].Advanced? then 1 else 0
  }

  ghost predicate Reads(e: Event, id: nat, status: nat)
  {
    e.Read? && e.id == id && e.seen.Got? && e.seen.round.status == status
  }

  ghost predicate LastReads(t: seq<Event>, id: nat, status: nat) { |t| > 0 && Reads(t[|t| - 1], id, status) }

  /** Every confirmed VRF request for the round was done by `bound`. */
  ghost predicate VrfDoneBy(t: seq<Event>, id: nat, bound: int)
  {
    forall i :: 0 <= i < |t| && t[i].IsVrf(id) ==> t[i].doneAt <= bound
  }

  ghost predicate NeverDid(t: seq<Event>, tx: Tx) { forall i :: 0 <= i < |t| ==> !t[i].Did(tx) }

  // ----- passes over the participants -----

  /** From position `i` on, `t` is a look at the participants of the round and closings of the first closable ones. */
  ghost predicate PassFrom(t: seq<Event>, i: nat, id: nat)
  {
    && i < |t| && t[i].Looked? && t[i].id == id
    && var closable := ClosableAt(t[i].accounts, t[i].cancelled);
       && |t| - 1 - i <= |closable|
       && forall m :: i < m < |t| ==> t[m].Sent? && t[m].tx == CloseParticipantTx(id, closable[m - i - 1])
  }

  /** The record of that pass. */
  ghost function PassOf(t: seq<Event>, i: nat): Pass
    requires i < |t| && t[i].Looked?
  {
    Pass(t[i].cancelled, t[i].accounts,
         seq(|t| - 1 - i, m requires 0 <= m < |t| - 1 - i => t[i + 1 + m].Sent? && t[i + 1 + m].reply.Confirmed?))
  }

  /** The next closing of the pass is of the account at `position`. */
  ghost predicate NextToClose(t: seq<Event>, i: nat, id: nat, batch: nat, position: nat)
  {
    && PassFrom(t, i, id)
    && var closable, k := ClosableAt(t[i].accounts, t[i].cancelled), |t| - 1 - i;
       k < Min(batch, |closable|) && closable[k] == position
  }

  ghost predicate PassDone(t: seq<Event>, i: nat, id: nat, batch: nat, pass: Pass)
  {
    PassFrom(t, i, id) && pass == PassOf(t, i) && pass.Valid(batch)
  }

  // ----- what the guards remember -----

  /** What the guards of a crank at round `current` remember of its confirmed transactions. */
  ghost predicate Guarded(t: seq<Event>, current: nat, lastVrfSentAt: int, lastLockedRound: nat, lastCreatedRound: nat)
  {
    && VrfDoneBy(t, current, lastVrfSentAt)
    && (NeverDid(t, LockTx(current)) || lastLockedRound == current)
    && forall i :: 0 <= i < |t| && t[i].Remembered() ==>
         t[i].tx.id <= current && (t[i].tx.StartTx? ==> t[i].tx.id <= lastCreatedRound)
  }

  /** Another event changes nothing for the guards unless they have to remember it. */
  lemma GuardKept(t: seq<Event>, e: Event, current: nat, vrf: int, locked: nat, created: nat)
    requires Guarded(t, current, vrf, locked, created) && !e.Remembered()
    ensures Guarded(t + [e], current, vrf, locked, created)
  {
  }

  /** After a confirmed request for the current round. */
  lemma GuardRequested(t: seq<Event>, e: Event, current: nat, vrf: int, locked: nat, created: nat, now: int)
    requires Guarded(t, current, vrf, locked, created) && e.IsVrf(current) && vrf <= e.doneAt <= now
    ensures Guarded(t + [e], current, now, if e.tx.LockTx? then current else locked, created)
  {
  }

  /** After a confirmed start of the current round. */
  lemma GuardStarted(t: seq<Event>, e: Event, current: nat, vrf: int, locked: nat, created: nat)
    requires Guarded(t, current, vrf, locked, created) && e.Did(StartTx(current)) && created <= current
    ensures Guarded(t + [e], current, vrf, locked, current)
  {
  }

  /** The next round has no requests yet, whatever the guards are set to. */
  lemma GuardAdvanced(t: seq<Event>, current: nat, vrf: int, locked: nat, created: nat, vrf': int, locked': nat)
    requires Guarded(t, current, vrf, locked, created)
    ensures Guarded(t, current + 1, vrf', locked', created)
  {
  }

  /** A guard may be raised to the current round. */
  lemma GuardRaised(t: seq<Event>, current: nat, vrf: int, locked: nat, created: nat)
    requires Guarded(t, current, vrf, locked, created)
    ensures Guarded(t, current, vrf, current, created)
    ensures created <= current ==> Guarded(t, current, vrf, locked, current)
  {
  }

  /** What a guard that lets a transaction pass knows. */
  lemma GuardTells(t: seq<Event>, current: nat, vrf: int, locked: nat, created: nat, bound: int)
    requires Guarded(t, current, vrf, locked, created)
    ensures locked != current ==> NeverDid(t, LockTx(current))
    ensures created < current ==> NeverDid(t, StartTx(current))
    ensures vrf <= bound ==> VrfDoneBy(t, current, bound)
  {
  }

  // ----- the rules -----

  /** What the crank may send after `t`, at time `now`. */
  ghost predicate MaySend(first: nat, cooldown: int, batch: nat, t: seq<Event>, tx: Tx, now: int)
  {
    match tx
    case StartTx(id) => id == Current(first, t) && |t| > 0 && t[|t| - 1] == Read(id, Missing) && NeverDid(t, tx)
    case LockTx(id) => id == Current(first, t) && LastReads(t, id, OPEN) && NeverDid(t, tx)
    case VrfTx(id) => id == Current(first, t) && LastReads(t, id, LOCKED) && VrfDoneBy(t, id, now - cooldown)
    case CloseParticipantTx(id, position) => exists i :: NextToClose(t, i, id, batch, position)
    case CloseRoundTx(id) =>
      && |t| >= 2 && t[|t| - 2].Scanned? && t[|t| - 2].id == id
      && t[|t| - 2].pass.Counted().existing <= t[|t| - 2].pass.Counted().closed
      && (LastReads(t, id, CLAIMED) || LastReads(t, id, CANCELLED))
  }

  /** After a pass that left nothing pending, a read of a finished round opens the way to close it. */
  lemma ReadyToClose(first: nat, cooldown: int, batch: nat, t: seq<Event>, id: nat, r: Round, now: int)
    requires |t| > 0 && t[|t| - 1].Scanned? && t[|t| - 1].id == id && (r.status == CLAIMED || r.status == CANCELLED)
    requires t[|t| - 1].pass.Counted().existing <= t[|t| - 1].pass.Counted().closed
    ensures MaySend(first, cooldown, batch, t + [Read(id, Got(r))], CloseRoundTx(id), now)
  {
    hide Pass.Counted;
  }

  /** What may happen next after `t`. */
  ghost predicate Allowed(first: nat, cooldown: int, batch: nat, t: seq<Event>, e: Event)
  {
    match e
    case Read(_, _) => true
    case Tracked(_) => true
    case Sent(tx, _, sentAt, doneAt) => sentAt <= doneAt && MaySend(first, cooldown, batch, t, tx, sentAt)
    case Looked(id, cancelled, _) => LastReads(t, id, if cancelled then CANCELLED else CLAIMED)
    case LookFailed(_) => true
    case Scanned(id, pass) => exists i :: PassDone(t, i, id, batch, pass)
    case Advanced(id) => id == Current(first, t) && |t| > 0 && t[|t| - 1] == Tracked(id)
    case Cleared(id) => |t| > 0 && (t[|t| - 1] == Read(id, Missing) || t[|t| - 1].Did(CloseRoundTx(id)))
  }

  ghost predicate Lawful(first: nat, cooldown: int, batch: nat, t: seq<Event>)
  {
    |t| == 0 || (Lawful(first, cooldown, batch, t[..|t| - 1]) && Allowed(first, cooldown, batch, t[..|t| - 1], t[|t| - 1]))
  }

  lemma Extend(first: nat, cooldown: int, batch: nat, t: seq<Event>, e: Event)
    requires Lawful(first, cooldown, batch, t) && Allowed(first, cooldown, batch, t, e)
    ensures Lawful(first, cooldown, batch, t + [e])
    ensures Pending(t + [e]) == Kept(Pending(t), e)
    ensures Current(first, t + [e]) == Current(first, t) + if e.Advanced? then 1 else 0
  {
    hide Allowed, Kept;
    assert (t + [e])[..|t|] == t;
  }

  lemma {:induction false} AllowedAt(first: nat, cooldown: int, batch: nat, t: seq<Event>, i: nat)
    requires Lawful(first, cooldown, batch, t) && i < |t|
    ensures Allowed(first, cooldown, batch, t[..i], t[i])
    decreases |t|
  {
    hide Allowed;
    var n := |t| - 1;
    if i < n {
      AllowedAt(first, cooldown, batch, t[..n], i);
      assert t[..n][..i] == t[..i];
    }
  }

  // ----- what the crank does when it is time -----

  ghost predicate ReadsAt(t: seq<Event>, k: nat, id: nat) { k < |t| && t[k].Read? && t[k].id == id }

  ghost predicate SendsAt(t: seq<Event>, k: nat, tx: Tx) { k < |t| && t[k].Sent? && t[k].tx == tx }

  /** The round is left behind. */
  ghost predicate MovesOnAt(t: seq<Event>, k: nat, id: nat)
  {
    k + 1 < |t| && t[k] == Tracked(id) && t[k + 1] == Advanced(id)
  }

  /** The round is read, and started if it is missing. */
  ghost predicate StartsAt(t: seq<Event>, k: nat, id: nat)
  {
    ReadsAt(t, k, id) && (t[k].seen.Missing? ==> SendsAt(t, k + 1, StartTx(id)))
  }

  /** The run ends with the round known to be started: by a confirmed start, or read. */
  ghost predicate KnownStarted(t: seq<Event>, id: nat)
  {
    |t| > 0 && (t[|t| - 1].Did(StartTx(id)) || (ReadsAt(t, |t| - 1, id) && t[|t| - 1].seen.Got?))
  }

  /** The run ends with the round known to be locked: by a confirmed lock, or read as no longer open. */
  ghost predicate KnownLocked(t: seq<Event>, id: nat)
  {
    |t| > 0 &&
    (t[|t| - 1].Did(LockTx(id)) ||
     (ReadsAt(t, |t| - 1, id) && t[|t| - 1].seen.Got? && t[|t| - 1].seen.round.status != OPEN))
  }

  /** The round is read. An open one with a player and a ticket is locked, any other open one is left behind; so is one
      whose lock is rejected for its minimum requirements. */
  ghost predicate LocksAt(t: seq<Event>, k: nat, id: nat)
  {
    && ReadsAt(t, k, id)
    && (Reads(t[k], id, OPEN) ==>
          if t[k].seen.round.participantsCount >= 1 && t[k].seen.round.totalTickets > 0
          then SendsAt(t, k + 1, LockTx(id)) &&
               (t[k + 1].reply.Rejected? && t[k + 1].reply.minRequirements ==> MovesOnAt(t, k + 2, id))
          else MovesOnAt(t, k + 1, id))
  }

  /** The round is read, and VRF requested if it is locked. */
  ghost predicate RequestsAt(t: seq<Event>, k: nat, id: nat)
  {
    ReadsAt(t, k, id) && (Reads(t[k], id, LOCKED) ==> SendsAt(t, k + 1, VrfTx(id)))
  }

  /** After a pass that left nothing pending the round is read again: a missing one is cleared, a finished one closed and,
      once that is confirmed, cleared. */
  ghost predicate ClosesAt(t: seq<Event>, k: nat, id: nat)
  {
    && ReadsAt(t, k, id)
    && (t[k].seen.Missing? ==> k + 1 < |t| && t[k + 1] == Cleared(id))
    && (Reads(t[k], id, CLAIMED) || Reads(t[k], id, CANCELLED) ==>
          SendsAt(t, k + 1, CloseRoundTx(id)) &&
          (t[k + 1].reply.Confirmed? ==> k + 2 < |t| && t[k + 2] == Cleared(id)))
  }

  /** The participants are looked at and the first closable ones closed; if that leaves nothing pending, the round is. */
  ghost predicate CleansAt(t: seq<Event>, k: nat, id: nat, batch: nat)
  {
    k < |t| && (t[k] == LookFailed(id) || exists m: nat :: PassEndsAt(t, k, m, id, batch))
  }

  ghost predicate PassEndsAt(t: seq<Event>, k: nat, m: nat, id: nat, batch: nat)
  {
    && k < m < |t| && t[m].Scanned? && t[m].id == id && PassDone(t[..m], k, id, batch, t[m].pass)
    && (t[m].pass.Counted().existing <= t[m].pass.Counted().closed ==> ClosesAt(t, m + 1, id))
  }

  lemma LookEnded(t: seq<Event>, k: nat, id: nat, batch: nat)
    requires k < |t| && t[k] == LookFailed(id)
    ensures CleansAt(t, k, id, batch)
  {
  }

  lemma PassEnded(scanned: seq<Event>, t: seq<Event>, k: nat, id: nat, batch: nat)
    requires scanned <= t && 0 < |scanned| && scanned[|scanned| - 1].Scanned? && scanned[|scanned| - 1].id == id
    requires PassDone(scanned[..|scanned| - 1], k, id, batch, scanned[|scanned| - 1].pass)
    requires var stats := scanned[|scanned| - 1].pass.Counted();
             stats.existing <= stats.closed ==> ClosesAt(t, |scanned|, id)
    ensures CleansAt(t, k, id, batch)
  {
    hide Pass.Counted;
    var m := |scanned| - 1;
    assert t[..m] == scanned[..m];
    assert PassEndsAt(t, k, m, id, batch);
  }

  /** A background round is read: a missing one is cleared, a finished one that is due is cleaned up. */
  ghost predicate ServesAt(t: seq<Event>, k: nat, id: nat, batch: nat, due: bool)
  {
    && ReadsAt(t, k, id)
    && (t[k].seen.Missing? ==> k + 1 < |t| && t[k + 1] == Cleared(id))
    && (due && (Reads(t[k], id, CLAIMED) || Reads(t[k], id, CANCELLED)) ==> CleansAt(t, k + 1, id, batch))
  }

  ghost predicate Served(t: seq<Event>, from: nat, id: nat, batch: nat, due: bool)
  {
    exists k: nat :: from <= k && ServesAt(t, k, id, batch, due)
  }

  lemma ServedNow(t: seq<Event>, from: nat, k: nat, id: nat, batch: nat, due: bool, due': bool)
    requires from <= k && ServesAt(t, k, id, batch, due) && (due' ==> due)
    ensures Served(t, from, id, batch, due')
  {
    hide CleansAt;
    assert ServesAt(t, k, id, batch, due');
  }

  lemma ServedGrows(t: seq<Event>, t': seq<Event>, from: nat, id: nat, batch: nat, due: bool)
    requires t <= t' && Served(t, from, id, batch, due)
    ensures Served(t', from, id, batch, due)
  {
    var k: nat :| from <= k && ServesAt(t, k, id, batch, due);
    if CleansAt(t, k + 1, id, batch) && t[k + 1] != LookFailed(id) {
      var m: nat :| PassEndsAt(t, k + 1, m, id, batch);
      hide PassDone, Pass.Counted;
      assert t[..m] == t'[..m];
      assert PassEndsAt(t', k + 1, m, id, batch);
    }
    assert ServesAt(t', k, id, batch, due);
  }

  // ----- no round is lost -----

  /** The current round never goes back. */
  lemma {:induction false} NeverBack(first: nat, t: seq<Event>, n: nat)
    requires n <= |t|
    ensures Current(first, t[..n]) <= Current(first, t)
    decreases |t|
  {
    if n < |t| {
      NeverBack(first, t[..|t| - 1], n);
      assert t[..|t| - 1][..n] == t[..n];
    } else {
      assert t[..n] == t;
    }
  }

  /** Every id between the start and the current round was advanced past. */
  lemma {:induction false} EachAdvanced(first: nat, cooldown: int, batch: nat, t: seq<Event>, id: nat) returns (i: nat)
    requires Lawful(first, cooldown, batch, t) && first <= id < Current(first, t)
    ensures i < |t| && t[i] == Advanced(id)
    decreases |t|
  {
    var n := |t| - 1;
    if t[n] == Advanced(id) {
      return n;
    }
    i := EachAdvanced(first, cooldown, batch, t[..n], id);
  }

  /** A tracked round is still pending unless it was cleared later. */
  lemma {:induction false} TrackedStays(t: seq<Event>, i: nat, id: nat)
    requires i < |t| && t[i] == Tracked(id)
    ensures id in Pending(t) || exists j :: i < j < |t| && t[j] == Cleared(id)
    decreases |t|
  {
    var n := |t| - 1;
    if i < n {
      TrackedStays(t[..n], i, id);
      if id !in Pending(t[..n]) {
        var j :| i < j < n && t[..n][j] == Cleared(id);
        assert t[j] == Cleared(id);
      }
    }
  }

  /** Clearing that is justified: the round was just read as missing, or its close was just confirmed. */
  ghost predicate ClearedFor(t: seq<Event>, j: nat, id: nat)
  {
    0 < j < |t| && t[j] == Cleared(id) && (t[j - 1] == Read(id, Missing) || t[j - 1].Did(CloseRoundTx(id)))
  }

  /** Every round the crank has advanced past is pending, or was cleared since for one of the two reasons. */
  lemma NoRoundLost(first: nat, cooldown: int, batch: nat, t: seq<Event>, id: nat)
    requires Lawful(first, cooldown, batch, t) && first <= id < Current(first, t)
    ensures exists i :: 0 <= i < |t| && t[i] == Advanced(id) &&
              (id in Pending(t) || exists j :: i < j < |t| && ClearedFor(t, j, id))
  {
    var i := EachAdvanced(first, cooldown, batch, t, id);
    AllowedAt(first, cooldown, batch, t, i);
    assert t[i - 1] == t[..i][i - 1] == Tracked(id);
    TrackedStays(t, i - 1, id);
    if id !in Pending(t) {
      var j :| i - 1 < j < |t| && t[j] == Cleared(id);
      AllowedAt(first, cooldown, batch, t, j);
      assert ClearedFor(t, j, id);
    }
  }

  /** No round leaves the pending set for any other reason. */
  lemma ClearedOnlyFor(first: nat, cooldown: int, batch: nat, t: seq<Event>, j: nat)
    requires Lawful(first, cooldown, batch, t) && j < |t| && t[j].Cleared?
    ensures ClearedFor(t, j, t[j].id)
  {
    AllowedAt(first, cooldown, batch, t, j);
    assert t[..j][j - 1] == t[j - 1];
  }

  // ----- closing is safe -----

  /** At position `w` the crank looked at the participants of the round, having just read it as finished. */
  ghost predicate LooksAt(t: seq<Event>, w: nat, id: nat)
  {
    && 0 < w < |t| && t[w].Looked? && t[w].id == id
    && Reads(t[w - 1], id, if t[w].cancelled then CANCELLED else CLAIMED)
  }

  /** At `m`, among the transactions that follow the look at `w`, the closing of this account was confirmed. */
  ghost predicate ClosedInPass(t: seq<Event>, w: nat, m: nat, id: nat, position: nat)
  {
    w < m < |t| && t[m].Did(CloseParticipantTx(id, position)) && forall x :: w < x <= m ==> t[x].Sent?
  }

  /** That happened before `i`. */
  ghost predicate ClosedBetween(t: seq<Event>, w: nat, i: nat, id: nat, position: nat)
  {
    exists m: nat :: m < i && ClosedInPass(t, w, m, id, position)
  }

  /** Whenever `close_round` is sent, the crank has just looked at all participant accounts of the finished round, closed
      every one it found with a confirmed transaction, and read the round as finished again. */
  lemma CloseIsSafe(first: nat, cooldown: int, batch: nat, t: seq<Event>, i: nat, id: nat) returns (w: nat)
    requires Lawful(first, cooldown, batch, t) && i < |t| && t[i].Sent? && t[i].tx == CloseRoundTx(id)
    ensures w < i && LooksAt(t, w, id)
    ensures i > 0 && (Reads(t[i - 1], id, CLAIMED) || Reads(t[i - 1], id, CANCELLED))
    ensures forall p :: 0 <= p < |t[w].accounts| && !t[w].accounts[p].Absent? ==>
              Closable(t[w].accounts[p], t[w].cancelled) && ClosedBetween(t, w, i, id, p)
  {
    hide PassFrom, Pass.Counted, Pass.Valid, Pass.Closed, ClosedBetween, Closable;
    w := CloseFollowsPass(first, cooldown, batch, t, i, id);
    var pass := PassOf(t[..i - 2], w);
    NothingPending(pass, batch);
    forall p | 0 <= p < |t[w].accounts| && !t[w].accounts[p].Absent?
      ensures Closable(t[w].accounts[p], t[w].cancelled) && ClosedBetween(t, w, i, id, p)
    {
      PassCloses(t, w, i - 2, i, id, p);
    }
  }

  /** Before a `close_round` there is a pass that left nothing pending, and a read of the finished round. */
  lemma CloseFollowsPass(first: nat, cooldown: int, batch: nat, t: seq<Event>, i: nat, id: nat) returns (w: nat)
    requires Lawful(first, cooldown, batch, t) && i < |t| && t[i].Sent? && t[i].tx == CloseRoundTx(id)
    ensures w < i - 2 && LooksAt(t, w, id) && PassFrom(t[..i - 2], w, id)
    ensures Reads(t[i - 1], id, CLAIMED) || Reads(t[i - 1], id, CANCELLED)
    ensures var pass := PassOf(t[..i - 2], w);
      && pass.accounts == t[w].accounts && pass.cancelled == t[w].cancelled && pass.Valid(batch)
      && pass.Counted().existing <= pass.Counted().closed
  {
    hide Pass.Counted, Pass.Valid, Lawful;
    AllowedAt(first, cooldown, batch, t, i);
    var s := i - 2;
    assert t[s] == t[..i][s] && t[i - 1] == t[..i][i - 1];
    AllowedAt(first, cooldown, batch, t, s);
    w :| PassDone(t[..s], w, id, batch, t[s].pass);
    AllowedAt(first, cooldown, batch, t, w);
    assert t[w] == t[..s][w] && t[w - 1] == t[..w][w - 1];
  }

  /** A position closed in the record of a pass was closed by a confirmed transaction of the pass. */
  lemma PassCloses(t: seq<Event>, w: nat, s: nat, i: nat, id: nat, p: nat)
    requires s <= i <= |t| && PassFrom(t[..s], w, id) && PassOf(t[..s], w).Closed(p)
    ensures ClosedBetween(t, w, i, id, p) && p < |t[w].accounts| && Closable(t[w].accounts[p], t[w].cancelled)
  {
    var pass, c := PassOf(t[..s], w), ClosableAt(t[w].accounts, t[w].cancelled);
    assert t[..s][w] == t[w];
    var k :| 0 <= k < |pass.sent| && pass.sent[k] && k < |c| && c[k] == p;
    var m := w + 1 + k;
    assert forall x :: w < x <= m ==> t[x] == t[..s][x];
    assert ClosedInPass(t, w, m, id, p);
    ClosableEntry(t[w].accounts, t[w].cancelled, k);
  }

  /** A participant account is closed only after it was seen without anything to refund. */
  lemma ClosedWhenEmpty(first: nat, cooldown: int, batch: nat, t: seq<Event>, i: nat, id: nat, p: nat) returns (w: nat)
    requires Lawful(first, cooldown, batch, t) && i < |t| && t[i].Sent? && t[i].tx == CloseParticipantTx(id, p)
    ensures w < i && LooksAt(t, w, id) && p < |t[w].accounts| && Closable(t[w].accounts[p], t[w].cancelled)
  {
    AllowedAt(first, cooldown, batch, t, i);
    w :| NextToClose(t[..i], w, id, batch, p);
    AllowedAt(first, cooldown, batch, t, w);
    assert t[w] == t[..i][w] && t[w - 1] == t[..w][w - 1];
    var c, k := ClosableAt(t[w].accounts, t[w].cancelled), i - 1 - w;
    assert |t[..i]| - 1 - w == k && c[k] == p;
    ClosableEntry(t[w].accounts, t[w].cancelled, k);
  }

  // ----- at most once, and far enough apart -----

  /** The combined lock and VRF transaction is confirmed at most once per round id. */
  lemma LockedOnce(first: nat, cooldown: int, batch: nat, t: seq<Event>, i: nat, j: nat, id: nat)
    requires Lawful(first, cooldown, batch, t) && i < j < |t| && t[i].Did(LockTx(id))
    ensures !t[j].Did(LockTx(id))
  {
    AllowedAt(first, cooldown, batch, t, j);
    assert t[..j][i] == t[i];
  }

  /** The start of a round is confirmed at most once per round id, and sent only after a read that found no round. */
  lemma StartedOnce(first: nat, cooldown: int, batch: nat, t: seq<Event>, j: nat, id: nat)
    requires Lawful(first, cooldown, batch, t) && j < |t| && t[j].Sent? && t[j].tx == StartTx(id)
    ensures forall i :: 0 <= i < j ==> !t[i].Did(StartTx(id))
    ensures j > 0 && t[j - 1] == Read(id, Missing)
  {
    AllowedAt(first, cooldown, batch, t, j);
    forall i | 0 <= i < j ensures !t[i].Did(StartTx(id)) { assert t[..j][i] == t[i]; }
    assert t[..j][j - 1] == t[j - 1];
  }

  /** The round is read as open at `j`, after a read at `i` that showed it in another status. */
  ghost predicate Reopens(t: seq<Event>, i: nat, j: nat, id: nat)
  {
    i < j < |t| && Reads(t[j], id, OPEN) && t[i].Read? && t[i].id == id && t[i].seen.Got? && !Reads(t[i], id, OPEN)
  }

  /** Any two confirmed VRF requests for a round id are a cooldown apart, from the end of the first to the sending of the
      second, unless the round was read as open again in between. */
  lemma VrfApart(first: nat, cooldown: int, batch: nat, t: seq<Event>, i: nat, j: nat, id: nat)
    requires Lawful(first, cooldown, batch, t) && i < j < |t| && t[i].IsVrf(id) && t[j].IsVrf(id)
    ensures (t[j].tx.VrfTx? && t[i].doneAt + cooldown <= t[j].sentAt) ||
            (t[i].tx.VrfTx? && t[j].tx.LockTx? && 0 < i && Reopens(t, i - 1, j - 1, id))
  {
    AllowedAt(first, cooldown, batch, t, i);
    AllowedAt(first, cooldown, batch, t, j);
    assert t[..j][i] == t[i] && t[j - 1] == t[..j][j - 1];
    assert t[..i][|t[..i]| - 1] == t[i - 1];
  }

  /** The exception is real: a round closed and created again may be locked within the cooldown. These are the events two
      ticks record, each reading the round twice before it sends. */
  lemma RelockedTooSoon() returns (t: seq<Event>)
    ensures |t| == 6 && Lawful(1, 15, 12, t) && t[2].IsVrf(1) && t[5].IsVrf(1) && t[5].sentAt < t[2].doneAt + 15
    ensures Reads(t[0], 1, LOCKED) && t[1] == t[0] && Reads(t[3], 1, OPEN) && t[4] == t[3]
  {
    var locked, open := Read(1, Got(Round(LOCKED, 90, 2, 10))), Read(1, Got(Round(OPEN, 99, 2, 10)));
    var vrf, lock := Sent(VrfTx(1), Confirmed, 100, 101), Sent(LockTx(1), Confirmed, 102, 103);
    Extend(1, 15, 12, [], locked);
    Extend(1, 15, 12, [] + [locked], locked);
    assert [] + [locked] + [locked] == [locked, locked];
    Extend(1, 15, 12, [locked, locked], vrf);
    assert [locked, locked] + [vrf] == [locked, locked, vrf];
    Extend(1, 15, 12, [locked, locked, vrf], open);
    Extend(1, 15, 12, [locked, locked, vrf] + [open], open);
    assert [locked, locked, vrf] + [open] + [open] == [locked, locked, vrf, open, open];
    Extend(1, 15, 12, [locked, locked, vrf, open, open], lock);
    t := [locked, locked, vrf, open, open, lock];
    assert [locked, locked, vrf, open, open] + [lock] == t;
  }
}
