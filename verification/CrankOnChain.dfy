/** The crank against the program: what it reads comes from histories of the program, and what is confirmed happened
    there. */
module CrankOnChain {
  import opened Cleanup
  import opened CrankTrace
  import opened RoundHistory
  import opened Layout
  import P = RoundProgram
  import S = RoundSafety

  /** One round address on chain: how it stood at the beginning and every transaction since. */
  datatype History = History(start: P.Site, txs: seq<P.Transaction>)

  ghost predicate Proper(h: History, n: nat) { P.Shaped(h.start.l) && n <= |h.txs| }

  ghost function Then(h: History, n: nat): P.Site
    requires Proper(h, n)
  {
    SiteAt(h.start, h.txs, n)
  }

  ghost function Life(h: History, n: nat): nat
    requires Proper(h, n)
  {
    Lives(h.start, h.txs, n)
  }

  // ----- what it means that the chain answers honestly -----

  /** For each round address every event has a moment, a number of transactions there, and moments do not go back. */
  ghost predicate Moments(t: seq<Event>, at: nat -> seq<nat>, chain: nat -> History)
  {
    forall id :: |at(id)| == |t| && (forall i, j :: 0 <= i < j < |t| ==> at(id)[i] <= at(id)[j])
                 && forall i :: 0 <= i < |t| ==> Proper(chain(id), at(id)[i])
  }

  /** A read shows the round account as it stands at that moment. */
  ghost predicate HonestRead(e: Event, h: History, n: nat)
    requires Proper(h, n)
  {
    e.Read? ==>
      && (e.seen.Missing? ==> !Then(h, n).standing)
      && (e.seen.Got? ==> Then(h, n).standing && e.seen.round.status == Then(h, n).l.round.life.status)
  }

  /** The participant keys listed in the round account at a moment. */
  ghost function Users(h: History, n: nat): seq<Key>
    requires Proper(h, n)
  {
    var r := Then(h, n).l.round;
    if r.life.participantsCount <= |r.participants| then r.participants[..r.life.participantsCount] else []
  }

  /** A look shows, for each key read before, whether its participant account exists. The keys are asked for in several
      requests, so each answer has its own moment between the read and the end of the look. */
  ghost predicate HonestLook(e: Event, users: seq<Key>, h: History, from: nat, to: nat)
    requires Proper(h, to) && e.Looked?
  {
    && |e.accounts| == |users|
    && forall p :: 0 <= p < |users| ==> exists n :: from <= n <= to && SeenAt(e.accounts[p], users[p], h, n)
  }

  ghost predicate SeenAt(a: Account, user: Key, h: History, n: nat)
    requires Proper(h, n)
  {
    a.Absent? <==> user !in Then(h, n).l.people
  }

  /** Between the two moments the program accepted the closing of this user's participant account. */
  ghost predicate ClosesUser(h: History, from: nat, to: nat, user: Key)
    requires Proper(h, to)
  {
    exists x :: from <= x < to && ClosingAt(h, x, user)
  }

  ghost predicate ClosingAt(h: History, x: nat, user: Key)
    requires Proper(h, x)
  {
    x < |h.txs| && h.txs[x] == P.Instruct(P.IxCloseParticipant(user)) && Accepted(h.start, h.txs, x)
  }

  /** Reads and looks are honest, and a confirmed closing after a look took place. */
  ghost predicate Honest(t: seq<Event>, at: nat -> seq<nat>, chain: nat -> History)
  {
    && Moments(t, at, chain)
    && (forall i :: 0 <= i < |t| && t[i].Read? ==> HonestRead(t[i], chain(t[i].id), at(t[i].id)[i]))
    && (forall w: nat, id :: LooksAt(t, w, id) ==>
          HonestLook(t[w], Users(chain(id), at(id)[w - 1]), chain(id), at(id)[w - 1], at(id)[w]))
    && forall w: nat, m: nat, id, p: nat :: LooksAt(t, w, id) && ClosedInPass(t, w, m, id, p) && p < |t[w].accounts| ==>
         var users := Users(chain(id), at(id)[w - 1]);
         p < |users| && ClosesUser(chain(id), at(id)[m - 1], at(id)[m], users[p])
  }

  // ----- the cooldown -----

  /** Any two confirmed VRF requests for the same life of a round are a cooldown apart. */
  lemma VrfApartInLife(first: nat, cooldown: int, batch: nat, t: seq<Event>, at: nat -> seq<nat>, chain: nat -> History,
                       i: nat, j: nat, id: nat)
    requires Lawful(first, cooldown, batch, t) && Honest(t, at, chain)
    requires 0 < i < j < |t| && t[i].IsVrf(id) && t[j].IsVrf(id)
    requires Life(chain(id), at(id)[i - 1]) == Life(chain(id), at(id)[j - 1])
    ensures t[j].tx.VrfTx? && t[i].doneAt + cooldown <= t[j].sentAt
  {
    VrfApart(first, cooldown, batch, t, i, j, id);
    if Reopens(t, i - 1, j - 1, id) {
      var h := chain(id);
      assert HonestRead(t[i - 1], h, at(id)[i - 1]) && HonestRead(t[j - 1], h, at(id)[j - 1]);
      NeverReopensInLife(h.start, h.txs, at(id)[i - 1], at(id)[j - 1]);
    }
  }

  /** A confirmed VRF request is one the program accepted, since the read before it. */
  ghost predicate HonestVrf(t: seq<Event>, at: nat -> seq<nat>, chain: nat -> History)
    requires Moments(t, at, chain)
  {
    forall i, id :: 0 < i < |t| && t[i].IsVrf(id) ==> RequestsVrf(chain(id), at(id)[i - 1], at(id)[i])
  }

  ghost predicate RequestsVrf(h: History, from: nat, to: nat)
    requires Proper(h, to)
  {
    exists x :: from <= x < to && RequestedAt(h.start, h.txs, x)
  }

  /** So no two confirmed VRF requests are for the same life: the round was created again between them. */
  lemma VrfOncePerLife(t: seq<Event>, at: nat -> seq<nat>, chain: nat -> History, i: nat, j: nat, id: nat)
    requires Moments(t, at, chain) && HonestVrf(t, at, chain)
    requires 0 < i < j < |t| && t[i].IsVrf(id) && t[j].IsVrf(id)
    ensures Life(chain(id), at(id)[i - 1]) < Life(chain(id), at(id)[j])
  {
    var h := chain(id);
    assert at(id)[i] <= at(id)[j - 1];
    hide SiteAt, Accepted;
    var x :| at(id)[i - 1] <= x < at(id)[i] && RequestedAt(h.start, h.txs, x);
    var y :| at(id)[j - 1] <= y < at(id)[j] && RequestedAt(h.start, h.txs, y);
    OneRequestPerLife(h.start, h.txs, x, y);
    LivesGrow(h.start, h.txs, at(id)[i - 1], x);
    LivesGrow(h.start, h.txs, y, at(id)[j]);
  }

  // ----- the crank closes clean -----

  predicate Finished(l: P.Ledger) { l.round.life.status == P.CLAIMED || l.round.life.status == P.CANCELLED }

  /** No participant account appears in a finished round. */
  lemma FinishedShrinks(l: P.Ledger, ix: P.Instruction, l': P.Ledger)
    requires P.Shaped(l) && Finished(l) && P.Execute(l, ix) == P.Done(l')
    ensures Finished(l') && l'.people.Keys <= l.people.Keys
    ensures ix.IxCloseParticipant? ==> ix.user !in l'.people
  {
  }

  /** From a finished round on, within its life, participant accounts only go. */
  lemma {:induction false} OnlyGo(h: History, n: nat, m: nat)
    requires Proper(h, m) && n <= m && Life(h, n) == Life(h, m) && Finished(Then(h, n).l)
    ensures Finished(Then(h, m).l) && Then(h, m).l.people.Keys <= Then(h, n).l.people.Keys
    decreases m
  {
    if n < m {
      LivesGrow(h.start, h.txs, n, m - 1);
      OnlyGo(h, n, m - 1);
      OneStep(h, m - 1);
    }
  }

  lemma OneStep(h: History, n: nat)
    requires Proper(h, n + 1) && Life(h, n) == Life(h, n + 1) && Finished(Then(h, n).l)
    ensures Finished(Then(h, n + 1).l) && Then(h, n + 1).l.people.Keys <= Then(h, n).l.people.Keys
    ensures forall user :: ClosingAt(h, n, user) ==> user !in Then(h, n + 1).l.people
  {
    var before, after := Then(h, n), Then(h, n + 1);
    hide P.Execute;
    if Accepted(h.start, h.txs, n) && h.txs[n].Instruct? {
      FinishedShrinks(before.l, h.txs[n].ix, after.l);
    }
  }

  /** An account whose closing was accepted is gone from then on. */
  lemma StaysGone(h: History, n: nat, from: nat, to: nat, m: nat, user: Key)
    requires n <= from <= to <= m && Proper(h, m) && Life(h, n) == Life(h, m) && Finished(Then(h, n).l)
    requires ClosesUser(h, from, to, user)
    ensures user !in Then(h, m).l.people
  {
    hide Then, Finished;
    var x :| from <= x < to && ClosingAt(h, x, user);
    LivesGrow(h.start, h.txs, n, x);
    LivesGrow(h.start, h.txs, x, x + 1);
    LivesGrow(h.start, h.txs, x + 1, m);
    OnlyGo(h, n, x);
    OneStep(h, x);
    StaysAbsent(h, x + 1, x + 1, m, user);
  }

  /** What a lawful crank has done by the time it sends `close_round`: from then on, within the life of the round it
      looked at, no participant account is left. */
  lemma NobodyLeft(first: nat, cooldown: int, batch: nat, t: seq<Event>, at: nat -> seq<nat>, chain: nat -> History,
                   i: nat, id: nat, n: nat) returns (w: nat)
    requires Lawful(first, cooldown, batch, t) && Honest(t, at, chain)
    requires i < |t| && t[i].Sent? && t[i].tx == CloseRoundTx(id) && Proper(chain(id), n)
    ensures 0 < w < i && LooksAt(t, w, id)
    ensures at(id)[i - 1] <= n && Life(chain(id), at(id)[w - 1]) == Life(chain(id), n) &&
            S.Inv(Then(chain(id), at(id)[w - 1]).l) ==>
              Then(chain(id), n).l.people == map[]
  {
    hide Lawful, S.Inv, Life, Finished;
    w := CloseIsSafe(first, cooldown, batch, t, i, id);
    var h, n0 := chain(id), at(id)[w - 1];
    if at(id)[i - 1] <= n && Life(h, n0) == Life(h, n) && S.Inv(Then(h, n0).l) {
      assert Finished(Then(h, n0).l) by { ReadsFinished(t, at, chain, w, id); }
      assert n0 <= at(id)[w] <= at(id)[i - 1];
      OnlyGo(h, n0, n);
      forall k | k in Then(h, n).l.people ensures false {
        var p := Seat(Then(h, n0).l, k);
        Gone(t, at, chain, w, i, id, n, p, k);
      }
      assert Then(h, n).l.people == map[];
    }
  }

  lemma ReadsFinished(t: seq<Event>, at: nat -> seq<nat>, chain: nat -> History, w: nat, id: nat)
    requires Honest(t, at, chain) && LooksAt(t, w, id)
    ensures Finished(Then(chain(id), at(id)[w - 1]).l)
  {
    assert HonestRead(t[w - 1], chain(id), at(id)[w - 1]);
  }

  /** Every participant account of a round that meets the invariant is listed in it. */
  lemma Seat(l: P.Ledger, k: Key) returns (p: nat)
    requires S.Inv(l) && k in l.people
    ensures p < l.round.life.participantsCount <= |l.round.participants| && l.round.participants[p] == k
  {
    p := l.people[k].index - 1;
  }

  /** The account at a listed position is absent at the look, or closed since: gone in either case. */
  lemma Gone(t: seq<Event>, at: nat -> seq<nat>, chain: nat -> History, w: nat, i: nat, id: nat, n: nat, p: nat, k: Key)
    requires Honest(t, at, chain) && 0 < w < i < |t| && LooksAt(t, w, id) && Proper(chain(id), n) && at(id)[i - 1] <= n
    requires Life(chain(id), at(id)[w - 1]) == Life(chain(id), n) && Finished(Then(chain(id), at(id)[w - 1]).l)
    requires p < |Users(chain(id), at(id)[w - 1])| && Users(chain(id), at(id)[w - 1])[p] == k
    requires forall q :: 0 <= q < |t[w].accounts| && !t[w].accounts[q].Absent? ==> ClosedBetween(t, w, i, id, q)
    ensures k !in Then(chain(id), n).l.people
  {
    hide Finished, Life, Then, Users;
    var h := chain(id);
    assert HonestLook(t[w], Users(h, at(id)[w - 1]), h, at(id)[w - 1], at(id)[w]);
    if t[w].accounts[p].Absent? {
      var x :| at(id)[w - 1] <= x <= at(id)[w] && SeenAt(t[w].accounts[p], k, h, x);
      StaysAbsent(h, at(id)[w - 1], x, n, k);
    } else {
      var m := ConfirmedClose(t, w, i, id, p);
      StaysGone(h, at(id)[w - 1], at(id)[m - 1], at(id)[m], n, k);
    }
  }

  lemma ConfirmedClose(t: seq<Event>, w: nat, i: nat, id: nat, p: nat) returns (m: nat)
    requires ClosedBetween(t, w, i, id, p)
    ensures w < m < i && ClosedInPass(t, w, m, id, p)
  {
    m :| m < i && ClosedInPass(t, w, m, id, p);
  }

  /** An account that does not exist does not appear. */
  lemma StaysAbsent(h: History, n: nat, from: nat, m: nat, user: Key)
    requires n <= from <= m && Proper(h, m) && Life(h, n) == Life(h, m) && Finished(Then(h, n).l)
    requires user !in Then(h, from).l.people
    ensures user !in Then(h, m).l.people
  {
    hide Then, Finished;
    LivesGrow(h.start, h.txs, n, from);
    LivesGrow(h.start, h.txs, from, m);
    OnlyGo(h, n, from);
    OnlyGo(h, from, m);
  }

  /** The round meets the invariant whenever it stands, as long as it was never created over participant accounts. */
  lemma StandsSound(h: History, n: nat, m: nat)
    requires m <= n && Proper(h, n) && h.start.standing && S.Inv(h.start.l) && CleanStarts(h.start, h.txs, n)
    ensures Then(h, m).standing ==> S.Inv(Then(h, m).l)
  {
    hide S.Inv, CleanStarts, SiteAt;
    InvariantExact(h.start, h.txs, n);
  }

  lemma LookStands(t: seq<Event>, at: nat -> seq<nat>, chain: nat -> History, w: nat, id: nat)
    requires Honest(t, at, chain) && LooksAt(t, w, id)
    ensures Then(chain(id), at(id)[w - 1]).standing
  {
    assert HonestRead(t[w - 1], chain(id), at(id)[w - 1]);
  }

  /** So on an address where every creation so far was clean: when the program accepts a close in that life, custody and
      refunds survive it, and the next creation is clean again. */
  lemma CrankClosesClean(first: nat, cooldown: int, batch: nat, t: seq<Event>, at: nat -> seq<nat>, chain: nat -> History,
                         i: nat, id: nat, n: nat, own: bool, treasury: bool, ok: bool) returns (w: nat)
    requires Lawful(first, cooldown, batch, t) && Honest(t, at, chain)
    requires 0 < i < |t| && t[i].Sent? && t[i].tx == CloseRoundTx(id) && Proper(chain(id), n) && at(id)[i - 1] <= n
    requires chain(id).start.standing && S.Inv(chain(id).start.l) && CleanStarts(chain(id).start, chain(id).txs, n)
    ensures 0 < w < i && LooksAt(t, w, id)
    ensures var h, closed := chain(id), P.Transact(Then(chain(id), n), P.TxCloseRound(own, treasury, ok));
      Life(h, at(id)[w - 1]) == Life(h, n) && closed.Done? ==>
        && P.Shaped(closed.value.l) && Custody(closed.value) && Refundable(closed.value)
        && closed.value.l.people == map[]
  {
    w := NobodyLeft(first, cooldown, batch, t, at, chain, i, id, n);
    LookStands(t, at, chain, w, id);
    assert at(id)[w - 1] <= at(id)[i - 1];
    var h := chain(id);
    var s := Then(h, n);
    hide Lawful, Honest, S.Inv, P.Transact, Custody, Refundable, Then, Life, CleanStarts;
    StandsSound(h, n, at(id)[w - 1]);
    StandsSound(h, n, n);
    var closed := P.Transact(s, P.TxCloseRound(own, treasury, ok));
    if Life(h, at(id)[w - 1]) == Life(h, n) && closed.Done? {
      TransactKeeps(s, P.TxCloseRound(own, treasury, ok), closed.value);
      ClosePeople(s, own, treasury, ok);
    }
  }

  lemma ClosePeople(s: P.Site, own: bool, treasury: bool, ok: bool)
    requires P.Shaped(s.l) && P.Transact(s, P.TxCloseRound(own, treasury, ok)).Done?
    ensures P.Transact(s, P.TxCloseRound(own, treasury, ok)).value.l.people == s.l.people
  {
  }
}
