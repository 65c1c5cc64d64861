/** A round address through all its lives: closed and created again, and what that does to custody. */
module RoundHistory {
  import opened Bytes
  import opened Fenwick
  import opened Layout
  import opened RoundLayout
  import opened RoundProgram
  import opened RoundSafety

  // ----- histories -----

  /** The site after the first `n` transactions; a refused one changes nothing. */
  ghost function SiteAt(s: Site, txs: seq<Transaction>, n: nat): (r: Site)
    requires Shaped(s.l) && n <= |txs|
    ensures Shaped(r.l)
  {
    if n == 0 then s
    else
      var before := SiteAt(s, txs, n - 1);
      var o := Transact(before, txs[n - 1]);
      if o.Done? then TransactShaped(before, txs[n - 1], o.value); o.value else before
  }

  ghost predicate Accepted(s: Site, txs: seq<Transaction>, n: nat)
    requires Shaped(s.l) && n < |txs|
  {
    Transact(SiteAt(s, txs, n), txs[n]).Done?
  }

  lemma TransactShaped(s: Site, tx: Transaction, s': Site)
    requires Shaped(s.l) && Transact(s, tx) == Done(s')
    ensures Shaped(s'.l)
  {
    if tx.Instruct? { ExecuteShaped(s.l, tx.ix, s'.l); }
  }

  lemma ExecuteShaped(l: Ledger, ix: Instruction, l': Ledger)
    requires Shaped(l) && Execute(l, ix) == Done(l')
    ensures Shaped(l') && l'.key == l.key && (l.round.life.status != OPEN ==> l'.round.life.status != OPEN)
  {
    hide Updated, Fits, FindPrefix;
  }

  // ----- closing -----

  /** What `close_round` does not ask: the pot was claimed, or no participant account holds a deposit. */
  ghost predicate NothingLeft(l: Ledger)
  {
    l.round.life.status == CLAIMED || forall k :: k in l.people ==> l.people[k].usdc == 0
  }

  /** The vault holds what it still owes; once the account is gone nobody can draw on it, so nothing may be owed. */
  ghost predicate Custody(s: Site)
    requires Shaped(s.l)
  {
    if s.standing then s.l.vault >= Owed(s.l) else Owed(s.l) == 0
  }

  /** Every depositor of a cancelled round has got back what they put in, or can still claim the rest. */
  ghost predicate Refundable(s: Site)
  {
    s.l.round.life.status == CANCELLED ==>
      forall k :: At(s.l.books.contributed, k) == At(s.l.books.returned, k) +
        (if s.standing && k in s.l.people then s.l.people[k].usdc else 0)
  }

  /** Since the last creation all money in is in the vault or went out as refund, payout or sweep. */
  ghost predicate Accounted(s: Site)
  {
    var b := s.l.books;
    b.deposited + b.donated == s.l.vault + b.refunded + b.paidOut + b.swept
  }

  lemma OwedExact(l: Ledger)
    requires Inv(l) && (l.round.life.status == CLAIMED || l.round.life.status == CANCELLED)
    ensures Owed(l) == 0 <==> NothingLeft(l)
  {
    if l.round.life.status == CANCELLED {
      TableEntries(l);
      if forall k :: k in l.people ==> l.people[k].usdc == 0 {
        SumZero(Deposits(l), 0, MAX_PARTICIPANTS);
      } else {
        var k :| k in l.people && l.people[k].usdc != 0;
        DepositWithinOwed(l, k);
      }
    }
  }

  /** A close takes the whole vault, if that is the account passed, and otherwise leaves it full: what was owed is still
      there if and only if nothing was left or another account was passed. Custody and refunds survive if and only if
      nothing was left. */
  lemma CloseExact(l: Ledger, own: bool, treasury: bool, ok: bool, l': Ledger)
    requires Inv(l) && CloseRound(l, own, treasury, ok) == Done(l')
    ensures Shaped(l') && l'.people == l.people
    ensures l'.books.swept == l.books.swept + l.vault - l'.vault && (own ==> l'.vault == 0)
    ensures l'.vault >= Owed(l) <==> NothingLeft(l) || !own
    ensures Custody(Site(false, l')) <==> NothingLeft(l)
    ensures Refundable(Site(false, l')) <==> NothingLeft(l)
  {
    OwedExact(l);
    SameTables(l, l');
    assert Owed(l') == Owed(l);
    if l.round.life.status == CANCELLED && !NothingLeft(l) {
      var k :| k in l.people && l.people[k].usdc != 0;
      assert At(l.books.contributed, k) != At(l.books.returned, k);
    }
  }

  /** Whatever balance its vault has, a created round meets the invariant if and only if no participant account names it
      already. */
  lemma RecreatedExact(key: Key, people: map<Key, Person>, claim: DegenClaim, found: nat, roundId: nat,
                       bump: byte, vaultKey: Key, now: int)
    ensures Inv(StartedOver(key, people, claim, found, roundId, bump, vaultKey, now)) <==> people == map[]
  {
    var l := StartedOver(key, people, claim, found, roundId, bump, vaultKey, now);
    if people == map[] {
      var first := Started(key, found, roundId, bump, vaultKey, now);
      StartedInv(key, found, roundId, bump, vaultKey, now);
      SameTables(first, l);
    } else {
      var k :| k in people;
      assert l.people[k].index <= 0 || l.people[k].index >= 1;
    }
  }

  // ----- whole histories -----

  /** Every accepted creation found no participant account. */
  ghost predicate CleanStarts(s: Site, txs: seq<Transaction>, n: nat)
    requires Shaped(s.l) && n <= |txs|
  {
    forall i :: 0 <= i < n && txs[i].TxStartRound? && Accepted(s, txs, i) ==> SiteAt(s, txs, i).l.people == map[]
  }

  /** Every accepted close found nothing left. */
  ghost predicate CleanCloses(s: Site, txs: seq<Transaction>, n: nat)
    requires Shaped(s.l) && n <= |txs|
  {
    forall i :: 0 <= i < n && txs[i].TxCloseRound? && Accepted(s, txs, i) ==> NothingLeft(SiteAt(s, txs, i).l)
  }

  /** What one transaction does to a site whose standing round meets the invariant. */
  lemma TransactKeeps(s: Site, tx: Transaction, s': Site)
    requires Shaped(s.l) && (s.standing ==> Inv(s.l)) && Transact(s, tx) == Done(s')
    ensures Shaped(s'.l)
    ensures tx.Instruct? ==> s.standing && s'.standing && Inv(s'.l)
    ensures Accounted(s')
    ensures tx.TxStartRound? ==> s'.standing && (Inv(s'.l) <==> s.l.people == map[])
    ensures tx.TxCloseRound? ==>
              s.standing && !s'.standing && (Custody(s') <==> NothingLeft(s.l)) && (Refundable(s') <==> NothingLeft(s.l))
  {
    TransactShaped(s, tx, s');
    match tx
    case Instruct(ix) => ExecuteKeeps(s.l, ix, s'.l);
    case TxCloseRound(own, treasury, ok) => CloseExact(s.l, own, treasury, ok, s'.l);
    case TxStartRound(_, _, claim, sent, roundId, bump, vaultKey, now) =>
      RecreatedExact(s.l.key, s.l.people, claim, s.l.vault + sent, roundId, bump, vaultKey, now);
  }

  /** The standing round meets the invariant at every moment so far. */
  ghost predicate AlwaysInv(s: Site, txs: seq<Transaction>, n: nat)
    requires Shaped(s.l) && n <= |txs|
  {
    forall i :: 0 <= i <= n && SiteAt(s, txs, i).standing ==> Inv(SiteAt(s, txs, i).l)
  }

  /** The vault covers what it owes and refunds are in reach at every moment so far. */
  ghost predicate AlwaysSafe(s: Site, txs: seq<Transaction>, n: nat)
    requires Shaped(s.l) && n <= |txs|
  {
    forall i :: 0 <= i <= n ==> Custody(SiteAt(s, txs, i)) && Refundable(SiteAt(s, txs, i))
  }

  /** One moment more. */
  lemma AlwaysNext(s: Site, txs: seq<Transaction>, n: nat)
    requires Shaped(s.l) && n < |txs|
    ensures var before, after := SiteAt(s, txs, n), SiteAt(s, txs, n + 1);
      && (AlwaysInv(s, txs, n + 1) <==> AlwaysInv(s, txs, n) && (after.standing ==> Inv(after.l)))
      && (AlwaysSafe(s, txs, n + 1) <==> AlwaysSafe(s, txs, n) && Custody(after) && Refundable(after))
      && (CleanStarts(s, txs, n + 1) <==>
            CleanStarts(s, txs, n) && (txs[n].TxStartRound? && Accepted(s, txs, n) ==> before.l.people == map[]))
      && (CleanCloses(s, txs, n + 1) <==>
            CleanCloses(s, txs, n) && (txs[n].TxCloseRound? && Accepted(s, txs, n) ==> NothingLeft(before.l)))
      && (AlwaysInv(s, txs, n) && before.standing ==> Inv(before.l))
      && (AlwaysSafe(s, txs, n) ==> Custody(before) && Refundable(before))
      && (Accepted(s, txs, n) ==> Transact(before, txs[n]) == Done(after))
      && (!Accepted(s, txs, n) ==> after == before)
  {
    hide Inv, Transact, Custody, Refundable, NothingLeft;
  }

  /** The standing round meets the invariant at every moment if and only if every creation found no
      participant account. */
  lemma {:induction false} InvariantExact(s: Site, txs: seq<Transaction>, n: nat)
    requires Shaped(s.l) && s.standing && Inv(s.l) && n <= |txs|
    ensures AlwaysInv(s, txs, n) <==> CleanStarts(s, txs, n)
  {
    hide Inv, Transact, SiteAt, CleanStarts, CleanCloses, Custody, Refundable, NothingLeft;
    if n == 0 {
      Beginning(s, txs);
    } else {
      InvariantExact(s, txs, n - 1);
      AlwaysNext(s, txs, n - 1);
      var before, after := SiteAt(s, txs, n - 1), SiteAt(s, txs, n);
      hide AlwaysInv;
      if AlwaysInv(s, txs, n - 1) && Accepted(s, txs, n - 1) { TransactKeeps(before, txs[n - 1], after); }
    }
  }

  lemma Beginning(s: Site, txs: seq<Transaction>)
    requires Shaped(s.l) && s.standing && Inv(s.l)
    ensures AlwaysInv(s, txs, 0) && CleanStarts(s, txs, 0) && CleanCloses(s, txs, 0) && AlwaysSafe(s, txs, 0)
    ensures Accounted(SiteAt(s, txs, 0))
  {
  }

  /** As long as creations are clean: custody and refunds hold at every moment if and only if every accepted close found
      the pot claimed or no deposit left. */
  lemma {:induction false} CustodyExact(s: Site, txs: seq<Transaction>, n: nat)
    requires Shaped(s.l) && s.standing && Inv(s.l) && n <= |txs| && CleanStarts(s, txs, n)
    ensures AlwaysSafe(s, txs, n) <==> CleanCloses(s, txs, n)
  {
    hide Inv, Transact, SiteAt, CleanStarts, CleanCloses, Custody, Refundable, NothingLeft;
    if n == 0 {
      Beginning(s, txs);
    } else {
      AlwaysNext(s, txs, n - 1);
      CustodyExact(s, txs, n - 1);
      InvariantExact(s, txs, n);
      var before, after := SiteAt(s, txs, n - 1), SiteAt(s, txs, n);
      hide AlwaysInv, AlwaysSafe;
      if Accepted(s, txs, n - 1) {
        TransactKeeps(before, txs[n - 1], after);
        if after.standing { InvSafe(after.l); }
      }
    }
  }

  /** Without a premise on the history: the invariant, custody and refunds hold at every moment if and only if every
      accepted creation found no participant account and every accepted close found nothing left. */
  lemma SafeExact(s: Site, txs: seq<Transaction>, n: nat)
    requires Shaped(s.l) && s.standing && Inv(s.l) && n <= |txs|
    ensures AlwaysInv(s, txs, n) && AlwaysSafe(s, txs, n) <==> CleanStarts(s, txs, n) && CleanCloses(s, txs, n)
  {
    hide *;
    InvariantExact(s, txs, n);
    if CleanStarts(s, txs, n) { CustodyExact(s, txs, n); }
  }

  lemma InvSafe(l: Ledger)
    requires Inv(l)
    ensures Custody(Site(true, l)) && Refundable(Site(true, l))
  {
  }

  /** All money is accounted for at every moment of a history with clean creations, closes included. */
  lemma {:induction false} AllAccounted(s: Site, txs: seq<Transaction>, n: nat)
    requires Shaped(s.l) && s.standing && Inv(s.l) && n <= |txs| && CleanStarts(s, txs, n)
    ensures Accounted(SiteAt(s, txs, n))
  {
    hide Inv, Transact, SiteAt, CleanStarts, CleanCloses, Custody, Refundable, NothingLeft, Accounted, AlwaysInv,
      AlwaysSafe;
    if n == 0 {
      Beginning(s, txs);
    } else {
      AlwaysNext(s, txs, n - 1);
      AllAccounted(s, txs, n - 1);
      InvariantExact(s, txs, n - 1);
      AccountedNext(s, txs, n - 1);
    }
  }

  lemma AccountedNext(s: Site, txs: seq<Transaction>, n: nat)
    requires Shaped(s.l) && n < |txs| && Accounted(SiteAt(s, txs, n))
    requires SiteAt(s, txs, n).standing ==> Inv(SiteAt(s, txs, n).l)
    ensures Accounted(SiteAt(s, txs, n + 1))
  {
    hide Inv, Transact, Accounted;
    if Accepted(s, txs, n) { TransactKeeps(SiteAt(s, txs, n), txs[n], SiteAt(s, txs, n + 1)); }
  }

  // ----- the condition can fail -----

  lemma FirstFits(tickets: nat)
    requires tickets <= U64_MAX
    ensures Fits(seq(MAX_PARTICIPANTS + 1, _ => 0), 1, tickets)
  {
    var zeros: seq<nat> := seq(MAX_PARTICIPANTS, _ => 0);
    ZeroRepresents(MAX_PARTICIPANTS);
    SumZero(zeros, 0, MAX_PARTICIPANTS);
    UpdateFits(seq(MAX_PARTICIPANTS + 1, _ => 0), zeros, 1, tickets);
  }

  /** A first deposit that the program accepts. */
  lemma FirstDeposit(cfg: Config, a: DepositArgs) returns (l: Ledger)
    requires cfg == Config(9, 25, 10, 60, 1, 1, false, 0) && a == DepositArgs(7, 1, 5, 1_000_000, 0, 0, true)
    ensures Deposit(Started(3, 0, 1, 255, 4, 0), cfg, a) == Done(l)
    ensures Inv(l) && l.round.life.status == OPEN && 7 in l.people && l.people[7].usdc == 1_000_000
    ensures l.round.life.participantsCount == 1 && l.round.life.totalTickets == 100_000
    ensures l.round.life.firstDepositTs == 5 && l.round.life.totalUsdc == 1_000_000
    ensures l.round.degenMode == DEGEN_NONE && l.claim.status == 0
  {
    hide Inv, Deposit;
    StartedInv(3, 0, 1, 255, 4, 0);
    l := FirstDepositDone(cfg, a);
    DepositKeeps(Started(3, 0, 1, 255, 4, 0), cfg, a, l);
  }

  lemma FirstDepositDone(cfg: Config, a: DepositArgs) returns (l: Ledger)
    requires cfg == Config(9, 25, 10, 60, 1, 1, false, 0) && a == DepositArgs(7, 1, 5, 1_000_000, 0, 0, true)
    ensures Deposit(Started(3, 0, 1, 255, 4, 0), cfg, a) == Done(l)
    ensures l.round.life.status == OPEN && 7 in l.people && l.people[7].usdc == 1_000_000
    ensures l.round.life.participantsCount == 1 && l.round.life.totalTickets == 100_000
    ensures l.round.life.firstDepositTs == 5 && l.round.life.totalUsdc == 1_000_000
    ensures l.round.degenMode == DEGEN_NONE && l.claim.status == 0
  {
    hide Fits, Updated;
    FirstFits(100_000);
    var s := Started(3, 0, 1, 255, 4, 0);
    assert DepositChecks(s.round.life, cfg, a) == Done((1_000_000, 100_000));
    l := Deposit(s, cfg, a).value;
  }

  /** A deposit, a forced cancel and a close, all accepted: the deposit is unreturned and out of the depositor's reach,
      swept from the vault (`own`) or left in it, and the account created again does not meet the invariant. */
  lemma CustodyCanFail(own: bool) returns (s: Site, txs: seq<Transaction>)
    ensures s == Site(true, Started(3, 0, 1, 255, 4, 0)) && Inv(s.l) && |txs| == 4
    ensures Accepted(s, txs, 0) && Accepted(s, txs, 1) && Accepted(s, txs, 2) && Accepted(s, txs, 3)
    ensures !Custody(SiteAt(s, txs, 3)) && !Refundable(SiteAt(s, txs, 3)) && !Inv(SiteAt(s, txs, 4).l)
    ensures txs[2] == TxCloseRound(own, true, true)
  {
    hide Inv, Transact, SiteAt, Custody, Refundable, Deposit, Execute, Accepted;
    var cfg, a := Config(9, 25, 10, 60, 1, 1, false, 0), DepositArgs(7, 1, 5, 1_000_000, 0, 0, true);
    s := Site(true, Started(3, 0, 1, 255, 4, 0));
    StartedInv(3, 0, 1, 255, 4, 0);
    var l := FirstDeposit(cfg, a);
    Deposited(s, cfg, a, l);
    var start := TxStartRound(false, true, DegenClaim(0, 0, ZERO_KEY, 0, 0), 0, 1, 255, 4, 99);
    txs := [Instruct(IxDeposit(cfg, a)), Instruct(IxForceCancel(cfg, 9)), TxCloseRound(own, true, true), start];
    var s1 := Site(true, l);
    var s2, s3, s4 := CancelledAndClosed(s1, own, cfg, start, 7);
    Begins(s, txs);
    Moved(s, txs, 0, s, s1);
    Moved(s, txs, 1, s1, s2);
    Moved(s, txs, 2, s2, s3);
    Moved(s, txs, 3, s3, s4);
  }

  /** Whoever still has a deposit when a round is cancelled by force and closed loses it, and is in the way of a round
      created again. */
  lemma CancelledAndClosed(s1: Site, own: bool, cfg: Config, start: Transaction, k: Key)
    returns (s2: Site, s3: Site, s4: Site)
    requires s1.standing && Inv(s1.l) && s1.l.round.life.status == OPEN && k in s1.l.people && s1.l.people[k].usdc > 0
    requires start.TxStartRound? && !start.paused && start.accountsOk
    ensures Shaped(s2.l) && Shaped(s3.l) && Shaped(s4.l)
    ensures Transact(s1, Instruct(IxForceCancel(cfg, cfg.admin))) == Done(s2)
    ensures Transact(s2, TxCloseRound(own, true, true)) == Done(s3) && !Custody(s3) && !Refundable(s3)
    ensures Transact(s3, start) == Done(s4) && !Inv(s4.l)
  {
    assert Shaped(s1.l);
    hide Inv, Transact, Custody, Refundable, Execute;
    Cancelled(s1, cfg);
    s2 := Site(true, WithStatus(s1.l, CANCELLED));
    TransactKeeps(s1, Instruct(IxForceCancel(cfg, cfg.admin)), s2);
    var r := ClosedAndMade(s2, own, start);
    s3, s4 := r.0, r.1;
    TransactKeeps(s2, TxCloseRound(own, true, true), s3);
    TransactKeeps(s3, start, s4);
    assert k in s2.l.people && s2.l.people[k].usdc > 0;
  }

  lemma Begins(s: Site, txs: seq<Transaction>)
    requires Shaped(s.l)
    ensures SiteAt(s, txs, 0) == s
  {
  }

  lemma Moved(s: Site, txs: seq<Transaction>, n: nat, before: Site, after: Site)
    requires Shaped(s.l) && n < |txs| && SiteAt(s, txs, n) == before && Transact(before, txs[n]) == Done(after)
    ensures Accepted(s, txs, n) && SiteAt(s, txs, n + 1) == after
  {
    hide Transact;
  }

  lemma Deposited(s: Site, cfg: Config, a: DepositArgs, l: Ledger)
    requires Shaped(s.l) && s.standing && Deposit(s.l, cfg, a) == Done(l)
    ensures Transact(s, Instruct(IxDeposit(cfg, a))) == Done(Site(true, l))
  {
    hide Deposit;
  }

  lemma Cancelled(s: Site, cfg: Config)
    requires Shaped(s.l) && s.standing && s.l.round.life.status == OPEN
    ensures Transact(s, Instruct(IxForceCancel(cfg, cfg.admin))) == Done(Site(true, WithStatus(s.l, CANCELLED)))
  {
  }

  /** A cancelled round can always be closed, whoever asks, and created again. */
  lemma ClosedAndMade(s: Site, own: bool, start: Transaction) returns (r: (Site, Site))
    requires Shaped(s.l) && s.standing && s.l.round.life.status == CANCELLED
    requires start.TxStartRound? && !start.paused && start.accountsOk
    ensures Transact(s, TxCloseRound(own, true, true)) == Done(r.0) && r.0.l.people == s.l.people
    ensures Shaped(r.0.l) && !r.0.standing && Transact(r.0, start) == Done(r.1)
  {
    var gone := Transact(s, TxCloseRound(own, true, true)).value;
    r := (gone, Transact(gone, start).value);
  }

  // ----- lives -----

  /** How often the account has been created again. */
  ghost function Lives(s: Site, txs: seq<Transaction>, n: nat): nat
    requires Shaped(s.l) && n <= |txs|
  {
    if n == 0 then 0 else Lives(s, txs, n - 1) + if txs[n - 1].TxStartRound? && Accepted(s, txs, n - 1) then 1 else 0
  }

  /** Within one life a round that has left Open never returns to it. */
  lemma {:induction false} NeverReopensInLife(s: Site, txs: seq<Transaction>, n: nat, m: nat)
    requires Shaped(s.l) && n <= m <= |txs| && Lives(s, txs, n) == Lives(s, txs, m)
    requires SiteAt(s, txs, n).l.round.life.status != OPEN
    ensures SiteAt(s, txs, m).l.round.life.status != OPEN
    decreases m
  {
    if n < m {
      LivesGrow(s, txs, n, m - 1);
      NeverReopensInLife(s, txs, n, m - 1);
      var before := SiteAt(s, txs, m - 1);
      if Accepted(s, txs, m - 1) && txs[m - 1].Instruct? {
        hide Execute;
        ExecuteShaped(before.l, txs[m - 1].ix, SiteAt(s, txs, m).l);
      }
    }
  }

  /** Once the draw is requested it is not asked for again in a life. */
  lemma RequestedOnce(l: Ledger, ix: Instruction, l': Ledger)
    requires Shaped(l) && Execute(l, ix) == Done(l')
    ensures l.round.life.status >= VRF_REQUESTED ==> l'.round.life.status >= VRF_REQUESTED && !ix.IxRequestVrf?
    ensures ix.IxRequestVrf? ==> l'.round.life.status == VRF_REQUESTED
  {
    hide Updated, Fits, FindPrefix, Draw, BitUpdate, ClaimAmounts;
  }

  lemma {:induction false} StaysRequested(s: Site, txs: seq<Transaction>, n: nat, m: nat)
    requires Shaped(s.l) && n <= m <= |txs| && Lives(s, txs, n) == Lives(s, txs, m)
    requires SiteAt(s, txs, n).l.round.life.status >= VRF_REQUESTED
    ensures SiteAt(s, txs, m).l.round.life.status >= VRF_REQUESTED
    decreases m
  {
    if n < m {
      LivesGrow(s, txs, n, m - 1);
      StaysRequested(s, txs, n, m - 1);
      hide Execute;
      if Accepted(s, txs, m - 1) && txs[m - 1].Instruct? {
        RequestedOnce(SiteAt(s, txs, m - 1).l, txs[m - 1].ix, SiteAt(s, txs, m).l);
      }
    }
  }

  ghost predicate RequestedAt(s: Site, txs: seq<Transaction>, n: nat)
    requires Shaped(s.l) && n <= |txs|
  {
    n < |txs| && txs[n].Instruct? && txs[n].ix.IxRequestVrf? && Accepted(s, txs, n)
  }

  lemma RequestStep(s: Site, txs: seq<Transaction>, n: nat)
    requires Shaped(s.l) && n < |txs| && RequestedAt(s, txs, n)
    ensures SiteAt(s, txs, n).l.round.life.status < VRF_REQUESTED == SiteAt(s, txs, n + 1).l.round.life.status
  {
    hide Execute;
    RequestedOnce(SiteAt(s, txs, n).l, txs[n].ix, SiteAt(s, txs, n + 1).l);
  }

  /** The program accepts at most one VRF request in each life of a round. */
  lemma OneRequestPerLife(s: Site, txs: seq<Transaction>, n: nat, m: nat)
    requires Shaped(s.l) && n < m < |txs| && RequestedAt(s, txs, n) && RequestedAt(s, txs, m)
    ensures Lives(s, txs, n) < Lives(s, txs, m)
  {
    hide SiteAt, RequestedAt;
    LivesGrow(s, txs, n, n + 1);
    LivesGrow(s, txs, n + 1, m);
    RequestStep(s, txs, n);
    RequestStep(s, txs, m);
    if Lives(s, txs, n) == Lives(s, txs, m) { StaysRequested(s, txs, n + 1, m); }
  }

  lemma {:induction false} LivesGrow(s: Site, txs: seq<Transaction>, n: nat, m: nat)
    requires Shaped(s.l) && n <= m <= |txs|
    ensures Lives(s, txs, n) <= Lives(s, txs, m)
    decreases m
  {
    if n < m { LivesGrow(s, txs, n, m - 1); }
  }
}
