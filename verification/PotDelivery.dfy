/** Whether the winner gets the pot: a degen execution hands it to an executor, who is trusted to bring tokens back. */
module PotDelivery {
  import opened Basics
  import opened Bytes
  import opened Layout
  import opened RoundLayout
  import opened RoundProgram
  import opened RoundSafety
  import opened RoundHistory

  /** A swap has begun and is not finalized: the payout is with the executor. */
  predicate Executing(l: Ledger) { l.round.life.status == SETTLED && l.round.degenMode == DEGEN_EXECUTING }

  /** A finalize saw tokens arrive at the winner. */
  predicate Arrived(l: Ledger) { l.books.delivered.Some? && l.books.delivered.value > 0 }

  /** The executor was given money. */
  predicate Handed(l: Ledger) { l.books.entrusted.Some? && l.books.entrusted.value > 0 }

  /** The executor was given money and the winner nothing for it. */
  predicate Short(l: Ledger) { Handed(l) && !Arrived(l) }

  // ----- the payout -----

  /** What is left of the pot for the winner, after reimbursement and fee. */
  function Payout(l: Ledger, cfg: Config): nat
  {
    var m := ClaimAmounts(l.round.life.totalUsdc, cfg.feeBps, VrfOwed(l.round));
    if m.Done? then m.value.payout else 0
  }

  /** There is a payout if and only if the fee is below 100% and the pot exceeds the reimbursement that is due. */
  lemma PayoutPositive(l: Ledger, cfg: Config)
    requires cfg.feeBps <= BPS_DENOMINATOR && l.round.life.totalUsdc <= U64_MAX
    ensures Payout(l, cfg) > 0 <==>
              && cfg.feeBps < BPS_DENOMINATOR
              && l.round.life.totalUsdc > (if VrfOwed(l.round) then VRF_REIMBURSEMENT_USDC else 0)
  {
    var pot := Pot(l.round.life.totalUsdc, VrfOwed(l.round));
    FeeWithinPot(pot, cfg.feeBps);
    if pot > 0 && cfg.feeBps < BPS_DENOMINATOR {
      FeeBelowPot(pot, cfg.feeBps);
    } else if pot > 0 {
      assert pot * BPS_DENOMINATOR / BPS_DENOMINATOR == pot;
    }
  }

  lemma FeeBelowPot(pot: nat, feeBps: nat)
    requires 0 < pot && feeBps < BPS_DENOMINATOR
    ensures Fee(pot, feeBps) < pot
  {
    var due := pot * feeBps;
    assert due < pot * BPS_DENOMINATOR by { MulLess(feeBps, BPS_DENOMINATOR, pot); }
    assert due / BPS_DENOMINATOR < pot;
  }

  lemma MulLess(a: nat, b: nat, c: nat)
    requires a < b && c > 0
    ensures c * a < c * b
  {
  }

  // ----- phases and books -----

  /** The phases of a degen claim, and how the books tell them apart. */
  predicate Booked(l: Ledger)
  {
    var b, status, mode := l.books, l.round.life.status, l.round.degenMode;
    && (mode == DEGEN_EXECUTING ==> status == SETTLED && l.claim.status == CLAIM_EXECUTING)
    && (mode == DEGEN_VRF_REQUESTED ==> l.claim.status == CLAIM_VRF_REQUESTED)
    && (mode == DEGEN_VRF_READY ==> l.claim.status == CLAIM_VRF_READY)
    && (b.won.Some? ==> status == CLAIMED)
    && (b.entrusted.Some? <==> b.won.None? && PotLeft(l))
    && (b.delivered.Some? <==> b.won.None? && status == CLAIMED)
    && (b.delivered.Some? ==> b.delivered.value >= l.claim.minOut)
  }

  /** The instruction is a finalize that sees more tokens at the winner than there were at the begin. */
  predicate Brings(l: Ledger, ix: Instruction) { ix.IxFinalizeDegen? && ix.received > l.claim.preBalance }

  lemma ExecuteBooked(l: Ledger, ix: Instruction, l': Ledger)
    requires Shaped(l) && Booked(l) && Execute(l, ix) == Done(l')
    ensures Booked(l')
    ensures l'.books.entrusted.Some? <==> l.books.entrusted.Some? || ix.IxBeginDegen?
    ensures Arrived(l') <==> Arrived(l) || Brings(l, ix)
  {
    hide ClaimAmounts, Draw, BitUpdate;
  }

  /** The instruction is a begin that gives the executor money. */
  predicate Hands(l: Ledger, ix: Instruction) { ix.IxBeginDegen? && Payout(l, ix.cfg) > 0 }

  lemma ExecuteHands(l: Ledger, ix: Instruction, l': Ledger)
    requires Shaped(l) && Booked(l) && Execute(l, ix) == Done(l')
    ensures Handed(l') <==> Handed(l) || Hands(l, ix)
    ensures ix.IxBeginDegen? ==> l'.books.entrusted == Some(Payout(l, ix.cfg))
  {
    hide Draw, BitUpdate, Pot, Fee;
  }

  // ----- while the executor holds the payout -----

  /** Nothing has happened but donations to the vault. */
  predicate Frozen(l: Ledger, l': Ledger)
  {
    && l'.vault >= l.vault
    && l' == l.(vault := l'.vault, books := l.books.(donated := l'.books.donated))
  }

  /** No instruction but a finalize by the executor of the claim does anything to a round under execution. */
  lemma ExecutingHolds(l: Ledger, ix: Instruction, l': Ledger)
    requires Shaped(l) && Executing(l) && Execute(l, ix) == Done(l')
    ensures Frozen(l, l') || (ix.IxFinalizeDegen? && ix.user == l.claim.executor && l'.round.life.status == CLAIMED)
  {
  }

  ghost predicate FinalizedAt(s: Site, txs: seq<Transaction>, x: nat, executor: Key)
    requires Shaped(s.l) && x <= |txs|
  {
    x < |txs| && txs[x].Instruct? && txs[x].ix.IxFinalizeDegen? && txs[x].ix.user == executor && Accepted(s, txs, x)
  }

  /** Over any history: until the executor of the claim has a finalize accepted, nobody is paid or refunded, the account
      cannot be closed, and the round stays under execution. */
  lemma {:induction false} StuckUntilFinalize(s: Site, txs: seq<Transaction>, n: nat, m: nat)
    requires Shaped(s.l) && n <= m <= |txs| && SiteAt(s, txs, n).standing && Executing(SiteAt(s, txs, n).l)
    requires forall x :: n <= x < m ==> !FinalizedAt(s, txs, x, SiteAt(s, txs, n).l.claim.executor)
    ensures SiteAt(s, txs, m).standing && Frozen(SiteAt(s, txs, n).l, SiteAt(s, txs, m).l)
    decreases m
  {
    hide SiteAt, FinalizedAt;
    if n < m {
      StuckUntilFinalize(s, txs, n, m - 1);
      StuckStep(s, txs, m - 1);
    }
  }

  lemma StuckStep(s: Site, txs: seq<Transaction>, n: nat)
    requires Shaped(s.l) && n < |txs| && SiteAt(s, txs, n).standing && Executing(SiteAt(s, txs, n).l)
    requires !FinalizedAt(s, txs, n, SiteAt(s, txs, n).l.claim.executor)
    ensures SiteAt(s, txs, n + 1).standing && Frozen(SiteAt(s, txs, n).l, SiteAt(s, txs, n + 1).l)
  {
    hide Execute;
    if Accepted(s, txs, n) && txs[n].Instruct? {
      ExecutingHolds(SiteAt(s, txs, n).l, txs[n].ix, SiteAt(s, txs, n + 1).l);
    }
  }

  /** Over any history: if the target of the begin does not fit 64 bits, that is for good. */
  lemma {:induction false} StuckForever(s: Site, txs: seq<Transaction>, n: nat, m: nat)
    requires Shaped(s.l) && n <= m <= |txs| && SiteAt(s, txs, n).standing && Executing(SiteAt(s, txs, n).l)
    requires SiteAt(s, txs, n).l.claim.preBalance + SiteAt(s, txs, n).l.claim.minOut > U64_MAX
    ensures SiteAt(s, txs, m).standing && Frozen(SiteAt(s, txs, n).l, SiteAt(s, txs, m).l)
    decreases m
  {
    if n < m {
      StuckForever(s, txs, n, m - 1);
      NoFinalize(s, txs, m - 1);
      hide SiteAt, FinalizedAt;
      StuckStep(s, txs, m - 1);
    }
  }

  lemma NoFinalize(s: Site, txs: seq<Transaction>, n: nat)
    requires Shaped(s.l) && n < |txs| && SiteAt(s, txs, n).l.claim.preBalance + SiteAt(s, txs, n).l.claim.minOut > U64_MAX
    ensures !FinalizedAt(s, txs, n, SiteAt(s, txs, n).l.claim.executor)
  {
  }

  /** Every finalize that can be accepted sees at least `q` tokens arrive. */
  ghost predicate Assured(l: Ledger, q: nat)
  {
    forall received: nat, ok ::
      var o := FinalizeDegen(l, l.claim.executor, received, ok); o.Done? ==> o.value.books.delivered.value >= q
  }

  /** What the executor's choice at the begin decides: a finalize can be accepted at all if and only if the target fits
      64 bits; then the winner is sure of `q` tokens if and only if the minimum is at least `q`. */
  lemma MinimumDecides(l: Ledger)
    requires Executing(l) && l.claim.status == CLAIM_EXECUTING && l.claim.preBalance <= U64_MAX
    ensures (exists received: nat :: received <= U64_MAX && FinalizeDegen(l, l.claim.executor, received, true).Done?) <==>
              l.claim.preBalance + l.claim.minOut <= U64_MAX
    ensures forall q: nat :: Assured(l, q) <==> q <= l.claim.minOut || l.claim.preBalance + l.claim.minOut > U64_MAX
  {
    var c := l.claim;
    if c.preBalance + c.minOut <= U64_MAX {
      var o := FinalizeDegen(l, c.executor, c.preBalance + c.minOut, true);
      assert o.Done? && o.value.books.delivered == Some(c.minOut);
    }
  }

  // ----- whole histories -----

  ghost predicate BegunAt(s: Site, txs: seq<Transaction>, x: nat)
    requires Shaped(s.l) && x <= |txs|
  {
    x < |txs| && txs[x].Instruct? && txs[x].ix.IxBeginDegen? && Accepted(s, txs, x)
  }

  ghost predicate BroughtAt(s: Site, txs: seq<Transaction>, x: nat)
    requires Shaped(s.l) && x <= |txs|
  {
    x < |txs| && txs[x].Instruct? && Brings(SiteAt(s, txs, x).l, txs[x].ix) && Accepted(s, txs, x)
  }

  /** In the life of moment `n` a begin was accepted before. */
  ghost predicate Begun(s: Site, txs: seq<Transaction>, n: nat)
    requires Shaped(s.l) && n <= |txs|
  {
    exists x :: 0 <= x < n && Lives(s, txs, x) == Lives(s, txs, n) && BegunAt(s, txs, x)
  }

  ghost predicate HandedAt(s: Site, txs: seq<Transaction>, x: nat)
    requires Shaped(s.l) && x <= |txs|
  {
    x < |txs| && txs[x].Instruct? && Hands(SiteAt(s, txs, x).l, txs[x].ix) && Accepted(s, txs, x)
  }

  /** In the life of moment `n` a begin with a payout was accepted before. */
  ghost predicate HandedOver(s: Site, txs: seq<Transaction>, n: nat)
    requires Shaped(s.l) && n <= |txs|
  {
    exists x :: 0 <= x < n && Lives(s, txs, x) == Lives(s, txs, n) && HandedAt(s, txs, x)
  }

  /** In the life of moment `n` a finalize that saw tokens arrive was accepted before. */
  ghost predicate Brought(s: Site, txs: seq<Transaction>, n: nat)
    requires Shaped(s.l) && n <= |txs|
  {
    exists x :: 0 <= x < n && Lives(s, txs, x) == Lives(s, txs, n) && BroughtAt(s, txs, x)
  }

  ghost predicate Renews(s: Site, txs: seq<Transaction>, n: nat)
    requires Shaped(s.l) && n < |txs|
  {
    txs[n].TxStartRound? && Accepted(s, txs, n)
  }

  lemma BegunNext(s: Site, txs: seq<Transaction>, n: nat)
    requires Shaped(s.l) && n < |txs|
    ensures Begun(s, txs, n + 1) <==> !Renews(s, txs, n) && (Begun(s, txs, n) || BegunAt(s, txs, n))
  {
    hide SiteAt, Accepted;
    forall x: nat | x <= n ensures Lives(s, txs, x) <= Lives(s, txs, n) { LivesGrow(s, txs, x, n); }
    if !Renews(s, txs, n) && BegunAt(s, txs, n) { assert Lives(s, txs, n) == Lives(s, txs, n + 1); }
  }

  lemma HandedNext(s: Site, txs: seq<Transaction>, n: nat)
    requires Shaped(s.l) && n < |txs|
    ensures HandedOver(s, txs, n + 1) <==> !Renews(s, txs, n) && (HandedOver(s, txs, n) || HandedAt(s, txs, n))
  {
    hide SiteAt, Accepted, Hands;
    forall x: nat | x <= n ensures Lives(s, txs, x) <= Lives(s, txs, n) { LivesGrow(s, txs, x, n); }
    if !Renews(s, txs, n) && HandedAt(s, txs, n) { assert Lives(s, txs, n) == Lives(s, txs, n + 1); }
  }

  lemma BroughtNext(s: Site, txs: seq<Transaction>, n: nat)
    requires Shaped(s.l) && n < |txs|
    ensures Brought(s, txs, n + 1) <==> !Renews(s, txs, n) && (Brought(s, txs, n) || BroughtAt(s, txs, n))
  {
    hide SiteAt, Accepted;
    forall x: nat | x <= n ensures Lives(s, txs, x) <= Lives(s, txs, n) { LivesGrow(s, txs, x, n); }
    if !Renews(s, txs, n) && BroughtAt(s, txs, n) { assert Lives(s, txs, n) == Lives(s, txs, n + 1); }
  }

  /** The books of a moment say what was accepted in its life. */
  ghost predicate Told(s: Site, txs: seq<Transaction>, n: nat)
    requires Shaped(s.l) && n <= |txs|
  {
    var l := SiteAt(s, txs, n).l;
    && Booked(l) && (l.books.entrusted.Some? <==> Begun(s, txs, n))
    && (Handed(l) <==> HandedOver(s, txs, n)) && (Arrived(l) <==> Brought(s, txs, n))
  }

  lemma {:induction false} BooksTell(s: Site, txs: seq<Transaction>, n: nat)
    requires Shaped(s.l) && Booked(s.l) && !PotLeft(s.l) && n <= |txs|
    ensures Told(s, txs, n)
  {
    hide Told;
    if n == 0 {
      ToldFirst(s, txs);
    } else {
      BooksTell(s, txs, n - 1);
      ToldNext(s, txs, n - 1);
    }
  }

  lemma ToldFirst(s: Site, txs: seq<Transaction>)
    requires Shaped(s.l) && Booked(s.l) && !PotLeft(s.l)
    ensures Told(s, txs, 0)
  {
    hide Accepted, BegunAt, HandedAt, BroughtAt;
  }

  lemma ToldNext(s: Site, txs: seq<Transaction>, n: nat)
    requires Shaped(s.l) && n < |txs| && Told(s, txs, n)
    ensures Told(s, txs, n + 1)
  {
    hide Execute, Begun, HandedOver, Brought, Booked, Lives, Hands;
    BegunNext(s, txs, n);
    HandedNext(s, txs, n);
    BroughtNext(s, txs, n);
    var before, after := SiteAt(s, txs, n), SiteAt(s, txs, n + 1);
    if Accepted(s, txs, n) {
      match txs[n]
      case Instruct(ix) => ExecuteBooked(before.l, ix, after.l); ExecuteHands(before.l, ix, after.l);
      case TxCloseRound(own, treasury, ok) => CloseBooked(before.l, own, treasury, ok, after.l);
      case TxStartRound(_, _, claim, sent, roundId, bump, vaultKey, now) =>
        StartBooked(before.l.key, before.l.people, claim, before.l.vault + sent, roundId, bump, vaultKey, now);
    }
  }

  lemma CloseBooked(l: Ledger, own: bool, treasury: bool, ok: bool, l': Ledger)
    requires Booked(l) && CloseRound(l, own, treasury, ok) == Done(l')
    ensures Booked(l') && l'.books.entrusted == l.books.entrusted && (Arrived(l') <==> Arrived(l))
  {
  }

  lemma StartBooked(key: Key, people: map<Key, Person>, claim: DegenClaim, found: nat, roundId: nat, bump: byte,
                    vaultKey: Key, now: int)
    ensures var l := StartedOver(key, people, claim, found, roundId, bump, vaultKey, now);
            Booked(l) && !PotLeft(l) && l.books.entrusted.None? && !Arrived(l)
  {
  }

  /** Over any history, creations and closes included: the executor was given money and the winner nothing for it if and
      only if a begin with a payout was accepted in this life, and no finalize that saw tokens arrive. Otherwise the pot
      has not left the vault, or went to the winner's own account, or held nothing for the winner, or tokens came. */
  lemma DeliveryExact(s: Site, txs: seq<Transaction>, n: nat)
    requires Shaped(s.l) && Booked(s.l) && !PotLeft(s.l) && n <= |txs|
    ensures var l := SiteAt(s, txs, n).l;
      && (Short(l) <==> HandedOver(s, txs, n) && !Brought(s, txs, n))
      && (Short(l) || !PotLeft(l) || l.books.won.Some? || l.books.entrusted == Some(0) || Arrived(l))
  {
    hide SiteAt, Begun, HandedOver, Brought;
    BooksTell(s, txs, n);
  }

  /** A begin whose minimum is not zero and the first finalize after it by its executor: the winner has at least that
      many tokens more than at the begin. */
  lemma BeginThenFinalize(s: Site, txs: seq<Transaction>, b: nat, f: nat)
    requires Shaped(s.l) && b < f < |txs| && BegunAt(s, txs, b) && FinalizedAt(s, txs, f, txs[b].ix.user)
    requires forall x :: b < x < f ==> !FinalizedAt(s, txs, x, txs[b].ix.user)
    ensures var l := SiteAt(s, txs, f + 1).l;
            && l.round.life.status == CLAIMED && l.books.delivered == Some(txs[f].ix.received - txs[b].ix.preBalance)
            && l.books.delivered.value >= txs[b].ix.minOut
            && (txs[b].ix.minOut > 0 ==> !Short(l))
  {
    hide SiteAt, Accepted;
    BeginExecutes(s, txs, b);
    StuckUntilFinalize(s, txs, b + 1, f);
    FinalizeBooks(s, txs, f, txs[b].ix.user);
  }

  lemma BeginExecutes(s: Site, txs: seq<Transaction>, n: nat)
    requires Shaped(s.l) && n < |txs| && BegunAt(s, txs, n)
    ensures var after, ix := SiteAt(s, txs, n + 1), txs[n].ix;
      && after.standing && Executing(after.l)
      && after.l.claim.executor == ix.user && after.l.claim.minOut == ix.minOut
      && after.l.claim.preBalance == ix.preBalance
  {
  }

  lemma FinalizeBooks(s: Site, txs: seq<Transaction>, n: nat, executor: Key)
    requires Shaped(s.l) && n < |txs| && FinalizedAt(s, txs, n, executor)
    ensures var l, l', ix := SiteAt(s, txs, n).l, SiteAt(s, txs, n + 1).l, txs[n].ix;
      && l'.round.life.status == CLAIMED && l.claim.preBalance + l.claim.minOut <= ix.received
      && l'.books.delivered == Some(ix.received - l.claim.preBalance)
  {
  }

  /** Once the timeout has passed anyone can have the pot of a ready claim paid to the winner, if and only if no begin
      was accepted in this life. */
  lemma FallbackExact(s: Site, txs: seq<Transaction>, n: nat, cfg: Config, now: int)
    requires Shaped(s.l) && Booked(s.l) && !PotLeft(s.l) && n <= |txs|
    requires Inv(SiteAt(s, txs, n).l) && cfg.feeBps <= BPS_DENOMINATOR
    requires var l := SiteAt(s, txs, n).l;
      && l.round.life.status == SETTLED && DEGEN_VRF_READY <= l.round.degenMode <= DEGEN_EXECUTING
      && l.claim.fallbackAfterTs <= now
    ensures var l := SiteAt(s, txs, n).l;
      ClaimDegen(l, cfg, l.round.winner, false, now, true).Done? <==> !Begun(s, txs, n)
  {
    hide SiteAt, Begun, HandedOver, Brought, Inv;
    BooksTell(s, txs, n);
    var l := SiteAt(s, txs, n).l;
    if !PotLeft(l) { Affords(l, cfg); }
  }

  /** The pot of a settled round can be paid out. */
  lemma Affords(l: Ledger, cfg: Config)
    requires Inv(l) && l.round.life.status == SETTLED && !PotLeft(l) && cfg.feeBps <= BPS_DENOMINATOR
    ensures var m := ClaimAmounts(l.round.life.totalUsdc, cfg.feeBps, VrfOwed(l.round));
      m.Done? && m.value.payout + m.value.fee + m.value.vrfReimburse <= l.vault
  {
    AmountsAreThePot(l.round.life.totalUsdc, cfg.feeBps, VrfOwed(l.round));
    PotIsThere(l, cfg, VrfOwed(l.round));
  }

  // ----- the condition can fail -----

  /** The instruction is accepted and leads from one sound ledger to another. */
  ghost predicate Leads(l: Ledger, ix: Instruction, l': Ledger)
  {
    Shaped(l) && Execute(l, ix) == Done(l') && Inv(l') && Booked(l')
  }

  lemma Step(l: Ledger, ix: Instruction) returns (l': Ledger)
    requires Inv(l) && Booked(l) && Execute(l, ix).Done?
    ensures Execute(l, ix) == Done(l') && Leads(l, ix, l') && Inv(l') && Booked(l') && Shaped(l')
  {
    l' := Execute(l, ix).value;
    ExecuteKeeps(l, ix, l');
    ExecuteBooked(l, ix, l');
  }

  /** From every claim that is ready for a swap: a begin with minimum zero is accepted and hands over the payout; so is a
      finalize that sees nothing arrive, and then the round is over. The winner is short throughout if and only if there
      is a payout. The invariant and custody hold on. */
  lemma UnservedFrom(l: Ledger, cfg: Config, executor: Key, pre: nat) returns (begun: Ledger, over: Ledger)
    requires Inv(l) && Booked(l) && l.round.life.status == SETTLED && l.round.degenMode == DEGEN_VRF_READY
    requires cfg.feeBps <= BPS_DENOMINATOR && pre <= U64_MAX
    ensures Leads(l, IxBeginDegen(cfg, executor, 0, pre, true), begun)
    ensures begun.books.entrusted == over.books.entrusted == Some(Payout(l, cfg))
    ensures Leads(begun, IxFinalizeDegen(executor, pre, true), over)
    ensures (Short(begun) <==> Payout(l, cfg) > 0) && (Short(over) <==> Payout(l, cfg) > 0)
    ensures over.round.life.status == CLAIMED && NothingLeft(over)
  {
    Affords(l, cfg);
    assert Shaped(l);
    hide Inv, ClaimAmounts, Leads;
    begun := Step(l, IxBeginDegen(cfg, executor, 0, pre, true));
    ExecuteHands(l, IxBeginDegen(cfg, executor, 0, pre, true), begun);
    hide Payout;
    over := Step(begun, IxFinalizeDegen(executor, pre, true));
  }

  /** The first deposit into a fresh round. */
  lemma Opens(cfg: Config, a: DepositArgs) returns (l: Ledger)
    requires cfg == Config(9, 25, 10, 60, 1, 1, false, 0) && a == DepositArgs(7, 1, 5, 1_000_000, 0, 0, true)
    ensures Leads(Started(3, 0, 1, 255, 4, 0), IxDeposit(cfg, a), l) && Inv(l) && Booked(l)
    ensures l.round.life.status == OPEN && l.round.degenMode == DEGEN_NONE && l.claim.status == 0
    ensures l.round.life.participantsCount == 1 && l.round.life.totalTickets == 100_000
    ensures l.round.life.firstDepositTs == 5 && l.round.life.totalUsdc == 1_000_000
  {
    var first := FirstDeposit(cfg, a);
    StartedInv(3, 0, 1, 255, 4, 0);
    hide Inv, Deposit;
    l := Step(Started(3, 0, 1, 255, 4, 0), IxDeposit(cfg, a));
  }

  /** Past its end, a round with enough players is locked and the draw requested. */
  lemma Requests(l: Ledger, cfg: Config) returns (l1: Ledger, l2: Ledger)
    requires Inv(l) && Booked(l) && l.round.life.status == OPEN && l.round.life.firstDepositTs != 0
    requires cfg.minParticipants <= l.round.life.participantsCount && cfg.minTotalTickets <= l.round.life.totalTickets
    ensures Leads(l, IxLockRound(cfg, l.round.life.endTs), l1) && Leads(l1, IxRequestVrf(cfg, 9), l2)
    ensures Inv(l2) && Booked(l2)
    ensures l2.round.life == l.round.life.(status := VRF_REQUESTED)
    ensures l2.round.degenMode == l.round.degenMode && l2.claim == l.claim
  {
    assert Shaped(l);
    hide Inv, Booked, Leads;
    l1 := Step(l, IxLockRound(cfg, l.round.life.endTs));
    l2 := Step(l1, IxRequestVrf(cfg, 9));
  }

  /** The draw settles it. */
  lemma Settles(l: Ledger, cfg: Config) returns (l1: Ledger)
    requires Inv(l) && Booked(l) && l.round.life.status == VRF_REQUESTED
    requires cfg.minParticipants <= l.round.life.participantsCount && cfg.minTotalTickets <= l.round.life.totalTickets
    ensures Leads(l, IxVrfCallback(cfg, 0), l1) && Inv(l1) && Booked(l1)
    ensures l1.round.life.status == SETTLED && l1.round.degenMode == l.round.degenMode && l1.claim == l.claim
    ensures l1.round.life.totalUsdc == l.round.life.totalUsdc
  {
    assert Shaped(l);
    DrawAlwaysSettles(l, cfg, 0);
    hide Inv, Booked, Leads;
    l1 := Step(l, IxVrfCallback(cfg, 0));
  }

  /** The winner of a settled round has the claim made ready for a swap. */
  lemma Readies(l: Ledger, cfg: Config) returns (l1: Ledger, l2: Ledger)
    requires Inv(l) && Booked(l) && l.round.life.status == SETTLED && l.round.degenMode == DEGEN_NONE
    requires l.claim.status == 0 && cfg.feeBps <= BPS_DENOMINATOR
    ensures Leads(l, IxRequestDegenVrf(l.round.winner, true), l1) && Leads(l1, IxDegenVrfCallback(cfg, 0, 0, true), l2)
    ensures Inv(l2) && Booked(l2) && l2.round.life.status == SETTLED && l2.round.degenMode == DEGEN_VRF_READY
    ensures l2.round.life.totalUsdc == l.round.life.totalUsdc
  {
    assert Shaped(l);
    Affords(l, cfg);
    hide Inv, Booked, ClaimAmounts, Leads;
    l1 := Step(l, IxRequestDegenVrf(l.round.winner, true));
    l2 := Step(l1, IxDegenVrfCallback(cfg, 0, 0, true));
  }

  /** A history of accepted instructions that leads to a ledger. */
  ghost predicate Gets(s: Site, txs: seq<Transaction>, l: Ledger)
  {
    && Shaped(s.l) && SiteAt(s, txs, |txs|) == Site(true, l)
    && forall i :: 0 <= i < |txs| ==> txs[i].Instruct? && Accepted(s, txs, i)
  }

  lemma {:induction false} SameBefore(s: Site, txs: seq<Transaction>, more: seq<Transaction>, n: nat)
    requires Shaped(s.l) && n <= |txs|
    ensures SiteAt(s, txs + more, n) == SiteAt(s, txs, n)
  {
    hide Transact;
    if n > 0 { SameBefore(s, txs, more, n - 1); }
  }

  lemma Goes(s: Site, txs: seq<Transaction>, l: Ledger, ix: Instruction, l': Ledger)
    requires Gets(s, txs, l) && Leads(l, ix, l')
    ensures Gets(s, txs + [Instruct(ix)], l') && SiteAt(s, txs + [Instruct(ix)], |txs|) == Site(true, l)
  {
    hide Inv, Booked, Execute, SiteAt;
    var all := txs + [Instruct(ix)];
    forall i: nat | i <= |txs| ensures SiteAt(s, all, i) == SiteAt(s, txs, i) { SameBefore(s, txs, [Instruct(ix)], i); }
    Moved(s, all, |txs|, Site(true, l), Site(true, l'));
  }

  /** From any open round with enough players a degen claim can be made ready. */
  lemma ReadyFrom(s: Site, txs: seq<Transaction>, l: Ledger, cfg: Config) returns (txs': seq<Transaction>, l': Ledger)
    requires Gets(s, txs, l) && Inv(l) && Booked(l)
    requires l.round.life.status == OPEN && l.round.degenMode == DEGEN_NONE && l.claim.status == 0
    requires l.round.life.firstDepositTs != 0 && cfg.feeBps <= BPS_DENOMINATOR
    requires cfg.minParticipants <= l.round.life.participantsCount && cfg.minTotalTickets <= l.round.life.totalTickets
    ensures Gets(s, txs', l') && |txs'| == |txs| + 5 && Inv(l') && Booked(l')
    ensures l'.round.life.status == SETTLED && l'.round.degenMode == DEGEN_VRF_READY
    ensures l'.round.life.totalUsdc == l.round.life.totalUsdc
  {
    hide *;
    var l1, l2 := Requests(l, cfg);
    var l3 := Settles(l2, cfg);
    var l4;
    l4, l' := Readies(l3, cfg);
    Goes(s, txs, l, IxLockRound(cfg, l.round.life.endTs), l1);
    txs' := txs + [Instruct(IxLockRound(cfg, l.round.life.endTs))];
    Goes(s, txs', l1, IxRequestVrf(cfg, 9), l2);
    txs' := txs' + [Instruct(IxRequestVrf(cfg, 9))];
    Goes(s, txs', l2, IxVrfCallback(cfg, 0), l3);
    txs' := txs' + [Instruct(IxVrfCallback(cfg, 0))];
    Goes(s, txs', l3, IxRequestDegenVrf(l3.round.winner, true), l4);
    txs' := txs' + [Instruct(IxRequestDegenVrf(l3.round.winner, true))];
    Goes(s, txs', l4, IxDegenVrfCallback(cfg, 0, 0, true), l');
    txs' := txs' + [Instruct(IxDegenVrfCallback(cfg, 0, 0, true))];
  }

  /** One deposit into a fresh round is enough for that. */
  lemma ReadyRun(cfg: Config, s: Site) returns (txs: seq<Transaction>, l: Ledger)
    requires cfg == Config(9, 25, 10, 60, 1, 1, false, 0) && s == Site(true, Started(3, 0, 1, 255, 4, 0))
    ensures Gets(s, txs, l) && |txs| == 6 && Inv(l) && Booked(l)
    ensures l.round.life.status == SETTLED && l.round.degenMode == DEGEN_VRF_READY
    ensures l.round.life.totalUsdc == 1_000_000
  {
    assert 25 <= BPS_DENOMINATOR && Gets(s, [], s.l);
    hide *;
    var a := DepositArgs(7, 1, 5, 1_000_000, 0, 0, true);
    var open := Opens(cfg, a);
    Goes(s, [], s.l, IxDeposit(cfg, a), open);
    txs, l := ReadyFrom(s, [] + [Instruct(IxDeposit(cfg, a))], open, cfg);
  }

  /** A run from a fresh round, every instruction accepted: after the begin the executor has money and the winner
      nothing, and after the finalize the round is over and that is all; the invariant, custody and refunds are intact
      throughout. */
  lemma DeliveryCanFail() returns (s: Site, txs: seq<Transaction>)
    ensures s == Site(true, Started(3, 0, 1, 255, 4, 0)) && Inv(s.l) && Booked(s.l) && !PotLeft(s.l) && |txs| == 8
    ensures forall i :: 0 <= i < 8 ==> txs[i].Instruct? && Accepted(s, txs, i)
    ensures var b := SiteAt(s, txs, 7).l.books; b.entrusted.Some? && b.entrusted.value > 0 && b.won.None?
    ensures Short(SiteAt(s, txs, 7).l) && Short(SiteAt(s, txs, 8).l)
    ensures SiteAt(s, txs, 8).l.round.life.status == CLAIMED && AlwaysInv(s, txs, 8) && AlwaysSafe(s, txs, 8)
  {
    s := Site(true, Started(3, 0, 1, 255, 4, 0));
    StartedInv(3, 0, 1, 255, 4, 0);
    assert Booked(s.l) && !PotLeft(s.l);
    var cfg := Config(9, 25, 10, 60, 1, 1, false, 0);
    hide Inv, Leads, SiteAt, Accepted, AlwaysInv, AlwaysSafe, Started, NothingLeft, Booked, PotLeft, Payout, Short;
    var l;
    txs, l := ReadyRun(cfg, s);
    PayoutPositive(l, cfg);
    var begun, over := UnservedFrom(l, cfg, 8, 0);
    ShortBooks(begun);
    Goes(s, txs, l, IxBeginDegen(cfg, 8, 0, 0, true), begun);
    txs := txs + [Instruct(IxBeginDegen(cfg, 8, 0, 0, true))];
    Goes(s, txs, begun, IxFinalizeDegen(8, 0, true), over);
    txs := txs + [Instruct(IxFinalizeDegen(8, 0, true))];
    SafeExact(s, txs, 8);
  }

  lemma ShortBooks(l: Ledger)
    requires Short(l) && Booked(l)
    ensures l.books.won.None?
  {
  }
}
