/** The rule book of a round: when each instruction is accepted, in plain terms, and what it then does. */
module RoundRules {
  import opened Basics
  import opened Division
  import opened Bytes
  import opened Fenwick
  import opened Layout
  import opened RoundLayout
  import opened RoundProgram
  import opened RoundSafety

  // ----- amounts -----

  /** The pot divided: a reimbursement of at most 200000, the fee in hundredths of a percent of the rest, rounded down,
      and all that remains. */
  predicate Splits(total: nat, feeBps: nat, reimburse: bool, payout: nat, fee: nat, vrf: nat)
  {
    && vrf == (if !reimburse then 0 else if total < 200_000 then total else 200_000)
    && fee * 10_000 <= (total - vrf) * feeBps < (fee + 1) * 10_000
    && payout + fee + vrf == total
  }

  lemma AmountsSplit(total: nat, feeBps: nat, reimburse: bool)
    requires total <= U64_MAX && feeBps <= 10_000
    ensures var m := ClaimAmounts(total, feeBps, reimburse);
            m.Done? && Splits(total, feeBps, reimburse, m.value.payout, m.value.fee, m.value.vrfReimburse)
  {
    AmountsAreThePot(total, feeBps, reimburse);
    var pot := Pot(total, reimburse);
    FeeRoundsDown(pot, feeBps);
  }

  lemma FeeRoundsDown(pot: nat, feeBps: nat)
    requires pot <= U64_MAX && feeBps <= 10_000
    ensures Fee(pot, feeBps) * 10_000 <= pot * feeBps < (Fee(pot, feeBps) + 1) * 10_000
  {
    var due := pot * feeBps;
    assert due <= 10_000 * pot by { MulMono(feeBps, 10_000, pot); }
    assert Fee(pot, feeBps) == due / 10_000;
  }

  // ----- acceptance -----

  predicate EnoughPlayers(l: Ledger, cfg: Config)
  {
    cfg.minParticipants <= l.round.life.participantsCount && cfg.minTotalTickets <= l.round.life.totalTickets
  }

  predicate Ready(l: Ledger)
  {
    l.round.life.status == SETTLED && l.round.degenMode == DEGEN_VRF_READY && l.claim.status == CLAIM_VRF_READY
  }

  /** What a deposit needs: an open round before its end, whose ticket price the deposit covers, a free seat or an old
      one, and room in the limits. */
  predicate MayDeposit(l: Ledger, cfg: Config, a: DepositArgs)
  {
    var life, delta := l.round.life, a.ataAmount - a.balanceBefore;
    var seated := a.user in l.people;
    var players := life.participantsCount + if seated then 0 else 1;
    && !cfg.paused && life.status == OPEN && life.roundId == a.roundId && a.accountsOk
    && (life.endTs == 0 || a.now < life.endTs)
    && delta >= a.minOut && delta >= cfg.ticketUnit > 0
    && players <= 200 && (seated || l.key != ZERO_KEY)
    && life.totalUsdc + delta <= U64_MAX && life.totalTickets + delta / cfg.ticketUnit <= U64_MAX
    && (cfg.maxDepositPerUser == 0 || (if seated then l.people[a.user].usdc else 0) + delta <= cfg.maxDepositPerUser)
    && (seated ==> l.people[a.user].deposits < U32_MAX)
    && (life.endTs == 0 && players >= cfg.minParticipants ==> a.now + cfg.roundDurationSec <= I64_MAX)
  }

  predicate Enabled(l: Ledger, ix: Instruction)
  {
    var life, mode, status := l.round.life, l.round.degenMode, l.round.life.status;
    match ix
    case IxDeposit(cfg, a) => MayDeposit(l, cfg, a)
    case IxCancelRound(user, ok) =>
      ok && status == OPEN && user in l.people && 0 < l.people[user].usdc == life.totalUsdc
    case IxClaimRefund(user, ok) => ok && status == CANCELLED && user in l.people && 0 < l.people[user].usdc
    case IxForceCancel(cfg, user) => user == cfg.admin && status < SETTLED
    case IxLockRound(cfg, now) =>
      status == OPEN && life.firstDepositTs != 0 && EnoughPlayers(l, cfg) && life.endTs <= now
    case IxRequestVrf(cfg, user) => status == LOCKED && EnoughPlayers(l, cfg)
    case IxVrfCallback(cfg, _) => status == VRF_REQUESTED && EnoughPlayers(l, cfg)
    case IxClaim(_, caller, _, ok) =>
      ok && status == SETTLED && mode == DEGEN_NONE && (caller.None? || caller.value == l.round.winner)
    case IxRequestDegenVrf(user, ok) =>
      ok && status == SETTLED && mode == DEGEN_NONE && user == l.round.winner
      && (l.claim.status == 0 || l.claim.status > CLAIM_FALLBACK)
    case IxDegenVrfCallback(_, timeout, now, ok) =>
      ok && status == SETTLED && mode == DEGEN_VRF_REQUESTED && l.claim.status == CLAIM_VRF_REQUESTED
      && now + (if timeout == 0 then 300 else timeout) <= I64_MAX
    case IxBeginDegen(_, _, _, _, ok) => ok && Ready(l)
    case IxFinalizeDegen(user, received, ok) =>
      && ok && status == SETTLED && mode == DEGEN_EXECUTING && l.claim.status == CLAIM_EXECUTING
      && user == l.claim.executor && l.claim.preBalance + l.claim.minOut <= received
      && l.claim.preBalance + l.claim.minOut <= U64_MAX
    case IxClaimDegen(_, user, swapped, now, ok) =>
      ok && Ready(l) && user == l.round.winner && (swapped || l.claim.fallbackAfterTs <= now)
    case IxCloseParticipant(user) =>
      user in l.people &&
      (status == CLAIMED || (status == CANCELLED && l.people[user].usdc == 0 && l.people[user].tickets == 0))
    case Donate(_) => true
  }

  /** A deposit passes its own checks if and only if it is in time and covers the ticket price. */
  lemma ChecksExact(life: Lifecycle, cfg: Config, a: DepositArgs)
    ensures var delta, unit := a.ataAmount - a.balanceBefore, cfg.ticketUnit;
      DepositChecks(life, cfg, a).Done? <==>
        && !cfg.paused && life.status == OPEN && life.roundId == a.roundId && a.accountsOk
        && (life.endTs == 0 || a.now < life.endTs) && delta >= a.minOut && delta >= unit > 0
    ensures DepositChecks(life, cfg, a).Done? ==>
      var delta := a.ataAmount - a.balanceBefore;
      DepositChecks(life, cfg, a).value == (delta, delta / cfg.ticketUnit)
    ensures DepositChecks(life, cfg, a) == Failed(DepositTooSmall) ==> 0 <= a.ataAmount - a.balanceBefore < cfg.ticketUnit
  {
    var delta, unit := a.ataAmount - a.balanceBefore, cfg.ticketUnit;
    if unit > 0 && delta >= 0 {
      if delta < unit { Quotient(delta, unit, 0); } else { AtMostQuotient(delta, unit, 1); }
    }
  }

  lemma DepositAccepted(l: Ledger, cfg: Config, a: DepositArgs)
    requires Inv(l)
    ensures Deposit(l, cfg, a).Done? <==> MayDeposit(l, cfg, a)
  {
    ChecksExact(l.round.life, cfg, a);
    hide DepositChecks;
    if DepositChecks(l.round.life, cfg, a).Done? {
      if a.user !in l.people && l.key == ZERO_KEY { return; }
      JoinExact(l, a.user);
      hide Join;
      var joined := Join(l.key, l.round, l.people, a.user);
      if joined.Done? {
        var delta, tickets := DepositChecks(l.round.life, cfg, a).value.0, DepositChecks(l.round.life, cfg, a).value.1;
        RoomInTree(l, a.user, joined.value.1, tickets);
        hide Inv, BitUpdate;
      }
    }
  }

  /** A user takes the old seat or the next one, if there is one. */
  lemma JoinExact(l: Ledger, user: Key)
    requires Inv(l) && l.round.life.status == OPEN && (user in l.people || l.key != ZERO_KEY)
    ensures var o, players := Join(l.key, l.round, l.people, user),
                              l.round.life.participantsCount + if user in l.people then 0 else 1;
      && (o.Done? <==> players <= 200)
      && (o.Done? ==>
            && o.value.0.life == l.round.life.(participantsCount := players) && o.value.0.bit == l.round.bit
            && 1 <= o.value.1.index <= players
            && o.value.1 == if user in l.people then l.people[user] else Person(l.key, user, players, 0, 0, 0))
  {
  }

  /** In a tallied round nobody's count and no node of the tree exceeds the totals. */
  lemma RoomInTree(l: Ledger, user: Key, p: Person, tickets: nat)
    requires Inv(l) && l.round.life.status == OPEN && 1 <= p.index <= MAX_PARTICIPANTS
    requires if user in l.people then p == l.people[user]
             else p.index == l.round.life.participantsCount + 1 && p.tickets == p.usdc == 0
    ensures p.tickets <= l.round.life.totalTickets && p.usdc <= l.round.life.totalUsdc
    ensures l.round.life.totalTickets + tickets <= U64_MAX ==> BitUpdate(l.round.bit, p.index, tickets).Done?
  {
    TableEntries(l);
    if user in l.people {
      SumMember(Tickets(l), p.index - 1);
      SumMember(Deposits(l), p.index - 1);
    }
    if l.round.life.totalTickets + tickets <= U64_MAX { UpdateFits(l.round.bit, Tickets(l), p.index, tickets); }
  }

  lemma CancelAccepted(l: Ledger, user: Key, ok: bool)
    requires Inv(l)
    ensures CancelRound(l, user, ok).Done? <==>
              ok && l.round.life.status == OPEN && user in l.people && 0 < l.people[user].usdc == l.round.life.totalUsdc
  {
    if user in l.people && l.round.life.status == OPEN {
      var p := l.people[user];
      RoomInTree(l, user, p, 0);
      DepositWithinOwed(l, user);
      TableEntries(l);
      UpdateFits(l.round.bit, Tickets(l), p.index, -(p.tickets as int));
    }
  }

  /** The fee of an instruction that pays is at most 100%, as `init_config` and `update_config` see to. */
  predicate FeeCapped(ix: Instruction) { Paying(ix) ==> ix.cfg.feeBps <= 10_000 }

  /** The instructions that work out the payout. */
  predicate Paying(ix: Instruction) { ix.IxClaim? || ix.IxDegenVrfCallback? || ix.IxBeginDegen? || ix.IxClaimDegen? }

  /** Nothing else stands in the way: in a round that meets the invariant an instruction is accepted if and only if the
      rule book says so. No overflow, no shortage and no tree update ever refuses it. */
  lemma AcceptedExact(l: Ledger, ix: Instruction)
    requires Inv(l) && FeeCapped(ix)
    ensures Execute(l, ix).Done? <==> Enabled(l, ix)
  {
    if Paying(ix) {
      PayoutAccepted(l, ix);
    } else {
      match ix
      case IxDeposit(cfg, a) => DepositAccepted(l, cfg, a);
      case IxCancelRound(user, ok) => CancelAccepted(l, user, ok);
      case IxVrfCallback(cfg, randomness) => DrawAccepted(l, cfg, randomness);
      case _ => OtherAccepted(l, ix);
    }
  }

  lemma DrawAccepted(l: Ledger, cfg: Config, randomness: Key)
    requires Inv(l)
    ensures VrfCallback(l, cfg, randomness).Done? <==> l.round.life.status == VRF_REQUESTED && EnoughPlayers(l, cfg)
  {
    if l.round.life.status == VRF_REQUESTED && EnoughPlayers(l, cfg) { DrawAlwaysSettles(l, cfg, randomness); }
  }

  lemma OtherAccepted(l: Ledger, ix: Instruction)
    requires Inv(l)
    requires !ix.IxDeposit? && !ix.IxCancelRound? && !ix.IxVrfCallback?
    requires !Paying(ix)
    ensures Execute(l, ix).Done? <==> Enabled(l, ix)
  {
    if ix.IxClaimRefund? { DepositWithinOwed(l, ix.user); }
    hide Represents;
  }

  lemma PayoutAccepted(l: Ledger, ix: Instruction)
    requires Inv(l) && FeeCapped(ix) && Paying(ix)
    ensures Execute(l, ix).Done? <==> Enabled(l, ix)
  {
    Payable(l, ix.cfg, VrfOwed(l.round));
    Payable(l, ix.cfg, false);
    hide Inv, ClaimAmounts;
  }

  lemma Payable(l: Ledger, cfg: Config, reimburse: bool)
    requires Inv(l) && cfg.feeBps <= 10_000
    ensures var m := ClaimAmounts(l.round.life.totalUsdc, cfg.feeBps, reimburse);
      l.round.life.status == SETTLED ==>
        m.Done? && (!PotLeft(l) ==> m.value.payout + m.value.fee + m.value.vrfReimburse <= l.vault)
  {
    if l.round.life.status == SETTLED {
      AmountsAreThePot(l.round.life.totalUsdc, cfg.feeBps, reimburse);
      PotIsThere(l, cfg, reimburse);
    }
  }

  // ----- effect -----

  function With(m: map<Key, nat>, k: Key, amount: nat): map<Key, nat> { m[k := amount + if k in m then m[k] else 0] }

  function WithLife(l: Ledger, life: Lifecycle): Ledger { l.(round := l.round.(life := life)) }

  /** A user's deposit is out of the vault and booked as returned; the account is empty. */
  function Returned(l: Ledger, user: Key): Ledger
    requires user in l.people && l.people[user].usdc <= l.vault
  {
    var p, b := l.people[user], l.books;
    l.(people := l.people[user := p.(usdc := 0, tickets := 0)], vault := l.vault - p.usdc,
       books := b.(refunded := b.refunded + p.usdc, returned := b.returned[user := At(b.returned, user) + p.usdc]))
  }

  /** Somebody paid for the draw and has not been reimbursed. */
  predicate Reimbursable(r: RoundView) { r.vrfPayer != 0 && r.vrfReimbursed == 0 }

  /** The pot leaves the vault in three parts; the payout is booked to the winner or to the executor. */
  ghost predicate PotPaid(l: Ledger, feeBps: nat, reimburse: bool, toWinner: bool, l': Ledger)
  {
    var total, b, b' := l.round.life.totalUsdc, l.books, l'.books;
    var part := if toWinner then b'.won else b'.entrusted;
    && l'.vault + total == l.vault && part.Some?
    && b' == (if toWinner then b.(paidOut := b.paidOut + total, won := part)
              else b.(paidOut := b.paidOut + total, entrusted := part))
    && exists fee, vrf :: Splits(total, feeBps, reimburse, part.value, fee, vrf)
                          && l'.round.vrfReimbursed == if vrf > 0 then 1 else l.round.vrfReimbursed
  }

  /** The round and claim of `l'` but for the reimbursement mark. */
  predicate Phase(l: Ledger, status: byte, mode: byte, claim: DegenClaim, l': Ledger)
  {
    && l'.key == l.key && l'.people == l.people && l'.claim == claim
    && l'.round == l.round.(life := l.round.life.(status := status), degenMode := mode,
                            vrfReimbursed := l'.round.vrfReimbursed)
  }

  /** What a deposit changes: the depositor's account, the seat if it is new, the totals and the clocks. */
  ghost predicate DepositDone(l: Ledger, cfg: Config, a: DepositArgs, l': Ledger)
  {
    && a.user in l'.people && l'.vault >= l.vault
    && var p', delta, seated, r, r' := l'.people[a.user], l'.vault - l.vault, a.user in l.people, l.round, l'.round;
       && Bought(l.key, r, l.people, cfg, a, r', p', delta)
       && l' == l.(round := r', people := l.people[a.user := p'], vault := l.vault + delta,
                   books := l.books.(deposited := l.books.deposited + delta,
                                     contributed := With(l.books.contributed, a.user, delta)))
       && p'.round == l.key && p'.user == a.user && p'.deposits == 1 + (if seated then l.people[a.user].deposits else 0)
       && p'.index == (if seated then l.people[a.user].index else r'.life.participantsCount)
       && 1 <= p'.index <= |r.participants|
       && r' == r.(life := r'.life, bit := r'.bit, participants := r.participants[p'.index - 1 := a.user])
       && r'.life.roundId == r.life.roundId && r'.life.status == OPEN && r'.life.bump == r.life.bump
       && r'.life.startTs == r.life.startTs && Shaped(l') && Tallied(l')
  }

  /** What an accepted instruction makes of the ledger, all of it. */
  ghost predicate Effect(l: Ledger, ix: Instruction, l': Ledger)
  {
    var r, status, mode := l.round, l.round.life.status, l.round.degenMode;
    match ix
    case IxDeposit(cfg, a) => DepositDone(l, cfg, a, l')
    case IxCancelRound(user, _) =>
      && user in l.people && l.people[user].usdc <= l.vault && Shaped(l') && Tallied(l')
      && l' == Returned(l, user).(round := r.(bit := l'.round.bit, life := r.life.(status := CANCELLED, totalUsdc := 0,
                                              totalTickets := l'.round.life.totalTickets)))
    case IxClaimRefund(user, _) => user in l.people && l.people[user].usdc <= l.vault && l' == Returned(l, user)
    case IxForceCancel(_, _) => l' == WithLife(l, r.life.(status := CANCELLED))
    case IxLockRound(_, _) => l' == WithLife(l, r.life.(status := LOCKED))
    case IxRequestVrf(_, user) => l' == l.(round := r.(vrfPayer := user, life := r.life.(status := VRF_REQUESTED)))
    case IxVrfCallback(_, randomness) =>
      && r.life.totalTickets > 0
      && l' == l.(round := r.(randomness := randomness, winner := l'.round.winner, life := r.life.(status := SETTLED),
                              winningTicket := DecodeLE(EncodeLE(randomness, 32)[..16]) % r.life.totalTickets + 1))
      && Wins(r, l'.round.winningTicket, l'.round.winner)
    case IxClaim(cfg, _, ataOk, _) =>
      Phase(l, CLAIMED, DEGEN_NONE, l.claim, l') && PotPaid(l, cfg.feeBps, Reimbursable(r) && ataOk, true, l')
    case IxRequestDegenVrf(_, _) =>
      l' == l.(round := r.(degenMode := DEGEN_VRF_REQUESTED), claim := l.claim.(status := CLAIM_VRF_REQUESTED))
    case IxDegenVrfCallback(_, timeout, now, _) =>
      l' == l.(round := r.(degenMode := DEGEN_VRF_READY),
               claim := l.claim.(status := CLAIM_VRF_READY,
                                 fallbackAfterTs := now + if timeout == 0 then 300 else timeout))
    case IxBeginDegen(cfg, user, minOut, pre, _) =>
      && Phase(l, SETTLED, DEGEN_EXECUTING, DegenClaim(CLAIM_EXECUTING, l.claim.fallbackAfterTs, user, minOut, pre), l')
      && PotPaid(l, cfg.feeBps, Reimbursable(r), false, l')
    case IxFinalizeDegen(_, received, _) =>
      && received >= l.claim.preBalance
      && l' == WithLife(l, r.life.(status := CLAIMED)).(
           round := r.(life := r.life.(status := CLAIMED), degenMode := DEGEN_CLAIMED),
           claim := l.claim.(status := CLAIM_SWAPPED),
           books := l.books.(delivered := Some(received - l.claim.preBalance)))
    case IxClaimDegen(cfg, _, swapped, _, _) =>
      && Phase(l, CLAIMED, DEGEN_CLAIMED, l.claim.(status := if swapped then CLAIM_SWAPPED else CLAIM_FALLBACK), l')
      && PotPaid(l, cfg.feeBps, Reimbursable(r), true, l')
    case IxCloseParticipant(user) => l' == l.(people := l.people - {user})
    case Donate(amount) =>
      l' == l.(vault := l.vault + amount, books := l.books.(donated := l.books.donated + amount))
  }

  /** Every accepted instruction on a round that meets the invariant does exactly what the rule book says. */
  lemma EffectExact(l: Ledger, ix: Instruction, l': Ledger)
    requires Inv(l) && FeeCapped(ix) && Execute(l, ix) == Done(l')
    ensures Effect(l, ix, l')
  {
    hide Deposit, CancelRound, VrfCallback, Claim, BeginDegen, ClaimDegen, DepositDone, Phase, PotPaid, Wins, Tallied;
    match ix
    case IxDeposit(cfg, a) => DepositEffective(l, cfg, a, l');
    case IxCancelRound(user, ok) => CancelEffective(l, user, ok, l');
    case IxVrfCallback(cfg, randomness) => DrawEffective(l, cfg, randomness, l');
    case IxClaim(cfg, caller, ataOk, ok) => ClaimEffective(l, cfg, caller, ataOk, ok, l');
    case IxBeginDegen(cfg, user, minOut, pre, ok) => BeginEffective(l, cfg, user, minOut, pre, ok, l');
    case IxClaimDegen(cfg, user, swapped, now, ok) => ClaimDegenEffective(l, cfg, user, swapped, now, ok, l');
    case _ => OtherEffective(l, ix, l');
  }

  lemma OtherEffective(l: Ledger, ix: Instruction, l': Ledger)
    requires Inv(l) && Execute(l, ix) == Done(l')
    requires !ix.IxDeposit? && !ix.IxCancelRound? && !ix.IxVrfCallback?
    requires !ix.IxClaim? && !ix.IxBeginDegen? && !ix.IxClaimDegen?
    ensures Effect(l, ix, l')
  {
    hide Inv, ClaimAmounts;
  }

  lemma DepositEffective(l: Ledger, cfg: Config, a: DepositArgs, l': Ledger)
    requires Inv(l) && Deposit(l, cfg, a) == Done(l')
    ensures DepositDone(l, cfg, a, l')
  {
    hide Deposit, Bought, Tallied, Roster, Phases, Balanced;
    DepositKeeps(l, cfg, a, l');
    DepositSeat(l, cfg, a, l');
  }

  lemma DepositSeat(l: Ledger, cfg: Config, a: DepositArgs, l': Ledger)
    requires Inv(l) && Deposit(l, cfg, a) == Done(l')
    ensures a.user in l'.people && l'.vault >= l.vault && Shaped(l')
    ensures var p', delta, seated, r, r' := l'.people[a.user], l'.vault - l.vault, a.user in l.people, l.round, l'.round;
       && l' == l.(round := r', people := l.people[a.user := p'], vault := l.vault + delta,
                   books := l.books.(deposited := l.books.deposited + delta,
                                     contributed := With(l.books.contributed, a.user, delta)))
       && p'.round == l.key && p'.user == a.user && p'.deposits == 1 + (if seated then l.people[a.user].deposits else 0)
       && p'.index == (if seated then l.people[a.user].index else r'.life.participantsCount)
       && 1 <= p'.index <= |r.participants|
       && r' == r.(life := r'.life, bit := r'.bit, participants := r.participants[p'.index - 1 := a.user])
       && r'.life.roundId == r.life.roundId && r'.life.status == OPEN && r'.life.bump == r.life.bump
       && r'.life.startTs == r.life.startTs
  {
    hide Tickets, Deposits, Represents, Total, Fits, Updated;
    var j := Join(l.key, l.round, l.people, a.user).value;
    if a.user in l.people { assert l.round.participants[l.people[a.user].index - 1 := a.user] == l.round.participants; }
  }

  lemma CancelEffective(l: Ledger, user: Key, ok: bool, l': Ledger)
    requires Inv(l) && CancelRound(l, user, ok) == Done(l')
    ensures user in l.people && l.people[user].usdc <= l.vault && Shaped(l') && Tallied(l')
    ensures l' == Returned(l, user).(round := l.round.(bit := l'.round.bit, life := l.round.life.(status := CANCELLED,
                                     totalUsdc := 0, totalTickets := l'.round.life.totalTickets)))
  {
    var p := l.people[user];
    DepositWithinOwed(l, user);
    SeatedTables(l, l', user, p.(usdc := 0, tickets := 0));
    TallyMoves(l, l', p.index, 0, 0);
    hide Tallied, Tickets, Deposits, Represents, Total, Fits, Updated, Balanced, Phases;
  }

  lemma DrawEffective(l: Ledger, cfg: Config, randomness: Key, l': Ledger)
    requires Inv(l) && VrfCallback(l, cfg, randomness) == Done(l')
    ensures l.round.life.totalTickets > 0 && Wins(l.round, l'.round.winningTicket, l'.round.winner)
    ensures var ticket := DecodeLE(EncodeLE(randomness, 32)[..16]) % l.round.life.totalTickets + 1;
            l' == l.(round := l.round.(randomness := randomness, winner := l'.round.winner, winningTicket := ticket,
                                       life := l.round.life.(status := SETTLED)))
  {
    assert Shaped(l);
    hide Inv, Draw, Wins, EncodeLE, DecodeLE;
    FirstHalf(randomness);
    DrawWins(l.round, RandomU128(randomness) % l.round.life.totalTickets + 1, l'.round.winner);
  }

  /** The three transfers, from a ledger that differs from `l` in phase only. */
  lemma PaidPot(l: Ledger, l0: Ledger, feeBps: nat, reimburse: bool, m: Amounts, toWinner: bool, l': Ledger)
    requires l0.vault == l.vault && l0.books == l.books && l0.round.vrfReimbursed == l.round.vrfReimbursed
    requires Splits(l.round.life.totalUsdc, feeBps, reimburse, m.payout, m.fee, m.vrfReimburse)
    requires PaidOut(l0, m, toWinner) == Done(l')
    ensures PotPaid(l, feeBps, reimburse, toWinner, l')
    ensures l'.key == l0.key && l'.people == l0.people && l'.claim == l0.claim
    ensures l'.round == l0.round.(vrfReimbursed := l'.round.vrfReimbursed)
  {
  }

  lemma ClaimEffective(l: Ledger, cfg: Config, caller: Option<Key>, ataOk: bool, ok: bool, l': Ledger)
    requires Inv(l) && cfg.feeBps <= 10_000 && Claim(l, cfg, caller, ataOk, ok) == Done(l')
    ensures Phase(l, CLAIMED, DEGEN_NONE, l.claim, l') && PotPaid(l, cfg.feeBps, Reimbursable(l.round) && ataOk, true, l')
  {
    var reimburse := VrfOwed(l.round) && ataOk;
    AmountsSplit(l.round.life.totalUsdc, cfg.feeBps, reimburse);
    hide Inv, ClaimAmounts, Splits, PaidOut, PotPaid;
    var m := ClaimAmounts(l.round.life.totalUsdc, cfg.feeBps, reimburse).value;
    PaidPot(l, WithStatus(l, CLAIMED), cfg.feeBps, reimburse, m, true, l');
  }

  lemma BeginEffective(l: Ledger, cfg: Config, user: Key, minOut: nat, pre: nat, ok: bool, l': Ledger)
    requires Inv(l) && cfg.feeBps <= 10_000 && BeginDegen(l, cfg, user, minOut, pre, ok) == Done(l')
    ensures var claim := DegenClaim(CLAIM_EXECUTING, l.claim.fallbackAfterTs, user, minOut, pre);
            Phase(l, SETTLED, DEGEN_EXECUTING, claim, l')
    ensures PotPaid(l, cfg.feeBps, Reimbursable(l.round), false, l')
  {
    AmountsSplit(l.round.life.totalUsdc, cfg.feeBps, VrfOwed(l.round));
    hide Inv, ClaimAmounts, Splits, PaidOut, PotPaid;
    var m := ClaimAmounts(l.round.life.totalUsdc, cfg.feeBps, VrfOwed(l.round)).value;
    var l0 := WithMode(l, DEGEN_EXECUTING, CLAIM_EXECUTING);
    l0 := l0.(claim := l0.claim.(executor := user, minOut := minOut, preBalance := pre));
    PaidPot(l, l0, cfg.feeBps, VrfOwed(l.round), m, false, l');
  }

  lemma ClaimDegenEffective(l: Ledger, cfg: Config, user: Key, swapped: bool, now: int, ok: bool, l': Ledger)
    requires Inv(l) && cfg.feeBps <= 10_000 && ClaimDegen(l, cfg, user, swapped, now, ok) == Done(l')
    ensures Phase(l, CLAIMED, DEGEN_CLAIMED, l.claim.(status := if swapped then CLAIM_SWAPPED else CLAIM_FALLBACK), l')
    ensures PotPaid(l, cfg.feeBps, Reimbursable(l.round), true, l')
  {
    AmountsSplit(l.round.life.totalUsdc, cfg.feeBps, VrfOwed(l.round));
    hide Inv, ClaimAmounts, Splits, PaidOut, PotPaid;
    var m := ClaimAmounts(l.round.life.totalUsdc, cfg.feeBps, VrfOwed(l.round)).value;
    var l0 := WithMode(WithStatus(l, CLAIMED), DEGEN_CLAIMED, if swapped then CLAIM_SWAPPED else CLAIM_FALLBACK);
    PaidPot(l, l0, cfg.feeBps, VrfOwed(l.round), m, true, l');
  }

  // ----- creation and closing -----

  /** A round that was just created: open, empty, started now; nothing is set but its id, its bump and its vault. */
  predicate Blank(r: RoundView, roundId: nat, bump: byte, vaultKey: Key, now: int)
  {
    && r.life.roundId == roundId && r.life.status == OPEN && r.life.bump == bump && r.life.startTs == now
    && r.life.endTs == r.life.firstDepositTs == 0
    && r.life.totalUsdc == r.life.totalTickets == r.life.participantsCount == 0
    && r.vault == vaultKey && r.randomness == r.winner == r.vrfPayer == ZERO_KEY && r.winningTicket == 0
    && r.vrfReimbursed == r.degenMode == 0 && |r.participants| == 200 && |r.bit| == 201
    && (forall k :: k in r.participants ==> k == ZERO_KEY) && forall n :: n in r.bit ==> n == 0
  }

  /** Only a claimed or cancelled round that stands is closed, and only where none stands is one created. The close takes
      the vault that was passed; the creation finds what is in it. */
  lemma SiteExact(s: Site, tx: Transaction)
    requires Shaped(s.l)
    ensures tx.Instruct? ==>
      var o := Transact(s, tx);
      && (o.Done? <==> s.standing && Execute(s.l, tx.ix).Done?)
      && (o.Done? ==> o.value == Site(true, Execute(s.l, tx.ix).value))
    ensures tx.TxCloseRound? ==>
      var o := Transact(s, tx);
      && (o.Done? <==> && s.standing && (s.l.round.life.status == CLAIMED || s.l.round.life.status == CANCELLED)
                       && tx.accountsOk && (!tx.own || tx.treasury || s.l.vault == 0))
      && (o.Done? ==> !o.value.standing && o.value.l == if tx.own then
            s.l.(vault := 0, books := s.l.books.(swept := s.l.books.swept + s.l.vault)) else s.l)
    ensures tx.TxStartRound? ==>
      var o := Transact(s, tx);
      && (o.Done? <==> !s.standing && !tx.paused && tx.accountsOk)
      && (o.Done? ==>
            && o.value.standing && Blank(o.value.l.round, tx.roundId, tx.bump, tx.vaultKey, tx.now)
            && o.value.l.key == s.l.key && o.value.l.people == s.l.people && o.value.l.claim == tx.claim
            && o.value.l.vault == s.l.vault + tx.sent
            && o.value.l.books == Books(0, s.l.vault + tx.sent, 0, 0, 0, map[], map[], None, None, None))
  {
    hide Execute;
  }

  // ----- refusals -----

  /** What each error says of a refused deposit. */
  predicate DepositSays(l: Ledger, cfg: Config, a: DepositArgs, e: Error)
  {
    var life, delta := l.round.life, a.ataAmount - a.balanceBefore;
    match e
    case Paused => cfg.paused
    case RoundNotOpen => life.status != OPEN
    case RoundExpired => life.endTs != 0 && life.endTs <= a.now
    case InvalidUsdcBalanceBefore => delta < 0
    case SlippageExceeded => delta < a.minOut
    case DepositTooSmall => delta < cfg.ticketUnit
    case MaxParticipantsReached => a.user !in l.people && life.participantsCount >= 200
    case MaxDepositExceeded =>
      0 < cfg.maxDepositPerUser < (if a.user in l.people then l.people[a.user].usdc else 0) + delta
    case InvalidAccounts => !a.accountsOk || a.roundId != life.roundId || (a.user !in l.people && l.key == ZERO_KEY)
    case Overflow => true
    case _ => false
  }

  predicate PlayersSay(l: Ledger, cfg: Config, e: Error)
  {
    || (e == NotEnoughParticipants && l.round.life.participantsCount < cfg.minParticipants)
    || (e == NotEnoughTickets && l.round.life.totalTickets < cfg.minTotalTickets)
  }

  predicate UnsettledSays(l: Ledger, ok: bool, e: Error)
  {
    (e == RoundNotSettled && l.round.life.status != SETTLED) || (e == InvalidAccounts && !ok)
  }

  predicate NotReadySays(l: Ledger, e: Error)
  {
    e == DegenVrfNotReady && (l.round.degenMode != DEGEN_VRF_READY || l.claim.status != CLAIM_VRF_READY)
  }

  /** What each error says of the instruction that was refused. */
  predicate Says(l: Ledger, ix: Instruction, e: Error)
  {
    var life, status, mode, claim := l.round.life, l.round.life.status, l.round.degenMode, l.claim.status;
    match ix
    case IxDeposit(cfg, a) => DepositSays(l, cfg, a, e)
    case IxCancelRound(user, ok) =>
      || (e == MissingAccount && user !in l.people)
      || (e == NoDepositToRefund && user in l.people && l.people[user].usdc == 0)
      || (e == RoundNotCancellable && status != OPEN)
      || (e == CancelNotAllowed && user in l.people && l.people[user].usdc != life.totalUsdc)
      || (e == InvalidAccounts && !ok)
    case IxClaimRefund(user, ok) =>
      || (e == MissingAccount && user !in l.people)
      || (e == NoDepositToRefund && user in l.people && l.people[user].usdc == 0)
      || (e == RoundNotCancellable && status != CANCELLED)
      || (e == InvalidAccounts && !ok)
    case IxForceCancel(cfg, user) =>
      (e == Unauthorized && user != cfg.admin) || (e == RoundNotCancellable && status >= SETTLED)
    case IxLockRound(cfg, now) =>
      || (e == RoundNotOpen && status != OPEN) || (e == NoDepositsYet && life.firstDepositTs == 0)
      || PlayersSay(l, cfg, e) || (e == RoundNotEnded && now < life.endTs)
    case IxRequestVrf(cfg, _) => (e == RoundNotLocked && status != LOCKED) || PlayersSay(l, cfg, e)
    case IxVrfCallback(cfg, _) => (e == RoundNotVrfRequested && status != VRF_REQUESTED) || PlayersSay(l, cfg, e)
    case IxClaim(_, caller, _, ok) =>
      || UnsettledSays(l, ok, e) || (e == DegenClaimLocked && mode != DEGEN_NONE)
      || (e == OnlyWinnerCanClaim && caller.Some? && caller.value != l.round.winner)
    case IxRequestDegenVrf(user, ok) =>
      || UnsettledSays(l, ok, e) || (e == OnlyWinnerCanClaim && user != l.round.winner)
      || (e == DegenAlreadyRequested && (mode == DEGEN_VRF_REQUESTED || claim == CLAIM_VRF_REQUESTED))
      || (e == DegenAlreadyClaimed &&
          (mode == DEGEN_VRF_READY || mode == DEGEN_CLAIMED || CLAIM_VRF_READY <= claim <= CLAIM_FALLBACK))
      || (e == DegenClaimLocked && mode != DEGEN_NONE)
    case IxDegenVrfCallback(_, _, _, ok) =>
      || UnsettledSays(l, ok, e) || e == Overflow
      || (e == DegenVrfNotRequested && (mode != DEGEN_VRF_REQUESTED || claim != CLAIM_VRF_REQUESTED))
    case IxBeginDegen(_, _, _, _, ok) => UnsettledSays(l, ok, e) || NotReadySays(l, e)
    case IxFinalizeDegen(user, received, ok) =>
      || UnsettledSays(l, ok, e) || (e == Unauthorized && user != l.claim.executor)
      || (e == InvalidDegenExecutionState && (mode != DEGEN_EXECUTING || claim != CLAIM_EXECUTING))
      || (e == Overflow && l.claim.preBalance + l.claim.minOut > U64_MAX)
      || (e == DegenOutputNotReceived && received < l.claim.preBalance + l.claim.minOut)
    case IxClaimDegen(_, user, swapped, now, ok) =>
      || UnsettledSays(l, ok, e) || NotReadySays(l, e) || (e == OnlyWinnerCanClaim && user != l.round.winner)
      || (e == InvalidDegenExecutionState && !swapped && claim != CLAIM_VRF_READY)
      || (e == DegenFallbackTooEarly && !swapped && now < l.claim.fallbackAfterTs)
    case IxCloseParticipant(user) =>
      || (e == MissingAccount && user !in l.people)
      || (e == RoundNotCloseable && status != CLAIMED && status != CANCELLED)
      || (e == ParticipantNotEmpty && status == CANCELLED && user in l.people
          && (l.people[user].usdc > 0 || l.people[user].tickets > 0))
    case Donate(_) => false
  }

  /** Every refusal is for the reason its error names; a round that meets the invariant never lacks the funds. */
  lemma RefusalsMean(l: Ledger, ix: Instruction)
    requires Inv(l) && FeeCapped(ix)
    ensures Execute(l, ix).Failed? ==> Says(l, ix, Execute(l, ix).error)
  {
    match ix
    case IxDeposit(cfg, a) => DepositRefused(l, cfg, a);
    case IxCancelRound(user, ok) => CancelRefused(l, user, ok);
    case IxVrfCallback(cfg, randomness) => DrawRefused(l, cfg, randomness);
    case _ => if Paying(ix) { PayoutRefused(l, ix); } else { OtherRefused(l, ix); }
  }

  lemma DrawRefused(l: Ledger, cfg: Config, randomness: Key)
    requires Inv(l)
    ensures var o := VrfCallback(l, cfg, randomness); o.Failed? ==> Says(l, IxVrfCallback(cfg, randomness), o.error)
  {
    DrawAccepted(l, cfg, randomness);
    hide Inv, Draw;
  }

  lemma OtherRefused(l: Ledger, ix: Instruction)
    requires Inv(l) && !ix.IxDeposit? && !ix.IxCancelRound? && !ix.IxVrfCallback? && !Paying(ix)
    ensures Execute(l, ix).Failed? ==> Says(l, ix, Execute(l, ix).error)
  {
    if ix.IxClaimRefund? { DepositWithinOwed(l, ix.user); }
    hide Represents, ClaimAmounts, Tallied;
  }

  lemma PayoutRefused(l: Ledger, ix: Instruction)
    requires Inv(l) && Paying(ix) && ix.cfg.feeBps <= 10_000
    ensures Execute(l, ix).Failed? ==> Says(l, ix, Execute(l, ix).error)
  {
    Payable(l, ix.cfg, VrfOwed(l.round));
    Payable(l, ix.cfg, false);
    hide Inv, ClaimAmounts;
  }

  lemma CancelRefused(l: Ledger, user: Key, ok: bool)
    requires Inv(l)
    ensures var o := CancelRound(l, user, ok); o.Failed? ==> Says(l, IxCancelRound(user, ok), o.error)
  {
    CancelAccepted(l, user, ok);
    hide Represents, Tallied, BitUpdate;
  }

  lemma ChecksRefused(l: Ledger, cfg: Config, a: DepositArgs)
    ensures var o := DepositChecks(l.round.life, cfg, a); o.Failed? ==> DepositSays(l, cfg, a, o.error)
  {
    ChecksExact(l.round.life, cfg, a);
  }

  lemma DepositRefused(l: Ledger, cfg: Config, a: DepositArgs)
    requires Inv(l)
    ensures var o := Deposit(l, cfg, a); o.Failed? ==> DepositSays(l, cfg, a, o.error)
  {
    ChecksRefused(l, cfg, a);
    ChecksExact(l.round.life, cfg, a);
    if DepositChecks(l.round.life, cfg, a).Done? { JoinRefused(l, cfg, a); }
    hide DepositChecks, DepositSays, Join, StartClocks, Credit, Record, Inv;
  }

  lemma JoinRefused(l: Ledger, cfg: Config, a: DepositArgs)
    requires Inv(l) && l.round.life.status == OPEN && DepositChecks(l.round.life, cfg, a).Done?
    requires DepositChecks(l.round.life, cfg, a).value.0 == a.ataAmount - a.balanceBefore
    ensures var o := Deposit(l, cfg, a); o.Failed? ==> DepositSays(l, cfg, a, o.error)
  {
    hide DepositChecks;
    assert Shaped(l);
    if a.user in l.people || l.key != ZERO_KEY {
      JoinExact(l, a.user);
      var joined := Join(l.key, l.round, l.people, a.user);
      if joined.Done? {
        var checked := DepositChecks(l.round.life, cfg, a).value;
        RestRefused(joined.value.0, joined.value.1, cfg, a.now, checked.0, checked.1);
        hide Join, Inv, StartClocks, Credit, Record;
      }
    } else {
      hide Fits, Updated;
    }
  }

  /** After the checks and the seat, only an overflow or the limit per user refuses a deposit. */
  lemma RestRefused(r: RoundView, p: Person, cfg: Config, now: int, delta: nat, tickets: nat)
    requires 1 <= p.index < |r.bit|
    ensures StartClocks(r.life, cfg, now).Failed? ==> StartClocks(r.life, cfg, now).error == Overflow
    ensures var c := Credit(p, cfg, delta, tickets);
      && (c.Failed? ==> c.error == Overflow || (c.error == MaxDepositExceeded && 0 < cfg.maxDepositPerUser < p.usdc + delta))
      && (c.Done? ==> c.value.index == p.index)
    ensures forall life :: var o := Record(r.(life := life), p.index, delta, tickets); o.Failed? ==> o.error == Overflow
  {
    hide Fits, Updated;
  }

  // ----- codes -----

  /** The numbers that stand for the phases in the accounts. */
  lemma Codes()
    ensures OPEN == 0 && LOCKED == 1 && VRF_REQUESTED == 2 && SETTLED == 3 && CLAIMED == 4 && CANCELLED == 5
    ensures DEGEN_NONE == 0 && DEGEN_VRF_REQUESTED == 1 && DEGEN_VRF_READY == 2 && DEGEN_EXECUTING == 3
    ensures DEGEN_CLAIMED == 4
    ensures CLAIM_VRF_REQUESTED == 1 && CLAIM_VRF_READY == 2 && CLAIM_EXECUTING == 3
    ensures CLAIM_SWAPPED == 4 && CLAIM_FALLBACK == 5
  {
  }
}
