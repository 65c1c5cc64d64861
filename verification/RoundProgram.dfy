/**
 The on-chain round program as a state machine: one round account, the participant accounts of that
 round, the vault that holds the deposits, and every instruction that touches them, from the creation of
 the account to its closing and its creation again. A failed instruction aborts its transaction, so it
 leaves the ledger as it was.
 */
module RoundProgram {
  import opened Basics
  import opened Bytes
  import opened Fenwick
  import opened Layout
  import opened RoundLayout

  const OPEN: byte := 0
  const LOCKED: byte := 1
  const VRF_REQUESTED: byte := 2
  const SETTLED: byte := 3
  const CLAIMED: byte := 4
  const CANCELLED: byte := 5

  const DEGEN_NONE: byte := 0
  const DEGEN_VRF_REQUESTED: byte := 1
  const DEGEN_VRF_READY: byte := 2
  const DEGEN_EXECUTING: byte := 3
  const DEGEN_CLAIMED: byte := 4

  const CLAIM_VRF_REQUESTED: byte := 1
  const CLAIM_VRF_READY: byte := 2
  const CLAIM_EXECUTING: byte := 3
  const CLAIM_SWAPPED: byte := 4
  const CLAIM_FALLBACK: byte := 5

  const BPS_DENOMINATOR: nat := 10_000
  const VRF_REIMBURSEMENT_USDC: nat := 200_000
  const DEFAULT_FALLBACK_TIMEOUT_SEC: nat := 300

  /** The key of all zero bytes. */
  const ZERO_KEY: Key := 0
  const U128: nat := 0x1_0000_0000_0000_0000_0000_0000_0000_0000

  datatype Error =
    | Paused | RoundNotOpen | RoundNotLocked | RoundNotVrfRequested | RoundNotSettled | NoDepositsYet
    | NotEnoughParticipants | NotEnoughTickets | RoundNotEnded | RoundExpired | InvalidUsdcBalanceBefore
    | SlippageExceeded | DepositTooSmall | MaxParticipantsReached | MaxDepositExceeded | OnlyWinnerCanClaim
    | Overflow | Unauthorized | RoundNotCancellable | CancelNotAllowed | NoDepositToRefund
    | RoundNotCloseable | ParticipantNotEmpty | DegenClaimLocked | DegenAlreadyRequested | DegenAlreadyClaimed
    | DegenVrfNotRequested | DegenVrfNotReady | InvalidDegenExecutionState | DegenFallbackTooEarly
    | DegenOutputNotReceived | InvalidAccounts | MissingAccount | InsufficientVault | DivideByZero
    | VaultNotEmpty | AlreadyInitialized

  datatype Outcome<+T> = Done(value: T) | Failed(error: Error) {
    predicate IsFailure() { Failed? }
    function PropagateFailure<U>(): Outcome<U> requires Failed? { Failed(error) }
    function Extract(): T requires Done? { value }
  }

  datatype Check = Pass | Refuse(error: Error) {
    predicate IsFailure() { Refuse? }
    function PropagateFailure<U>(): Outcome<U> requires Refuse? { Failed(error) }
  }

  function Need(cond: bool, e: Error): Check { if cond then Pass else Refuse(e) }

  /** The part of the config account the instructions read. An admin may change it between instructions. */
  datatype Config = Config(
    admin: Key, feeBps: nat, ticketUnit: nat, roundDurationSec: nat, minParticipants: nat,
    minTotalTickets: nat, paused: bool, maxDepositPerUser: nat)

  datatype Person = Person(round: Key, user: Key, index: nat, tickets: nat, usdc: nat, deposits: nat)

  datatype DegenClaim = DegenClaim(status: byte, fallbackAfterTs: int, executor: Key, minOut: nat, preBalance: nat)

  /** Running totals of what moved through the vault, and per user what came in and what was given back. Of the pot:
      `won` is what went to the winner's own USDC account, `entrusted` what went to the executor's for a swap, and
      `delivered` the tokens that a finalize saw arrive at the winner. */
  datatype Books = Books(
    deposited: nat, donated: nat, refunded: nat, paidOut: nat, swept: nat,
    contributed: map<Key, nat>, returned: map<Key, nat>,
    won: Option<nat>, entrusted: Option<nat>, delivered: Option<nat>)

  datatype Ledger = Ledger(
    key: Key, round: RoundView, people: map<Key, Person>, claim: DegenClaim, vault: nat, books: Books)

  function At(m: map<Key, nat>, k: Key): nat { if k in m then m[k] else 0 }

  // ----- the instructions -----

  /** `start_round` for the first time: no participant account names the round. */
  function Started(key: Key, found: nat, roundId: nat, bump: byte, vaultKey: Key, now: int): Ledger
  {
    StartedOver(key, map[], DegenClaim(0, 0, ZERO_KEY, 0, 0), found, roundId, bump, vaultKey, now)
  }

  /** `start_round` on a zeroed account: `people` are the participant accounts that name this round key, left over from
      before, `claim` is whatever the degen claim account of the coming winner holds, and `found` the balance found in
      the vault, booked as donated. The books start anew. */
  function StartedOver(key: Key, people: map<Key, Person>, claim: DegenClaim, found: nat, roundId: nat, bump: byte,
                       vaultKey: Key, now: int): Ledger
  {
    Ledger(key, FreshRound(roundId, bump, vaultKey, now), people, claim, found,
           Books(0, found, 0, 0, 0, map[], map[], None, None, None))
  }

  function FreshRound(roundId: nat, bump: byte, vaultKey: Key, now: int): RoundView
  {
    RoundView(Lifecycle(roundId, OPEN, bump, now, 0, 0, 0, 0, 0), vaultKey, ZERO_KEY, 0, ZERO_KEY,
              seq(MAX_PARTICIPANTS, _ => ZERO_KEY), seq(MAX_PARTICIPANTS + 1, _ => 0), ZERO_KEY, 0, 0)
  }

  /** `bit_add`/`bit_sub` on the node array; the error cases of the source. */
  function BitUpdate(bit: seq<nat>, i: nat, delta: int): Outcome<seq<nat>>
  {
    if i == 0 || i >= |bit| then Failed(InvalidAccounts)
    else if Fits(bit, i, delta) then Done(Updated(bit, i, delta))
    else Failed(Overflow)
  }

  datatype DepositArgs = DepositArgs(
    user: Key, roundId: nat, now: int, ataAmount: nat, balanceBefore: nat, minOut: nat, accountsOk: bool)

  /** The checks of `deposit_any` before any account changes; yields the deposit and its tickets. */
  function DepositChecks(life: Lifecycle, cfg: Config, a: DepositArgs): Outcome<(nat, nat)>
  {
    var open := life.status == OPEN;
    :- Need(!cfg.paused, Paused);
    :- Need(life.roundId == a.roundId, InvalidAccounts);
    :- Need(open, RoundNotOpen);
    :- Need(a.accountsOk, InvalidAccounts);
    :- Need(life.endTs == 0 || a.now < life.endTs, RoundExpired);
    :- Need(a.balanceBefore <= a.ataAmount, InvalidUsdcBalanceBefore);
    var delta := a.ataAmount - a.balanceBefore;
    :- Need(a.minOut <= delta, SlippageExceeded);
    :- Need(cfg.ticketUnit != 0, Overflow);
    var tickets := delta / cfg.ticketUnit;
    :- Need(tickets != 0, DepositTooSmall);
    Done((delta, tickets))
  }

  /** The participant account of the depositor, entered into the round if it is new there. */
  function Join(key: Key, r: RoundView, people: map<Key, Person>, user: Key): Outcome<(RoundView, Person)>
    requires |r.participants| == MAX_PARTICIPANTS
  {
    var p := if user in people then people[user] else Person(ZERO_KEY, user, 0, 0, 0, 0);
    if p.round == key then Done((r, p))
    else
      var next := r.life.participantsCount + 1;
      if next > U16_MAX then Failed(Overflow)
      else if next > MAX_PARTICIPANTS then Failed(MaxParticipantsReached)
      else Done((r.(life := r.life.(participantsCount := next), participants := r.participants[next - 1 := user]),
                 Person(key, user, next, 0, 0, 0)))
  }

  /** The clocks a deposit starts. */
  function StartClocks(l: Lifecycle, cfg: Config, now: int): Outcome<Lifecycle>
  {
    var l := if l.firstDepositTs == 0 then l.(firstDepositTs := now) else l;
    if l.endTs == 0 && l.participantsCount >= cfg.minParticipants then
      var end := now + cfg.roundDurationSec;
      if end > I64_MAX then Failed(Overflow) else Done(l.(endTs := end))
    else Done(l)
  }

  /** The participant account after the deposit. */
  function Credit(p: Person, cfg: Config, delta: nat, tickets: nat): Outcome<Person>
  {
    var usdc := p.usdc + delta;
    :- Need(usdc <= U64_MAX, Overflow);
    :- Need(cfg.maxDepositPerUser == 0 || usdc <= cfg.maxDepositPerUser, MaxDepositExceeded);
    :- Need(p.tickets + tickets <= U64_MAX, Overflow);
    :- Need(p.deposits + 1 <= U32_MAX, Overflow);
    Done(p.(tickets := p.tickets + tickets, usdc := usdc, deposits := p.deposits + 1))
  }

  /** The totals and the Fenwick tree after the deposit. */
  function Record(r: RoundView, index: nat, delta: nat, tickets: nat): Outcome<RoundView>
  {
    var totalTickets, totalUsdc := r.life.totalTickets + tickets, r.life.totalUsdc + delta;
    :- Need(totalTickets <= U64_MAX, Overflow);
    :- Need(totalUsdc <= U64_MAX, Overflow);
    var bit :- BitUpdate(r.bit, index, tickets);
    Done(r.(life := r.life.(totalTickets := totalTickets, totalUsdc := totalUsdc), bit := bit))
  }

  /** `deposit_any` on the two accounts it writes. */
  function DepositAccounts(key: Key, r: RoundView, people: map<Key, Person>, cfg: Config, a: DepositArgs):
    Outcome<(RoundView, Person, nat)>
    requires |r.participants| == MAX_PARTICIPANTS
  {
    var (delta, tickets) :- DepositChecks(r.life, cfg, a);
    var (r1, p) :- Join(key, r, people, a.user);
    var life :- StartClocks(r1.life, cfg, a.now);
    var p' :- Credit(p, cfg, delta, tickets);
    var r2 :- Record(r1.(life := life), p'.index, delta, tickets);
    Done((r2, p', delta))
  }

  /** `tickets` is how many whole units of the ticket price fit into `delta`. */
  predicate Buys(delta: nat, unit: nat, tickets: nat) { tickets * unit <= delta < (tickets + 1) * unit }

  /** What an accepted deposit means: the balance has grown by `delta`, every whole unit of it buys one ticket, and the
      participant and the totals grow by exactly these. The first deposit starts the round, and the one that makes the
      players enough sets its end. */
  ghost predicate Bought(key: Key, r: RoundView, people: map<Key, Person>, cfg: Config, a: DepositArgs, r': RoundView,
                         p': Person, delta: nat)
  {
    var known := a.user in people && people[a.user].round == key;
    var hadTickets, hadUsdc := if known then people[a.user].tickets else 0, if known then people[a.user].usdc else 0;
    var tickets := p'.tickets - hadTickets;
    && a.balanceBefore + delta == a.ataAmount && a.minOut <= delta
    && tickets >= 1 && Buys(delta, cfg.ticketUnit, tickets) && p'.usdc == hadUsdc + delta
    && r'.life.totalTickets == r.life.totalTickets + tickets && r'.life.totalUsdc == r.life.totalUsdc + delta
    && r'.life.participantsCount == r.life.participantsCount + (if known then 0 else 1)
    && r'.life.firstDepositTs == (if r.life.firstDepositTs == 0 then a.now else r.life.firstDepositTs)
    && r'.life.endTs == (if r.life.endTs == 0 && r'.life.participantsCount >= cfg.minParticipants
                         then a.now + cfg.roundDurationSec else r.life.endTs)
  }

  lemma ChecksMean(life: Lifecycle, cfg: Config, a: DepositArgs, delta: nat, tickets: nat)
    requires DepositChecks(life, cfg, a) == Done((delta, tickets))
    ensures life.status == OPEN && a.balanceBefore + delta == a.ataAmount && a.minOut <= delta
    ensures tickets >= 1 && Buys(delta, cfg.ticketUnit, tickets)
  {
    var unit := cfg.ticketUnit;
    assert delta == unit * tickets + delta % unit && unit * tickets == tickets * unit;
    assert (tickets + 1) * unit == tickets * unit + unit;
  }

  lemma AccountsMean(key: Key, r: RoundView, people: map<Key, Person>, cfg: Config, a: DepositArgs, r': RoundView,
                     p': Person, delta: nat)
    requires |r.participants| == MAX_PARTICIPANTS && DepositAccounts(key, r, people, cfg, a) == Done((r', p', delta))
    ensures Bought(key, r, people, cfg, a, r', p', delta)
  {
    var checked := DepositChecks(r.life, cfg, a).value;
    ChecksMean(r.life, cfg, a, checked.0, checked.1);
    hide DepositChecks, Buys, BitUpdate;
  }

  /** `deposit_any` with the token transfer of its runtime wrapper. */
  function Deposit(l: Ledger, cfg: Config, a: DepositArgs): Outcome<Ledger>
    requires |l.round.participants| == MAX_PARTICIPANTS
  {
    var (r, p, delta) :- DepositAccounts(l.key, l.round, l.people, cfg, a);
    Done(l.(round := r, people := l.people[a.user := p], vault := l.vault + delta,
            books := l.books.(deposited := l.books.deposited + delta,
                              contributed := l.books.contributed[a.user := At(l.books.contributed, a.user) + delta])))
  }

  /** Pay `amount` of a user's deposit back out of the vault. */
  function Refunded(l: Ledger, user: Key, amount: nat): Outcome<Ledger>
    requires user in l.people
  {
    var p := l.people[user];
    :- Need(amount <= l.vault, InsufficientVault);
    Done(l.(people := l.people[user := p.(usdc := 0, tickets := 0)], vault := l.vault - amount,
            books := l.books.(refunded := l.books.refunded + amount,
                              returned := l.books.returned[user := At(l.books.returned, user) + amount])))
  }

  /** `cancel_round` on the round account, for the participant account `p` of `user`. */
  function CancelAccounts(key: Key, r: RoundView, user: Key, p: Person, accountsOk: bool): Outcome<RoundView>
  {
    var life := r.life;
    :- Need(p.user == user && p.round == key, Unauthorized);
    :- Need(p.usdc != 0, NoDepositToRefund);
    :- Need(life.status == OPEN, RoundNotCancellable);
    :- Need(life.totalUsdc == p.usdc, CancelNotAllowed);
    :- Need(accountsOk, InvalidAccounts);
    var tickets: int := p.tickets;
    var bit :- BitUpdate(r.bit, p.index, -tickets);
    :- Need(p.tickets <= life.totalTickets, Overflow);
    Done(r.(life := CancelledLife(life, p), bit := bit))
  }

  function CancelledLife(life: Lifecycle, p: Person): Lifecycle
    requires p.usdc <= life.totalUsdc && p.tickets <= life.totalTickets
  {
    var life := life.(totalUsdc := life.totalUsdc - p.usdc, totalTickets := life.totalTickets - p.tickets);
    if life.totalUsdc == 0 then life.(status := CANCELLED) else life
  }

  /** `cancel_round`: the only depositor of an open round takes the deposit back. */
  function CancelRound(l: Ledger, user: Key, accountsOk: bool): Outcome<Ledger>
  {
    var known := user in l.people;
    :- Need(known, MissingAccount);
    var r :- CancelAccounts(l.key, l.round, user, l.people[user], accountsOk);
    Refunded(l.(round := r), user, l.people[user].usdc)
  }

  /** `claim_refund`: a depositor of a cancelled round takes the deposit back. */
  function ClaimRefund(l: Ledger, user: Key, accountsOk: bool): Outcome<Ledger>
  {
    var known := user in l.people;
    :- Need(known, MissingAccount);
    var p := l.people[user];
    :- Need(p.user == user && p.round == l.key, Unauthorized);
    :- Need(p.usdc != 0, NoDepositToRefund);
    :- Need(l.round.life.status == CANCELLED, RoundNotCancellable);
    :- Need(accountsOk, InvalidAccounts);
    Refunded(l, user, p.usdc)
  }

  function WithStatus(l: Ledger, s: byte): Ledger { l.(round := l.round.(life := l.round.life.(status := s))) }

  /** `admin_force_cancel`. */
  function ForceCancel(l: Ledger, cfg: Config, caller: Key): Outcome<Ledger>
  {
    var s := l.round.life.status;
    :- Need(cfg.admin == caller, Unauthorized);
    :- Need(s == OPEN || s == LOCKED || s == VRF_REQUESTED, RoundNotCancellable);
    Done(WithStatus(l, CANCELLED))
  }

  /** `lock_round`. */
  function LockRound(l: Ledger, cfg: Config, now: int): Outcome<Ledger>
  {
    var life := l.round.life;
    :- Need(life.status == OPEN, RoundNotOpen);
    :- Need(life.firstDepositTs != 0, NoDepositsYet);
    :- Need(cfg.minParticipants <= life.participantsCount, NotEnoughParticipants);
    :- Need(cfg.minTotalTickets <= life.totalTickets, NotEnoughTickets);
    :- Need(life.endTs <= now, RoundNotEnded);
    Done(WithStatus(l, LOCKED))
  }

  /** `request_vrf`. */
  function RequestVrf(l: Ledger, cfg: Config, payer: Key): Outcome<Ledger>
  {
    var life := l.round.life;
    :- Need(life.status == LOCKED, RoundNotLocked);
    :- Need(cfg.minParticipants <= life.participantsCount, NotEnoughParticipants);
    :- Need(cfg.minTotalTickets <= life.totalTickets, NotEnoughTickets);
    var l' := WithStatus(l, VRF_REQUESTED);
    Done(l'.(round := l'.round.(vrfPayer := payer)))
  }

  /** The first 16 bytes of the randomness, read as a `u128`. */
  function RandomU128(randomness: Key): nat { randomness % U128 }

  /** `vrf_callback` on the round account. */
  function SettleRound(r: RoundView, cfg: Config, randomness: Key): Outcome<RoundView>
    requires |r.participants| == MAX_PARTICIPANTS && |r.bit| == MAX_PARTICIPANTS + 1
  {
    var life := r.life;
    :- Need(life.status == VRF_REQUESTED, RoundNotVrfRequested);
    :- Need(cfg.minParticipants <= life.participantsCount, NotEnoughParticipants);
    :- Need(cfg.minTotalTickets <= life.totalTickets, NotEnoughTickets);
    :- Need(life.totalTickets != 0, DivideByZero);
    var ticket := RandomU128(randomness) % life.totalTickets + 1;
    var winner :- Draw(r, ticket);
    Done(r.(randomness := randomness, winningTicket := ticket, winner := winner, life := life.(status := SETTLED)))
  }

  /** The key in the slot that a ticket number selects. */
  function Draw(r: RoundView, ticket: nat): Outcome<Key>
    requires |r.participants| == MAX_PARTICIPANTS && |r.bit| == MAX_PARTICIPANTS + 1
  {
    var found := FindPrefix(r.bit, ticket);
    :- Need(found.Some?, Overflow);
    :- Need(1 <= found.value <= MAX_PARTICIPANTS, InvalidAccounts);
    Done(r.participants[found.value - 1])
  }

  /** The 128-bit number of the draw is spelled by the first half of the random bytes. */
  lemma FirstHalf(randomness: Key)
    ensures RandomU128(randomness) == DecodeLE(EncodeLE(randomness, 32)[..16])
  {
    DecodeFirst(randomness, 32, 16);
    Width16();
  }

  /** Whatever ticket table the tree stands for, the winner is in the slot whose tickets include this one. */
  ghost predicate Wins(r: RoundView, ticket: nat, winner: Key)
  {
    forall t: seq<nat> :: Represents(r.bit, t) && |t| == |r.participants| && ticket <= Total(t) ==>
      exists i :: 1 <= i <= |t| && Sum(t, 0, i - 1) < ticket <= Sum(t, 0, i) && winner == r.participants[i - 1]
  }

  lemma DrawWins(r: RoundView, ticket: nat, winner: Key)
    requires |r.participants| == MAX_PARTICIPANTS && |r.bit| == MAX_PARTICIPANTS + 1
    requires ticket >= 1 && Draw(r, ticket) == Done(winner)
    ensures Wins(r, ticket, winner)
  {
    forall t: seq<nat> | Represents(r.bit, t) && |t| == |r.participants| && ticket <= Total(t)
      ensures exists i :: 1 <= i <= |t| && Sum(t, 0, i - 1) < ticket <= Sum(t, 0, i) && winner == r.participants[i - 1]
    {
      FindPrefixSelects(r.bit, t, ticket);
      TicketRange(t, Selected(t, ticket), ticket);
    }
  }

  function VrfCallback(l: Ledger, cfg: Config, randomness: Key): Outcome<Ledger>
    requires |l.round.participants| == MAX_PARTICIPANTS && |l.round.bit| == MAX_PARTICIPANTS + 1
  {
    var r :- SettleRound(l.round, cfg, randomness);
    Done(l.(round := r))
  }

  datatype Amounts = Amounts(payout: nat, fee: nat, vrfReimburse: nat)

  /** The VRF fee paid back to whoever requested the randomness, capped by the pot. */
  function VrfShare(totalUsdc: nat, reimburse: bool): (v: nat)
    ensures v <= totalUsdc
  {
    if !reimburse then 0 else if totalUsdc < VRF_REIMBURSEMENT_USDC then totalUsdc else VRF_REIMBURSEMENT_USDC
  }

  function Pot(totalUsdc: nat, reimburse: bool): nat { totalUsdc - VrfShare(totalUsdc, reimburse) }

  /** The fee on a pot, cut to 64 bits as the source does. */
  function Fee(pot: nat, feeBps: nat): nat { (pot * feeBps / BPS_DENOMINATOR) % (U64_MAX + 1) }

  /** `compute_claim_amounts`. */
  function ClaimAmounts(totalUsdc: nat, feeBps: nat, reimburse: bool): Outcome<Amounts>
  {
    var pot := Pot(totalUsdc, reimburse);
    var fee := Fee(pot, feeBps);
    if fee > pot then Failed(Overflow) else Done(Amounts(pot - fee, fee, VrfShare(totalUsdc, reimburse)))
  }

  predicate VrfOwed(r: RoundView) { r.vrfPayer != ZERO_KEY && r.vrfReimbursed == 0 }

  /** Transfer the three amounts out of the vault, the payout to the winner or to the executor, and mark the
      reimbursement. */
  function PaidOut(l: Ledger, m: Amounts, toWinner: bool): Outcome<Ledger>
  {
    var sum := m.payout + m.fee + m.vrfReimburse;
    var b := l.books.(paidOut := l.books.paidOut + sum);
    :- Need(sum <= l.vault, InsufficientVault);
    Done(l.(vault := l.vault - sum,
            books := if toWinner then b.(won := Some(m.payout)) else b.(entrusted := Some(m.payout)),
            round := if m.vrfReimburse > 0 then l.round.(vrfReimbursed := 1) else l.round))
  }

  /** `claim` (the caller is the winner) and `auto_claim` (`caller` absent). */
  function Claim(l: Ledger, cfg: Config, caller: Option<Key>, vrfAtaOk: bool, accountsOk: bool): Outcome<Ledger>
  {
    var r := l.round;
    :- Need(r.life.status == SETTLED, RoundNotSettled);
    :- Need(r.degenMode == DEGEN_NONE, DegenClaimLocked);
    :- Need(caller.None? || caller.value == r.winner, OnlyWinnerCanClaim);
    :- Need(accountsOk, InvalidAccounts);
    var m :- ClaimAmounts(r.life.totalUsdc, cfg.feeBps, VrfOwed(r) && vrfAtaOk);
    PaidOut(WithStatus(l, CLAIMED), m, true)
  }

  function WithMode(l: Ledger, mode: byte, status: byte): Ledger
  {
    l.(round := l.round.(degenMode := mode), claim := l.claim.(status := status))
  }

  /** `request_degen_vrf`. */
  function RequestDegenVrf(l: Ledger, winner: Key, accountsOk: bool): Outcome<Ledger>
  {
    var m := l.round.degenMode;
    :- Need(l.round.life.status == SETTLED, RoundNotSettled);
    :- Need(winner == l.round.winner, OnlyWinnerCanClaim);
    :- Need(m != DEGEN_VRF_REQUESTED, DegenAlreadyRequested);
    :- Need(m != DEGEN_VRF_READY && m != DEGEN_CLAIMED, DegenAlreadyClaimed);
    :- Need(m == DEGEN_NONE, DegenClaimLocked);
    :- Need(accountsOk, InvalidAccounts);
    :- Need(l.claim.status != CLAIM_VRF_REQUESTED, DegenAlreadyRequested);
    :- Need(l.claim.status < CLAIM_VRF_READY || l.claim.status > CLAIM_FALLBACK, DegenAlreadyClaimed);
    Done(WithMode(l, DEGEN_VRF_REQUESTED, CLAIM_VRF_REQUESTED))
  }

  /** `degen_vrf_callback`. */
  function DegenVrfCallback(l: Ledger, cfg: Config, timeout: nat, now: int, accountsOk: bool): Outcome<Ledger>
  {
    var r := l.round;
    :- Need(r.life.status == SETTLED, RoundNotSettled);
    :- Need(r.degenMode == DEGEN_VRF_REQUESTED, DegenVrfNotRequested);
    :- Need(accountsOk, InvalidAccounts);
    :- Need(l.claim.status == CLAIM_VRF_REQUESTED, DegenVrfNotRequested);
    var after := now + (if timeout == 0 then DEFAULT_FALLBACK_TIMEOUT_SEC else timeout);
    :- Need(after <= I64_MAX, Overflow);
    var m :- ClaimAmounts(r.life.totalUsdc, cfg.feeBps, VrfOwed(r));
    var l' := WithMode(l, DEGEN_VRF_READY, CLAIM_VRF_READY);
    Done(l'.(claim := l'.claim.(fallbackAfterTs := after)))
  }

  /** `begin_degen_execution`: the payout goes to the executor's USDC account; `minOut` is the executor's choice. */
  function BeginDegen(l: Ledger, cfg: Config, executor: Key, minOut: nat, preBalance: nat, accountsOk: bool): Outcome<Ledger>
  {
    var r := l.round;
    :- Need(r.life.status == SETTLED, RoundNotSettled);
    :- Need(r.degenMode == DEGEN_VRF_READY, DegenVrfNotReady);
    :- Need(l.claim.status == CLAIM_VRF_READY, DegenVrfNotReady);
    :- Need(accountsOk, InvalidAccounts);
    var m :- ClaimAmounts(r.life.totalUsdc, cfg.feeBps, VrfOwed(r));
    var l' := WithMode(l, DEGEN_EXECUTING, CLAIM_EXECUTING);
    PaidOut(l'.(claim := l'.claim.(executor := executor, minOut := minOut, preBalance := preBalance)), m, false)
  }

  /** `finalize_degen_success`: the winner's token account holds at least `minOut` more than at the begin. */
  function FinalizeDegen(l: Ledger, executor: Key, received: nat, accountsOk: bool): Outcome<Ledger>
  {
    var c := l.claim;
    :- Need(c.executor == executor, Unauthorized);
    :- Need(c.status == CLAIM_EXECUTING, InvalidDegenExecutionState);
    :- Need(l.round.life.status == SETTLED, RoundNotSettled);
    :- Need(l.round.degenMode == DEGEN_EXECUTING, InvalidDegenExecutionState);
    :- Need(accountsOk, InvalidAccounts);
    :- Need(c.preBalance + c.minOut <= U64_MAX, Overflow);
    :- Need(c.preBalance + c.minOut <= received, DegenOutputNotReceived);
    var l' := WithMode(WithStatus(l, CLAIMED), DEGEN_CLAIMED, CLAIM_SWAPPED);
    Done(l'.(books := l'.books.(delivered := Some(received - c.preBalance))))
  }

  /** `claim_degen` (`swapped`) and `claim_degen_fallback`: the winner takes the pot in USDC. */
  function ClaimDegen(l: Ledger, cfg: Config, winner: Key, swapped: bool, now: int, accountsOk: bool): Outcome<Ledger>
  {
    var r := l.round;
    :- Need(l.claim.status == CLAIM_VRF_READY, if swapped then DegenVrfNotReady else InvalidDegenExecutionState);
    :- Need(swapped || l.claim.fallbackAfterTs <= now, DegenFallbackTooEarly);
    :- Need(r.life.status == SETTLED, RoundNotSettled);
    :- Need(r.degenMode == DEGEN_VRF_READY, DegenVrfNotReady);
    :- Need(winner == r.winner, OnlyWinnerCanClaim);
    :- Need(accountsOk, InvalidAccounts);
    var m :- ClaimAmounts(r.life.totalUsdc, cfg.feeBps, VrfOwed(r));
    PaidOut(WithMode(WithStatus(l, CLAIMED), DEGEN_CLAIMED, if swapped then CLAIM_SWAPPED else CLAIM_FALLBACK), m, true)
  }

  /** `close_participant`. */
  function CloseParticipant(l: Ledger, user: Key): Outcome<Ledger>
  {
    var s := l.round.life.status;
    :- Need(user in l.people, MissingAccount);
    :- Need(s == CLAIMED || s == CANCELLED, RoundNotCloseable);
    var p := l.people[user];
    :- Need(p.round == l.key && p.user == user, Unauthorized);
    :- Need(s != CANCELLED || (p.usdc == 0 && p.tickets == 0), ParticipantNotEmpty);
    Done(l.(people := l.people - {user}))
  }

  datatype Instruction =
    | IxDeposit(cfg: Config, args: DepositArgs)
    | IxCancelRound(user: Key, accountsOk: bool)
    | IxClaimRefund(user: Key, accountsOk: bool)
    | IxForceCancel(cfg: Config, user: Key)
    | IxLockRound(cfg: Config, now: int)
    | IxRequestVrf(cfg: Config, user: Key)
    | IxVrfCallback(cfg: Config, randomness: Key)
    | IxClaim(cfg: Config, caller: Option<Key>, vrfAtaOk: bool, accountsOk: bool)
    | IxRequestDegenVrf(user: Key, accountsOk: bool)
    | IxDegenVrfCallback(cfg: Config, timeout: nat, now: int, accountsOk: bool)
    | IxBeginDegen(cfg: Config, user: Key, minOut: nat, preBalance: nat, accountsOk: bool)
    | IxFinalizeDegen(user: Key, received: nat, accountsOk: bool)
    | IxClaimDegen(cfg: Config, user: Key, swapped: bool, now: int, accountsOk: bool)
    | IxCloseParticipant(user: Key)
    | Donate(amount: nat)

  /** A round account holds 200 participant slots and 201 nodes. */
  predicate Shaped(l: Ledger) { |l.round.participants| == MAX_PARTICIPANTS && |l.round.bit| == MAX_PARTICIPANTS + 1 }

  function Execute(l: Ledger, ix: Instruction): Outcome<Ledger>
    requires Shaped(l)
  {
    match ix
    case IxDeposit(cfg, args) => Deposit(l, cfg, args)
    case IxCancelRound(user, ok) => CancelRound(l, user, ok)
    case IxClaimRefund(user, ok) => ClaimRefund(l, user, ok)
    case IxForceCancel(cfg, user) => ForceCancel(l, cfg, user)
    case IxLockRound(cfg, now) => LockRound(l, cfg, now)
    case IxRequestVrf(cfg, user) => RequestVrf(l, cfg, user)
    case IxVrfCallback(cfg, randomness) => VrfCallback(l, cfg, randomness)
    case IxClaim(cfg, caller, vrfOk, ok) => Claim(l, cfg, caller, vrfOk, ok)
    case IxRequestDegenVrf(user, ok) => RequestDegenVrf(l, user, ok)
    case IxDegenVrfCallback(cfg, timeout, now, ok) => DegenVrfCallback(l, cfg, timeout, now, ok)
    case IxBeginDegen(cfg, user, minOut, pre, ok) => BeginDegen(l, cfg, user, minOut, pre, ok)
    case IxFinalizeDegen(user, received, ok) => FinalizeDegen(l, user, received, ok)
    case IxClaimDegen(cfg, user, swapped, now, ok) => ClaimDegen(l, cfg, user, swapped, now, ok)
    case IxCloseParticipant(user) => CloseParticipant(l, user)
    case Donate(amount) => Done(l.(vault := l.vault + amount, books := l.books.(donated := l.books.donated + amount)))
  }

  // ----- creation and closing of the account -----

  /** `close_round`: the round account is gone afterwards; the participant accounts are not looked at. Any token account
      that belongs to the round address may be passed as the vault: if it is the round's own (`own`), all that is left
      in it goes to the account passed as treasury, and without one it has to be empty. */
  function CloseRound(l: Ledger, own: bool, treasury: bool, accountsOk: bool): Outcome<Ledger>
  {
    var s := l.round.life.status;
    :- Need(s == CLAIMED || s == CANCELLED, RoundNotCloseable);
    :- Need(accountsOk, InvalidAccounts);
    :- Need(!own || treasury || l.vault == 0, VaultNotEmpty);
    Done(if own then l.(vault := 0, books := l.books.(swept := l.books.swept + l.vault)) else l)
  }

  /** A round address over time: while no account stands there, `l` records how the last one ended. */
  datatype Site = Site(standing: bool, l: Ledger)

  /** `sent` is what reached the vault account while no round stood. */
  datatype Transaction =
    | Instruct(ix: Instruction)
    | TxCloseRound(own: bool, treasury: bool, accountsOk: bool)
    | TxStartRound(paused: bool, accountsOk: bool, claim: DegenClaim, sent: nat, roundId: nat, bump: byte,
                   vaultKey: Key, now: int)

  function Transact(s: Site, tx: Transaction): Outcome<Site>
    requires Shaped(s.l)
  {
    match tx
    case Instruct(ix) =>
      if !s.standing then Failed(InvalidAccounts)
      else
        var l :- Execute(s.l, ix);
        Done(Site(true, l))
    case TxCloseRound(own, treasury, ok) =>
      if !s.standing then Failed(InvalidAccounts)
      else
        var l :- CloseRound(s.l, own, treasury, ok);
        Done(Site(false, l))
    case TxStartRound(paused, ok, claim, sent, roundId, bump, vaultKey, now) =>
      if paused then Failed(Paused)
      else if !ok then Failed(InvalidAccounts)
      else if s.standing then Failed(AlreadyInitialized)
      else Done(Site(true, StartedOver(s.l.key, s.l.people, claim, s.l.vault + sent, roundId, bump, vaultKey, now)))
  }
}
