/** What every run of the round program keeps: custody of the deposits, and a winner drawn by tickets. */
module RoundSafety {
  import opened Basics
  import opened Division
  import opened Bytes
  import opened Fenwick
  import opened Layout
  import opened RoundLayout
  import opened RoundProgram

  // ----- the ticket and deposit tables behind the accounts -----

  function TicketsAt(l: Ledger, p: nat): nat
    requires Shaped(l) && p < MAX_PARTICIPANTS
  {
    var k := l.round.participants[p];
    if p < l.round.life.participantsCount && k in l.people then l.people[k].tickets else 0
  }

  function UsdcAt(l: Ledger, p: nat): nat
    requires Shaped(l) && p < MAX_PARTICIPANTS
  {
    var k := l.round.participants[p];
    if p < l.round.life.participantsCount && k in l.people then l.people[k].usdc else 0
  }

  function Tickets(l: Ledger): (t: seq<nat>)
    requires Shaped(l)
    ensures |t| == MAX_PARTICIPANTS
  {
    FirstTickets(l, MAX_PARTICIPANTS)
  }

  function FirstTickets(l: Ledger, n: nat): (t: seq<nat>)
    requires Shaped(l) && n <= MAX_PARTICIPANTS
    ensures |t| == n
  {
    if n == 0 then [] else FirstTickets(l, n - 1) + [TicketsAt(l, n - 1)]
  }

  function Deposits(l: Ledger): (t: seq<nat>)
    requires Shaped(l)
    ensures |t| == MAX_PARTICIPANTS
  {
    FirstDeposits(l, MAX_PARTICIPANTS)
  }

  function FirstDeposits(l: Ledger, n: nat): (t: seq<nat>)
    requires Shaped(l) && n <= MAX_PARTICIPANTS
    ensures |t| == n
  {
    if n == 0 then [] else FirstDeposits(l, n - 1) + [UsdcAt(l, n - 1)]
  }

  /** The tables entry by entry. */
  lemma TableEntries(l: Ledger)
    requires Shaped(l)
    ensures forall p :: 0 <= p < MAX_PARTICIPANTS ==> Tickets(l)[p] == TicketsAt(l, p) && Deposits(l)[p] == UsdcAt(l, p)
  {
    FirstEntries(l, MAX_PARTICIPANTS);
  }

  lemma {:induction false} FirstEntries(l: Ledger, n: nat)
    requires Shaped(l) && n <= MAX_PARTICIPANTS
    ensures forall p :: 0 <= p < n ==> FirstTickets(l, n)[p] == TicketsAt(l, p) && FirstDeposits(l, n)[p] == UsdcAt(l, p)
  {
    if n > 0 { FirstEntries(l, n - 1); }
  }

  // ----- the invariant -----

  /** Slots are filled in order by different users, and each participant account names its own slot. */
  ghost predicate Roster(l: Ledger)
  {
    && Shaped(l)
    && l.round.life.participantsCount <= MAX_PARTICIPANTS
    && (forall p, q :: 0 <= p < q < l.round.life.participantsCount ==> l.round.participants[p] != l.round.participants[q])
    && (Live(l) ==> forall p :: 0 <= p < l.round.life.participantsCount ==> l.round.participants[p] in l.people)
    && forall k :: k in l.people ==>
         && 1 <= l.people[k].index <= l.round.life.participantsCount
         && l.round.participants[l.people[k].index - 1] == k
         && l.people[k].round == l.key && l.people[k].user == k
  }

  predicate Live(l: Ledger) { l.round.life.status <= SETTLED }

  /** The pot has left the vault: to the winner, or to the executor for a swap. */
  predicate PotLeft(l: Ledger)
  {
    l.round.life.status == CLAIMED || (l.round.life.status == SETTLED && l.round.degenMode == DEGEN_EXECUTING)
  }

  /** Until the round is over, the Fenwick tree and the totals agree with the participant accounts. */
  ghost predicate Tallied(l: Ledger)
    requires Shaped(l)
  {
    && Represents(l.round.bit, Tickets(l))
    && l.round.life.totalTickets == Total(Tickets(l)) <= U64_MAX
    && l.round.life.totalUsdc == Total(Deposits(l)) <= U64_MAX
  }

  ghost predicate Phases(l: Ledger)
    requires Shaped(l)
  {
    var r := l.round;
    && r.life.status <= CANCELLED
    && (r.life.status == OPEN && r.life.firstDepositTs != 0 ==> r.life.totalTickets > 0)
    && (LOCKED <= r.life.status <= SETTLED ==> r.life.totalTickets > 0)
    && (r.life.status == SETTLED ==>
          && 1 <= r.winningTicket <= r.life.totalTickets
          && Selected(Tickets(l), r.winningTicket) <= MAX_PARTICIPANTS
          && r.winner == r.participants[Selected(Tickets(l), r.winningTicket) - 1])
    && (r.degenMode != DEGEN_NONE ==> r.life.status == SETTLED || r.life.status == CLAIMED)
  }

  /** What the vault still has to pay: the pot, or what is left to refund. */
  ghost function Owed(l: Ledger): nat
    requires Shaped(l)
  {
    if PotLeft(l) then 0 else Total(Deposits(l))
  }

  ghost predicate Balanced(l: Ledger)
    requires Shaped(l)
  {
    var b := l.books;
    && b.deposited + b.donated == l.vault + b.refunded + b.paidOut + b.swept
    && l.vault >= Owed(l)
    && b.paidOut == (if PotLeft(l) then l.round.life.totalUsdc else 0)
    && (l.round.life.status != CLAIMED ==>
          forall k :: At(b.contributed, k) == At(b.returned, k) + (if k in l.people then l.people[k].usdc else 0))
  }

  ghost predicate Inv(l: Ledger)
  {
    Roster(l) && (Live(l) ==> Tallied(l)) && Phases(l) && Balanced(l)
  }

  // ----- the tables under the changes an instruction makes -----

  lemma Extensional(s: seq<nat>, t: seq<nat>)
    requires |s| == |t| && forall p :: 0 <= p < |s| ==> s[p] == t[p]
    ensures s == t
  {
  }

  /** If no participant account and no used slot changes, neither does a table. */
  lemma SameTables(l: Ledger, l': Ledger)
    requires Shaped(l) && Shaped(l') && l'.people == l.people
    requires l'.round.participants == l.round.participants
    requires l'.round.life.participantsCount == l.round.life.participantsCount
    ensures Tickets(l') == Tickets(l) && Deposits(l') == Deposits(l)
  {
    TableEntries(l);
    TableEntries(l');
    Extensional(Tickets(l'), Tickets(l));
    Extensional(Deposits(l'), Deposits(l));
  }

  // ----- the order of the phases -----

  /** Where a round can go from each status. */
  predicate CanFollow(s: byte, s': byte)
  {
    s == s' || (s == OPEN && (s' == LOCKED || s' == CANCELLED)) || (s == LOCKED && (s' == VRF_REQUESTED || s' == CANCELLED))
    || (s == VRF_REQUESTED && (s' == SETTLED || s' == CANCELLED)) || (s == SETTLED && s' == CLAIMED)
  }

  /** The phase moves forward, and a pot that has left the vault does not leave it again. */
  ghost predicate Follows(l: Ledger, l': Ledger)
  {
    && CanFollow(l.round.life.status, l'.round.life.status)
    && (PotLeft(l) ==> PotLeft(l') && l'.books.paidOut == l.books.paidOut)
  }

  // ----- every instruction keeps the invariant -----

  /** `keys` and `count` are the slots of `l` with `user` in slot `i`, old or new. */
  ghost predicate Seated(l: Ledger, keys: seq<Key>, count: nat, user: Key, i: nat)
  {
    && Shaped(l) && |keys| == MAX_PARTICIPANTS
    && l.round.life.participantsCount <= count <= MAX_PARTICIPANTS
    && 1 <= i <= count && keys[i - 1] == user
    && (forall p, q :: 0 <= p < q < count ==> keys[p] != keys[q])
    && (forall q :: 0 <= q < count && q != i - 1 ==> q < l.round.life.participantsCount && keys[q] == l.round.participants[q])
    && (user in l.people ==> l.people[user].index == i)
    && (user !in l.people ==> i == count == l.round.life.participantsCount + 1)
  }

  lemma JoinSeats(l: Ledger, user: Key, r: RoundView, p: Person)
    requires Roster(l) && Live(l) && Join(l.key, l.round, l.people, user) == Done((r, p)) && p.index != 0
    ensures Seated(l, r.participants, r.life.participantsCount, user, p.index)
    ensures p == if user in l.people then l.people[user] else Person(l.key, user, p.index, 0, 0, 0)
    ensures p.round == l.key && p.user == user
    ensures r == l.round.(life := l.round.life.(participantsCount := r.life.participantsCount),
                          participants := r.participants)
  {
  }

  /** Seating a user and changing only that user's account keeps the roster. */
  lemma SeatedRoster(l: Ledger, l': Ledger, user: Key, p: Person)
    requires Roster(l) && Live(l) && Shaped(l') && l'.key == l.key
    requires Seated(l, l'.round.participants, l'.round.life.participantsCount, user, p.index)
    requires l'.people == l.people[user := p] && p.round == l.key && p.user == user
    ensures Roster(l')
  {
    forall k | k in l'.people
      ensures 1 <= l'.people[k].index <= l'.round.life.participantsCount
      ensures l'.round.participants[l'.people[k].index - 1] == k
      ensures l'.people[k].round == l.key && l'.people[k].user == k
    {
      if k != user { OtherSeat(l, l'.round.participants, l'.round.life.participantsCount, user, p.index, k); }
    }
    SeatsTaken(l, l'.round.participants, l'.round.life.participantsCount, user, p.index);
  }

  lemma SeatsTaken(l: Ledger, keys: seq<Key>, count: nat, user: Key, i: nat)
    requires Roster(l) && Live(l) && Seated(l, keys, count, user, i)
    ensures forall q :: 0 <= q < count ==> keys[q] == user || keys[q] in l.people
  {
    forall q | 0 <= q < count && q != i - 1 ensures keys[q] in l.people {
      assert keys[q] == l.round.participants[q];
    }
  }

  lemma OtherSeat(l: Ledger, keys: seq<Key>, count: nat, user: Key, i: nat, k: Key)
    requires Roster(l) && Seated(l, keys, count, user, i) && k in l.people && k != user
    ensures l.people[k].index != i && keys[l.people[k].index - 1] == k
  {
    var q := l.people[k].index - 1;
    assert l.round.participants[q] == k;
    if q != i - 1 { assert keys[q] == l.round.participants[q]; }
  }

  /** ... and changes one entry of each table. */
  lemma SeatedTables(l: Ledger, l': Ledger, user: Key, p: Person)
    requires Roster(l) && Shaped(l')
    requires Seated(l, l'.round.participants, l'.round.life.participantsCount, user, p.index)
    requires l'.people == l.people[user := p]
    ensures Tickets(l') == Tickets(l)[p.index - 1 := p.tickets]
    ensures Deposits(l') == Deposits(l)[p.index - 1 := p.usdc]
    ensures Tickets(l)[p.index - 1] == (if user in l.people then l.people[user].tickets else 0)
    ensures Deposits(l)[p.index - 1] == (if user in l.people then l.people[user].usdc else 0)
  {
    TableEntries(l);
    TableEntries(l');
    var n, n', i := l.round.life.participantsCount, l'.round.life.participantsCount, p.index - 1;
    forall q | 0 <= q < MAX_PARTICIPANTS && q != i
      ensures TicketsAt(l', q) == TicketsAt(l, q) && UsdcAt(l', q) == UsdcAt(l, q)
    {
      if q < n' {
        assert l'.round.participants[q] == l.round.participants[q] && q < n;
        assert l'.round.participants[q] != l'.round.participants[i];
      }
    }
    Extensional(Tickets(l'), Tickets(l)[i := p.tickets]);
    Extensional(Deposits(l'), Deposits(l)[i := p.usdc]);
  }

  /** The tally after one account's tickets and deposit become `newT` and `newD`. */
  lemma TallyMoves(l: Ledger, l': Ledger, i: nat, newT: nat, newD: nat)
    requires Shaped(l) && Shaped(l') && Tallied(l) && 1 <= i <= MAX_PARTICIPANTS
    requires Fits(l.round.bit, i, newT - Tickets(l)[i - 1])
    requires l'.round.bit == Updated(l.round.bit, i, newT - Tickets(l)[i - 1])
    requires Tickets(l') == Tickets(l)[i - 1 := newT] && Deposits(l') == Deposits(l)[i - 1 := newD]
    requires l'.round.life.totalTickets == l.round.life.totalTickets + newT - Tickets(l)[i - 1] <= U64_MAX
    requires l'.round.life.totalUsdc == l.round.life.totalUsdc + newD - Deposits(l)[i - 1] <= U64_MAX
    ensures Tallied(l')
  {
    var t, d := Tickets(l), Deposits(l);
    UpdateRepresents(l.round.bit, t, i, newT - t[i - 1]);
    SumUpdate(t, i - 1, newT, 0, |t|);
    SumUpdate(d, i - 1, newD, 0, |d|);
  }

  /** All that a successful deposit of `delta` for `tickets` tickets changes. */
  ghost predicate DepositEffect(l: Ledger, l': Ledger, user: Key, p: Person, delta: nat, tickets: nat)
  {
    && Shaped(l) && Shaped(l') && l.round.life.status == OPEN && tickets > 0
    && Seated(l, l'.round.participants, l'.round.life.participantsCount, user, p.index)
    && p == (if user in l.people then l.people[user] else Person(l.key, user, p.index, 0, 0, 0))
    && p.round == l.key && p.user == user
    && Fits(l.round.bit, p.index, tickets) && l'.round.bit == Updated(l.round.bit, p.index, tickets)
    && l'.key == l.key && l'.round.life.status == OPEN && l'.round.degenMode == l.round.degenMode
    && l'.round.life.totalTickets == l.round.life.totalTickets + tickets <= U64_MAX
    && l'.round.life.totalUsdc == l.round.life.totalUsdc + delta <= U64_MAX
    && l'.people == l.people[user := p.(tickets := p.tickets + tickets, usdc := p.usdc + delta, deposits := p.deposits + 1)]
    && l'.vault == l.vault + delta
    && l'.books == l.books.(deposited := l.books.deposited + delta,
                            contributed := l.books.contributed[user := At(l.books.contributed, user) + delta])
  }

  lemma ClocksMean(life: Lifecycle, cfg: Config, now: int, life': Lifecycle)
    requires StartClocks(life, cfg, now) == Done(life')
    ensures life' == life.(firstDepositTs := life'.firstDepositTs, endTs := life'.endTs)
  {
  }

  lemma CreditMeans(p: Person, cfg: Config, delta: nat, tickets: nat, p': Person)
    requires Credit(p, cfg, delta, tickets) == Done(p')
    ensures p' == p.(tickets := p.tickets + tickets, usdc := p.usdc + delta, deposits := p.deposits + 1)
  {
  }

  lemma RecordMeans(r: RoundView, index: nat, delta: nat, tickets: nat, r': RoundView)
    requires Record(r, index, delta, tickets) == Done(r')
    ensures 1 <= index < |r.bit| && Fits(r.bit, index, tickets)
    ensures r.life.totalTickets + tickets <= U64_MAX && r.life.totalUsdc + delta <= U64_MAX
    ensures r' == r.(life := r.life.(totalTickets := r.life.totalTickets + tickets,
                                     totalUsdc := r.life.totalUsdc + delta), bit := Updated(r.bit, index, tickets))
  {
    hide Fits, Updated;
  }

  lemma DepositDoes(l: Ledger, cfg: Config, a: DepositArgs, l': Ledger) returns (p: Person, delta: nat, tickets: nat)
    requires Roster(l) && Deposit(l, cfg, a) == Done(l')
    ensures DepositEffect(l, l', a.user, p, delta, tickets)
  {
    assert Shaped(l);
    hide Roster, DepositChecks, Seated, Updated, Fits, Buys;
    var checked := DepositChecks(l.round.life, cfg, a).value;
    ChecksMean(l.round.life, cfg, a, checked.0, checked.1);
    var joined := Join(l.key, l.round, l.people, a.user).value;
    delta, tickets, p := checked.0, checked.1, joined.1;
    var life := StartClocks(joined.0.life, cfg, a.now).value;
    ClocksMean(joined.0.life, cfg, a.now, life);
    CreditMeans(p, cfg, delta, tickets, Credit(p, cfg, delta, tickets).value);
    RecordMeans(joined.0.(life := life), p.index, delta, tickets, l'.round);
    JoinSeats(l, a.user, joined.0, joined.1);
    hide Join, StartClocks, Credit, Record;
  }

  lemma DepositKeeps(l: Ledger, cfg: Config, a: DepositArgs, l': Ledger)
    requires Inv(l) && Deposit(l, cfg, a) == Done(l')
    ensures Follows(l, l')
    ensures Inv(l')
    ensures l'.vault >= l.vault && a.user in l'.people
    ensures Bought(l.key, l.round, l.people, cfg, a, l'.round, l'.people[a.user], l'.vault - l.vault)
  {
    DepositBuys(l, cfg, a, l');
    hide Bought;
    var p, delta, tickets := DepositDoes(l, cfg, a, l');
    DepositEffectKeeps(l, l', a.user, p, delta, tickets);
  }

  lemma DepositBuys(l: Ledger, cfg: Config, a: DepositArgs, l': Ledger)
    requires Shaped(l) && Deposit(l, cfg, a) == Done(l')
    ensures l'.vault >= l.vault && a.user in l'.people
    ensures Bought(l.key, l.round, l.people, cfg, a, l'.round, l'.people[a.user], l'.vault - l.vault)
  {
    hide DepositAccounts, Bought;
    var (r, p, delta) := DepositAccounts(l.key, l.round, l.people, cfg, a).value;
    AccountsMean(l.key, l.round, l.people, cfg, a, r, p, delta);
  }

  lemma DepositBalances(l: Ledger, l': Ledger, user: Key, delta: nat)
    requires Shaped(l) && Shaped(l') && Balanced(l) && l.round.life.status == l'.round.life.status == OPEN
    requires Total(Deposits(l')) == Total(Deposits(l)) + delta && l'.vault == l.vault + delta
    requires user in l'.people && l'.people[user].usdc == delta + (if user in l.people then l.people[user].usdc else 0)
    requires l'.people == l.people[user := l'.people[user]]
    requires l'.books == l.books.(deposited := l.books.deposited + delta,
                                  contributed := l.books.contributed[user := At(l.books.contributed, user) + delta])
    ensures Balanced(l')
  {
  }

  lemma DepositSeats(l: Ledger, l': Ledger, user: Key, p: Person, delta: nat, tickets: nat)
    requires Roster(l) && DepositEffect(l, l', user, p, delta, tickets)
    ensures Tickets(l') == Tickets(l)[p.index - 1 := p.tickets + tickets] && Tickets(l)[p.index - 1] == p.tickets
    ensures Deposits(l') == Deposits(l)[p.index - 1 := p.usdc + delta] && Deposits(l)[p.index - 1] == p.usdc
  {
    SeatedTables(l, l', user, l'.people[user]);
  }

  lemma DepositTallies(l: Ledger, l': Ledger, user: Key, p: Person, delta: nat, tickets: nat)
    requires Roster(l) && Tallied(l) && DepositEffect(l, l', user, p, delta, tickets)
    ensures Tallied(l')
  {
    DepositSeats(l, l', user, p, delta, tickets);
    TallyMoves(l, l', p.index, p.tickets + tickets, p.usdc + delta);
  }

  lemma DepositEffectKeeps(l: Ledger, l': Ledger, user: Key, p: Person, delta: nat, tickets: nat)
    requires Inv(l) && DepositEffect(l, l', user, p, delta, tickets)
    ensures Follows(l, l')
    ensures Inv(l')
  {
    SeatedRoster(l, l', user, l'.people[user]);
    DepositTallies(l, l', user, p, delta, tickets);
    DepositBalances(l, l', user, delta);
  }

  /** A refund: one account is emptied, its deposit leaves the vault. */
  lemma RefundBalances(l: Ledger, l': Ledger, user: Key)
    requires Shaped(l) && Shaped(l') && Balanced(l) && !PotLeft(l) && l'.round.life.status == CANCELLED
    requires user in l.people && l.people[user].usdc <= l.vault
    requires Total(Deposits(l')) == Total(Deposits(l)) - l.people[user].usdc
    requires l'.people == l.people[user := l.people[user].(usdc := 0, tickets := 0)]
    requires l'.vault == l.vault - l.people[user].usdc
    requires l'.books == l.books.(refunded := l.books.refunded + l.people[user].usdc,
                                  returned := l.books.returned[user := At(l.books.returned, user) + l.people[user].usdc])
    ensures Balanced(l')
  {
  }

  lemma RefundTables(l: Ledger, l': Ledger, user: Key)
    requires Roster(l) && Shaped(l') && user in l.people
    requires l'.round.participants == l.round.participants
    requires l'.round.life.participantsCount == l.round.life.participantsCount
    requires l'.people == l.people[user := l.people[user].(usdc := 0, tickets := 0)]
    ensures Total(Deposits(l')) == Total(Deposits(l)) - l.people[user].usdc
    ensures l.people[user].usdc <= Total(Deposits(l))
  {
    var p := l.people[user].(usdc := 0, tickets := 0);
    SeatedTables(l, l', user, p);
    SumUpdate(Deposits(l), p.index - 1, 0, 0, MAX_PARTICIPANTS);
    SumMember(Deposits(l), p.index - 1);
  }

  /** The round is cancelled, one account emptied and its deposit out of the vault. */
  ghost predicate Emptied(l: Ledger, l': Ledger, user: Key)
  {
    && user in l.people && l.people[user].usdc <= l.vault && l'.key == l.key && Shaped(l')
    && l'.round.participants == l.round.participants && l'.round.degenMode == l.round.degenMode
    && l'.round.life.participantsCount == l.round.life.participantsCount && l'.round.life.status == CANCELLED
    && l'.people == l.people[user := l.people[user].(usdc := 0, tickets := 0)]
    && l'.vault == l.vault - l.people[user].usdc
    && l'.books == l.books.(refunded := l.books.refunded + l.people[user].usdc,
                            returned := l.books.returned[user := At(l.books.returned, user) + l.people[user].usdc])
  }

  lemma EmptiedKeeps(l: Ledger, l': Ledger, user: Key)
    requires Inv(l) && Emptied(l, l', user) && (l.round.life.status == OPEN || l.round.life.status == CANCELLED)
    ensures Follows(l, l') && Inv(l')
  {
    RefundTables(l, l', user);
    RefundBalances(l, l', user);
    hide Represents, Total, Tickets, Deposits;
  }

  lemma RefundKeeps(l: Ledger, user: Key, ok: bool, l': Ledger)
    requires Inv(l) && ClaimRefund(l, user, ok) == Done(l')
    ensures Follows(l, l')
    ensures Inv(l')
  {
    assert Shaped(l);
    hide Inv, Follows;
    EmptiedKeeps(l, l', user);
  }

  lemma CancelKeeps(l: Ledger, user: Key, ok: bool, l': Ledger)
    requires Inv(l) && CancelRound(l, user, ok) == Done(l')
    ensures Follows(l, l')
    ensures Inv(l')
  {
    assert Shaped(l);
    hide Inv, Follows, Fits;
    EmptiedKeeps(l, l', user);
  }

  lemma CloseKeeps(l: Ledger, user: Key, l': Ledger)
    requires Inv(l) && CloseParticipant(l, user) == Done(l')
    ensures Follows(l, l')
    ensures Inv(l')
  {
    if l.round.life.status == CANCELLED {
      TableEntries(l);
      TableEntries(l');
      Extensional(Deposits(l'), Deposits(l));
    }
  }

  /** A change of status or mode alone. */
  ghost predicate OnlyPhase(l: Ledger, l': Ledger)
  {
    && l'.key == l.key && l'.people == l.people && l'.vault == l.vault
    && l'.books == l.books.(delivered := l'.books.delivered)
    && l'.round.bit == l.round.bit && l'.round.participants == l.round.participants
    && l'.round.life == l.round.life.(status := l'.round.life.status)
    && l'.round.winner == l.round.winner && l'.round.winningTicket == l.round.winningTicket
  }

  /** Moving on without paying keeps the tables, the tally and the books. */
  lemma PhaseKeeps(l: Ledger, l': Ledger)
    requires Inv(l) && OnlyPhase(l, l') && Phases(l')
    requires Live(l') ==> Live(l)
    requires PotLeft(l') == PotLeft(l) && (l.round.life.status == CLAIMED ==> l'.round.life.status == CLAIMED)
    ensures Inv(l')
  {
    SameTables(l, l');
  }

  lemma DonateKeeps(l: Ledger, amount: nat, l': Ledger)
    requires Inv(l) && Execute(l, Donate(amount)) == Done(l')
    ensures Follows(l, l')
    ensures Inv(l')
  {
    SameTables(l, l');
  }

  lemma ForceCancelKeeps(l: Ledger, cfg: Config, user: Key, l': Ledger)
    requires Inv(l) && ForceCancel(l, cfg, user) == Done(l')
    ensures Follows(l, l')
    ensures Inv(l')
  {
    PhaseKeeps(l, l');
  }

  lemma LockKeeps(l: Ledger, cfg: Config, now: int, l': Ledger)
    requires Inv(l) && LockRound(l, cfg, now) == Done(l')
    ensures Follows(l, l')
    ensures Inv(l')
  {
    PhaseKeeps(l, l');
  }

  lemma RequestVrfKeeps(l: Ledger, cfg: Config, user: Key, l': Ledger)
    requires Inv(l) && RequestVrf(l, cfg, user) == Done(l')
    ensures Follows(l, l')
    ensures Inv(l')
  {
    PhaseKeeps(l, l');
  }

  /** The callback finds a participant who holds tickets. */
  lemma SettleKeeps(l: Ledger, cfg: Config, randomness: Key, l': Ledger)
    requires Inv(l) && VrfCallback(l, cfg, randomness) == Done(l')
    ensures Follows(l, l')
    ensures Inv(l')
  {
    SameTables(l, l');
    FindPrefixSelects(l.round.bit, Tickets(l), l'.round.winningTicket);
    SelectedHolds(Tickets(l), l'.round.winningTicket);
  }

  // ----- payouts -----

  /** The three amounts are exactly the pot; with a fee of at most 100% they can always be computed. */
  lemma AmountsAreThePot(totalUsdc: nat, feeBps: nat, reimburse: bool)
    requires totalUsdc <= U64_MAX
    ensures var m := ClaimAmounts(totalUsdc, feeBps, reimburse);
            && (m.Done? ==> m.value.payout + m.value.fee + m.value.vrfReimburse == totalUsdc)
            && (feeBps <= BPS_DENOMINATOR ==> m.Done?)
  {
    if feeBps <= BPS_DENOMINATOR {
      FeeWithinPot(Pot(totalUsdc, reimburse), feeBps);
    }
  }

  lemma FeeWithinPot(pot: nat, feeBps: nat)
    requires feeBps <= BPS_DENOMINATOR
    ensures Fee(pot, feeBps) <= pot
  {
    assert pot * feeBps <= pot * BPS_DENOMINATOR;
  }

  /** The pot leaves the vault of a settled round. */
  ghost predicate PotLeaves(l: Ledger, l': Ledger)
  {
    && l.round.life.status == SETTLED && !PotLeft(l) && PotLeft(l')
    && l'.key == l.key && l'.people == l.people
    && l'.round.bit == l.round.bit && l'.round.participants == l.round.participants
    && l'.round.life == l.round.life.(status := l'.round.life.status)
    && l'.round.winner == l.round.winner && l'.round.winningTicket == l.round.winningTicket
    && l.vault >= l.round.life.totalUsdc && l'.vault == l.vault - l.round.life.totalUsdc
    && l'.books == l.books.(paidOut := l.books.paidOut + l.round.life.totalUsdc, won := l'.books.won,
                            entrusted := l'.books.entrusted)
  }

  lemma PayoutKeeps(l: Ledger, l': Ledger)
    requires Inv(l) && PotLeaves(l, l')
    ensures Inv(l')
  {
    SameTables(l, l');
  }

  lemma ClaimKeeps(l: Ledger, cfg: Config, caller: Option<Key>, vrfOk: bool, ok: bool, l': Ledger)
    requires Inv(l) && Claim(l, cfg, caller, vrfOk, ok) == Done(l')
    ensures Follows(l, l')
    ensures Inv(l') && PotLeaves(l, l') && l'.books.entrusted == l.books.entrusted
    ensures var m := ClaimAmounts(l.round.life.totalUsdc, cfg.feeBps, VrfOwed(l.round) && vrfOk);
            m.Done? && l'.books.won == Some(m.value.payout)
  {
    AmountsAreThePot(l.round.life.totalUsdc, cfg.feeBps, VrfOwed(l.round) && vrfOk);
    PayoutKeeps(l, l');
  }

  lemma BeginDegenKeeps(l: Ledger, cfg: Config, user: Key, minOut: nat, pre: nat, ok: bool, l': Ledger)
    requires Inv(l) && BeginDegen(l, cfg, user, minOut, pre, ok) == Done(l')
    ensures Follows(l, l')
    ensures Inv(l') && PotLeaves(l, l') && l'.books.won == l.books.won
    ensures var m := ClaimAmounts(l.round.life.totalUsdc, cfg.feeBps, VrfOwed(l.round));
            m.Done? && l'.books.entrusted == Some(m.value.payout)
  {
    AmountsAreThePot(l.round.life.totalUsdc, cfg.feeBps, VrfOwed(l.round));
    PayoutKeeps(l, l');
  }

  lemma ClaimDegenKeeps(l: Ledger, cfg: Config, user: Key, swapped: bool, now: int, ok: bool, l': Ledger)
    requires Inv(l) && ClaimDegen(l, cfg, user, swapped, now, ok) == Done(l')
    ensures Follows(l, l')
    ensures Inv(l') && PotLeaves(l, l') && l'.books.entrusted == l.books.entrusted
    ensures var m := ClaimAmounts(l.round.life.totalUsdc, cfg.feeBps, VrfOwed(l.round));
            m.Done? && l'.books.won == Some(m.value.payout)
  {
    AmountsAreThePot(l.round.life.totalUsdc, cfg.feeBps, VrfOwed(l.round));
    PayoutKeeps(l, l');
  }

  lemma DegenPhaseKeeps(l: Ledger, ix: Instruction, l': Ledger)
    requires Inv(l) && Execute(l, ix) == Done(l')
    requires ix.IxRequestDegenVrf? || ix.IxDegenVrfCallback? || ix.IxFinalizeDegen?
    ensures Follows(l, l')
    ensures Inv(l')
  {
    SameTables(l, l');
    PhaseKeeps(l, l');
  }

  // ----- whole runs -----

  /** Every instruction on a standing round keeps the invariant. */
  lemma ExecuteKeeps(l: Ledger, ix: Instruction, l': Ledger)
    requires Inv(l) && Execute(l, ix) == Done(l')
    ensures Follows(l, l')
    ensures Inv(l')
  {
    match ix
    case IxDeposit(cfg, args) => DepositKeeps(l, cfg, args, l');
    case IxCancelRound(user, ok) => CancelKeeps(l, user, ok, l');
    case IxClaimRefund(user, ok) => RefundKeeps(l, user, ok, l');
    case IxForceCancel(cfg, user) => ForceCancelKeeps(l, cfg, user, l');
    case IxLockRound(cfg, now) => LockKeeps(l, cfg, now, l');
    case IxRequestVrf(cfg, user) => RequestVrfKeeps(l, cfg, user, l');
    case IxVrfCallback(cfg, randomness) => SettleKeeps(l, cfg, randomness, l');
    case IxClaim(cfg, caller, vrfOk, ok) => ClaimKeeps(l, cfg, caller, vrfOk, ok, l');
    case IxBeginDegen(cfg, user, minOut, pre, ok) => BeginDegenKeeps(l, cfg, user, minOut, pre, ok, l');
    case IxClaimDegen(cfg, user, swapped, now, ok) => ClaimDegenKeeps(l, cfg, user, swapped, now, ok, l');
    case IxCloseParticipant(user) => CloseKeeps(l, user, l');
    case Donate(amount) => DonateKeeps(l, amount, l');
    case _ => DegenPhaseKeeps(l, ix, l');
  }

  /** The ledger after a sequence of transactions; a refused one changes nothing. */
  ghost function Run(l: Ledger, ixs: seq<Instruction>): (r: Ledger)
    requires Inv(l)
    ensures Inv(r)
    decreases |ixs|
  {
    if ixs == [] then l
    else
      var o := Execute(l, ixs[0]);
      if o.Done? then ExecuteKeeps(l, ixs[0], o.value); Run(o.value, ixs[1..]) else Run(l, ixs[1..])
  }

  lemma StartedInv(key: Key, found: nat, roundId: nat, bump: byte, vaultKey: Key, now: int)
    ensures Inv(Started(key, found, roundId, bump, vaultKey, now))
  {
    var l := Started(key, found, roundId, bump, vaultKey, now);
    TableEntries(l);
    var zeros: seq<nat> := seq(MAX_PARTICIPANTS, _ => 0);
    Extensional(Tickets(l), zeros);
    Extensional(Deposits(l), zeros);
    ZeroRepresents(MAX_PARTICIPANTS);
    SumZero(zeros, 0, MAX_PARTICIPANTS);
  }

  /**
   Custody, over every run of instructions from a fresh round up to its closing: all money is accounted for,
   the vault covers what it still owes, and the pot has left it either not at all or exactly once in full.
   */
  lemma EveryLifeIsSafe(key: Key, found: nat, roundId: nat, bump: byte, vaultKey: Key, now: int, ixs: seq<Instruction>)
    ensures Inv(Started(key, found, roundId, bump, vaultKey, now))
    ensures var l := Run(Started(key, found, roundId, bump, vaultKey, now), ixs);
            && l.books.deposited + l.books.donated == l.vault + l.books.refunded + l.books.paidOut + l.books.swept
            && l.vault >= Owed(l)
            && (l.books.paidOut == if PotLeft(l) then l.round.life.totalUsdc else 0)
            && (Live(l) ==> l.round.life.totalTickets == Total(Tickets(l)) && Represents(l.round.bit, Tickets(l)))
  {
    StartedInv(key, found, roundId, bump, vaultKey, now);
  }

  /** No payout of a reachable round is refused for want of funds. */
  lemma PayoutsCovered(l: Ledger, cfg: Config, caller: Option<Key>, user: Key, a: nat, b: nat,
                       swapped: bool, now: int, vrfOk: bool, ok: bool)
    requires Inv(l)
    ensures Claim(l, cfg, caller, vrfOk, ok) != Failed(InsufficientVault)
    ensures BeginDegen(l, cfg, user, a, b, ok) != Failed(InsufficientVault)
    ensures ClaimDegen(l, cfg, user, swapped, now, ok) != Failed(InsufficientVault)
  {
    PotIsThere(l, cfg, VrfOwed(l.round) && vrfOk);
    PotIsThere(l, cfg, VrfOwed(l.round));
  }

  /** No refund either. */
  lemma RefundsCovered(l: Ledger, user: Key, ok: bool)
    requires Inv(l)
    ensures CancelRound(l, user, ok) != Failed(InsufficientVault)
    ensures ClaimRefund(l, user, ok) != Failed(InsufficientVault)
  {
    DepositWithinOwed(l, user);
  }

  /** While the pot is in the vault, so are the three amounts of the claim. */
  lemma PotIsThere(l: Ledger, cfg: Config, reimburse: bool)
    requires Inv(l)
    ensures var m := ClaimAmounts(l.round.life.totalUsdc, cfg.feeBps, reimburse);
            l.round.life.status == SETTLED && !PotLeft(l) && m.Done? ==>
              m.value.payout + m.value.fee + m.value.vrfReimburse <= l.vault
  {
    if l.round.life.status == SETTLED { AmountsAreThePot(l.round.life.totalUsdc, cfg.feeBps, reimburse); }
  }

  lemma DepositWithinOwed(l: Ledger, user: Key)
    requires Roster(l)
    ensures user in l.people ==> l.people[user].usdc <= Total(Deposits(l))
  {
    if user in l.people {
      TableEntries(l);
      SumMember(Deposits(l), l.people[user].index - 1);
    }
  }

  /** A depositor of a cancelled round gets back all they ever put in, whatever else has happened. */
  lemma RefundIsComplete(l: Ledger, user: Key)
    requires Inv(l) && l.round.life.status == CANCELLED && user in l.people && l.people[user].usdc > 0
    ensures var o := ClaimRefund(l, user, true);
            && o.Done?
            && At(o.value.books.returned, user) == At(o.value.books.contributed, user)
            && o.value.vault == l.vault - l.people[user].usdc
  {
    DepositWithinOwed(l, user);
  }

  /** A round that is no longer open never opens again, and a pot that has left the vault never leaves it again. */
  lemma {:induction false} NeverReopensNorRepays(l: Ledger, ixs: seq<Instruction>)
    requires Inv(l)
    ensures l.round.life.status != OPEN ==> Run(l, ixs).round.life.status != OPEN
    ensures PotLeft(l) ==> PotLeft(Run(l, ixs)) && Run(l, ixs).books.paidOut == l.books.paidOut
    decreases |ixs|
  {
    if ixs != [] {
      var o := Execute(l, ixs[0]);
      if o.Done? {
        ExecuteKeeps(l, ixs[0], o.value);
        NeverReopensNorRepays(o.value, ixs[1..]);
      } else {
        NeverReopensNorRepays(l, ixs[1..]);
      }
    }
  }

  // ----- the draw -----

  /** Every callback with enough players settles the round on the holder of a ticket, which the first 16 bytes of the
      randomness choose. */
  lemma DrawAlwaysSettles(l: Ledger, cfg: Config, randomness: Key)
    requires Inv(l) && l.round.life.status == VRF_REQUESTED
    requires cfg.minParticipants <= l.round.life.participantsCount && cfg.minTotalTickets <= l.round.life.totalTickets
    ensures var o := VrfCallback(l, cfg, randomness);
            && o.Done?
            && o.value.round.winner in l.people
            && l.people[o.value.round.winner].tickets > 0
            && o.value.round.winningTicket == DecodeLE(EncodeLE(randomness, 32)[..16]) % l.round.life.totalTickets + 1
            && o.value.round.winner == WinnerOf(l, o.value.round.winningTicket)
  {
    assert Shaped(l) && l.round.life.totalTickets > 0;
    FirstHalf(randomness);
    DrawFinds(l, RandomU128(randomness) % l.round.life.totalTickets + 1);
    hide Inv, Draw, WinnerOf, EncodeLE, DecodeLE;
  }

  /** A draw finds the holder of the ticket. */
  lemma DrawFinds(l: Ledger, ticket: nat)
    requires Inv(l) && Live(l) && 1 <= ticket <= l.round.life.totalTickets
    ensures Draw(l.round, ticket) == Done(WinnerOf(l, ticket))
    ensures WinnerOf(l, ticket) in l.people && l.people[WinnerOf(l, ticket)].tickets > 0
  {
    FindPrefixSelects(l.round.bit, Tickets(l), ticket);
    SelectedHolds(Tickets(l), ticket);
    TableEntries(l);
  }

  /** The participant to whom a ticket number belongs. */
  ghost function WinnerOf(l: Ledger, ticket: nat): Key
    requires Inv(l) && Live(l) && 1 <= ticket <= l.round.life.totalTickets
  {
    SelectedHolds(Tickets(l), ticket);
    l.round.participants[Selected(Tickets(l), ticket) - 1]
  }

  /** The draw is fair: of the tickets 1..total, exactly as many select a participant as that one holds. */
  lemma FairDraw(l: Ledger, k: Key)
    requires Inv(l) && Live(l) && k in l.people
    ensures |(set x: int | 1 <= x <= l.round.life.totalTickets && WinnerOf(l, x) == k)| == l.people[k].tickets
  {
    var t, i := Tickets(l), l.people[k].index;
    TableEntries(l);
    ExactFairness(t, i);
    forall x: int | 1 <= x <= l.round.life.totalTickets ensures WinnerOf(l, x) == k <==> Selected(t, x) == i {
      SelectedHolds(t, x);
      var s := Selected(t, x);
      assert TicketsAt(l, s - 1) > 0;
      assert l.round.participants[i - 1] == k;
    }
    assert (set x: int | 1 <= x <= l.round.life.totalTickets && WinnerOf(l, x) == k)
        == (set x: int | 1 <= x <= Total(t) && Selected(t, x) == i);
  }

  /** How many of the numbers below `n` leave remainder `r` when divided by `total`. */
  ghost function Remainders(n: nat, total: nat, r: nat): nat
    requires total > 0
  {
    if n == 0 then 0 else Remainders(n - 1, total, r) + (if (n - 1) % total == r then 1 else 0)
  }

  /** Taking a uniform number modulo `total` favours no remainder over another by more than one number. */
  lemma {:induction false} RemaindersNearlyEven(n: nat, total: nat, r: nat)
    requires r < total
    ensures Remainders(n, total, r) == n / total + (if r < n % total then 1 else 0)
  {
    if n > 0 {
      RemaindersNearlyEven(n - 1, total, r);
      NextQuotient(n - 1, total);
    }
  }
}
