/** The handlers that draw, fill and empty a round, on the account bytes: each refines its record-level step. */
module RoundHandlers {
  import opened Bytes
  import opened Layout
  import opened RoundLayout
  import opened RoundAccount
  import opened RoundProgram

  function Lift(e: LayoutError): Error
  {
    if e.MathOverflow? then Overflow else InvalidAccounts
  }

  /** Enter the depositor into the account if the participant account does not name this round yet. */
  method JoinHandler(data: array<byte>, key: Key, people: map<Key, Person>, user: Key)
    returns (o: Outcome<(Lifecycle, Person)>)
    requires data.Length == ROUND_ACCOUNT_LEN && user < Pow256(32)
    modifies data
    ensures var spec := Join(key, View(old(data[..])), people, user);
            match o
            case Done((life, p)) => spec == Done((View(data[..]).(life := life), p)) && life.Valid()
            case Failed(e) => spec == Failed(e)
    ensures Get(data[..], Discriminator) == Get(old(data[..]), Discriminator)
  {
    hide View, ReadLifecycle, Nodes, Participants, Get;
    ViewParts(data[..]);
    ViewInRange(data[..]);
    var life := ReadLifecycle(data[..]);
    var p := if user in people then people[user] else Person(ZERO_KEY, user, 0, 0, 0, 0);
    if p.round != key {
      var next := life.participantsCount + 1;
      if next > U16_MAX { return Failed(Overflow); }
      if next > MAX_PARTICIPANTS { return Failed(MaxParticipantsReached); }
      p := Person(key, user, next, 0, 0, 0);
      life := life.(participantsCount := next);
      var w := WriteParticipant(data, next - 1, user);
    }
    o := Done((life, p));
  }

  /** Write the header with the new totals, then add the tickets to the Fenwick tree. */
  method RecordHandler(data: array<byte>, life: Lifecycle, index: nat, delta: nat, tickets: nat) returns (o: Outcome<()>)
    requires data.Length == ROUND_ACCOUNT_LEN && life.Valid()
    modifies data
    ensures var spec := Record(View(old(data[..])).(life := life), index, delta, tickets);
            match o
            case Done(_) => spec == Done(View(data[..]))
            case Failed(e) => spec == Failed(e)
    ensures Get(data[..], Discriminator) == Get(old(data[..]), Discriminator)
  {
    hide View, ReadLifecycle, Nodes, Participants, Get;
    ViewParts(data[..]);
    if life.totalTickets + tickets > U64_MAX || life.totalUsdc + delta > U64_MAX { return Failed(Overflow); }
    var w := WriteLifecycle(data, life.(totalTickets := life.totalTickets + tickets, totalUsdc := life.totalUsdc + delta));
    ghost var b := data[..];
    ViewParts(b);
    var added := BitAdd(data, index, tickets);
    if !Refused(data.Length, index) { BitView(b, data[..]); }
    if added.Err? { return Failed(Lift(added.error)); }
    o := Done(());
  }

  /** `deposit_any`, for the depositor's participant account among `people`. */
  method DepositHandler(data: array<byte>, key: Key, people: map<Key, Person>, cfg: Config, a: DepositArgs)
    returns (o: Outcome<(Person, nat)>)
    requires data.Length == ROUND_ACCOUNT_LEN
    requires a.user < Pow256(32) && I64_MIN <= a.now <= I64_MAX
    modifies data
    ensures var spec := DepositAccounts(key, View(old(data[..])), people, cfg, a);
            match o
            case Done((p, delta)) =>
              && spec == Done((View(data[..]), p, delta))
              && Bought(key, View(old(data[..])), people, cfg, a, View(data[..]), p, delta)
            case Failed(e) => spec == Failed(e)
    ensures Get(data[..], Discriminator) == Get(old(data[..]), Discriminator)
  {
    hide View, ReadLifecycle, Nodes, Participants, Get;
    ViewParts(data[..]);
    var checked := DepositChecks(ReadLifecycle(data[..]), cfg, a);
    if checked.Failed? { return Failed(checked.error); }
    var (delta, tickets) := checked.value;
    var joined := JoinHandler(data, key, people, a.user);
    if joined.Failed? { return Failed(joined.error); }
    var (life, p) := joined.value;
    var clocks := StartClocks(life, cfg, a.now);
    if clocks.Failed? { return Failed(clocks.error); }
    var credited := Credit(p, cfg, delta, tickets);
    if credited.Failed? { return Failed(credited.error); }
    var recorded := RecordHandler(data, clocks.value, credited.value.index, delta, tickets);
    if recorded.Failed? { return Failed(recorded.error); }
    hide DepositAccounts, Bought;
    AccountsMean(key, View(old(data[..])), people, cfg, a, View(data[..]), credited.value, delta);
    o := Done((credited.value, delta));
  }

  /** `cancel_round`, for the participant account `p` of `user`. */
  method CancelHandler(data: array<byte>, key: Key, user: Key, p: Person, accountsOk: bool) returns (o: Outcome<()>)
    requires data.Length == ROUND_ACCOUNT_LEN && p.tickets <= U64_MAX
    modifies data
    ensures var spec := CancelAccounts(key, View(old(data[..])), user, p, accountsOk);
            match o
            case Done(_) => spec == Done(View(data[..]))
            case Failed(e) => spec == Failed(e)
    ensures Get(data[..], Discriminator) == Get(old(data[..]), Discriminator)
  {
    hide View, ReadLifecycle, Nodes, Participants, Get;
    ViewParts(data[..]);
    ghost var b := data[..];
    ViewInRange(b);
    var life := ReadLifecycle(data[..]);
    if p.user != user || p.round != key { return Failed(Unauthorized); }
    if p.usdc == 0 { return Failed(NoDepositToRefund); }
    if life.status != OPEN { return Failed(RoundNotCancellable); }
    if life.totalUsdc != p.usdc { return Failed(CancelNotAllowed); }
    if !accountsOk { return Failed(InvalidAccounts); }
    var taken := BitSub(data, p.index, p.tickets);
    if !Refused(data.Length, p.index) { BitView(b, data[..]); }
    if taken.Err? { return Failed(Lift(taken.error)); }
    if p.tickets > life.totalTickets { return Failed(Overflow); }
    var w := WriteLifecycle(data, CancelledLife(life, p));
    o := Done(());
  }

  /** `vrf_callback`: the first 16 of the random bytes choose the ticket, and its holder wins. */
  method VrfCallbackHandler(data: array<byte>, cfg: Config, randomness: Key) returns (o: Outcome<()>)
    requires data.Length == ROUND_ACCOUNT_LEN && randomness < Pow256(32)
    modifies data
    ensures var spec := SettleRound(View(old(data[..])), cfg, randomness);
            match o
            case Done(_) => spec == Done(View(data[..]))
            case Failed(e) => spec == Failed(e) && data[..] == old(data[..])
    ensures o.Done? ==>
              var before, after := View(old(data[..])), View(data[..]);
              && after.winningTicket == DecodeLE(EncodeLE(randomness, 32)[..16]) % before.life.totalTickets + 1
              && Wins(before, after.winningTicket, after.winner)
  {
    hide View, ReadLifecycle, Nodes, Participants, Get;
    ViewParts(data[..]);
    ViewInRange(data[..]);
    var life := ReadLifecycle(data[..]);
    if life.status != VRF_REQUESTED { return Failed(RoundNotVrfRequested); }
    if life.participantsCount < cfg.minParticipants { return Failed(NotEnoughParticipants); }
    if life.totalTickets < cfg.minTotalTickets { return Failed(NotEnoughTickets); }
    if life.totalTickets == 0 { return Failed(DivideByZero); }
    var ticket := RandomU128(randomness) % life.totalTickets + 1;
    var winner := DrawHandler(data, ticket);
    if winner.Failed? { return Failed(winner.error); }
    FirstHalf(randomness);
    DrawWins(View(data[..]), ticket, winner.value);
    hide Wins, Draw;
    Settle(data, randomness, ticket, winner.value);
    o := Done(());
  }

  method DrawHandler(data: array<byte>, ticket: nat) returns (o: Outcome<Key>)
    requires data.Length == ROUND_ACCOUNT_LEN && ticket <= U64_MAX
    ensures o == Draw(View(data[..]), ticket)
    ensures o.Done? ==> o.value < Pow256(32)
  {
    hide View, ReadLifecycle, Nodes, Get;
    ViewParts(data[..]);
    var found := BitFindPrefix(data, ticket);
    if found.Err? { return Failed(Overflow); }
    if found.value < 1 || found.value > MAX_PARTICIPANTS { return Failed(InvalidAccounts); }
    UintBound(data[..], Participant(found.value - 1));
    o := Done(Uint(data[..], Participant(found.value - 1)));
  }

  /** The four writes of a settled round. */
  method Settle(data: array<byte>, randomness: Key, ticket: nat, winner: Key)
    requires data.Length == ROUND_ACCOUNT_LEN
    requires randomness < Pow256(32) && winner < Pow256(32) && ticket <= U64_MAX
    modifies data
    ensures var v := View(old(data[..]));
            View(data[..]) == v.(randomness := randomness, winningTicket := ticket, winner := winner,
                                 life := v.life.(status := SETTLED))
  {
    Widths();
    DecodeEncode(randomness, 32);
    DecodeEncode(ticket, 8);
    DecodeEncode(winner, 32);
    ghost var b := data[..];
    var w := WriteRegion(data, Randomness, EncodeLE(randomness, 32));
    KeyWritten(b, data[..], Randomness, EncodeLE(randomness, 32));
    b := data[..];
    w := WriteRegion(data, WinningTicket, EncodeLE(ticket, 8));
    FlagWritten(b, data[..], WinningTicket, EncodeLE(ticket, 8));
    b := data[..];
    w := WriteRegion(data, Winner, EncodeLE(winner, 32));
    KeyWritten(b, data[..], Winner, EncodeLE(winner, 32));
    b := data[..];
    w := WriteRegion(data, Status, [SETTLED]);
    FlagWritten(b, data[..], Status, [SETTLED]);
  }
}
