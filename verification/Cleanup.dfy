/** One cleanup pass over a round's participant accounts: look at them in chunks, close a batch, count. */
module Cleanup {
  import opened Basics
  import opened Division

  const CHUNK: nat := 50

  /** What a participant's address holds. */
  datatype Account = Absent | Garbled | Holding(usdc: nat, tickets: nat)

  datatype Stats = Stats(existing: nat, closable: nat, closed: nat, blockedByRefund: nat, errors: nat)

  /** A participant of a cancelled round that still has something to refund. */
  predicate Blocked(a: Account, cancelled: bool) { a.Holding? && cancelled && (a.usdc > 0 || a.tickets > 0) }

  predicate Closable(a: Account, cancelled: bool) { a.Holding? && !Blocked(a, cancelled) }

  // ----- what a pass should count -----

  function Found(accounts: seq<Account>): nat
  {
    if |accounts| == 0 then 0
    else Found(accounts[..|accounts| - 1]) + if accounts[|accounts| - 1].Absent? then 0 else 1
  }

  function BlockedIn(accounts: seq<Account>, cancelled: bool): nat
  {
    if |accounts| == 0 then 0
    else BlockedIn(accounts[..|accounts| - 1], cancelled) + if Blocked(accounts[|accounts| - 1], cancelled) then 1 else 0
  }

  function GarbledIn(accounts: seq<Account>): nat
  {
    if |accounts| == 0 then 0
    else GarbledIn(accounts[..|accounts| - 1]) + if accounts[|accounts| - 1].Garbled? then 1 else 0
  }

  /** The positions of the accounts that may be closed, in order. */
  function ClosableAt(accounts: seq<Account>, cancelled: bool): seq<nat>
  {
    if |accounts| == 0 then []
    else
      var n := |accounts| - 1;
      var r := ClosableAt(accounts[..n], cancelled);
      if Closable(accounts[n], cancelled) then r + [n] else r
  }

  /** Of a claimed round every readable account may be closed, of a cancelled one those with nothing left to refund; an
      account is blocked if it is readable and may not. */
  lemma WhoIsClosable(a: Account, cancelled: bool)
    ensures Closable(a, cancelled) <==> a.Holding? && (cancelled ==> a.usdc == 0 && a.tickets == 0)
    ensures Blocked(a, cancelled) <==> a.Holding? && !Closable(a, cancelled)
  {
  }

  /** They are exactly the closable positions, each once, in increasing order. */
  lemma {:induction false} ClosableExact(accounts: seq<Account>, cancelled: bool)
    ensures var r := ClosableAt(accounts, cancelled);
      && (forall k :: 0 <= k < |r| ==> r[k] < |accounts| && Closable(accounts[r[k]], cancelled))
      && (forall i, j :: 0 <= i < j < |r| ==> r[i] < r[j])
      && (forall p :: 0 <= p < |accounts| && Closable(accounts[p], cancelled) ==> p in r)
      && forall p :: 0 <= p < |accounts| ==>
           (p in r <==> accounts[p].Holding? && (cancelled ==> accounts[p].usdc == 0 && accounts[p].tickets == 0))
  {
    if |accounts| > 0 {
      var n := |accounts| - 1;
      ClosableExact(accounts[..n], cancelled);
      var r := ClosableAt(accounts[..n], cancelled);
      forall p | 0 <= p < |accounts| && Closable(accounts[p], cancelled) ensures p in ClosableAt(accounts, cancelled) {
        if p < n { assert accounts[..n][p] == accounts[p]; } else { assert (r + [n])[|r|] == n; }
      }
    }
  }

  lemma ClosableEntry(accounts: seq<Account>, cancelled: bool, k: nat)
    requires k < |ClosableAt(accounts, cancelled)|
    ensures var p := ClosableAt(accounts, cancelled)[k]; p < |accounts| && Closable(accounts[p], cancelled)
  {
    ClosableExact(accounts, cancelled);
  }

  function Successes(sent: seq<bool>): (k: nat)
    ensures k <= |sent|
  {
    if |sent| == 0 then 0 else Successes(sent[..|sent| - 1]) + if sent[|sent| - 1] then 1 else 0
  }

  /** The record of a pass: what was there, and how the closing transactions ended. */
  datatype Pass = Pass(cancelled: bool, accounts: seq<Account>, sent: seq<bool>) {
    predicate Valid(batch: nat) { |sent| == Min(batch, |ClosableAt(accounts, cancelled)|) }

    function Counted(): Stats
    {
      Stats(Found(accounts), |ClosableAt(accounts, cancelled)|, Successes(sent), BlockedIn(accounts, cancelled),
            GarbledIn(accounts) + |sent| - Successes(sent))
    }

    /** The positions closed by this pass. */
    ghost predicate Closed(p: nat)
    {
      var c := ClosableAt(accounts, cancelled);
      exists k :: 0 <= k < |sent| && sent[k] && k < |c| && c[k] == p
    }
  }

  lemma CountedIs(p: Pass, stats: Stats)
    requires stats == Stats(Found(p.accounts), |ClosableAt(p.accounts, p.cancelled)|, Successes(p.sent),
                            BlockedIn(p.accounts, p.cancelled), GarbledIn(p.accounts) + |p.sent| - Successes(p.sent))
    ensures stats == p.Counted()
  {
  }

  /** Every account found is closable, blocked or unreadable. */
  lemma {:induction false} EveryAccountCounted(accounts: seq<Account>, cancelled: bool)
    ensures Found(accounts) == |ClosableAt(accounts, cancelled)| + BlockedIn(accounts, cancelled) + GarbledIn(accounts)
  {
    if |accounts| > 0 { EveryAccountCounted(accounts[..|accounts| - 1], cancelled); }
  }

  /** The addresses that hold anything, the readable accounts that may be closed, those with a refund waiting, and the
      unreadable ones. */
  ghost function FoundSet(a: seq<Account>): set<nat> { set i: nat | i < |a| && !a[i].Absent? }

  ghost function ClosableSet(a: seq<Account>, cancelled: bool): set<nat>
  {
    set i: nat | i < |a| && a[i].Holding? && (cancelled ==> a[i].usdc == 0 && a[i].tickets == 0)
  }

  ghost function WaitingSet(a: seq<Account>, cancelled: bool): set<nat>
  {
    set i: nat | i < |a| && a[i].Holding? && cancelled && (a[i].usdc > 0 || a[i].tickets > 0)
  }

  ghost function GarbledSet(a: seq<Account>): set<nat> { set i: nat | i < |a| && a[i].Garbled? }

  /** The closings that ended as `how`. */
  ghost function Ended(sent: seq<bool>, how: bool): set<nat> { set k: nat | k < |sent| && sent[k] == how }

  /** The counters of a pass, counted; errors are the unreadable accounts and the closings that failed. */
  lemma CountedExact(p: Pass)
    ensures var c := p.Counted();
      && c.existing == |FoundSet(p.accounts)| && c.closable == |ClosableSet(p.accounts, p.cancelled)|
      && c.blockedByRefund == |WaitingSet(p.accounts, p.cancelled)| && c.closed == |Ended(p.sent, true)|
      && c.errors == |GarbledSet(p.accounts)| + |Ended(p.sent, false)|
  {
    CountsAre(p.accounts, p.cancelled);
    SuccessesAre(p.sent);
  }

  lemma {:induction false} CountsAre(a: seq<Account>, cancelled: bool)
    ensures Found(a) == |FoundSet(a)| && |ClosableAt(a, cancelled)| == |ClosableSet(a, cancelled)|
    ensures BlockedIn(a, cancelled) == |WaitingSet(a, cancelled)| && GarbledIn(a) == |GarbledSet(a)|
  {
    if |a| > 0 {
      var n := |a| - 1;
      CountsAre(a[..n], cancelled);
      OneMore(FoundSet(a[..n]), FoundSet(a), n);
      OneMore(ClosableSet(a[..n], cancelled), ClosableSet(a, cancelled), n);
      OneMore(WaitingSet(a[..n], cancelled), WaitingSet(a, cancelled), n);
      OneMore(GarbledSet(a[..n]), GarbledSet(a), n);
    }
  }

  lemma {:induction false} SuccessesAre(sent: seq<bool>)
    ensures Successes(sent) == |Ended(sent, true)| && |sent| - Successes(sent) == |Ended(sent, false)|
  {
    if |sent| > 0 {
      var n := |sent| - 1;
      SuccessesAre(sent[..n]);
      OneMore(Ended(sent[..n], true), Ended(sent, true), n);
      OneMore(Ended(sent[..n], false), Ended(sent, false), n);
    }
  }

  /** A set of positions and what one more position makes of it. */
  lemma OneMore(s: set<nat>, s': set<nat>, n: nat)
    requires n !in s && forall i :: i != n ==> (i in s <==> i in s')
    ensures |s'| == |s| + if n in s' then 1 else 0
  {
    if n in s' { assert s' == s + {n}; } else { assert s' == s; }
  }

  lemma {:induction false} BlockedCounted(accounts: seq<Account>, cancelled: bool, p: nat)
    requires p < |accounts|
    ensures Blocked(accounts[p], cancelled) ==> BlockedIn(accounts, cancelled) > 0
    ensures accounts[p].Garbled? ==> GarbledIn(accounts) > 0
  {
    var n := |accounts| - 1;
    if p < n { BlockedCounted(accounts[..n], cancelled, p); }
  }

  lemma {:induction false} AllSucceeded(sent: seq<bool>)
    ensures Successes(sent) == |sent| <==> forall k :: 0 <= k < |sent| ==> sent[k]
  {
    if |sent| > 0 { AllSucceeded(sent[..|sent| - 1]); }
  }

  /** If a pass leaves nothing pending, every account it found was closed in it: none blocked, unreadable or failed. */
  lemma NothingPending(p: Pass, batch: nat)
    requires p.Valid(batch) && p.Counted().existing <= p.Counted().closed
    ensures p.Counted().blockedByRefund == 0 && p.Counted().errors == 0
    ensures forall i :: 0 <= i < |p.accounts| && !p.accounts[i].Absent? ==> p.Closed(i)
  {
    EveryAccountCounted(p.accounts, p.cancelled);
    ClosableExact(p.accounts, p.cancelled);
    AllSucceeded(p.sent);
    forall i | 0 <= i < |p.accounts| && !p.accounts[i].Absent? ensures p.Closed(i) {
      BlockedCounted(p.accounts, p.cancelled, i);
      assert i in ClosableAt(p.accounts, p.cancelled);
    }
  }

  /** A participant of a cancelled round with something to refund is never closed. */
  lemma RefundNeverClosed(p: Pass, i: nat)
    requires i < |p.accounts| && p.Closed(i)
    ensures p.accounts[i].Holding? && (p.cancelled ==> p.accounts[i].usdc == 0 && p.accounts[i].tickets == 0)
  {
    ClosableExact(p.accounts, p.cancelled);
  }

  /** The counters after looking at the accounts in `seen`. */
  ghost predicate Tallied(seen: seq<Account>, cancelled: bool, existing: nat, blocked: nat, errors: nat, users: seq<nat>)
  {
    && existing == Found(seen) && blocked == BlockedIn(seen, cancelled) && errors == GarbledIn(seen)
    && users == ClosableAt(seen, cancelled)
  }

  lemma TalliedNext(accounts: seq<Account>, n: nat, cancelled: bool, existing: nat, blocked: nat,
                    errors: nat, users: seq<nat>)
    requires n < |accounts| && Tallied(accounts[..n], cancelled, existing, blocked, errors, users)
    ensures var a := accounts[n];
      Tallied(accounts[..n + 1], cancelled, existing + if a.Absent? then 0 else 1,
              blocked + if Blocked(a, cancelled) then 1 else 0,
              errors + if a.Garbled? then 1 else 0, if Closable(a, cancelled) then users + [n] else users)
  {
    assert accounts[..n + 1][..n] == accounts[..n];
  }

  /** The chunked scan of `cleanupParticipantPdas`. */
  method Scan(cancelled: bool, accounts: seq<Account>) returns (existing: nat, blocked: nat, errors: nat, users: seq<nat>)
    ensures existing == Found(accounts) && blocked == BlockedIn(accounts, cancelled) && errors == GarbledIn(accounts)
    ensures users == ClosableAt(accounts, cancelled)
  {
    hide Tallied, ClosableAt, Found, BlockedIn, GarbledIn;
    existing, blocked, errors, users := 0, 0, 0, [];
    NothingSeen(accounts, cancelled);
    var i := 0;
    while i < |accounts|
      invariant i <= |accounts| + CHUNK
      invariant Tallied(accounts[..Min(i, |accounts|)], cancelled, existing, blocked, errors, users)
    {
      var chunk := accounts[i..Min(i + CHUNK, |accounts|)];
      var j := 0;
      while j < |chunk|
        invariant j <= |chunk|
        invariant Tallied(accounts[..i + j], cancelled, existing, blocked, errors, users)
      {
        var info := chunk[j];
        TalliedNext(accounts, i + j, cancelled, existing, blocked, errors, users);
        if !info.Absent? {
          existing := existing + 1;
          if info.Garbled? {
            errors := errors + 1;
          } else if cancelled && (info.usdc > 0 || info.tickets > 0) {
            blocked := blocked + 1;
          } else {
            users := users + [i + j];
          }
        }
        j := j + 1;
      }
      i := i + CHUNK;
    }
    AllSeen(accounts, cancelled, existing, blocked, errors, users);
  }

  /** The counters after the closing transactions, whose outcomes are `sent`. */
  method Count(existing: nat, blocked: nat, unreadable: nat, closable: nat, sent: seq<bool>) returns (stats: Stats)
    ensures stats == Stats(existing, closable, Successes(sent), blocked, unreadable + |sent| - Successes(sent))
  {
    var closed, errors, k := 0, unreadable, 0;
    while k < |sent|
      invariant k <= |sent| && closed == Successes(sent[..k]) && errors == unreadable + k - closed
    {
      assert sent[..k + 1][..k] == sent[..k];
      if sent[k] { closed := closed + 1; } else { errors := errors + 1; }
      k := k + 1;
    }
    assert sent[..|sent|] == sent;
    stats := Stats(existing, closable, closed, blocked, errors);
  }

  /** `cleanupParticipantPdas`, for given outcomes of its closing transactions: it counts what the pass record says and
      closes the first closable accounts. */
  method CleanupParticipants(cancelled: bool, accounts: seq<Account>, sent: seq<bool>, batch: nat)
    returns (stats: Stats, toClose: seq<nat>)
    requires Pass(cancelled, accounts, sent).Valid(batch)
    ensures stats == Pass(cancelled, accounts, sent).Counted()
    ensures toClose == ClosableAt(accounts, cancelled)[..|sent|]
  {
    hide ClosableAt, Found, BlockedIn, GarbledIn, Successes;
    var existing, blocked, unreadable, users := Scan(cancelled, accounts);
    toClose := users[..Min(batch, |users|)];
    stats := Count(existing, blocked, unreadable, |users|, sent);
  }

  lemma NothingSeen(accounts: seq<Account>, cancelled: bool)
    ensures Tallied(accounts[..0], cancelled, 0, 0, 0, [])
  {
  }

  lemma AllSeen(accounts: seq<Account>, cancelled: bool, existing: nat, blocked: nat, errors: nat, users: seq<nat>)
    requires Tallied(accounts[..|accounts|], cancelled, existing, blocked, errors, users)
    ensures existing == Found(accounts) && blocked == BlockedIn(accounts, cancelled) && errors == GarbledIn(accounts)
    ensures users == ClosableAt(accounts, cancelled)
  {
    assert accounts[..|accounts|] == accounts;
  }

  // ----- how many passes it takes -----

  /** The accounts left by a pass in which every transaction lands: the first `n` closable ones are gone. */
  function Remaining(accounts: seq<Account>, cancelled: bool, n: nat): (r: seq<Account>)
    ensures |r| == |accounts|
  {
    if |accounts| == 0 then []
    else
      var m := |accounts| - 1;
      var r := Remaining(accounts[..m], cancelled, n);
      if Closable(accounts[m], cancelled) && |ClosableAt(accounts[..m], cancelled)| < n then r + [Absent]
      else r + [accounts[m]]
  }

  /** The closing of `n` accounts is exactly the removal of the first `n` closable positions. */
  lemma {:induction false} RemainingIs(accounts: seq<Account>, cancelled: bool, n: nat, p: nat)
    requires p < |accounts|
    ensures var c := ClosableAt(accounts, cancelled);
      Remaining(accounts, cancelled, n)[p] == if p in c[..Min(n, |c|)] then Absent else accounts[p]
  {
    var m := |accounts| - 1;
    var c, c' := ClosableAt(accounts[..m], cancelled), ClosableAt(accounts, cancelled);
    if p < m { RemainingIs(accounts[..m], cancelled, n, p); }
    ClosableExact(accounts[..m], cancelled);
    TakeMember(c, m, n, p);
    assert m !in c[..Min(n, |c|)];
  }

  lemma TakeMember(c: seq<nat>, m: nat, n: nat, p: nat)
    ensures p != m ==> (p in (c + [m])[..Min(n, |c| + 1)] <==> p in c[..Min(n, |c|)])
    ensures |c| < n ==> m in (c + [m])[..Min(n, |c| + 1)]
    ensures |c| >= n ==> (c + [m])[..Min(n, |c| + 1)] == c[..Min(n, |c|)]
  {
    if |c| < n {
      assert (c + [m])[..Min(n, |c| + 1)] == c + [m] && c[..Min(n, |c|)] == c;
    } else {
      assert (c + [m])[..Min(n, |c| + 1)] == c[..Min(n, |c|)];
    }
  }

  lemma {:induction false} RemainingCounts(accounts: seq<Account>, cancelled: bool, n: nat)
    ensures var r := Remaining(accounts, cancelled, n); var c := |ClosableAt(accounts, cancelled)|;
      && |ClosableAt(r, cancelled)| == c - Min(n, c)
      && BlockedIn(r, cancelled) == BlockedIn(accounts, cancelled) && GarbledIn(r) == GarbledIn(accounts)
  {
    if |accounts| > 0 {
      var m := |accounts| - 1;
      RemainingCounts(accounts[..m], cancelled, n);
      var r := Remaining(accounts, cancelled, n);
      assert r[..m] == Remaining(accounts[..m], cancelled, n);
    }
  }

  /** Passes, every transaction landing, until one leaves nothing pending. */
  function PassesToClose(accounts: seq<Account>, cancelled: bool, batch: nat): nat
    requires batch >= 1 && BlockedIn(accounts, cancelled) == 0 && GarbledIn(accounts) == 0
    decreases |ClosableAt(accounts, cancelled)|
  {
    var closed := Min(batch, |ClosableAt(accounts, cancelled)|);
    if Found(accounts) <= closed then 1
    else
      EveryAccountCounted(accounts, cancelled);
      RemainingCounts(accounts, cancelled, closed);
      1 + PassesToClose(Remaining(accounts, cancelled, closed), cancelled, batch)
  }

  /** With `p` accounts to close and batches of `batch`, the round is closed on pass `max(1, ceil(p / batch))`. */
  lemma {:induction false} ExactPasses(accounts: seq<Account>, cancelled: bool, batch: nat)
    requires batch >= 1 && BlockedIn(accounts, cancelled) == 0 && GarbledIn(accounts) == 0
    ensures var p := |ClosableAt(accounts, cancelled)|;
      PassesToClose(accounts, cancelled, batch) == if p == 0 then 1 else (p + batch - 1) / batch
    decreases |ClosableAt(accounts, cancelled)|
  {
    hide ClosableAt, Found, BlockedIn, GarbledIn, Remaining;
    var p := |ClosableAt(accounts, cancelled)|;
    var closed := Min(batch, p);
    EveryAccountCounted(accounts, cancelled);
    if p > closed {
      RemainingCounts(accounts, cancelled, closed);
      ExactPasses(Remaining(accounts, cancelled, closed), cancelled, batch);
      NextMultiple(p - 1, batch);
    } else if p > 0 {
      assert (p + batch - 1) / batch == 1 by { Quotient(p + batch - 1, batch, 1); }
    }
  }

  /** Pass after pass with every transaction landing, until one leaves nothing pending: that many passes it takes. */
  method CloseInPasses(accounts0: seq<Account>, cancelled: bool, batch: nat) returns (passes: nat)
    requires batch >= 1 && BlockedIn(accounts0, cancelled) == 0 && GarbledIn(accounts0) == 0
    ensures var p := |ClosableAt(accounts0, cancelled)|; passes == if p == 0 then 1 else (p + batch - 1) / batch
  {
    hide ClosableAt, Found, BlockedIn, GarbledIn, Remaining, Successes;
    var accounts := accounts0;
    passes := 1;
    ExactPasses(accounts0, cancelled, batch);
    while true
      invariant BlockedIn(accounts, cancelled) == 0 && GarbledIn(accounts) == 0
      invariant passes + PassesToClose(accounts, cancelled, batch) == 1 + PassesToClose(accounts0, cancelled, batch)
      decreases |ClosableAt(accounts, cancelled)|
    {
      var _, _, _, users := Scan(cancelled, accounts);
      var sent := seq(Min(batch, |users|), _ => true);
      AllLand(sent);
      var stats, closed := CleanupParticipants(cancelled, accounts, sent, batch);
      EveryAccountCounted(accounts, cancelled);
      if stats.existing <= stats.closed { return; }
      RemainingCounts(accounts, cancelled, |closed|);
      forall p | 0 <= p < |accounts|
        ensures Remaining(accounts, cancelled, |closed|)[p] == if p in closed then Absent else accounts[p]
      {
        RemainingIs(accounts, cancelled, |closed|, p);
      }
      ghost var left := Remaining(accounts, cancelled, |closed|);
      accounts := seq(|accounts|, p requires 0 <= p < |accounts| => if p in closed then Absent else accounts[p]);
      assert accounts == left;
      passes := passes + 1;
    }
  }

  lemma AllLand(sent: seq<bool>)
    requires forall k :: 0 <= k < |sent| ==> sent[k]
    ensures Successes(sent) == |sent|
  {
    AllSucceeded(sent);
  }
}
