/** The degen executor's pass over a claim: which swap is attempted next, when it stops, and when it falls back. */
module Executor {
  import opened Division

  /** How an attempt ended, as the error handling classifies it. */
  datatype Outcome = Signature | TooLarge | Slippage | Timeout | OtherError

  /** What happens before a candidate's first attempt. */
  datatype PreCheck = Proceed | NoRoute | CheckFailed(timeout: bool)

  /** `acc` counts the account limits tried; the one after the last is the direct-route last resort. */
  datatype Event =
    | Skipped(cand: nat, timeout: bool)
    | Tried(cand: nat, slip: nat, acc: nat, outcome: Outcome)
    | Checked(cand: nat, executing: bool)
    | Fallback

  /** The number of candidates, of slippage steps and of account limits, and which candidates are USDC itself. */
  datatype Setup = Setup(candidates: nat, slips: nat, accs: nat, direct: nat -> bool) {
    /** A candidate that has anything to attempt. */
    predicate Starts(c: nat) { direct(c) || (slips >= 1 && accs >= 1) }

    /** Attempts per slippage step, and per candidate. */
    function PerSlip(): nat { accs + 1 }

    function PerCandidate(): nat { (if slips >= 1 then slips else 1) * PerSlip() }
  }

  // ----- the rules, as a machine -----

  datatype Position = Ready(cand: nat) | Next(cand: nat, slip: nat, acc: nat) | Check(cand: nat) | Ended

  function NextSlip(u: Setup, c: nat, s: nat): Position { if s + 1 < u.slips then Next(c, s + 1, 0) else Ready(c + 1) }

  /** Where an attempt leads. */
  function After(u: Setup, c: nat, s: nat, a: nat, o: Outcome): Position
  {
    match o
    case Signature => Ended
    case Timeout => Check(c)
    case OtherError => Ready(c + 1)
    case TooLarge => if u.direct(c) then Ready(c + 1) else if a < u.accs then Next(c, s, a + 1) else NextSlip(u, c, s)
    case Slippage => if u.direct(c) then Ready(c + 1) else if 0 < a < u.accs then Next(c, s, u.accs) else NextSlip(u, c, s)
  }

  /** The events a position allows. */
  predicate Allows(u: Setup, p: Position, e: Event)
  {
    match p
    case Ready(c) =>
      if c < u.candidates then
        (e.Skipped? && e.cand == c) || (e.Tried? && u.Starts(c) && e.cand == c && e.slip == 0 && e.acc == 0)
      else c == u.candidates && e.Fallback?
    case Next(c, s, a) => e.Tried? && e.cand == c && e.slip == s && e.acc == a
    case Check(c) => e.Checked? && e.cand == c
    case Ended => false
  }

  function Move(u: Setup, p: Position, e: Event): Position
  {
    match e
    case Skipped(c, timeout) => if timeout then Check(c) else Ready(c + 1)
    case Tried(c, s, a, o) => After(u, c, s, a, o)
    case Checked(c, executing) => if executing then Ended else Ready(c + 1)
    case Fallback => Ended
  }

  function Where(u: Setup, log: seq<Event>): Position
  {
    if |log| == 0 then Ready(0) else Move(u, Where(u, log[..|log| - 1]), log[|log| - 1])
  }

  predicate Lawful(u: Setup, log: seq<Event>)
  {
    |log| == 0 || (Lawful(u, log[..|log| - 1]) && Allows(u, Where(u, log[..|log| - 1]), log[|log| - 1]))
  }

  lemma Extend(u: Setup, log: seq<Event>, e: Event)
    requires Lawful(u, log) && Allows(u, Where(u, log), e)
    ensures Lawful(u, log + [e]) && Where(u, log + [e]) == Move(u, Where(u, log), e)
  {
    hide Allows, Move;
    assert (log + [e])[..|log|] == log;
  }

  // ----- the world -----

  function Attempts(log: seq<Event>): nat
  {
    if |log| == 0 then 0 else Attempts(log[..|log| - 1]) + if log[|log| - 1].Tried? then 1 else 0
  }

  /** How each candidate's pre-check, each attempt of the pass and each candidate's status check turn out. */
  datatype World = World(pre: nat -> PreCheck, outcome: nat -> Outcome, executing: nat -> bool)

  predicate Tries(u: Setup, w: World, c: nat) { u.Starts(c) && (u.direct(c) || w.pre(c).Proceed?) }

  /** The event reports the world as it is; `n` attempts came before it. */
  predicate Reports(u: Setup, w: World, n: nat, e: Event)
  {
    match e
    case Skipped(c, timeout) => !Tries(u, w, c) && timeout == (!u.direct(c) && w.pre(c).CheckFailed? && w.pre(c).timeout)
    case Tried(c, _, _, o) => Tries(u, w, c) && o == w.outcome(n)
    case Checked(c, x) => x == w.executing(c)
    case Fallback => true
  }

  predicate Truthful(u: Setup, w: World, log: seq<Event>)
  {
    |log| == 0 || (Truthful(u, w, log[..|log| - 1]) && Reports(u, w, Attempts(log[..|log| - 1]), log[|log| - 1]))
  }

  lemma ExtendTruthful(u: Setup, w: World, log: seq<Event>, e: Event)
    requires Truthful(u, w, log) && Reports(u, w, Attempts(log), e)
    ensures Truthful(u, w, log + [e]) && Attempts(log + [e]) == Attempts(log) + if e.Tried? then 1 else 0
  {
    hide Reports;
    assert (log + [e])[..|log|] == log;
  }

  /** The rules leave the executor no choice: two lawful passes over the same world agree as far as both go. */
  lemma {:induction false} PassDetermined(u: Setup, w: World, log: seq<Event>, log': seq<Event>)
    requires Lawful(u, log) && Truthful(u, w, log) && Lawful(u, log') && Truthful(u, w, log') && |log| <= |log'|
    ensures log == log'[..|log|]
    decreases |log| + |log'|
  {
    if |log| < |log'| {
      PassDetermined(u, w, log, log'[..|log'| - 1]);
      assert log'[..|log'| - 1][..|log|] == log'[..|log|];
    } else if |log| > 0 {
      var n := |log| - 1;
      PassDetermined(u, w, log[..n], log'[..n]);
      assert log'[..n][..n] == log'[..n];
      assert log == log[..n] + [log[n]] && log' == log'[..n] + [log'[n]];
    }
  }

  // ----- the pass -----

  /** The attempts of one candidate, in the source's nested loops. Yields the log and whether the
      last attempt landed or timed out. */
  method TryCandidate(u: Setup, w: World, c: nat, log0: seq<Event>, k0: nat)
    returns (log: seq<Event>, k: nat, landed: bool, timeout: bool)
    requires Lawful(u, log0) && Where(u, log0) == Ready(c) && c < u.candidates && Tries(u, w, c)
    requires Truthful(u, w, log0) && k0 == Attempts(log0)
    ensures Truthful(u, w, log) && k == Attempts(log)
    ensures Lawful(u, log) && log0 <= log && |log0| < |log|
    ensures Where(u, log) == if landed then Ended else if timeout then Check(c) else Ready(c + 1)
    ensures landed ==> log[|log| - 1].Tried? && log[|log| - 1].outcome == Signature
    ensures forall i :: |log0| <= i < |log| ==>
              log[i].Tried? && log[i].cand == c && (i < |log| - 1 || !landed ==> log[i].outcome != Signature)
  {
    hide Lawful, Where, Truthful, Attempts;
    log, k, landed, timeout := log0, k0, false, false;
    var direct := u.direct(c);
    var steps := if direct then 1 else u.slips;
    var limits := if direct then 1 else u.accs;
    var s := 0;
    while s < steps
      invariant s <= steps && Lawful(u, log) && Truthful(u, w, log) && k == Attempts(log)
      invariant log0 <= log && (s > 0 ==> |log0| < |log|)
      invariant Where(u, log) == if s == 0 then Ready(c) else if s < steps then Next(c, s, 0) else Ready(c + 1)
      invariant forall i :: |log0| <= i < |log| ==> log[i].Tried? && log[i].cand == c && log[i].outcome != Signature
    {
      var a, sized, slipped := 0, false, false;
      while a < limits && !slipped
        invariant a <= limits && Lawful(u, log) && Truthful(u, w, log) && k == Attempts(log)
        invariant log0 <= log && (a > 0 || slipped || s > 0 ==> |log0| < |log|)
        invariant !slipped ==> (sized <==> a > 0)
        invariant !slipped ==> Where(u, log) == if a > 0 then Next(c, s, a) else if s == 0 then Ready(c) else Next(c, s, 0)
        invariant slipped ==>
                    Where(u, log) == if direct then Ready(c + 1) else if sized then Next(c, s, u.accs) else NextSlip(u, c, s)
        invariant direct ==> a == 0 && !sized
        invariant forall i :: |log0| <= i < |log| ==> log[i].Tried? && log[i].cand == c && log[i].outcome != Signature
        decreases limits - a, if slipped then 0 else 1
      {
        var o := w.outcome(k);
        var e := Tried(c, s, a, o);
        Extend(u, log, e);
        ExtendTruthful(u, w, log, e);
        log, k := log + [e], k + 1;
        if o == Signature {
          landed := true;
          return;
        }
        if o == TooLarge && !direct {
          sized, a := true, a + 1;
        } else if o == Slippage {
          slipped := true;
        } else {
          timeout := o == Timeout;
          return;
        }
      }
      if sized && !direct {
        var o := w.outcome(k);
        var e := Tried(c, s, u.accs, o);
        Extend(u, log, e);
        ExtendTruthful(u, w, log, e);
        log, k := log + [e], k + 1;
        if o == Signature {
          landed := true;
          return;
        }
        if o != TooLarge && o != Slippage {
          timeout := o == Timeout;
          return;
        }
      }
      s := s + 1;
    }
  }

  /** One candidate: skipped, or tried, and after a timeout the claim's status checked. */
  method ProcessCandidate(u: Setup, w: World, c: nat, log0: seq<Event>, k0: nat)
    returns (log: seq<Event>, k: nat, stopped: bool)
    requires Lawful(u, log0) && Where(u, log0) == Ready(c) && c < u.candidates
    requires Truthful(u, w, log0) && k0 == Attempts(log0)
    ensures Lawful(u, log) && Truthful(u, w, log) && k == Attempts(log)
    ensures !stopped ==> Where(u, log) == Ready(c + 1)
    ensures stopped ==> Where(u, log) == Ended && |log| > 0 && Stops(log[|log| - 1])
  {
    hide Lawful, Where, Truthful, Attempts, Tries;
    var timeout;
    if Tries(u, w, c) {
      log, k, stopped, timeout := TryCandidate(u, w, c, log0, k0);
      if stopped { return; }
    } else {
      timeout := !u.direct(c) && w.pre(c).CheckFailed? && w.pre(c).timeout;
      var e := Skipped(c, timeout);
      Extend(u, log0, e);
      ExtendTruthful(u, w, log0, e);
      log, k := log0 + [e], k0;
    }
    stopped := false;
    if timeout {
      var e := Checked(c, w.executing(c));
      Extend(u, log, e);
      ExtendTruthful(u, w, log, e);
      log, stopped := log + [e], w.executing(c);
    }
  }

  /** `processReadyClaim`, past the checks that the claim is ready (`ready`): every candidate in turn until one lands or
      a timed-out one turns out to be executing; then the fallback, once its time has come. */
  method ProcessReadyClaim(u: Setup, w: World, ready: bool, now: int, fallbackAt: int) returns (log: seq<Event>)
    ensures Lawful(u, log) && Truthful(u, w, log) && (!ready ==> log == [])
    ensures ready ==> Where(u, log) == Ended || (Where(u, log) == Ready(u.candidates) && now < fallbackAt)
    ensures ready ==> (Fallback in log <==> now >= fallbackAt && !StoppedEarly(log))
    ensures ready ==> WholePass(u, log) && forall i :: 0 <= i < |log| ==> Tells(u, w, log, i)
  {
    log := [];
    if !ready { return; }
    hide Lawful, Where, Truthful, Attempts, StoppedEarly, Stops, WholePass, Tells;
    NothingYet(u, w);
    var c, k := 0, 0;
    while c < u.candidates
      invariant c <= u.candidates && Lawful(u, log) && Where(u, log) == Ready(c)
      invariant Truthful(u, w, log) && k == Attempts(log)
    {
      var stopped;
      log, k, stopped := ProcessCandidate(u, w, c, log, k);
      if stopped {
        StoppedWithout(u, log);
        Recorded(u, w, log);
        return;
      }
      c := c + 1;
    }
    NotEndedNotStopped(u, log);
    if now >= fallbackAt {
      Extend(u, log, Fallback);
      ExtendTruthful(u, w, log, Fallback);
      log := log + [Fallback];
    }
    Recorded(u, w, log);
  }

  lemma Recorded(u: Setup, w: World, log: seq<Event>)
    requires Lawful(u, log) && (Where(u, log) == Ended || Where(u, log) == Ready(u.candidates)) && Truthful(u, w, log)
    ensures WholePass(u, log) && forall i :: 0 <= i < |log| ==> Tells(u, w, log, i)
  {
    LawfulIsWhole(u, log);
    hide WholePass, Tells, Truthful;
    forall i | 0 <= i < |log| ensures Tells(u, w, log, i) { TruthfulTells(u, w, log, i); }
  }

  lemma StoppedWithout(u: Setup, log: seq<Event>)
    requires Lawful(u, log) && |log| > 0 && Stops(log[|log| - 1])
    ensures StoppedEarly(log) && Fallback !in log
  {
    if Fallback in log { FallbackIsLast(u, log); }
  }

  /** A swap landed, or a timed-out one was found executing. */
  ghost predicate StoppedEarly(log: seq<Event>)
  {
    exists i :: 0 <= i < |log| && Stops(log[i])
  }

  predicate Stops(e: Event) { (e.Checked? && e.executing) || (e.Tried? && e.outcome == Signature) }

  lemma NotEndedNotStopped(u: Setup, log: seq<Event>)
    requires Lawful(u, log) && Where(u, log) != Ended
    ensures Fallback !in log && !StoppedEarly(log) && !StoppedEarly(log + [Fallback])
  {
    forall i | 0 <= i < |log|
      ensures log[i] != Fallback && !Stops(log[i])
    {
      LawfulAt(u, log, i);
      NotEndedBefore(u, log, i + 1);
    }
  }

  lemma NotEndedBefore(u: Setup, log: seq<Event>, j: nat)
    requires Lawful(u, log) && j <= |log| && Where(u, log) != Ended
    ensures Where(u, log[..j]) != Ended
  {
    assert log[..|log|] == log;
    if Where(u, log[..j]) == Ended { EndedAtTheEnd(u, log, j); }
  }

  lemma NothingYet(u: Setup, w: World)
    ensures Lawful(u, []) && Where(u, []) == Ready(0) && Truthful(u, w, []) && Attempts([]) == 0
  {
  }

  // ----- what every lawful log guarantees -----

  lemma {:induction false} LawfulAt(u: Setup, log: seq<Event>, i: nat)
    requires Lawful(u, log) && i < |log|
    ensures Lawful(u, log[..i]) && Allows(u, Where(u, log[..i]), log[i])
    ensures Where(u, log[..i + 1]) == Move(u, Where(u, log[..i]), log[i])
    decreases |log|
  {
    hide Allows, Move;
    var n := |log| - 1;
    assert log[..i + 1][..i] == log[..i];
    if i < n {
      LawfulAt(u, log[..n], i);
      assert log[..n][..i] == log[..i] && log[..n][..i + 1] == log[..i + 1];
    } else {
      assert log[..i + 1] == log;
    }
  }

  /** Nothing follows a signature, a check that saw the claim executing, or the fallback. */
  lemma NothingAfter(u: Setup, log: seq<Event>, i: nat)
    requires Lawful(u, log) && i < |log|
    requires log[i].Fallback? || Stops(log[i])
    ensures i == |log| - 1
  {
    LawfulAt(u, log, i);
    EndedAtTheEnd(u, log, i + 1);
  }

  lemma EndedAtTheEnd(u: Setup, log: seq<Event>, j: nat)
    requires Lawful(u, log) && j <= |log| && Where(u, log[..j]) == Ended
    ensures j == |log|
  {
    if j < |log| { LawfulAt(u, log, j); }
  }

  lemma FallbackIsLast(u: Setup, log: seq<Event>)
    requires Lawful(u, log) && Fallback in log
    ensures log[|log| - 1] == Fallback && Where(u, log) == Ended
  {
    var i :| 0 <= i < |log| && log[i] == Fallback;
    NothingAfter(u, log, i);
  }

  /** The fallback is sent only after every candidate was tried or skipped, none landed and none was found executing. */
  lemma FallbackOnlyWhenAllFailed(u: Setup, log: seq<Event>, c: nat)
    requires Lawful(u, log) && Fallback in log && c < u.candidates
    ensures forall i :: 0 <= i < |log| ==> !Stops(log[i])
    ensures exists i :: 0 <= i < |log| && (log[i].Tried? || log[i].Skipped?) && log[i].cand == c
  {
    var f :| 0 <= f < |log| && log[f] == Fallback;
    NothingAfter(u, log, f);
    LawfulAt(u, log, f);
    forall i | 0 <= i < |log| ensures !Stops(log[i]) {
      if Stops(log[i]) { NothingAfter(u, log, i); }
    }
    var i := Considered(u, log[..f], c);
    assert log[i] == log[..f][i];
  }

  /** A candidate that the position is past has been tried or skipped. */
  lemma {:induction false} Considered(u: Setup, log: seq<Event>, c: nat) returns (i: nat)
    requires Lawful(u, log) && !Where(u, log).Ended?
    requires c < Where(u, log).cand || (c == Where(u, log).cand && !Where(u, log).Ready?)
    ensures i < |log| && (log[i].Tried? || log[i].Skipped?) && log[i].cand == c
  {
    var n := |log| - 1;
    if (log[n].Tried? || log[n].Skipped?) && log[n].cand == c { return n; }
    i := Considered(u, log[..n], c);
  }

  // ----- the log, event by event -----

  predicate IsTry(e: Event, c: nat, s: nat, a: nat) { e.Tried? && e.cand == c && e.slip == s && e.acc == a }

  /** The pass turns to candidate `c`, or to the fallback if there are no more. */
  predicate TurnsTo(u: Setup, c: nat, e: Event)
  {
    if c < u.candidates then (e.Skipped? && e.cand == c) || IsTry(e, c, 0, 0) else e.Fallback?
  }

  /** The attempt was too large or slipped. */
  predicate Failed(e: Event) { e.Tried? && (e.outcome == TooLarge || e.outcome == Slippage) }

  /** Smaller account limits are left to try at this slippage: after an attempt that was too large the next, and once one
      was too large, after a slip the last resort. */
  predicate Shrinks(u: Setup, e: Event)
  {
    Failed(e) && !u.direct(e.cand) && e.acc < u.accs && (e.outcome == TooLarge || e.acc > 0)
  }

  /** Otherwise a higher slippage is, if there is one. */
  predicate Escalates(u: Setup, e: Event)
  {
    Failed(e) && !u.direct(e.cand) && !Shrinks(u, e) && e.slip + 1 < u.slips
  }

  predicate TimedOut(e: Event) { (e.Skipped? && e.timeout) || (e.Tried? && e.outcome == Timeout) }

  /** What comes after `e`, told by the events alone. */
  predicate Succeeds(u: Setup, e: Event, f: Event)
  {
    if e.Fallback? || Stops(e) then false
    else if TimedOut(e) then f.Checked? && f.cand == e.cand
    else if Shrinks(u, e) then IsTry(f, e.cand, e.slip, if e.outcome == TooLarge then e.acc + 1 else u.accs)
    else if Escalates(u, e) then IsTry(f, e.cand, e.slip + 1, 0)
    else TurnsTo(u, e.cand + 1, f)
  }

  /** The pass may end after `e`: it stopped, or the last candidate is done with. */
  predicate MayEnd(u: Setup, e: Event)
  {
    e.Fallback? || Stops(e) ||
    (!TimedOut(e) && !Shrinks(u, e) && !Escalates(u, e) && e.cand + 1 == u.candidates)
  }

  /** A whole pass: it begins with the first candidate, each event succeeds the one before, and it ends where it may. */
  ghost predicate WholePass(u: Setup, log: seq<Event>)
  {
    && (forall i :: 0 < i < |log| ==> Succeeds(u, log[i - 1], log[i]))
    && if |log| == 0 then u.candidates == 0 else TurnsTo(u, 0, log[0]) && MayEnd(u, log[|log| - 1])
  }

  /** A lawful log that leaves nothing to do is a whole pass. */
  lemma LawfulIsWhole(u: Setup, log: seq<Event>)
    requires Lawful(u, log) && (Where(u, log) == Ended || Where(u, log) == Ready(u.candidates))
    ensures WholePass(u, log)
  {
    forall i | 0 < i < |log| ensures Succeeds(u, log[i - 1], log[i]) {
      LawfulAt(u, log, i - 1);
      LawfulAt(u, log, i);
      AttemptsBounded(u, log[..i - 1]);
      Adjacent(u, Where(u, log[..i - 1]), log[i - 1], log[i]);
    }
    if |log| > 0 {
      var n := |log| - 1;
      LawfulAt(u, log, 0);
      LawfulAt(u, log, n);
      assert log[..n + 1] == log;
      AttemptsBounded(u, log[..n]);
      LastEvent(u, Where(u, log[..n]), log[n]);
    }
  }

  lemma Adjacent(u: Setup, p: Position, e: Event, f: Event)
    requires Within(u, p) && Allows(u, p, e) && Allows(u, Move(u, p, e), f)
    ensures Succeeds(u, e, f)
  {
  }

  lemma LastEvent(u: Setup, p: Position, e: Event)
    requires Within(u, p) && Allows(u, p, e) && (Move(u, p, e) == Ended || Move(u, p, e) == Ready(u.candidates))
    ensures MayEnd(u, e)
  {
  }

  /** The attempts of a candidate begin at the lowest slippage and the first account limit. */
  lemma {:induction false} FirstTry(u: Setup, log: seq<Event>, i: nat) returns (j: nat)
    requires WholePass(u, log) && i < |log| && log[i].Tried?
    ensures j <= i && IsTry(log[j], log[i].cand, 0, 0)
  {
    if log[i].slip == 0 && log[i].acc == 0 { return i; }
    assert i > 0 && Succeeds(u, log[i - 1], log[i]);
    j := FirstTry(u, log, i - 1);
  }

  /** No attempt of the candidate ended in a signature, a timeout or another error. */
  ghost predicate OnlyFailed(log: seq<Event>, c: nat)
  {
    forall i :: 0 <= i < |log| && log[i].Tried? && log[i].cand == c ==> Failed(log[i])
  }

  /** From an attempt at slippage `s`, a whole pass gets to slippage `s + 1`. */
  lemma {:induction false} NextStep(u: Setup, log: seq<Event>, i: nat) returns (j: nat)
    requires WholePass(u, log) && i < |log| && log[i].Tried? && !u.direct(log[i].cand) && OnlyFailed(log, log[i].cand)
    requires log[i].slip + 1 < u.slips && log[i].acc <= u.accs
    ensures i < j < |log| && IsTry(log[j], log[i].cand, log[i].slip + 1, 0)
    decreases |log| - i
  {
    var e := log[i];
    assert Failed(e) && i + 1 < |log|;
    assert Succeeds(u, log[i], log[i + 1]);
    if Shrinks(u, e) { j := NextStep(u, log, i + 1); } else { j := i + 1; }
  }

  /** A candidate that was attempted and given up without signature, timeout or other error had every slippage step
      tried. */
  lemma {:induction false} EveryStepTried(u: Setup, log: seq<Event>, c: nat, i: nat, s: nat) returns (j: nat)
    requires WholePass(u, log) && !u.direct(c) && i < |log| && log[i].Tried? && log[i].cand == c && OnlyFailed(log, c)
    requires s < u.slips
    ensures j < |log| && IsTry(log[j], c, s, 0)
  {
    if s == 0 {
      j := FirstTry(u, log, i);
    } else {
      j := EveryStepTried(u, log, c, i, s - 1);
      j := NextStep(u, log, j);
    }
  }

  /** Attempts so far, counted. */
  ghost function TriesBefore(log: seq<Event>, n: nat): set<nat>
    requires n <= |log|
  {
    set j: nat | j < n && log[j].Tried?
  }

  /** The event tells what happened: a candidate is tried if it is USDC itself, or its pre-check went through and there
      is anything to try; the outcomes come in order. */
  ghost predicate Tells(u: Setup, w: World, log: seq<Event>, i: nat)
    requires i < |log|
  {
    match log[i]
    case Skipped(c, timeout) =>
      && !u.direct(c) && (w.pre(c) != Proceed || u.slips == 0 || u.accs == 0)
      && (timeout <==> w.pre(c) == CheckFailed(true))
    case Tried(c, _, _, o) =>
      (u.direct(c) || (w.pre(c) == Proceed && u.slips > 0 && u.accs > 0)) && o == w.outcome(|TriesBefore(log, i)|)
    case Checked(c, x) => x == w.executing(c)
    case Fallback => true
  }

  lemma {:induction false} TruthfulTells(u: Setup, w: World, log: seq<Event>, i: nat)
    requires Truthful(u, w, log) && i < |log|
    ensures Tells(u, w, log, i)
    decreases |log|
  {
    var n := |log| - 1;
    if i < n {
      TruthfulTells(u, w, log[..n], i);
      assert TriesBefore(log[..n], i) == TriesBefore(log, i);
    } else {
      AttemptsCount(log[..n], n);
      assert TriesBefore(log[..n], n) == TriesBefore(log, n);
      assert log[..n][..n] == log[..n];
    }
  }

  lemma {:induction false} AttemptsCount(log: seq<Event>, n: nat)
    requires n <= |log|
    ensures |TriesBefore(log, n)| == Attempts(log[..n])
  {
    if n == 0 {
      assert TriesBefore(log, 0) == {};
    } else {
      AttemptsCount(log, n - 1);
      assert log[..n][..n - 1] == log[..n - 1];
      assert TriesBefore(log, n) == TriesBefore(log, n - 1) + if log[n - 1].Tried? then {n - 1} else {};
    }
  }

  // ----- order and number of attempts -----

  /** The order of attempts: by candidate, then slippage step, then account limit. */
  predicate Before(c: nat, s: nat, a: nat, c': nat, s': nat, a': nat)
  {
    c < c' || (c == c' && (s < s' || (s == s' && a < a')))
  }

  /** Every attempt of the log comes before what the position allows next. */
  ghost predicate Behind(log: seq<Event>, p: Position)
  {
    forall i :: 0 <= i < |log| && log[i].Tried? ==>
      match p
      case Ready(c) => log[i].cand < c
      case Next(c, s, a) => Before(log[i].cand, log[i].slip, log[i].acc, c, s, a)
      case Check(c) => log[i].cand <= c
      case Ended => true
  }

  lemma {:induction false} AllBehind(u: Setup, log: seq<Event>)
    requires Lawful(u, log)
    ensures Behind(log, Where(u, log))
  {
    if |log| > 0 {
      var n := |log| - 1;
      AllBehind(u, log[..n]);
      BehindNext(u, log[..n], Where(u, log[..n]), log[n]);
      assert log[..n] + [log[n]] == log;
    }
  }

  lemma BehindNext(u: Setup, log: seq<Event>, p: Position, e: Event)
    requires Behind(log, p) && Allows(u, p, e)
    ensures Behind(log + [e], Move(u, p, e))
  {
  }

  /** Attempts go by increasing candidate rank, then slippage, then account limit. */
  lemma AttemptsOrdered(u: Setup, log: seq<Event>, i: nat, j: nat)
    requires Lawful(u, log) && i < j < |log| && log[i].Tried? && log[j].Tried?
    ensures Before(log[i].cand, log[i].slip, log[i].acc, log[j].cand, log[j].slip, log[j].acc)
  {
    LawfulAt(u, log, j);
    AllBehind(u, log[..j]);
    assert log[..j][i] == log[i];
  }

  /** How many attempts can lie before a position. */
  function Budget(u: Setup, p: Position): nat
  {
    match p
    case Ready(c) => c * u.PerCandidate()
    case Next(c, s, a) => c * u.PerCandidate() + s * u.PerSlip() + a
    case Check(c) => (c + 1) * u.PerCandidate()
    case Ended => u.candidates * u.PerCandidate()
  }

  /** Positions stay within the setup. */
  predicate Within(u: Setup, p: Position)
  {
    match p
    case Ready(c) => c <= u.candidates
    case Next(c, s, a) => c < u.candidates && s < u.slips && a <= u.accs && !u.direct(c)
    case Check(c) => c < u.candidates
    case Ended => true
  }

  lemma StaysWithin(u: Setup, p: Position, e: Event)
    requires Within(u, p) && Allows(u, p, e)
    ensures Within(u, Move(u, p, e))
  {
  }

  lemma MoveCosts(u: Setup, p: Position, e: Event)
    requires Within(u, p) && Allows(u, p, e)
    ensures Budget(u, p) + (if e.Tried? then 1 else 0) <= Budget(u, Move(u, p, e))
  {
    Widths(u);
    if !p.Ended? { NextWithin(p.cand, u.candidates, u.PerCandidate()); }
    if p.Next? { NextWithin(p.slip, u.slips, u.PerSlip()); }
    hide Setup.PerCandidate, Setup.PerSlip;
  }

  lemma Widths(u: Setup)
    ensures u.PerCandidate() >= u.PerSlip() == u.accs + 1
    ensures u.slips >= 1 ==> u.PerCandidate() == u.slips * u.PerSlip()
  {
    MulMono(1, if u.slips >= 1 then u.slips else 1, u.PerSlip());
  }

  lemma NextWithin(x: nat, n: nat, width: nat)
    ensures (x + 1) * width == x * width + width
    ensures x < n ==> x * width + width <= n * width
    ensures x <= n ==> x * width <= n * width
  {
    if x < n { MulMono(x + 1, n, width); }
    if x <= n { MulMono(x, n, width); }
  }

  /** The pass makes at most candidates x max(1, slippage steps) x (account limits + 1) attempts. */
  lemma {:induction false} AttemptsBounded(u: Setup, log: seq<Event>)
    requires Lawful(u, log)
    ensures Within(u, Where(u, log)) && Attempts(log) <= Budget(u, Where(u, log)) <= u.candidates * u.PerCandidate()
  {
    hide Allows, Move, Budget, Within;
    if |log| == 0 {
      StartsEmpty(u);
    } else {
      var n := |log| - 1;
      AttemptsBounded(u, log[..n]);
      StaysWithin(u, Where(u, log[..n]), log[n]);
      MoveCosts(u, Where(u, log[..n]), log[n]);
      BudgetEnds(u, Where(u, log));
    }
  }

  lemma StartsEmpty(u: Setup)
    ensures Within(u, Ready(0)) && 0 == Budget(u, Ready(0)) <= u.candidates * u.PerCandidate()
  {
  }

  lemma BudgetEnds(u: Setup, p: Position)
    requires Within(u, p)
    ensures Budget(u, p) <= u.candidates * u.PerCandidate()
  {
    Widths(u);
    if !p.Ended? { NextWithin(p.cand, u.candidates, u.PerCandidate()); }
    if p.Next? { NextWithin(p.slip, u.slips, u.PerSlip()); }
    hide Setup.PerCandidate, Setup.PerSlip;
  }

  /** Without slippage steps, only a candidate that is USDC itself is ever attempted... */
  lemma {:induction false} NoSlippageNoAttempts(u: Setup, log: seq<Event>)
    requires Lawful(u, log) && u.slips == 0 && forall c :: 0 <= c < u.candidates ==> !u.direct(c)
    ensures Attempts(log) == 0 && !Where(u, log).Next?
  {
    if |log| > 0 { NoSlippageNoAttempts(u, log[..|log| - 1]); }
  }

  /** ...and such a candidate is, in every setup that has one. */
  lemma DirectWithoutSlippage(u: Setup, c: nat) returns (log: seq<Event>)
    requires c < u.candidates && u.direct(c)
    ensures Lawful(u, log) && Attempts(log) >= 1
  {
    var before := SkipTo(u, c);
    Extend(u, before, Tried(c, 0, 0, Signature));
    log := before + [Tried(c, 0, 0, Signature)];
    assert log[..|before|] == before;
  }

  /** At most candidates x slippage steps x (account limits + 1) attempts are made in every lawful pass if and only if
      there is a slippage step or no candidate is USDC itself. */
  lemma BoundExact(u: Setup)
    ensures (forall log :: Lawful(u, log) ==> Attempts(log) <= u.candidates * u.slips * (u.accs + 1))
            <==> u.slips >= 1 || forall c :: 0 <= c < u.candidates ==> !u.direct(c)
  {
    var bound := u.candidates * u.slips * (u.accs + 1);
    if u.slips >= 1 {
      assert bound == u.candidates * (u.slips * (u.accs + 1)) by { Assoc(u.candidates, u.slips, u.accs + 1); }
      forall log | Lawful(u, log) ensures Attempts(log) <= bound { AttemptsBounded(u, log); }
    } else if forall c :: 0 <= c < u.candidates ==> !u.direct(c) {
      forall log | Lawful(u, log) ensures Attempts(log) <= bound { NoSlippageNoAttempts(u, log); }
    } else {
      var c :| 0 <= c < u.candidates && u.direct(c);
      var log := DirectWithoutSlippage(u, c);
      assert Lawful(u, log) && Attempts(log) > bound;
    }
  }

  lemma Assoc(a: nat, b: nat, c: nat)
    ensures a * b * c == a * (b * c)
  {
  }

  lemma {:induction false} SkipTo(u: Setup, c: nat) returns (log: seq<Event>)
    requires c <= u.candidates
    ensures Lawful(u, log) && Where(u, log) == Ready(c)
  {
    log := [];
    if c > 0 {
      log := SkipTo(u, c - 1);
      Extend(u, log, Skipped(c - 1, false));
      log := log + [Skipped(c - 1, false)];
    }
  }
}
