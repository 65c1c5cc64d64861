/** What is settled once in the life of a round: who is reimbursed, when deposits end, and when the fallback opens. */
module RoundTimes {
  import opened Basics
  import opened Bytes
  import opened Layout
  import opened RoundLayout
  import opened RoundProgram
  import opened RoundHistory

  /** Once set, the payer, the end of the round and the time of the fallback stay. */
  predicate Keeps(l: Ledger, l': Ledger)
  {
    var r, r' := l.round, l'.round;
    && (r.life.status >= VRF_REQUESTED ==> r'.life.status >= VRF_REQUESTED && r'.vrfPayer == r.vrfPayer)
    && (r.life.endTs != 0 ==> r'.life.endTs == r.life.endTs)
    && (r.degenMode >= DEGEN_VRF_READY ==>
          r'.degenMode >= DEGEN_VRF_READY && l'.claim.fallbackAfterTs == l.claim.fallbackAfterTs)
  }

  lemma ExecuteKeepsTimes(l: Ledger, ix: Instruction, l': Ledger)
    requires Shaped(l) && Execute(l, ix) == Done(l')
    ensures Keeps(l, l')
  {
    hide BitUpdate, ClaimAmounts, Draw;
  }

  lemma {:induction false} KeptInLife(s: Site, txs: seq<Transaction>, n: nat, m: nat)
    requires Shaped(s.l) && n <= m <= |txs| && Lives(s, txs, n) == Lives(s, txs, m)
    ensures Keeps(SiteAt(s, txs, n).l, SiteAt(s, txs, m).l)
    decreases m
  {
    if n < m {
      LivesGrow(s, txs, n, m - 1);
      KeptInLife(s, txs, n, m - 1);
      StepKeeps(s, txs, m - 1);
    }
  }

  lemma StepKeeps(s: Site, txs: seq<Transaction>, n: nat)
    requires Shaped(s.l) && n < |txs| && Lives(s, txs, n) == Lives(s, txs, n + 1)
    ensures Keeps(SiteAt(s, txs, n).l, SiteAt(s, txs, n + 1).l)
  {
    hide Execute;
    if Accepted(s, txs, n) && txs[n].Instruct? {
      ExecuteKeepsTimes(SiteAt(s, txs, n).l, txs[n].ix, SiteAt(s, txs, n + 1).l);
    }
  }

  /** The transaction was accepted as an instruction; then the next ledger is its outcome. */
  ghost predicate Ran(s: Site, txs: seq<Transaction>, n: nat)
    requires Shaped(s.l) && n <= |txs|
  {
    n < |txs| && txs[n].Instruct? && Accepted(s, txs, n)
  }

  lemma RanDoes(s: Site, txs: seq<Transaction>, n: nat)
    requires Shaped(s.l) && n < |txs| && Ran(s, txs, n)
    ensures Execute(SiteAt(s, txs, n).l, txs[n].ix) == Done(SiteAt(s, txs, n + 1).l)
    ensures Lives(s, txs, n) == Lives(s, txs, n + 1)
  {
    hide Execute;
  }

  /** Whoever had the VRF request accepted is the one to be reimbursed, for the rest of the life. */
  lemma PayerIsRequester(s: Site, txs: seq<Transaction>, x: nat, m: nat)
    requires Shaped(s.l) && x < m <= |txs| && Ran(s, txs, x) && txs[x].ix.IxRequestVrf?
    requires Lives(s, txs, x) == Lives(s, txs, m)
    ensures SiteAt(s, txs, m).l.round.vrfPayer == txs[x].ix.user
  {
    RanDoes(s, txs, x);
    hide SiteAt;
    KeptInLife(s, txs, x + 1, m);
  }

  /** The deposit that makes the players enough fixes the end: from then on in this life a deposit is accepted only
      before it, and a lock only at or after it. */
  lemma EndIsHonoured(s: Site, txs: seq<Transaction>, x: nat, m: nat)
    requires Shaped(s.l) && x < m < |txs| && Ran(s, txs, x) && txs[x].ix.IxDeposit? && Ran(s, txs, m)
    requires Lives(s, txs, x) == Lives(s, txs, m)
    requires SiteAt(s, txs, x).l.round.life.endTs == 0
    requires SiteAt(s, txs, x + 1).l.round.life.participantsCount >= txs[x].ix.cfg.minParticipants
    requires txs[x].ix.args.now + txs[x].ix.cfg.roundDurationSec != 0
    ensures var end := txs[x].ix.args.now + txs[x].ix.cfg.roundDurationSec;
      && (txs[m].ix.IxDeposit? ==> txs[m].ix.args.now < end)
      && (txs[m].ix.IxLockRound? ==> end <= txs[m].ix.now)
  {
    RanDoes(s, txs, x);
    RanDoes(s, txs, m);
    hide SiteAt;
    SetsEnd(SiteAt(s, txs, x).l, txs[x].ix.cfg, txs[x].ix.args, SiteAt(s, txs, x + 1).l);
    KeptInLife(s, txs, x + 1, m);
    WithinEnd(SiteAt(s, txs, m).l, txs[m].ix);
  }

  lemma SetsEnd(l: Ledger, cfg: Config, a: DepositArgs, l': Ledger)
    requires Shaped(l) && Deposit(l, cfg, a) == Done(l') && l.round.life.endTs == 0
    requires l'.round.life.participantsCount >= cfg.minParticipants
    ensures l'.round.life.endTs == a.now + cfg.roundDurationSec
  {
    hide BitUpdate;
  }

  lemma WithinEnd(l: Ledger, ix: Instruction)
    requires Shaped(l) && Execute(l, ix).Done? && l.round.life.endTs != 0
    ensures ix.IxDeposit? ==> ix.args.now < l.round.life.endTs
    ensures ix.IxLockRound? ==> l.round.life.endTs <= ix.now
  {
    hide BitUpdate;
  }

  /** The fallback is not accepted before the timeout counted from the degen callback has passed: 300 seconds if the
      config names none. */
  lemma FallbackWaits(s: Site, txs: seq<Transaction>, x: nat, m: nat)
    requires Shaped(s.l) && x < m < |txs| && Ran(s, txs, x) && txs[x].ix.IxDegenVrfCallback?
    requires Ran(s, txs, m) && txs[m].ix.IxClaimDegen? && !txs[m].ix.swapped
    requires Lives(s, txs, x) == Lives(s, txs, m)
    ensures txs[m].ix.now >= txs[x].ix.now + if txs[x].ix.timeout == 0 then 300 else txs[x].ix.timeout
  {
    hide SiteAt, Accepted;
    Opens(s, txs, x);
    KeptInLife(s, txs, x + 1, m);
    Waited(s, txs, m);
  }

  lemma Opens(s: Site, txs: seq<Transaction>, x: nat)
    requires Shaped(s.l) && x < |txs| && Ran(s, txs, x) && txs[x].ix.IxDegenVrfCallback?
    ensures var l, ix := SiteAt(s, txs, x + 1).l, txs[x].ix;
      && l.round.degenMode == DEGEN_VRF_READY && Lives(s, txs, x) == Lives(s, txs, x + 1)
      && l.claim.fallbackAfterTs == ix.now + if ix.timeout == 0 then 300 else ix.timeout
  {
    RanDoes(s, txs, x);
    hide SiteAt, ClaimAmounts;
  }

  lemma Waited(s: Site, txs: seq<Transaction>, m: nat)
    requires Shaped(s.l) && m < |txs| && Ran(s, txs, m) && txs[m].ix.IxClaimDegen? && !txs[m].ix.swapped
    ensures txs[m].ix.now >= SiteAt(s, txs, m).l.claim.fallbackAfterTs
  {
    RanDoes(s, txs, m);
    hide SiteAt, ClaimAmounts;
  }
}
