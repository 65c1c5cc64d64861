/** The searches against the program: what they look for is what the program accepts. */
module SearchOnChain {
  import opened Basics
  import opened Layout
  import A = ActiveScan
  import P = RoundProgram
  import R = RoundRules
  import S = RoundSafety
  import Q = RoundSearch

  /** What a search finds at the address of a round, and at a user's participant address. */
  function RoundSeen(s: P.Site): Q.RoundAt
  {
    if s.standing then Q.Round(s.l.round.life.status, s.l.round.winner) else Q.NoRound
  }

  function ParticipantSeen(s: P.Site, user: Key): Q.ParticipantAt
  {
    if user in s.l.people then Q.Participant(s.l.people[user].user, s.l.people[user].usdc) else Q.NoParticipant
  }

  /** The refund search looks for exactly the rounds where the program would accept the asker's `claim_refund`. */
  lemma RefundableExact(s: P.Site, asker: Key)
    requires S.Inv(s.l)
    ensures Q.Cancelled(RoundSeen(s)) && Q.Funded(ParticipantSeen(s, asker), asker) <==>
              P.Transact(s, P.Instruct(P.IxClaimRefund(asker, true))).Done?
  {
    R.AcceptedExact(s.l, P.IxClaimRefund(asker, true));
    R.SiteExact(s, P.Instruct(P.IxClaimRefund(asker, true)));
    assert asker in s.l.people ==> s.l.people[asker].user == asker;
    hide S.Inv, P.Execute, P.Transact;
  }

  /** The claim search looks for exactly the rounds where the program would accept the asker's `claim`, or where a degen
      claim was begun instead. */
  lemma ClaimableExact(s: P.Site, asker: Key, cfg: P.Config)
    requires S.Inv(s.l) && cfg.feeBps <= 10_000
    ensures Q.Claimable(RoundSeen(s), asker) && s.l.round.degenMode == P.DEGEN_NONE <==>
              P.Transact(s, P.Instruct(P.IxClaim(cfg, Some(asker), true, true))).Done?
  {
    R.AcceptedExact(s.l, P.IxClaim(cfg, Some(asker), true, true));
    R.SiteExact(s, P.Instruct(P.IxClaim(cfg, Some(asker), true, true)));
    hide S.Inv, P.Execute, P.Transact;
  }

  /** The scan for the active round takes a standing round as active exactly when it cannot be closed yet. */
  lemma ActiveExact(s: P.Site)
    requires s.standing && S.Inv(s.l)
    ensures A.Active(A.Round(s.l.round.life.status)) <==> P.Transact(s, P.TxCloseRound(true, true, true)).Failed?
  {
  }
}
