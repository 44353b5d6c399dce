/** Replicas as objects inside a run: their tallies, their Pacemaker messages, and the certificates that leaders send. */
module Deployment {
  import opened Options
  import opened Quorum
  import opened Certificates
  import opened Pacemakers
  import opened Votes
  import opened Replica
  import opened Agreement

  /** What the leader sends to the replicas as a justification, built from its own block and a majority of votes. */
  function LeaderCertificate(vote: Payload, signers: set<nat>, block: Option<nat>, results: Option<nat>, proposerKey: nat): QC {
    QC(vote.view, BlockToHash(block), ResultsHash(results), proposerKey, None, None, signers)
  }

  /**
   The leader's aggregate is a full certificate for every receiver exactly when the leader still
   holds the value and the key that the majority voted for.
   */
  lemma LeaderCertificateIsFullExactlyWhen(cfg: Config, w: World, voteSet: VoteSet, block: Option<nat>, results: Option<nat>, proposerKey: nat)
    requires Inv(cfg, w)
    requires voteSet.vote.view.phase in {ProposeVote, PrecommitVote}
    requires cfg.committee.IsQuorum(voteSet.signers)
    requires forall i :: i in voteSet.signers ==> i < cfg.committee.Size() && Signed(i, voteSet.vote) in w.log
    ensures Check(cfg.committee, w.log, LeaderCertificate(voteSet.vote, voteSet.signers, block, results, proposerKey)) == Full
      <==> (BlockToHash(block), ResultsHash(results), proposerKey) == (voteSet.vote.blockHash, voteSet.vote.resultsHash, voteSet.vote.proposerKey)
  {
    var qc := LeaderCertificate(voteSet.vote, voteSet.signers, block, results, proposerKey);
    assert qc.CheckBasic();
    if Verifies(cfg.committee, w.log, qc) {
      var i := HonestOverlap(cfg.committee, cfg.faulty, voteSet.signers, voteSet.signers);
      assert Signed(i, qc.SignBytes()) in w.log && Signed(i, voteSet.vote) in w.log;
    } else {
      assert qc.SignBytes() != voteSet.vote;
    }
  }

  /** A majority in a tally of real signatures is a certificate. */
  lemma MajorityIsCertified(cfg: Config, log: seq<Signed>, tally: Tally, round: nat, phase: Phase)
    requires tally.Valid() && tally.committee == cfg.committee && tally.SignedBy(log)
    requires tally.HasMajority(round, phase)
    ensures exists p :: Certified(cfg.committee, log, p) && p.view.round == round && p.view.phase == phase
  {
    var key :| key in tally.votes && key.0 == round && key.1 == phase && tally.committee.IsQuorum(tally.votes[key].signers);
    PowerMonotone(cfg.committee.powers, tally.votes[key].signers, Signers(cfg.committee, log, key.2), cfg.committee.Size());
    assert Certified(cfg.committee, log, key.2) && key.2.view.round == round && key.2.view.phase == phase;
  }

  /**
   A timer step of a replica object is a step of the run: with the majority of its own tally and the round of
   its own Pacemaker messages. A leader only goes on with a certificate of the voting phase before.
   */
  method TimerStep(cfg: Config, ghost w: World, bft: BFT, tally: Tally, leader: nat, produced: Option<Produced>, valid: bool,
                   ghost messages: map<nat, nat>, sorted: seq<(nat, nat)>)
    returns (vote: Option<Payload>, decided: Option<QC>, ghost env: Env)
    requires Inv(cfg, w) && bft.self in w.nodes && w.nodes[bft.self] == bft.State()
    requires tally.Valid() && tally.committee == cfg.committee && tally.SignedBy(w.log)
    requires SortedMessages(messages, sorted)
    modifies bft
    ensures old(Surrounds(env, bft.view, tally, messages))
    ensures Enabled(cfg, w, Timeout(bft.self, env))
    ensures var w' := Next(cfg, w, Timeout(bft.self, env));
      && w'.nodes[bft.self] == bft.State() && w'.log == w.log + Signatures(bft.self, vote)
      && Inv(cfg, w')
    ensures env.majority ==> exists p :: Certified(cfg.committee, w.log, p) && p.view.round == old(bft.view.round) && p.view.phase == VotePhase(old(bft.view.phase))
  {
    ghost var round, phase := bft.view.round, VotePhase(bft.view.phase);
    if tally.HasMajority(round, phase) {
      MajorityIsCertified(cfg, w.log, tally, round, phase);
    }
    vote, decided, env := bft.Step(tally, leader, produced, valid, messages, sorted);
    NextKeepsInv(cfg, w, Timeout(bft.self, env));
  }
}
