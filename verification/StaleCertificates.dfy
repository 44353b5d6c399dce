/**
 Why votes to commit must be asked for with fresh certificates: a run of four equal validators, one of
 them faulty and always elected, in which every message passes every check on arrival. In round 2 the
 leader asks for votes to commit with the certificate of round 0; the replicas lock on it, so that a
 certificate of round 1 unlocks them in round 3. Two different blocks are certified for commit.
 */
module StaleCertificates {
  import opened Options
  import opened Quorum
  import opened Certificates
  import opened Replica
  import opened Agreement
  import opened Decision

  function Four(height: nat, rootHeight: nat): Config {
    Config(Committee([1, 1, 1, 1]), {3}, height, rootHeight)
  }

  const TEAM: set<nat> := {0, 1, 2}

  function Trio(a: Node, b: Node, c: Node): map<nat, Node> {
    map[0 := a.(self := 0), 1 := b.(self := 1), 2 := c.(self := 2)]
  }

  /** The three honest replicas move in lockstep. */
  function Team(n: Node): map<nat, Node> {
    Trio(n, n, n)
  }

  lemma TrioUpdates(a: Node, b: Node, c: Node, n: Node)
    ensures Trio(a, b, c)[0 := n.(self := 0)] == Trio(n, b, c)
    ensures Trio(a, b, c)[1 := n.(self := 1)] == Trio(a, n, c)
    ensures Trio(a, b, c)[2 := n.(self := 2)] == Trio(a, b, n)
  {
  }

  ghost predicate Stage(cfg: Config, n: Node, log: seq<Signed>) {
    Reachable(cfg, World(Team(n), log, {}))
  }

  /** The faulty validator wins every election; nobody else is a leader. */
  const LED: Env := Env(3, false, None, true, 0)

  predicate Signs(log: seq<Signed>, p: Payload) {
    Signed(0, p) in log && Signed(1, p) in log && Signed(2, p) in log
  }

  function At(cfg: Config, round: nat, phase: Phase): View {
    View(cfg.height, cfg.rootHeight, round, phase)
  }

  function VoteAt(cfg: Config, round: nat, phase: Phase, block: nat): Payload {
    Payload(At(cfg, round, phase), BlockToHash(Some(block)), ResultsHash(Some(0)), 3)
  }

  function Ballot(cfg: Config, round: nat): Payload {
    Payload(At(cfg, round, ElectionVote), NoDigest, NoDigest, 3)
  }

  /** The certificate of the three replicas' votes for a block. */
  function CertificateAt(cfg: Config, round: nat, phase: Phase, block: nat): QC {
    QC(At(cfg, round, phase), BlockToHash(Some(block)), ResultsHash(Some(0)), 3, None, None, TEAM)
  }

  function ProposalAt(cfg: Config, round: nat, block: nat, highQC: Option<QC>): ProposerMsg {
    ProposerMsg(At(cfg, round, Propose), 3, CertificateAt(cfg, round, ElectionVote, block).(block := Some(block), results := Some(0)), highQC, 0)
  }

  /** The request to commit, justified by the PROPOSE-VOTE certificate of any round. */
  function RequestAt(cfg: Config, round: nat, of: nat, block: nat): ProposerMsg {
    ProposerMsg(At(cfg, round, Precommit), 3, CertificateAt(cfg, of, ProposeVote, block), None, 0)
  }

  lemma TeamIsQuorum(height: nat, rootHeight: nat)
    ensures var c := Four(height, rootHeight).committee; c.IsQuorum(TEAM) && c.Tolerates({3}) && c.Size() == 4
  {
    var powers := [1, 1, 1, 1];
    assert SumTo(powers, 4) == SumTo(powers, 3) + 1 == SumTo(powers, 2) + 2 == SumTo(powers, 1) + 3 == SumTo(powers, 0) + 4;
    assert PowerTo(powers, TEAM, 4) == PowerTo(powers, TEAM, 3) == PowerTo(powers, TEAM, 2) + 1 == PowerTo(powers, TEAM, 1) + 2 == PowerTo(powers, TEAM, 0) + 3;
    assert PowerTo(powers, {3}, 4) == PowerTo(powers, {3}, 3) + 1 == PowerTo(powers, {3}, 2) + 1 == PowerTo(powers, {3}, 1) + 1 == PowerTo(powers, {3}, 0) + 1;
  }

  /** What the three have signed is certified. */
  lemma TeamCertifies(height: nat, rootHeight: nat, log: seq<Signed>, qc: QC)
    requires Signs(log, qc.SignBytes()) && qc.signers == TEAM && qc.CheckBasic()
    ensures var c := Four(height, rootHeight).committee;
      Check(c, log, qc) == Full && Certified(c, log, qc.SignBytes())
  {
    TeamIsQuorum(height, rootHeight);
    assert Verifies(Four(height, rootHeight).committee, log, qc);
    FullIsCertified(Four(height, rootHeight).committee, log, qc);
  }

  // ---------------------------------------------------------------------------------------------
  // Lockstep
  // ---------------------------------------------------------------------------------------------

  /** A replica that is not the leader does the same as any other. */
  lemma SameForAll(n: Node, i: nat)
    requires i < 3 && n.self < 3 && n.proposerKey in {None, Some(3)}
    ensures var e := HandlePhase(n, LED); HandlePhase(n.(self := i), LED) == Effect(e.node.(self := i), e.vote, e.decided)
  {
    var m := n.(self := i);
    assert m.GetProposal(Propose) == n.GetProposal(Propose);
    assert m.GetProposal(Precommit) == n.GetProposal(Precommit);
    assert m.GetProposal(Commit) == n.GetProposal(Commit);
    assert RunPhase(m, LED) == Effect(RunPhase(n, LED).node.(self := i), RunPhase(n, LED).vote, RunPhase(n, LED).decided) by {
      match n.view.phase
      case ProposeVote => assert ProposeVotePhase(m, true).node == ProposeVotePhase(n, true).node.(self := i);
      case PrecommitVote => assert PrecommitVotePhase(m).node == PrecommitVotePhase(n).node.(self := i);
      case CommitProcess => assert CommitProcessPhase(m).node == CommitProcessPhase(n).node.(self := i);
      case _ =>
    }
  }

  function Casting(log: seq<Signed>, vote: Option<Payload>): seq<Signed> {
    if vote.None? then log else log + [Signed(0, vote.value)] + [Signed(1, vote.value)] + [Signed(2, vote.value)]
  }

  lemma CastingSigns(log: seq<Signed>, p: Payload)
    ensures log <= Casting(log, Some(p)) && Signs(Casting(log, Some(p)), p)
  {
    var all := Casting(log, Some(p));
    assert all[|log|] == Signed(0, p) && all[|log| + 1] == Signed(1, p) && all[|log| + 2] == Signed(2, p);
  }

  lemma SignsStay(log: seq<Signed>, more: seq<Signed>, p: Payload)
    requires log <= more && Signs(log, p)
    ensures Signs(more, p)
  {
  }

  /** One timer step of all three. */
  lemma TeamTimes(cfg: Config, n: Node, log: seq<Signed>, node: Node, vote: Option<Payload>)
    requires Stage(cfg, n, log)
    requires n.self < 3 && n.proposerKey in {None, Some(3)}
    requires HandlePhase(n, LED).node == node && HandlePhase(n, LED).vote == vote
    ensures Stage(cfg, node, Casting(log, vote))
  {
    var log1, log2 := log + Signatures(0, vote), log + Signatures(0, vote) + Signatures(1, vote);
    var log3 := log2 + Signatures(2, vote);
    TrioUpdates(n, n, n, node);
    TrioUpdates(node, n, n, node);
    TrioUpdates(node, node, n, node);
    TeamSteps(cfg, n, World(Trio(n, n, n), log, {}), World(Trio(node, n, n), log1, {}), 0, node, vote);
    TeamSteps(cfg, n, World(Trio(node, n, n), log1, {}), World(Trio(node, node, n), log2, {}), 1, node, vote);
    TeamSteps(cfg, n, World(Trio(node, node, n), log2, {}), World(Trio(node, node, node), log3, {}), 2, node, vote);
    assert log3 == Casting(log, vote);
  }

  lemma TeamSteps(cfg: Config, n: Node, w: World, w': World, i: nat, node: Node, vote: Option<Payload>)
    requires Reachable(cfg, w) && i < 3 && i in w.nodes && w.nodes[i] == n.(self := i)
    requires n.self < 3 && n.proposerKey in {None, Some(3)}
    requires HandlePhase(n, LED).node == node && HandlePhase(n, LED).vote == vote
    requires w' == World(w.nodes[i := node.(self := i)], w.log + Signatures(i, vote), w.decided)
    ensures Reachable(cfg, w')
  {
    SameForAll(n, i);
    ReachableByStep(cfg, w, Timeout(i, LED));
  }

  /** A message of the leader reaches all three. */
  lemma TeamHears(cfg: Config, n: Node, log: seq<Signed>, m: ProposerMsg)
    requires Stage(cfg, n, log)
    requires CheckProposerMessage(cfg.committee, log, m, n.Params()) == Accepted
    ensures Stage(cfg, AddProposal(n, m), log)
  {
    var after := AddProposal(n, m);
    TrioUpdates(n, n, n, after);
    TrioUpdates(after, n, n, after);
    TrioUpdates(after, after, n, after);
    TeamListens(cfg, n, World(Trio(n, n, n), log, {}), World(Trio(after, n, n), log, {}), 0, m);
    TeamListens(cfg, n, World(Trio(after, n, n), log, {}), World(Trio(after, after, n), log, {}), 1, m);
    TeamListens(cfg, n, World(Trio(after, after, n), log, {}), World(Trio(after, after, after), log, {}), 2, m);
  }

  lemma TeamListens(cfg: Config, n: Node, w: World, w': World, i: nat, m: ProposerMsg)
    requires Reachable(cfg, w) && i in w.nodes && w.nodes[i] == n.(self := i)
    requires CheckProposerMessage(cfg.committee, w.log, m, n.Params()) == Accepted
    requires w' == World(w.nodes[i := AddProposal(n, m).(self := i)], w.log, w.decided)
    ensures Reachable(cfg, w')
  {
    assert n.(self := i).Params() == n.Params();
    ReachableByStep(cfg, w, DeliverProposal(i, m));
  }

  // ---------------------------------------------------------------------------------------------
  // A round
  // ---------------------------------------------------------------------------------------------

  /** A replica of the team at some point of a round, with no message of the leader beyond the PROPOSE of this round. */
  ghost predicate InRound(cfg: Config, n: Node, round: nat, phase: Phase) {
    && n.self == 0 && n.view == At(cfg, round, phase)
    && n.lastRootHeightUpdated == n.lastChainHeightUpdated == 0
    && forall key :: key in n.proposals ==> key.0 <= round && (key.0 == round ==> key.1 == Propose)
  }

  /** At the start of a round there is no message of the round at all. */
  ghost predicate Begins(cfg: Config, n: Node, round: nat) {
    InRound(cfg, n, round, Election) && n.proposerKey in {None, Some(3)} && forall key :: key in n.proposals ==> key.0 < round
  }

  /** The team elects the faulty validator. */
  lemma Ballots(cfg: Config, n: Node, log: seq<Signed>, round: nat)
    requires Stage(cfg, n, log) && Begins(cfg, n, round)
    ensures Stage(cfg, n.(view := At(cfg, round, ProposeVote), proposerKey := None), Casting(log, Some(Ballot(cfg, round))))
  {
    var n1 := n.(view := At(cfg, round, ElectionVote));
    var n2 := n.(view := At(cfg, round, Propose), proposerKey := None);
    var log2 := Casting(log, Some(Ballot(cfg, round)));
    TeamTimes(cfg, n, log, n1, None);
    TeamTimes(cfg, n1, log, n2, Some(Ballot(cfg, round)));
    TeamTimes(cfg, n2, log2, n.(view := At(cfg, round, ProposeVote), proposerKey := None), None);
  }

  /** The proposal is safe to vote for: nobody is locked, or the justification is later than the lock. */
  ghost predicate Unlocks(cfg: Config, log: seq<Signed>, n: Node, block: nat, highQC: Option<QC>) {
    && (highQC.Some? ==>
          && CheckHighQC(cfg.committee, log, highQC.value, cfg.height, 0)
          && highQC.value.Value() == (BlockToHash(Some(block)), ResultsHash(Some(0))))
    && (n.highQC.Some? ==> highQC.Some? && n.highQC.value.view.round < highQC.value.view.round)
  }

  /** The team after voting for a block in a round. */
  function Voted(cfg: Config, n: Node, round: nat, block: nat, highQC: Option<QC>): Node {
    AddProposal(n, ProposalAt(cfg, round, block, highQC))
      .(view := At(cfg, round, PrecommitVote), proposerKey := Some(3), block := Some(block), results := Some(0))
  }

  lemma ProposalIsAccepted(height: nat, rootHeight: nat, n: Node, log: seq<Signed>, round: nat, block: nat, highQC: Option<QC>)
    requires var cfg := Four(height, rootHeight);
      && InRound(cfg, n, round, ProposeVote) && Signs(log, Ballot(cfg, round)) && Unlocks(cfg, log, n, block, highQC)
    ensures var cfg := Four(height, rootHeight);
      CheckProposerMessage(cfg.committee, log, ProposalAt(cfg, round, block, highQC), n.Params()) == Accepted
  {
    var cfg := Four(height, rootHeight);
    var qc := ProposalAt(cfg, round, block, highQC).qc;
    TeamCertifies(height, rootHeight, log, qc);
  }

  /** The team votes for the block that the leader proposes. */
  lemma Votes(height: nat, rootHeight: nat, n: Node, log: seq<Signed>, round: nat, block: nat, highQC: Option<QC>)
    requires var cfg := Four(height, rootHeight);
      && Stage(cfg, n, log) && InRound(cfg, n, round, ProposeVote) && n.proposerKey == None
      && Signs(log, Ballot(cfg, round)) && Unlocks(cfg, log, n, block, highQC)
    ensures var cfg := Four(height, rootHeight);
      Stage(cfg, Voted(cfg, n, round, block, highQC), Casting(log, Some(VoteAt(cfg, round, ProposeVote, block))))
  {
    var cfg := Four(height, rootHeight);
    var m := ProposalAt(cfg, round, block, highQC);
    var heard := AddProposal(n, m);
    var voted := heard.(view := At(cfg, round, Precommit), proposerKey := Some(3), block := Some(block), results := Some(0));
    ProposalIsAccepted(height, rootHeight, n, log, round, block, highQC);
    TeamHears(cfg, n, log, m);
    assert heard.GetProposal(Propose) == Some(m);
    TeamTimes(cfg, heard, log, voted, Some(VoteAt(cfg, round, ProposeVote, block)));
    TeamTimes(cfg, voted, Casting(log, Some(VoteAt(cfg, round, ProposeVote, block))), Voted(cfg, n, round, block, highQC), None);
  }

  /** The team at the start of the next round. */
  function NextRound(cfg: Config, n: Node, round: nat): Node {
    n.(view := At(cfg, round + 1, Election), proposerKey := None, block := None, results := None)
  }

  /** The leader falls silent: the round is interrupted and the next one begins. */
  lemma Silence(cfg: Config, n: Node, log: seq<Signed>, round: nat)
    requires Stage(cfg, n, log) && n.self == 0 && n.proposerKey == Some(3)
    requires (n.view == At(cfg, round, PrecommitVote) && n.GetProposal(Precommit).None?) ||
             (n.view == At(cfg, round, CommitProcess) && n.GetProposal(Commit).None?)
    ensures Stage(cfg, NextRound(cfg, n, round), log)
  {
    var n1 := n.(view := At(cfg, round, Pacemaker));
    TeamTimes(cfg, n, log, n.(view := At(cfg, round, Pacemaker)), None);
    TeamTimes(cfg, n1, log, NextRound(cfg, n, round), None);
  }

  function Elected(cfg: Config, n: Node, round: nat): Node {
    n.(view := At(cfg, round, ProposeVote), proposerKey := None)
  }

  /** From the start of a round to the votes for the leader's block. */
  lemma ElectsAndVotes(height: nat, rootHeight: nat, n: Node, log: seq<Signed>, round: nat, block: nat, highQC: Option<QC>)
    returns (log': seq<Signed>)
    requires var cfg := Four(height, rootHeight);
      Stage(cfg, n, log) && Begins(cfg, n, round) && Unlocks(cfg, Casting(log, Some(Ballot(cfg, round))), n, block, highQC)
    ensures var cfg := Four(height, rootHeight);
      && Stage(cfg, Voted(cfg, Elected(cfg, n, round), round, block, highQC), log')
      && log <= log' && Signs(log', VoteAt(cfg, round, ProposeVote, block))
  {
    var cfg := Four(height, rootHeight);
    var log1 := Casting(log, Some(Ballot(cfg, round)));
    Ballots(cfg, n, log, round);
    CastingSigns(log, Ballot(cfg, round));
    Votes(height, rootHeight, Elected(cfg, n, round), log1, round, block, highQC);
    CastingSigns(log1, VoteAt(cfg, round, ProposeVote, block));
    log' := Casting(log1, Some(VoteAt(cfg, round, ProposeVote, block)));
  }

  /** A round in which a quorum votes for a block and the leader keeps the certificate to itself. */
  lemma QuietRound(height: nat, rootHeight: nat, n: Node, log: seq<Signed>, round: nat, block: nat) returns (n': Node, log': seq<Signed>)
    requires var cfg := Four(height, rootHeight); Stage(cfg, n, log) && Begins(cfg, n, round) && n.highQC.None?
    ensures var cfg := Four(height, rootHeight);
      && Stage(cfg, n', log') && Begins(cfg, n', round + 1) && n'.highQC.None?
      && log <= log' && Signs(log', VoteAt(cfg, round, ProposeVote, block))
  {
    var cfg := Four(height, rootHeight);
    log' := ElectsAndVotes(height, rootHeight, n, log, round, block, None);
    var voted := Voted(cfg, Elected(cfg, n, round), round, block, None);
    n' := NextRound(cfg, voted, round);
    Silence(cfg, voted, log', round);
  }

  /** The team after voting to commit a block with a certificate of some round. */
  function LockedOn(cfg: Config, n: Node, round: nat, of: nat, block: nat): Node {
    AddProposal(n, RequestAt(cfg, round, of, block))
      .(view := At(cfg, round, CommitProcess), highQC := Some(CertificateAt(cfg, of, ProposeVote, block).(block := Some(block), results := Some(0))),
        rcBuildHeight := 0)
  }

  /** The team locks on whatever certificate the leader sends for the block it has voted for, and votes to commit. */
  lemma VotesToCommitIt(height: nat, rootHeight: nat, n: Node, log: seq<Signed>, round: nat, of: nat, block: nat)
    requires var cfg := Four(height, rootHeight);
      && Stage(cfg, n, log) && InRound(cfg, n, round, PrecommitVote)
      && n.proposerKey == Some(3) && n.block == Some(block) && n.results == Some(0)
      && Signs(log, VoteAt(cfg, of, ProposeVote, block))
    ensures var cfg := Four(height, rootHeight);
      Stage(cfg, LockedOn(cfg, n, round, of, block), Casting(log, Some(VoteAt(cfg, round, PrecommitVote, block))))
  {
    var cfg := Four(height, rootHeight);
    var m := RequestAt(cfg, round, of, block);
    var heard := AddProposal(n, m);
    var log' := Casting(log, Some(VoteAt(cfg, round, PrecommitVote, block)));
    TeamCertifies(height, rootHeight, log, m.qc);
    TeamHears(cfg, n, log, m);
    assert heard.GetProposal(Precommit) == Some(m);
    var locked := LockedOn(cfg, n, round, of, block).(view := At(cfg, round, Commit));
    TeamTimes(cfg, heard, log, locked, Some(VoteAt(cfg, round, PrecommitVote, block)));
    TeamTimes(cfg, locked, log', LockedOn(cfg, n, round, of, block), None);
  }

  /** The next round begins after the leader's two messages of this one. */
  lemma NextBegins(cfg: Config, n: Node, round: nat, of: nat, block: nat, highQC: Option<QC>)
    requires Begins(cfg, n, round)
    ensures var voted := Voted(cfg, Elected(cfg, n, round), round, block, highQC);
      var locked := LockedOn(cfg, voted, round, of, block);
      && InRound(cfg, voted, round, PrecommitVote)
      && locked.GetProposal(Commit).None?
      && Begins(cfg, NextRound(cfg, locked, round), round + 1)
  {
  }

  /** A round in which a quorum votes for a block, and to commit it with the certificate of some round. */
  lemma CommittingRound(height: nat, rootHeight: nat, n: Node, log: seq<Signed>, round: nat, of: nat, block: nat, highQC: Option<QC>)
    returns (n': Node, log': seq<Signed>)
    requires var cfg := Four(height, rootHeight);
      && Stage(cfg, n, log) && Begins(cfg, n, round)
      && Unlocks(cfg, Casting(log, Some(Ballot(cfg, round))), n, block, highQC)
      && (of == round || Signs(log, VoteAt(cfg, of, ProposeVote, block)))
    ensures var cfg := Four(height, rootHeight);
      && Stage(cfg, n', log') && Begins(cfg, n', round + 1)
      && n'.highQC == Some(CertificateAt(cfg, of, ProposeVote, block).(block := Some(block), results := Some(0)))
      && log <= log' && Signs(log', VoteAt(cfg, round, PrecommitVote, block))
  {
    var cfg := Four(height, rootHeight);
    var log1 := ElectsAndVotes(height, rootHeight, n, log, round, block, highQC);
    if of != round {
      SignsStay(log, log1, VoteAt(cfg, of, ProposeVote, block));
    }
    NextBegins(cfg, n, round, of, block, highQC);
    var voted := Voted(cfg, Elected(cfg, n, round), round, block, highQC);
    VotesToCommitIt(height, rootHeight, voted, log1, round, of, block);
    CastingSigns(log1, VoteAt(cfg, round, PrecommitVote, block));
    log' := Casting(log1, Some(VoteAt(cfg, round, PrecommitVote, block)));
    n' := NextRound(cfg, LockedOn(cfg, voted, round, of, block), round);
    Silence(cfg, LockedOn(cfg, voted, round, of, block), log', round);
  }

  lemma Starts(height: nat, rootHeight: nat)
    ensures var cfg := Four(height, rootHeight); Stage(cfg, Start(cfg), []) && Begins(cfg, Start(cfg), 0)
  {
    var cfg := Four(height, rootHeight);
    TeamIsQuorum(height, rootHeight);
    assert Run(cfg, [World(Team(Start(cfg)), [], {})], []);
  }

  /** Rounds 0 to 2: after votes for block 1 and block 2, the team commits block 1 with the certificate of round 0 and is locked on that. */
  lemma StaleLock(height: nat, rootHeight: nat) returns (n: Node, log: seq<Signed>)
    ensures var cfg := Four(height, rootHeight);
      && Stage(cfg, n, log) && Begins(cfg, n, 3)
      && Signs(log, VoteAt(cfg, 2, PrecommitVote, 1)) && Signs(log, VoteAt(cfg, 1, ProposeVote, 2))
      && n.highQC.Some? && n.highQC.value.view == At(cfg, 0, ProposeVote)
  {
    var cfg := Four(height, rootHeight);
    Starts(height, rootHeight);
    n, log := QuietRound(height, rootHeight, Start(cfg), [], 0, 1);
    n, log := QuietRound(height, rootHeight, n, log, 1, 2);
    n, log := CommittingRound(height, rootHeight, n, log, 2, 0, 1, None);
  }

  /** Round 3: the certificate of round 1 unlocks the team, which then commits block 2 as well. */
  lemma TwoCommits(height: nat, rootHeight: nat) returns (n: Node, log: seq<Signed>)
    ensures var cfg := Four(height, rootHeight);
      Stage(cfg, n, log) && Signs(log, VoteAt(cfg, 2, PrecommitVote, 1)) && Signs(log, VoteAt(cfg, 3, PrecommitVote, 2))
  {
    var cfg := Four(height, rootHeight);
    n, log := StaleLock(height, rootHeight);
    var highQC := CertificateAt(cfg, 1, ProposeVote, 2);
    TeamCertifies(height, rootHeight, Casting(log, Some(Ballot(cfg, 3))), highQC);
    n, log := CommittingRound(height, rootHeight, n, log, 3, 3, 2, Some(highQC));
  }

  lemma TeamBlockIsAccepted(height: nat, rootHeight: nat, n: Node, log: seq<Signed>, decided: set<QC>, round: nat, block: nat)
    requires var cfg := Four(height, rootHeight);
      Reachable(cfg, World(Team(n), log, decided)) && Signs(log, VoteAt(cfg, round, PrecommitVote, block))
    ensures var cfg := Four(height, rootHeight);
      Reachable(cfg, World(Team(n), log, decided + {CertificateAt(cfg, round, PrecommitVote, block).(block := Some(block), results := Some(0))}))
  {
    var cfg := Four(height, rootHeight);
    var qc := CertificateAt(cfg, round, PrecommitVote, block).(block := Some(block), results := Some(0));
    TeamCertifies(height, rootHeight, log, qc);
    ReachableByStep(cfg, World(Team(n), log, decided), DeliverBlock(qc));
  }

  /** Without freshness agreement fails: some run accepts two different blocks. */
  lemma StaleCertificatesBreakAgreement(height: nat, rootHeight: nat)
    ensures exists w, a, b :: Reachable(Four(height, rootHeight), w) && a in w.decided && b in w.decided && a.Value() != b.Value()
  {
    var cfg := Four(height, rootHeight);
    var n, log := TwoCommits(height, rootHeight);
    var a := CertificateAt(cfg, 2, PrecommitVote, 1).(block := Some(1), results := Some(0));
    var b := CertificateAt(cfg, 3, PrecommitVote, 2).(block := Some(2), results := Some(0));
    TeamBlockIsAccepted(height, rootHeight, n, log, {}, 2, 1);
    TeamBlockIsAccepted(height, rootHeight, n, log, {} + {a}, 3, 2);
    var w := World(Team(n), log, {} + {a} + {b});
    assert a.blockHash == BlockDigest(1) && b.blockHash == BlockDigest(2);
    assert Reachable(cfg, w) && a in w.decided && b in w.decided && a.Value() != b.Value();
  }

  /** Nor does the lock invariant survive: some run leaves an honest lock older than a vote to commit of its replica. */
  lemma StaleCertificatesBreakLocks(height: nat, rootHeight: nat)
    ensures var cfg := Four(height, rootHeight);
      exists w, i :: Reachable(cfg, w) && i in w.nodes && !LockCovers(w.log, i, w.nodes[i].highQC)
  {
    var cfg := Four(height, rootHeight);
    var n, log := StaleLock(height, rootHeight);
    var w := World(Team(n), log, {});
    assert Signed(0, VoteAt(cfg, 2, PrecommitVote, 1)) in w.log && w.nodes[0].highQC.value.view.round == 0;
    assert Reachable(cfg, w) && 0 in w.nodes && !LockCovers(w.log, 0, w.nodes[0].highQC);
  }
}
