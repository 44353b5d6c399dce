/**
 One replica of the NestBFT protocol at one height: the phase handlers as functions on its state,
 and the class whose methods update that state in place and are proved to do what the functions say.
 */
module Replica {
  import opened Options
  import opened Quorum
  import opened Certificates
  import opened Pacemakers
  import opened Votes

  datatype Node = Node(
    self: nat,
    view: View,
    proposals: map<(nat, Phase), ProposerMsg>,
    highQC: Option<QC>,
    rcBuildHeight: nat,
    block: Option<nat>,
    results: Option<nat>,
    proposerKey: Option<nat>,
    lastRootHeightUpdated: nat,
    lastChainHeightUpdated: nat)
  {
    function Params(): CheckParams {
      CheckParams(view, lastRootHeightUpdated, lastChainHeightUpdated, block, results)
    }

    /** The leader's message of the phase before the current one, if it arrived. */
    function GetProposal(phaseBefore: Phase): Option<ProposerMsg> {
      if (view.round, phaseBefore) in proposals then Some(proposals[(view.round, phaseBefore)]) else None
    }

    predicate SelfIsProposer() {
      proposerKey == Some(self)
    }

    /** A vote for the value that the replica currently holds. */
    function VoteFor(): Payload
      requires proposerKey.Some?
    {
      Payload(view, BlockToHash(block), ResultsHash(results), proposerKey.value)
    }
  }

  datatype Produced = Produced(rcBuildHeight: nat, block: nat, results: nat)

  /** What the surroundings decide in one timer step: the election, the votes, the state machine, the peers. */
  datatype Env = Env(leader: nat, majority: bool, produced: Option<Produced>, valid: bool, pacemakerRound: nat)

  /** The new state, the payload signed in this step (if any) and the certificate committed (if any). */
  datatype Effect = Effect(node: Node, vote: Option<Payload>, decided: Option<QC>)

  function Silent(n: Node): Effect {
    Effect(n, None, None)
  }

  /** Why a proposal is not safe to vote for while locked. */
  datatype SafeNodeError = NoJustification | MismatchedProposals | FailedPredicate

  /** The safe node predicate for a replica locked on the given certificate. */
  function SafeNode(lock: QC, m: ProposerMsg): (r: Option<SafeNodeError>)
    ensures r.None? ==> m.highQC.Some? && m.highQC.value.Value() == (BlockToHash(m.qc.block), ResultsHash(m.qc.results))
    ensures r.None? ==> m.highQC.value.Value() == lock.Value() || lock.view.round < m.highQC.value.view.round
  {
    if m.highQC.None? then Some(NoJustification)
    else
      var justification := m.highQC.value;
      if BlockToHash(m.qc.block) != justification.blockHash || ResultsHash(m.qc.results) != justification.resultsHash then
        Some(MismatchedProposals)
      else if lock.blockHash == justification.blockHash && lock.resultsHash == justification.resultsHash then
        None
      else if justification.view.round > lock.view.round then
        None
      else
        Some(FailedPredicate)
  }

  /** The leader is not the expected one, or its certificate is for another value: interrupt the round. */
  predicate CheckProposerAndProposal(n: Node, m: ProposerMsg) {
    || n.proposerKey != Some(m.sender)
    || BlockToHash(n.block) != m.qc.blockHash
    || ResultsHash(n.results) != m.qc.resultsHash
  }

  function RoundInterrupted(n: Node): Node {
    n.(view := n.view.(phase := RoundInterrupt))
  }

  function NewRound(n: Node): Node {
    n.(view := n.view.(round := n.view.round + 1), proposerKey := None, block := None, results := None)
  }

  function ElectionVotePhase(n: Node, leader: nat): Effect {
    Effect(n.(proposerKey := None), Some(Payload(n.view, NoDigest, NoDigest, leader)), None)
  }

  function ProposePhase(n: Node, majority: bool, produced: Option<Produced>): Effect {
    if !majority then Silent(n)
    else if n.highQC.Some? then
      Silent(n.(block := n.highQC.value.block, results := n.highQC.value.results))
    else if produced.None? then
      Silent(n.(rcBuildHeight := 0, block := None, results := None))
    else
      Silent(n.(rcBuildHeight := produced.value.rcBuildHeight, block := Some(produced.value.block), results := Some(produced.value.results)))
  }

  /** The PROPOSE message of a leader that holds an election certificate: its block, justified by its lock. */
  function ProposeMessage(n: Node, election: QC): ProposerMsg {
    ProposerMsg(n.view, n.self,
                QC(election.view, BlockToHash(n.block), ResultsHash(n.results), election.proposerKey, n.block, n.results, election.signers),
                n.highQC, n.rcBuildHeight)
  }

  function ProposeVotePhase(n: Node, valid: bool): Effect {
    var proposal := n.GetProposal(Propose);
    if proposal.None? then Silent(RoundInterrupted(n))
    else
      var m := proposal.value;
      var n1 := n.(proposerKey := Some(m.sender));
      if n1.highQC.Some? && SafeNode(n1.highQC.value, m).Some? then Silent(RoundInterrupted(n1))
      else if m.rcBuildHeight < n1.lastRootHeightUpdated then Silent(RoundInterrupted(n1))
      else if !valid then Silent(RoundInterrupted(n1))
      else
        var n2 := n1.(block := m.qc.block, results := m.qc.results);
        Effect(n2, Some(n2.VoteFor()), None)
  }

  /** The PRECOMMIT and the COMMIT phase of the leader. */
  function LeaderPhase(n: Node, majority: bool): Effect {
    if n.SelfIsProposer() && !majority then Silent(RoundInterrupted(n)) else Silent(n)
  }

  function PrecommitVotePhase(n: Node): Effect {
    var proposal := n.GetProposal(Precommit);
    if proposal.None? || CheckProposerAndProposal(n, proposal.value) then Silent(RoundInterrupted(n))
    else
      var m := proposal.value;
      var locked := n.(highQC := Some(m.qc.(block := n.block, results := n.results)), rcBuildHeight := m.rcBuildHeight);
      Effect(locked, Some(locked.VoteFor()), None)
  }

  function CommitProcessPhase(n: Node): Effect {
    var proposal := n.GetProposal(Commit);
    if proposal.None? || CheckProposerAndProposal(n, proposal.value) then Silent(RoundInterrupted(n))
    else Effect(n, None, Some(proposal.value.qc.(block := n.block, results := n.results)))
  }

  function PacemakerPhase(n: Node, pacemakerRound: nat): Node {
    var next := NewRound(n);
    if pacemakerRound > next.view.round then next.(view := next.view.(round := pacemakerRound)) else next
  }

  /** Moves to the next phase; only a finished COMMIT-PROCESS sets no timer. */
  function SetTimerForNextPhase(n: Node): Node {
    match n.view.phase
    case CommitProcess => n
    case Pacemaker => n.(view := n.view.(phase := Election))
    case Election => n.(view := n.view.(phase := ElectionVote))
    case ElectionVote => n.(view := n.view.(phase := Propose))
    case Propose => n.(view := n.view.(phase := ProposeVote))
    case ProposeVote => n.(view := n.view.(phase := Precommit))
    case Precommit => n.(view := n.view.(phase := PrecommitVote))
    case PrecommitVote => n.(view := n.view.(phase := Commit))
    case Commit => n.(view := n.view.(phase := CommitProcess))
    case RoundInterrupt => n.(view := n.view.(phase := Pacemaker))
  }

  function RunPhase(n: Node, env: Env): Effect {
    match n.view.phase
    case Election => Silent(n)
    case ElectionVote => ElectionVotePhase(n, env.leader)
    case Propose => ProposePhase(n, env.majority, env.produced)
    case ProposeVote => ProposeVotePhase(n, env.valid)
    case Precommit => LeaderPhase(n, env.majority)
    case PrecommitVote => PrecommitVotePhase(n)
    case Commit => LeaderPhase(n, env.majority)
    case CommitProcess => CommitProcessPhase(n)
    case RoundInterrupt => Silent(n)
    case Pacemaker => Silent(PacemakerPhase(n, env.pacemakerRound))
  }

  /** One timer step: run the phase, then move on. */
  function HandlePhase(n: Node, env: Env): Effect {
    var e := RunPhase(n, env);
    e.(node := SetTimerForNextPhase(e.node))
  }

  /** A validated message of the leader replaces the earlier one of the same round and phase. */
  function AddProposal(n: Node, m: ProposerMsg): Node {
    n.(proposals := n.proposals[(m.header.round, m.header.phase) := m])
  }

  /**
   The lock carried by an election vote is adopted when it is higher than the replica's own.
   The certificate has passed CheckHighQC; block, results and build height come from the vote itself.
   */
  function AdoptHighQC(n: Node, qc: QC, block: Option<nat>, results: Option<nat>, rcBuildHeight: nat): Node {
    if n.highQC.None? || n.highQC.value.view.Less(qc.view) then
      n.(highQC := Some(qc), block := block, results := results, rcBuildHeight := rcBuildHeight)
    else n
  }

  // ---------------------------------------------------------------------------------------------
  // Progress of the view
  // ---------------------------------------------------------------------------------------------

  /** Running a phase keeps the view, or interrupts the round, or (in the Pacemaker) starts a later round. */
  lemma RunPhaseView(n: Node, env: Env)
    ensures var view := RunPhase(n, env).node.view;
      if n.view.phase == Pacemaker then
        view == n.view.(round := view.round) && n.view.round < view.round && env.pacemakerRound <= view.round
      else if n.view.phase in {ProposeVote, Precommit, PrecommitVote, Commit, CommitProcess} then
        view == n.view || view == n.view.(phase := RoundInterrupt)
      else
        view == n.view
  {
  }

  /** Every timer step that sets a new timer moves to a strictly later view of the same height. */
  lemma HandlePhaseAdvances(n: Node, env: Env)
    ensures var after := HandlePhase(n, env).node;
      && (n.view.Less(after.view) <==> after.view != n.view)
      && (after.view == n.view <==> n.view.phase == CommitProcess && HandlePhase(n, env).decided.Some?)
      && after.view.height == n.view.height && after.view.rootHeight == n.view.rootHeight
      && (after.view.phase == Election <==> n.view.phase == Pacemaker)
  {
    RunPhaseView(n, env);
    LessWithinHeight(n.view, HandlePhase(n, env).node.view);
  }

  /** What is signed in a step is signed for the view in which the step starts, and only in a voting phase. */
  lemma VotesAreForTheCurrentView(n: Node, env: Env)
    ensures var e := HandlePhase(n, env);
      e.vote.Some? ==>
        && e.vote.value.view == n.view
        && n.view.Less(e.node.view)
        && n.view.phase in {ElectionVote, ProposeVote, PrecommitVote}
  {
  }

  /** No timer step touches the stored messages of the leader. */
  lemma ProposalsAreKept(n: Node, env: Env)
    ensures HandlePhase(n, env).node.proposals == n.proposals
  {
  }

  /** Only a vote to commit moves the lock. */
  lemma OnlyCommitVotesLock(n: Node, env: Env)
    ensures n.view.phase != PrecommitVote || HandlePhase(n, env).vote.None? ==> HandlePhase(n, env).node.highQC == n.highQC
  {
  }

  /** A vote to commit is for the value of the leader's certificate, on which the replica is then locked. */
  lemma CommitVoteIsForTheMessage(n: Node, env: Env)
    requires n.view.phase == PrecommitVote && HandlePhase(n, env).vote.Some?
    ensures n.GetProposal(Precommit).Some?
    ensures var e, qc := HandlePhase(n, env), n.GetProposal(Precommit).value.qc;
      && e.vote.value.Value() == qc.Value()
      && e.node.highQC.Some? && e.node.highQC.value.view == qc.view
      && e.node.highQC.value.SignBytes() == qc.SignBytes() && e.node.highQC.value.Value() == qc.Value()
  {
  }

  /** The voting phase whose votes a leader needs in a phase. */
  function VotePhase(phase: Phase): Phase {
    match phase
    case Propose => ElectionVote
    case Precommit => ProposeVote
    case _ => PrecommitVote
  }

  /** The environment of a timer step is what the tally and the Pacemaker messages say. */
  ghost predicate Surrounds(env: Env, view: View, tally: Tally, messages: map<nat, nat>)
    reads tally
  {
    && env.majority == tally.HasMajority(view.round, VotePhase(view.phase))
    && IsPacemakerRound(tally.committee, messages, env.pacemakerRound)
  }

  // ---------------------------------------------------------------------------------------------
  // The replica as an object
  // ---------------------------------------------------------------------------------------------

  class BFT {
    const self: nat
    var view: View
    var proposals: map<(nat, Phase), ProposerMsg>
    var highQC: Option<QC>
    var rcBuildHeight: nat
    var block: Option<nat>
    var results: Option<nat>
    var proposerKey: Option<nat>
    var lastRootHeightUpdated: nat
    var lastChainHeightUpdated: nat

    function State(): Node
      reads this
    {
      Node(self, view, proposals, highQC, rcBuildHeight, block, results, proposerKey, lastRootHeightUpdated, lastChainHeightUpdated)
    }

    /** A replica at round 0 of a new height holds no lock and no proposal. */
    constructor (self: nat, height: nat, rootHeight: nat, lastRootHeightUpdated: nat, lastChainHeightUpdated: nat)
      ensures State() == Node(self, View(height, rootHeight, 0, Election), map[], None, 0, None, None, None,
                              lastRootHeightUpdated, lastChainHeightUpdated)
    {
      this.self := self;
      this.view := View(height, rootHeight, 0, Election);
      this.proposals, this.highQC, this.rcBuildHeight := map[], None, 0;
      this.block, this.results, this.proposerKey := None, None, None;
      this.lastRootHeightUpdated, this.lastChainHeightUpdated := lastRootHeightUpdated, lastChainHeightUpdated;
    }

    method GetProposal(phaseBefore: Phase) returns (r: Option<ProposerMsg>)
      ensures r == State().GetProposal(phaseBefore)
    {
      if (view.round, phaseBefore) in proposals {
        return Some(proposals[(view.round, phaseBefore)]);
      }
      return None;
    }

    method RoundInterrupt()
      modifies this`view
      ensures State() == RoundInterrupted(old(State()))
    {
      view := view.(phase := Phase.RoundInterrupt);
    }

    method StartElectionVotePhase(leader: nat) returns (vote: Option<Payload>)
      modifies this`proposerKey
      ensures Effect(State(), vote, None) == ElectionVotePhase(old(State()), leader)
    {
      proposerKey := Some(leader);
      vote := Some(Payload(view, NoDigest, NoDigest, leader));
      proposerKey := None;
    }

    /** Only a leader with a majority of ELECTION-VOTEs proposes. */
    method StartProposePhase(tally: Tally, produced: Option<Produced>)
      requires tally.Valid()
      modifies this`rcBuildHeight, this`block, this`results
      ensures Silent(State()) == ProposePhase(old(State()), old(tally.HasMajority(view.round, ElectionVote)), produced)
    {
      var majority := tally.GetMajorityVote(view.round, ElectionVote);
      if majority.None? {
        return;
      }
      if highQC == None {
        match produced
        case None =>
          rcBuildHeight, block, results := 0, None, None;
        case Some(p) =>
          rcBuildHeight, block, results := p.rcBuildHeight, Some(p.block), Some(p.results);
      } else {
        block, results := highQC.value.block, highQC.value.results;
      }
    }

    method StartProposeVotePhase(valid: bool) returns (vote: Option<Payload>)
      modifies this`view, this`block, this`results, this`proposerKey
      ensures Effect(State(), vote, None) == ProposeVotePhase(old(State()), valid)
    {
      vote := None;
      var proposal := GetProposal(Propose);
      if proposal.None? {
        RoundInterrupt();
        return;
      }
      var m := proposal.value;
      proposerKey := Some(m.sender);
      if highQC.Some? {
        if SafeNode(highQC.value, m).Some? {
          RoundInterrupt();
          return;
        }
      }
      if m.rcBuildHeight < lastRootHeightUpdated {
        RoundInterrupt();
        return;
      }
      if !valid {
        RoundInterrupt();
        return;
      }
      block, results := m.qc.block, m.qc.results;
      vote := Some(Payload(view, BlockToHash(block), ResultsHash(results), m.sender));
    }

    /** PRECOMMIT and COMMIT: the leader needs a majority of the votes of the phase before. */
    method StartLeaderPhase(tally: Tally, votePhase: Phase)
      requires tally.Valid()
      modifies this`view
      ensures Silent(State()) == LeaderPhase(old(State()), old(tally.HasMajority(view.round, votePhase)))
    {
      if proposerKey != Some(self) {
        return;
      }
      var majority := tally.GetMajorityVote(view.round, votePhase);
      if majority.None? {
        RoundInterrupt();
      }
    }

    method StartPrecommitVotePhase() returns (vote: Option<Payload>)
      modifies this`view, this`highQC, this`rcBuildHeight
      ensures Effect(State(), vote, None) == PrecommitVotePhase(old(State()))
    {
      vote := None;
      var proposal := GetProposal(Precommit);
      if proposal.None? {
        RoundInterrupt();
        return;
      }
      var m := proposal.value;
      if CheckProposerAndProposal(State(), m) {
        RoundInterrupt();
        return;
      }
      highQC := Some(m.qc.(block := block, results := results));
      rcBuildHeight := m.rcBuildHeight;
      vote := Some(Payload(view, BlockToHash(block), ResultsHash(results), m.sender));
    }

    method StartCommitProcessPhase() returns (decided: Option<QC>)
      modifies this`view
      ensures Effect(State(), None, decided) == CommitProcessPhase(old(State()))
    {
      decided := None;
      var proposal := GetProposal(Commit);
      if proposal.None? {
        RoundInterrupt();
        return;
      }
      var m := proposal.value;
      if CheckProposerAndProposal(State(), m) {
        RoundInterrupt();
        return;
      }
      decided := Some(m.qc.(block := block, results := results));
    }

    /** A new round, or the round that the Pacemaker messages, sorted from the highest round, make the replica jump to. */
    method Pacemake(c: Committee, ghost messages: map<nat, nat>, sorted: seq<(nat, nat)>) returns (ghost jump: nat)
      requires SortedMessages(messages, sorted)
      modifies this`view, this`block, this`results, this`proposerKey
      ensures IsPacemakerRound(c, messages, jump) && State() == PacemakerPhase(old(State()), jump)
    {
      view := view.(round := view.round + 1);
      proposerKey := None;
      block, results := None, None;
      var pacemakerRound := PacemakerRound(c, messages, sorted);
      jump := pacemakerRound;
      if pacemakerRound > view.round {
        view := view.(round := pacemakerRound);
      }
    }

    method NextPhase()
      modifies this`view
      ensures State() == SetTimerForNextPhase(old(State()))
    {
      match view.phase
      case CommitProcess => return;
      case Pacemaker => view := view.(phase := Election);
      case Election => view := view.(phase := ElectionVote);
      case ElectionVote => view := view.(phase := Propose);
      case Propose => view := view.(phase := ProposeVote);
      case ProposeVote => view := view.(phase := Precommit);
      case Precommit => view := view.(phase := PrecommitVote);
      case PrecommitVote => view := view.(phase := Commit);
      case Commit => view := view.(phase := CommitProcess);
      case RoundInterrupt => view := view.(phase := Pacemaker);
    }

    /**
     The phase stepping loop's body. The majorities are those of the tally and the round to jump to is that of
     the Pacemaker messages; leader, block and verdict on the proposal come from the election and the state machine.
     */
    method Step(tally: Tally, leader: nat, produced: Option<Produced>, valid: bool, ghost messages: map<nat, nat>, sorted: seq<(nat, nat)>)
      returns (vote: Option<Payload>, decided: Option<QC>, ghost env: Env)
      requires tally.Valid() && SortedMessages(messages, sorted)
      modifies this
      ensures Effect(State(), vote, decided) == HandlePhase(old(State()), env)
      ensures old(Surrounds(env, view, tally, messages)) && (env.leader, env.produced, env.valid) == (leader, produced, valid)
    {
      vote, decided := None, None;
      ghost var jump := HighestBacked(tally.committee, messages, sorted);
      env := Env(leader, tally.HasMajority(view.round, VotePhase(view.phase)), produced, valid, jump);
      match view.phase {
        case Election =>
        case ElectionVote => vote := StartElectionVotePhase(leader);
        case Propose => StartProposePhase(tally, produced);
        case ProposeVote => vote := StartProposeVotePhase(valid);
        case Precommit => StartLeaderPhase(tally, ProposeVote);
        case PrecommitVote => vote := StartPrecommitVotePhase();
        case Commit => StartLeaderPhase(tally, PrecommitVote);
        case CommitProcess => decided := StartCommitProcessPhase();
        case RoundInterrupt =>
        case Pacemaker =>
          jump := Pacemake(tally.committee, messages, sorted);
      }
      NextPhase();
    }

    method HandleProposal(m: ProposerMsg)
      modifies this`proposals
      ensures State() == AddProposal(old(State()), m)
    {
      proposals := proposals[(m.header.round, m.header.phase) := m];
    }

    method HandleHighQC(qc: QC, carriedBlock: Option<nat>, carriedResults: Option<nat>, carriedBuildHeight: nat)
      modifies this`highQC, this`block, this`results, this`rcBuildHeight
      ensures State() == AdoptHighQC(old(State()), qc, carriedBlock, carriedResults, carriedBuildHeight)
    {
      if highQC.None? || highQC.value.view.Less(qc.view) {
        highQC := Some(qc);
        block, results := carriedBlock, carriedResults;
        rcBuildHeight := carriedBuildHeight;
      }
    }
  }
}
