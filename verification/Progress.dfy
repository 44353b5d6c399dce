/**
 Progress of NestBFT: what a leader sends is accepted, and a round in which an honest leader is elected and its messages
 arrive ends with its block accepted. So no reachable world in which honest replicas meet is stuck.
 */
module Progress {
  import opened Options
  import opened Quorum
  import opened Certificates
  import opened Replica
  import opened Agreement
  import opened Validity

  // ---------------------------------------------------------------------------------------------
  // What a leader sends is accepted
  // ---------------------------------------------------------------------------------------------

  /** A leader's message for this height: signed by a full quorum, under the receiver's root height, and with a proper lock if any. */
  ghost predicate Current(c: Committee, log: seq<Signed>, m: ProposerMsg, p: CheckParams) {
    && Check(c, log, m.qc) == Full
    && (m.highQC.Some? ==> CheckHighQC(c, log, m.highQC.value, p.view.height, p.lastRootHeightUpdated))
    && m.qc.view.rootHeight == p.view.rootHeight && m.header.height == p.view.height && p.lastChainHeightUpdated <= m.qc.view.height
  }

  /** A message is accepted exactly if it is current, and proposes content of its sender or asks for votes on the content that the receiver holds. */
  lemma AcceptedExactlyWhen(c: Committee, log: seq<Signed>, m: ProposerMsg, p: CheckParams)
    ensures CheckProposerMessage(c, log, m, p) == Accepted <==>
      && Current(c, log, m, p)
      && (m.header.phase == Propose || m.header.phase == Precommit || m.header.phase == Commit)
      && (if m.header.phase == Propose then m.qc.proposerKey == m.sender && m.qc.block.Some? && m.qc.results.Some?
          else p.block.Some? && m.qc.Value() == (BlockToHash(p.block), ResultsHash(p.results)))
  {
  }

  /** Every signer in the bitmap is a committee member who has signed the payload, and together they are a full quorum. */
  ghost predicate SignedByQuorum(c: Committee, log: seq<Signed>, qc: QC) {
    c.IsQuorum(qc.signers) && forall i :: i in qc.signers ==> i < c.Size() && Signed(i, qc.SignBytes()) in log
  }

  /** Content that is attached agrees with its hash; without a hash of results there is no block and no content. */
  predicate ContentAgrees(qc: QC) {
    && (qc.results.Some? ==> qc.resultsHash == ResultsDigest(qc.results))
    && (qc.block.Some? ==> qc.blockHash == BlockDigest(qc.block.value) && qc.resultsHash != NoDigest)
    && (qc.resultsHash == NoDigest ==> qc.blockHash == NoDigest)
  }

  /** A lock is accepted exactly if a quorum signed it in the PROPOSE-VOTE phase of this height, under a root height that is not outdated. */
  lemma LockAcceptedExactlyWhen(c: Committee, log: seq<Signed>, qc: QC, height: nat, lastRootHeightUpdated: nat)
    ensures CheckHighQC(c, log, qc, height, lastRootHeightUpdated) <==>
      SignedByQuorum(c, log, qc) && ContentAgrees(qc) && qc.view.phase == ProposeVote && qc.view.height == height && lastRootHeightUpdated <= qc.view.rootHeight
  {
  }

  /** A peer's block is accepted exactly if a quorum signed it in the PRECOMMIT-VOTE phase of this height, with its block and results. */
  lemma BlockAcceptedExactlyWhen(c: Committee, log: seq<Signed>, qc: QC, height: nat)
    ensures AcceptsBlock(c, log, qc, height) <==>
      SignedByQuorum(c, log, qc) && qc.view.phase == PrecommitVote && qc.view.height == height
      && qc.block.Some? && qc.results.Some? && qc.Value() == (BlockDigest(qc.block.value), ResultsDigest(qc.results))
  {
  }

  /** A certificate signed by a quorum, without content or with the content of its hashes, is full. */
  lemma QuorumIsFull(c: Committee, log: seq<Signed>, qc: QC)
    requires c.IsQuorum(qc.signers) && qc.CheckBasic()
    requires forall i :: i in qc.signers ==> i < c.Size() && Signed(i, qc.SignBytes()) in log
    ensures Check(c, log, qc) == Full
  {
  }

  /** Every replica of the leader's height accepts the proposal of a leader that a quorum has elected and that has something to propose. */
  lemma ProposalIsHeard(c: Committee, log: seq<Signed>, leader: Node, election: QC, p: CheckParams)
    requires leader.view.phase == Propose && leader.block.Some? && leader.results.Some?
    requires election.view.phase == ElectionVote && election.proposerKey == leader.self && c.IsQuorum(election.signers)
    requires forall i :: i in election.signers ==> i < c.Size() && Signed(i, Payload(election.view, NoDigest, NoDigest, leader.self)) in log
    requires leader.highQC.Some? ==> CheckHighQC(c, log, leader.highQC.value, p.view.height, p.lastRootHeightUpdated)
    requires election.view.rootHeight == p.view.rootHeight && leader.view.height == p.view.height && p.lastChainHeightUpdated <= election.view.height
    ensures CheckProposerMessage(c, log, ProposeMessage(leader, election), p) == Accepted
  {
    var m := ProposeMessage(leader, election);
    QuorumIsFull(c, log, m.qc);
    AcceptedExactlyWhen(c, log, m, p);
  }

  // ---------------------------------------------------------------------------------------------
  // Steps of many replicas
  // ---------------------------------------------------------------------------------------------

  /** Some steps of the transition system lead from one world to the other. */
  ghost predicate Leads(cfg: Config, w: World, w': World) {
    exists worlds, steps :: Path(cfg, worlds, steps, w, w')
  }

  ghost predicate Path(cfg: Config, worlds: seq<World>, steps: seq<Step>, w: World, w': World) {
    && |worlds| == |steps| + 1 && worlds[0] == w && worlds[|steps|] == w'
    && forall k :: 0 <= k < |steps| ==> Enabled(cfg, worlds[k], steps[k]) && worlds[k + 1] == Next(cfg, worlds[k], steps[k])
  }

  lemma NoStepLeads(cfg: Config, w: World)
    ensures Leads(cfg, w, w)
  {
    assert Path(cfg, [w], [], w, w);
  }

  lemma StepLeads(cfg: Config, w: World, u: World, s: Step)
    requires Leads(cfg, w, u) && Enabled(cfg, u, s)
    ensures Leads(cfg, w, Next(cfg, u, s))
  {
    var worlds, steps :| Path(cfg, worlds, steps, w, u);
    assert Path(cfg, worlds + [Next(cfg, u, s)], steps + [s], w, Next(cfg, u, s));
  }

  lemma {:induction false} PathsJoin(cfg: Config, w: World, u: World, worlds: seq<World>, steps: seq<Step>, k: nat)
    requires Leads(cfg, w, u) && k <= |steps| && |worlds| == |steps| + 1 && worlds[0] == u
    requires forall j :: 0 <= j < |steps| ==> Enabled(cfg, worlds[j], steps[j]) && worlds[j + 1] == Next(cfg, worlds[j], steps[j])
    ensures Leads(cfg, w, worlds[k])
  {
    if k != 0 {
      PathsJoin(cfg, w, u, worlds, steps, k - 1);
      StepLeads(cfg, w, worlds[k - 1], steps[k - 1]);
    }
  }

  lemma LeadsJoin(cfg: Config, w: World, u: World, v: World)
    requires Leads(cfg, w, u) && Leads(cfg, u, v)
    ensures Leads(cfg, w, v)
  {
    var worlds, steps :| Path(cfg, worlds, steps, u, v);
    PathsJoin(cfg, w, u, worlds, steps, |steps|);
  }

  /** A run can be continued along steps. */
  lemma LeadsKeepsInv(cfg: Config, w: World, w': World)
    requires Inv(cfg, w) && Leads(cfg, w, w')
    ensures Inv(cfg, w')
  {
    var worlds, steps :| Path(cfg, worlds, steps, w, w');
    PathKeepsInv(cfg, worlds, steps, |steps|);
  }

  lemma {:induction false} PathKeepsInv(cfg: Config, worlds: seq<World>, steps: seq<Step>, k: nat)
    requires |worlds| == |steps| + 1 && k <= |steps| && Inv(cfg, worlds[0])
    requires forall j :: 0 <= j < |steps| ==> Enabled(cfg, worlds[j], steps[j]) && worlds[j + 1] == Next(cfg, worlds[j], steps[j])
    ensures Inv(cfg, worlds[k])
  {
    if k != 0 {
      PathKeepsInv(cfg, worlds, steps, k - 1);
      NextKeepsInv(cfg, worlds[k - 1], steps[k - 1]);
    }
  }

  /** These replicas have each made a timer step, and what they have signed is in the log; the others have not moved. */
  ghost predicate Ticked(w: World, w': World, who: set<nat>, envs: map<nat, Env>)
    requires who <= w.nodes.Keys && who <= envs.Keys
  {
    && w'.nodes.Keys == w.nodes.Keys
    && (forall i :: i in who ==> w'.nodes[i] == HandlePhase(w.nodes[i], envs[i]).node)
    && (forall i :: i in w.nodes && i !in who ==> w'.nodes[i] == w.nodes[i])
    && (forall i :: i in who && HandlePhase(w.nodes[i], envs[i]).vote.Some? ==> Signed(i, HandlePhase(w.nodes[i], envs[i]).vote.value) in w'.log)
    && w.log <= w'.log && w'.decided == w.decided
  }

  /** Any replicas can make their timer steps one after the other. */
  lemma {:induction false} AllTick(cfg: Config, w: World, who: set<nat>, envs: map<nat, Env>) returns (w': World)
    requires who <= w.nodes.Keys && who <= envs.Keys
    ensures Leads(cfg, w, w') && Ticked(w, w', who, envs)
    decreases |who|
  {
    if who == {} {
      w' := w;
      NoStepLeads(cfg, w);
    } else {
      var i :| i in who;
      var u := AllTick(cfg, w, who - {i}, envs);
      var s := Timeout(i, envs[i]);
      StepLeads(cfg, w, u, s);
      w' := Next(cfg, u, s);
      assert u.log <= w'.log;
    }
  }

  /** These replicas have stored the message; nothing else has changed. */
  ghost predicate Heard(w: World, w': World, who: set<nat>, m: ProposerMsg)
    requires who <= w.nodes.Keys
  {
    && w'.nodes.Keys == w.nodes.Keys
    && (forall i :: i in who ==> w'.nodes[i] == AddProposal(w.nodes[i], m))
    && (forall i :: i in w.nodes && i !in who ==> w'.nodes[i] == w.nodes[i])
    && w'.log == w.log && w'.decided == w.decided
  }

  /** A message that all of these replicas accept can be delivered to all. */
  lemma {:induction false} AllHear(cfg: Config, w: World, who: set<nat>, m: ProposerMsg) returns (w': World)
    requires who <= w.nodes.Keys
    requires forall i :: i in who ==> CheckProposerMessage(cfg.committee, w.log, m, w.nodes[i].Params()) == Accepted
    ensures Leads(cfg, w, w') && Heard(w, w', who, m)
    decreases |who|
  {
    if who == {} {
      w' := w;
      NoStepLeads(cfg, w);
    } else {
      var i :| i in who;
      var u := AllHear(cfg, w, who - {i}, m);
      var s := DeliverProposal(i, m);
      StepLeads(cfg, w, u, s);
      w' := Next(cfg, u, s);
    }
  }

  // ---------------------------------------------------------------------------------------------
  // A round that ends
  // ---------------------------------------------------------------------------------------------

  /** What a round is about: its number, its leader, and what the leader has to propose. */
  datatype Ballot = Ballot(round: nat, leader: nat, block: nat, results: nat, rcBuildHeight: nat) {

    function ViewIn(cfg: Config, phase: Phase): View {
      View(cfg.height, cfg.rootHeight, round, phase)
    }

    /** What is voted for in a phase after the proposal. */
    function VoteIn(cfg: Config, phase: Phase): Payload {
      Payload(ViewIn(cfg, phase), BlockDigest(block), ResultsDigest(Some(results)), leader)
    }

    /** The certificate of the given signers for it. */
    function Certificate(cfg: Config, phase: Phase, signers: set<nat>): QC {
      QC(ViewIn(cfg, phase), BlockDigest(block), ResultsDigest(Some(results)), leader, None, None, signers)
    }
  }

  ghost predicate Standing(cfg: Config, w: World, b: Ballot, phase: Phase) {
    forall i :: i in w.nodes ==> w.nodes[i].view == b.ViewIn(cfg, phase)
  }

  /** The same replicas, with the same heights and locks; and no signature is lost. */
  ghost predicate Onward(w: World, w': World) {
    && w'.nodes.Keys == w.nodes.Keys && w.log <= w'.log
    && forall i :: i in w.nodes ==>
         && w'.nodes[i].highQC == w.nodes[i].highQC && w'.nodes[i].self == w.nodes[i].self
         && w'.nodes[i].lastRootHeightUpdated == w.nodes[i].lastRootHeightUpdated
         && w'.nodes[i].lastChainHeightUpdated == w.nodes[i].lastChainHeightUpdated
  }

  ghost predicate HaveVoted(w: World, p: Payload) {
    forall i :: i in w.nodes ==> Signed(i, p) in w.log
  }

  /** Every replica holds the proposed value and follows the leader. */
  ghost predicate Hold(w: World, b: Ballot) {
    forall i :: i in w.nodes ==>
      w.nodes[i].proposerKey == Some(b.leader) && w.nodes[i].block == Some(b.block) && w.nodes[i].results == Some(b.results)
  }

  /** The replica follows this height, and the ballot is built recently enough for it. */
  predicate UpToDate(cfg: Config, n: Node, b: Ballot) {
    n.lastChainHeightUpdated <= cfg.height && n.lastRootHeightUpdated <= b.rcBuildHeight
  }

  /**
   The leader is honest, and has something to propose that no honest lock speaks against: the block of its own lock, which all
   accept and no lock is newer than; or, if nobody is locked, any block. It is built recently enough for everybody.
   */
  ghost predicate Ready(cfg: Config, w: World, b: Ballot) {
    && b.leader in w.nodes && w.nodes[b.leader].self == b.leader
    && (forall i :: i in w.nodes ==> i < cfg.committee.Size())
    && cfg.committee.IsQuorum(w.nodes.Keys)
    && (forall i :: i in w.nodes ==> UpToDate(cfg, w.nodes[i], b))
    && match w.nodes[b.leader].highQC
       case None => forall i :: i in w.nodes ==> w.nodes[i].highQC.None?
       case Some(lock) =>
         && lock.Value() == (BlockDigest(b.block), ResultsDigest(Some(b.results)))
         && lock.block == Some(b.block) && lock.results == Some(b.results)
         && forall i :: i in w.nodes ==>
              && CheckHighQC(cfg.committee, w.log, lock, cfg.height, w.nodes[i].lastRootHeightUpdated)
              && (w.nodes[i].highQC.Some? ==> w.nodes[i].highQC.value.Value() == lock.Value() || w.nodes[i].highQC.value.view.round < lock.view.round)
  }

  /** A locked leader proposes with the build height that came with its lock. */
  ghost predicate BuiltWithLock(w: World, b: Ballot)
    requires b.leader in w.nodes
  {
    w.nodes[b.leader].highQC.Some? ==> w.nodes[b.leader].rcBuildHeight == b.rcBuildHeight
  }

  lemma StaysReady(cfg: Config, w: World, w': World, b: Ballot)
    requires Ready(cfg, w, b) && Onward(w, w')
    ensures Ready(cfg, w', b)
  {
    if w.nodes[b.leader].highQC.Some? {
      forall i | i in w.nodes {
        StillChecks(cfg.committee, w.log, w'.log, w.nodes[b.leader].highQC.value, cfg.height, w.nodes[i].lastRootHeightUpdated);
      }
    }
  }

  lemma OnwardAgain(w: World, u: World, v: World)
    requires Onward(w, u) && Onward(u, v)
    ensures Onward(w, v)
  {
  }

  /** Everybody gets the same surroundings. */
  function Everywhere(w: World, env: Env): map<nat, Env> {
    map i | i in w.nodes :: env
  }

  /** The leader alone has counted a majority, and has a block at hand. */
  function AtLeader(w: World, b: Ballot): map<nat, Env> {
    map i | i in w.nodes :: Env(b.leader, i == b.leader, Some(Produced(b.rcBuildHeight, b.block, b.results)), true, 0)
  }

  function Calm(b: Ballot): Env {
    Env(b.leader, true, None, true, 0)
  }

  /** ELECTION: everybody waits. */
  lemma StartsRound(cfg: Config, w: World, b: Ballot) returns (w': World)
    requires Standing(cfg, w, b, Election)
    ensures Leads(cfg, w, w') && Onward(w, w') && Standing(cfg, w', b, ElectionVote) && w'.decided == w.decided
    ensures b.leader in w.nodes ==> w'.nodes[b.leader].rcBuildHeight == w.nodes[b.leader].rcBuildHeight
  {
    w' := AllTick(cfg, w, w.nodes.Keys, Everywhere(w, Calm(b)));
  }

  /** ELECTION-VOTE: everybody has voted for the leader. */
  lemma Elects(cfg: Config, w: World, b: Ballot) returns (w': World)
    requires Standing(cfg, w, b, ElectionVote)
    ensures Leads(cfg, w, w') && Onward(w, w') && Standing(cfg, w', b, Propose) && w'.decided == w.decided
    ensures HaveVoted(w', Payload(b.ViewIn(cfg, ElectionVote), NoDigest, NoDigest, b.leader))
    ensures b.leader in w.nodes ==> w'.nodes[b.leader].rcBuildHeight == w.nodes[b.leader].rcBuildHeight
  {
    w' := AllTick(cfg, w, w.nodes.Keys, Everywhere(w, Calm(b)));
    forall i | i in w.nodes
      ensures HandlePhase(w.nodes[i], Calm(b)) ==
        Effect(w.nodes[i].(view := b.ViewIn(cfg, Propose), proposerKey := None), Some(Payload(b.ViewIn(cfg, ElectionVote), NoDigest, NoDigest, b.leader)), None)
    {
      ElectionVoteExactly(w.nodes[i], Calm(b));
    }
  }

  /** The leader's message in PROPOSE. */
  function Proposal(cfg: Config, b: Ballot, lock: Option<QC>, signers: set<nat>): ProposerMsg {
    ProposerMsg(b.ViewIn(cfg, Propose), b.leader,
                QC(b.ViewIn(cfg, ElectionVote), BlockDigest(b.block), ResultsDigest(Some(b.results)), b.leader, Some(b.block), Some(b.results), signers),
                lock, b.rcBuildHeight)
  }

  lemma LeaderProposes(cfg: Config, n: Node, b: Ballot, env: Env, election: QC)
    requires n.view == b.ViewIn(cfg, Propose) && n.self == b.leader && env.majority
    requires n.highQC.None? ==> env.produced == Some(Produced(b.rcBuildHeight, b.block, b.results))
    requires n.highQC.Some? ==> n.highQC.value.block == Some(b.block) && n.highQC.value.results == Some(b.results) && n.rcBuildHeight == b.rcBuildHeight
    requires election.view == b.ViewIn(cfg, ElectionVote) && election.proposerKey == b.leader
    ensures ProposeMessage(RunPhase(n, env).node, election) == Proposal(cfg, b, n.highQC, election.signers)
  {
  }

  /** Everybody has stored the message. */
  ghost predicate AllHave(w: World, m: ProposerMsg) {
    forall i :: i in w.nodes ==> (m.header.round, m.header.phase) in w.nodes[i].proposals && w.nodes[i].proposals[(m.header.round, m.header.phase)] == m
  }

  lemma HeardByAll(w: World, w': World, m: ProposerMsg)
    requires Heard(w, w', w.nodes.Keys, m)
    ensures AllHave(w', m) && Onward(w, w') && w'.decided == w.decided
    ensures forall i :: i in w.nodes ==> w'.nodes[i] == w.nodes[i].(proposals := w'.nodes[i].proposals)
  {
  }

  /** This is the very message that the leader sends in its PROPOSE phase, with the majority of election votes that it has counted. */
  lemma LeaderSendsProposal(cfg: Config, w: World, b: Ballot)
    requires Ready(cfg, w, b) && BuiltWithLock(w, b) && Standing(cfg, w, b, Propose)
    ensures ProposeMessage(RunPhase(w.nodes[b.leader], AtLeader(w, b)[b.leader]).node, QC(b.ViewIn(cfg, ElectionVote), NoDigest, NoDigest, b.leader, None, None, w.nodes.Keys))
         == Proposal(cfg, b, w.nodes[b.leader].highQC, w.nodes.Keys)
  {
    LeaderProposes(cfg, w.nodes[b.leader], b, AtLeader(w, b)[b.leader], QC(b.ViewIn(cfg, ElectionVote), NoDigest, NoDigest, b.leader, None, None, w.nodes.Keys));
  }

  lemma ProposingKeeps(n: Node, env: Env)
    requires n.view.phase == Propose
    ensures var e := HandlePhase(n, env);
      e.node == n.(view := n.view.(phase := ProposeVote), block := e.node.block, results := e.node.results, rcBuildHeight := e.node.rcBuildHeight)
  {
  }

  /** PROPOSE: the leader has something to propose. */
  lemma Prepares(cfg: Config, w: World, b: Ballot) returns (w': World)
    requires Standing(cfg, w, b, Propose)
    ensures Leads(cfg, w, w') && Onward(w, w') && Standing(cfg, w', b, ProposeVote) && w'.decided == w.decided
  {
    w' := AllTick(cfg, w, w.nodes.Keys, AtLeader(w, b));
    forall i | i in w.nodes
      ensures var m := w'.nodes[i];
        m == w.nodes[i].(view := b.ViewIn(cfg, ProposeVote), block := m.block, results := m.results, rcBuildHeight := m.rcBuildHeight)
    {
      ProposingKeeps(w.nodes[i], AtLeader(w, b)[i]);
    }
  }

  /** PROPOSE: everybody has the leader's proposal. */
  lemma Proposes(cfg: Config, w: World, b: Ballot) returns (w': World)
    requires Ready(cfg, w, b) && Standing(cfg, w, b, Propose)
    requires HaveVoted(w, Payload(b.ViewIn(cfg, ElectionVote), NoDigest, NoDigest, b.leader))
    ensures Leads(cfg, w, w') && Onward(w, w') && Standing(cfg, w', b, ProposeVote) && w'.decided == w.decided
    ensures AllHave(w', Proposal(cfg, b, w.nodes[b.leader].highQC, w.nodes.Keys))
  {
    var m := Proposal(cfg, b, w.nodes[b.leader].highQC, w.nodes.Keys);
    var u := Prepares(cfg, w, b);
    forall i | i in u.nodes
      ensures CheckProposerMessage(cfg.committee, u.log, m, u.nodes[i].Params()) == Accepted
    {
      ProposalArrives(cfg, w, u, b, i, m);
    }
    w' := AllHear(cfg, u, u.nodes.Keys, m);
    HeardByAll(u, w', m);
    LeadsJoin(cfg, w, u, w');
  }

  lemma ProposalArrives(cfg: Config, w: World, u: World, b: Ballot, i: nat, m: ProposerMsg)
    requires Ready(cfg, w, b) && w.log <= u.log && i in w.nodes
    requires HaveVoted(w, Payload(b.ViewIn(cfg, ElectionVote), NoDigest, NoDigest, b.leader))
    requires i in u.nodes && u.nodes[i].view == b.ViewIn(cfg, ProposeVote)
    requires u.nodes[i].lastRootHeightUpdated == w.nodes[i].lastRootHeightUpdated && u.nodes[i].lastChainHeightUpdated == w.nodes[i].lastChainHeightUpdated
    requires m == Proposal(cfg, b, w.nodes[b.leader].highQC, w.nodes.Keys)
    ensures CheckProposerMessage(cfg.committee, u.log, m, u.nodes[i].Params()) == Accepted
  {
    QuorumIsFull(cfg.committee, u.log, m.qc);
    if m.highQC.Some? {
      StillChecks(cfg.committee, w.log, u.log, m.highQC.value, cfg.height, w.nodes[i].lastRootHeightUpdated);
    }
    AcceptedExactlyWhen(cfg.committee, u.log, m, u.nodes[i].Params());
  }

  lemma StillChecks(c: Committee, log: seq<Signed>, more: seq<Signed>, qc: QC, height: nat, lastRootHeightUpdated: nat)
    requires log <= more && CheckHighQC(c, log, qc, height, lastRootHeightUpdated)
    ensures CheckHighQC(c, more, qc, height, lastRootHeightUpdated)
  {
    assert forall s :: s in log ==> s in more;
  }

  lemma ReplicaVotesForIt(cfg: Config, w: World, b: Ballot, lock: Option<QC>, i: nat)
    requires Ready(cfg, w, b) && Standing(cfg, w, b, ProposeVote) && i in w.nodes && lock == w.nodes[b.leader].highQC
    requires AllHave(w, Proposal(cfg, b, lock, w.nodes.Keys))
    ensures HandlePhase(w.nodes[i], Calm(b)) ==
      Effect(w.nodes[i].(view := b.ViewIn(cfg, Precommit), proposerKey := Some(b.leader), block := Some(b.block), results := Some(b.results)),
             Some(b.VoteIn(cfg, ProposeVote)), None)
  {
    ProposeVoteExactlyWhen(w.nodes[i], Calm(b));
  }

  /** PROPOSE-VOTE: everybody has voted for the proposal and holds it. */
  lemma VotesForIt(cfg: Config, w: World, b: Ballot) returns (w': World)
    requires Ready(cfg, w, b) && Standing(cfg, w, b, ProposeVote)
    requires AllHave(w, Proposal(cfg, b, w.nodes[b.leader].highQC, w.nodes.Keys))
    ensures Leads(cfg, w, w') && Onward(w, w') && Standing(cfg, w', b, Precommit) && w'.decided == w.decided
    ensures HaveVoted(w', b.VoteIn(cfg, ProposeVote)) && Hold(w', b)
  {
    w' := AllTick(cfg, w, w.nodes.Keys, Everywhere(w, Calm(b)));
    forall i | i in w.nodes
      ensures HandlePhase(w.nodes[i], Calm(b)) ==
        Effect(w.nodes[i].(view := b.ViewIn(cfg, Precommit), proposerKey := Some(b.leader), block := Some(b.block), results := Some(b.results)),
               Some(b.VoteIn(cfg, ProposeVote)), None)
    {
      ReplicaVotesForIt(cfg, w, b, w.nodes[b.leader].highQC, i);
    }
  }

  /** PRECOMMIT and COMMIT: the leader has counted a majority, and everybody goes on. */
  lemma GoesOn(cfg: Config, w: World, b: Ballot, phase: Phase, next: Phase) returns (w': World)
    requires (phase == Precommit && next == PrecommitVote) || (phase == Commit && next == CommitProcess)
    requires Standing(cfg, w, b, phase) && Hold(w, b)
    ensures Leads(cfg, w, w') && Onward(w, w') && Standing(cfg, w', b, next) && w'.decided == w.decided && Hold(w', b)
  {
    w' := AllTick(cfg, w, w.nodes.Keys, Everywhere(w, Calm(b)));
    forall i | i in w.nodes
      ensures w'.nodes[i] == w.nodes[i].(view := b.ViewIn(cfg, next))
    {
      LeaderGoesOnExactlyWhen(w.nodes[i], Calm(b));
    }
  }

  /** The leader's request for votes to commit (PRECOMMIT) or for the commit itself (COMMIT). */
  function Request(cfg: Config, b: Ballot, phase: Phase, votes: Phase, signers: set<nat>): ProposerMsg {
    ProposerMsg(b.ViewIn(cfg, phase), b.leader, b.Certificate(cfg, votes, signers), None, b.rcBuildHeight)
  }

  /** Everybody who holds the value accepts the leader's request for it. */
  lemma RequestArrives(cfg: Config, w: World, b: Ballot, phase: Phase, votes: Phase) returns (w': World)
    requires Able(cfg, w)
    requires (phase == Precommit && votes == ProposeVote) || (phase == Commit && votes == PrecommitVote)
    requires Hold(w, b) && HaveVoted(w, b.VoteIn(cfg, votes))
    requires forall i :: i in w.nodes ==> cfg.AtHeight(w.nodes[i].view)
    ensures Leads(cfg, w, w') && Heard(w, w', w.nodes.Keys, Request(cfg, b, phase, votes, w.nodes.Keys))
    ensures Check(cfg.committee, w.log, b.Certificate(cfg, votes, w.nodes.Keys)) == Full
  {
    var m := Request(cfg, b, phase, votes, w.nodes.Keys);
    QuorumIsFull(cfg.committee, w.log, m.qc);
    forall i | i in w.nodes
      ensures CheckProposerMessage(cfg.committee, w.log, m, w.nodes[i].Params()) == Accepted
    {
      AcceptedExactlyWhen(cfg.committee, w.log, m, w.nodes[i].Params());
    }
    w' := AllHear(cfg, w, w.nodes.Keys, m);
  }

  /** PRECOMMIT-VOTE: everybody has voted to commit. */
  lemma VotesToCommitIt(cfg: Config, w: World, b: Ballot) returns (w': World)
    requires Standing(cfg, w, b, PrecommitVote) && Hold(w, b)
    requires AllHave(w, Request(cfg, b, Precommit, ProposeVote, w.nodes.Keys))
    ensures Leads(cfg, w, w') && w'.nodes.Keys == w.nodes.Keys && Standing(cfg, w', b, Commit) && w'.decided == w.decided
    ensures HaveVoted(w', b.VoteIn(cfg, PrecommitVote)) && Hold(w', b)
    ensures forall i :: i in w.nodes ==> w'.nodes[i].lastChainHeightUpdated == w.nodes[i].lastChainHeightUpdated
  {
    w' := AllTick(cfg, w, w.nodes.Keys, Everywhere(w, Calm(b)));
    forall i | i in w.nodes
      ensures HandlePhase(w.nodes[i], Calm(b)).vote == Some(b.VoteIn(cfg, PrecommitVote))
      ensures var n := HandlePhase(w.nodes[i], Calm(b)).node; n == w.nodes[i].(view := b.ViewIn(cfg, Commit), highQC := n.highQC, rcBuildHeight := n.rcBuildHeight)
    {
      CommitVoteExactlyWhen(w.nodes[i], Calm(b));
    }
  }

  /** The first half of the round: everybody holds the leader's value and has voted for it. */
  lemma RoundIsPrepared(cfg: Config, w: World, b: Ballot) returns (w': World)
    requires Ready(cfg, w, b) && Standing(cfg, w, b, Election)
    ensures Leads(cfg, w, w') && Onward(w, w') && Standing(cfg, w', b, Precommit) && w'.decided == w.decided
    ensures HaveVoted(w', b.VoteIn(cfg, ProposeVote)) && Hold(w', b)
  {
    var w1 := StartsRound(cfg, w, b);
    var w2 := Elects(cfg, w1, b);
    LeadsJoin(cfg, w, w1, w2);
    OnwardAgain(w, w1, w2);
    StaysReady(cfg, w, w2, b);
    var w3 := Proposes(cfg, w2, b);
    LeadsJoin(cfg, w, w2, w3);
    OnwardAgain(w, w2, w3);
    StaysReady(cfg, w, w3, b);
    w' := VotesForIt(cfg, w3, b);
    LeadsJoin(cfg, w, w3, w');
    OnwardAgain(w, w3, w');
  }

  lemma RequestKeeps(cfg: Config, w: World, w': World, b: Ballot, phase: Phase, m: ProposerMsg)
    requires Heard(w, w', w.nodes.Keys, m) && Standing(cfg, w, b, phase) && Hold(w, b)
    ensures Standing(cfg, w', b, phase) && Hold(w', b) && AllHave(w', m) && w'.decided == w.decided && w'.log == w.log
    ensures forall i :: i in w.nodes ==> w'.nodes[i].lastChainHeightUpdated == w.nodes[i].lastChainHeightUpdated
  {
    HeardByAll(w, w', m);
  }

  /** The replicas are a quorum of the committee, and follow this height. */
  ghost predicate Able(cfg: Config, w: World) {
    cfg.committee.IsQuorum(w.nodes.Keys) && forall i :: i in w.nodes ==> i < cfg.committee.Size() && w.nodes[i].lastChainHeightUpdated <= cfg.height
  }

  /** PRECOMMIT and PRECOMMIT-VOTE: everybody has got the request and voted to commit. */
  lemma RoundIsVoted(cfg: Config, w: World, b: Ballot) returns (w': World)
    requires Able(cfg, w) && Standing(cfg, w, b, Precommit) && Hold(w, b) && HaveVoted(w, b.VoteIn(cfg, ProposeVote))
    ensures Leads(cfg, w, w') && w'.nodes.Keys == w.nodes.Keys && Able(cfg, w')
    ensures Standing(cfg, w', b, Commit) && Hold(w', b) && HaveVoted(w', b.VoteIn(cfg, PrecommitVote))
  {
    var w1 := GoesOn(cfg, w, b, Precommit, PrecommitVote);
    var w2 := RequestArrives(cfg, w1, b, Precommit, ProposeVote);
    LeadsJoin(cfg, w, w1, w2);
    RequestKeeps(cfg, w1, w2, b, PrecommitVote, Request(cfg, b, Precommit, ProposeVote, w.nodes.Keys));
    w' := VotesToCommitIt(cfg, w2, b);
    LeadsJoin(cfg, w, w2, w');
  }

  /** COMMIT: everybody has the leader's certificate to commit. */
  lemma RoundIsCommitted(cfg: Config, w: World, b: Ballot) returns (w': World)
    requires Able(cfg, w) && Standing(cfg, w, b, Commit) && Hold(w, b) && HaveVoted(w, b.VoteIn(cfg, PrecommitVote))
    ensures Leads(cfg, w, w') && w'.nodes.Keys == w.nodes.Keys && Standing(cfg, w', b, CommitProcess) && Hold(w', b)
    ensures AllHave(w', Request(cfg, b, Commit, PrecommitVote, w.nodes.Keys))
    ensures Check(cfg.committee, w'.log, b.Certificate(cfg, PrecommitVote, w.nodes.Keys)) == Full
  {
    var w1 := GoesOn(cfg, w, b, Commit, CommitProcess);
    w' := RequestArrives(cfg, w1, b, Commit, PrecommitVote);
    LeadsJoin(cfg, w, w1, w');
    RequestKeeps(cfg, w1, w', b, CommitProcess, Request(cfg, b, Commit, PrecommitVote, w.nodes.Keys));
  }

  /** The leader's block with the quorum's certificate to commit it. */
  function Decision(cfg: Config, b: Ballot, signers: set<nat>): QC {
    b.Certificate(cfg, PrecommitVote, signers).(block := Some(b.block), results := Some(b.results))
  }

  lemma BlockIsAccepted(cfg: Config, w: World, b: Ballot) returns (w': World)
    requires Standing(cfg, w, b, CommitProcess) && Hold(w, b) && AllHave(w, Request(cfg, b, Commit, PrecommitVote, w.nodes.Keys))
    requires Check(cfg.committee, w.log, b.Certificate(cfg, PrecommitVote, w.nodes.Keys)) == Full
    ensures Leads(cfg, w, w') && w'.nodes == w.nodes && Decision(cfg, b, w.nodes.Keys) in w'.decided
    ensures forall i, env :: i in w'.nodes ==> HandlePhase(w'.nodes[i], env).decided == Some(Decision(cfg, b, w.nodes.Keys))
  {
    var qc := Decision(cfg, b, w.nodes.Keys);
    QuorumIsFull(cfg.committee, w.log, qc);
    NoStepLeads(cfg, w);
    StepLeads(cfg, w, w, DeliverBlock(qc));
    w' := Next(cfg, w, DeliverBlock(qc));
    forall i, env | i in w'.nodes
      ensures HandlePhase(w'.nodes[i], env).decided == Some(qc)
    {
      CommitsExactlyWhen(w'.nodes[i], env);
    }
  }

  /**
   A good round ends. From every world in which the honest replicas are a quorum, stand together at the start of a round, and
   nothing speaks against what its honest leader has to propose, some steps lead to a world in which the leader's block is
   accepted by peers, and in which every honest replica commits it when its timer next fires, whatever its surroundings.
   */
  lemma GoodRoundDecides(cfg: Config, w: World, b: Ballot) returns (w': World)
    requires Ready(cfg, w, b) && Standing(cfg, w, b, Election)
    ensures Leads(cfg, w, w') && w'.nodes.Keys == w.nodes.Keys
    ensures Decision(cfg, b, w.nodes.Keys) in w'.decided
    ensures forall i, env :: i in w'.nodes ==> HandlePhase(w'.nodes[i], env).decided == Some(Decision(cfg, b, w.nodes.Keys))
  {
    var w1 := RoundIsPrepared(cfg, w, b);
    var w1' := RoundIsVoted(cfg, w1, b);
    LeadsJoin(cfg, w, w1, w1');
    var w2 := RoundIsCommitted(cfg, w1', b);
    LeadsJoin(cfg, w, w1', w2);
    w' := BlockIsAccepted(cfg, w2, b);
    LeadsJoin(cfg, w, w2, w');
  }

  /**
   No reachable world is stuck in which honest replicas, a quorum, meet at the start of a round without locks: whatever has
   happened before, faulty replicas or not, some continuation of the run accepts the block that its leader produces.
   */
  lemma UnlockedRunsCanDecide(cfg: Config, worlds: seq<World>, steps: seq<Step>, k: nat, b: Ballot) returns (w': World)
    requires Run(cfg, worlds, steps) && k <= |steps|
    requires cfg.committee.IsQuorum(worlds[k].nodes.Keys) && Standing(cfg, worlds[k], b, Election) && b.leader in worlds[k].nodes
    requires forall i :: i in worlds[k].nodes ==> worlds[k].nodes[i].highQC.None? && UpToDate(cfg, worlds[k].nodes[i], b)
    ensures Leads(cfg, worlds[k], w') && Decision(cfg, b, worlds[k].nodes.Keys) in w'.decided
  {
    RunKeepsInv(cfg, worlds, steps, k);
    RunKeepsSelf(cfg, worlds, steps, k);
    w' := GoodRoundDecides(cfg, worlds[k], b);
  }

  /**
   In fresh runs the same holds with locks, as long as no honest lock is from a later round than the leader's, which comes with
   its block and results and is one that the others accept: some continuation accepts the block that the leader is locked on.
   */
  lemma LockedRunsCanDecide(cfg: Config, worlds: seq<World>, steps: seq<Step>, k: nat, b: Ballot, lock: QC) returns (w': World)
    requires Run(cfg, worlds, steps) && k <= |steps| && FreshRun(worlds, steps, k)
    requires cfg.committee.IsQuorum(worlds[k].nodes.Keys) && Standing(cfg, worlds[k], b, Election) && b.leader in worlds[k].nodes
    requires worlds[k].nodes[b.leader].highQC == Some(lock) && CarriesValue(lock) && lock.block == Some(b.block) && lock.results == Some(b.results)
    requires forall i :: i in worlds[k].nodes ==> UpToDate(cfg, worlds[k].nodes[i], b) && Yields(cfg, worlds[k].log, worlds[k].nodes[i], lock)
    ensures Leads(cfg, worlds[k], w') && Decision(cfg, b, worlds[k].nodes.Keys) in w'.decided
  {
    var w := worlds[k];
    FreshRunKeepsSafeInv(cfg, worlds, steps, k);
    RunKeepsSelf(cfg, worlds, steps, k);
    forall i | i in w.nodes && w.nodes[i].highQC.Some?
      ensures w.nodes[i].highQC.value.Value() == lock.Value() || w.nodes[i].highQC.value.view.round < lock.view.round
    {
      assert SafeNodeInv(cfg, w.log, i, w.nodes[i]) && SafeNodeInv(cfg, w.log, b.leader, w.nodes[b.leader]);
      if w.nodes[i].highQC.value.view.round == lock.view.round {
        OneCertificatePerView(cfg, w, w.nodes[i].highQC.value.SignBytes(), lock.SignBytes());
      }
    }
    w' := GoodRoundDecides(cfg, w, b);
  }

  /** The replica accepts the lock, and has none from a later round. */
  ghost predicate Yields(cfg: Config, log: seq<Signed>, n: Node, lock: QC) {
    && CheckHighQC(cfg.committee, log, lock, cfg.height, n.lastRootHeightUpdated)
    && (n.highQC.Some? ==> n.highQC.value.view.round <= lock.view.round)
  }

  lemma {:induction false} RunKeepsSelf(cfg: Config, worlds: seq<World>, steps: seq<Step>, k: nat)
    requires Run(cfg, worlds, steps) && k <= |steps|
    ensures forall i :: i in worlds[k].nodes ==> worlds[k].nodes[i].self == i
  {
    if k != 0 {
      RunKeepsSelf(cfg, worlds, steps, k - 1);
      var w, s := worlds[k - 1], steps[k - 1];
      assert worlds[k] == Next(cfg, w, s);
      if s.Timeout? {
        assert HandlePhase(w.nodes[s.at], s.env).node.self == w.nodes[s.at].self;
      }
    }
  }
}
