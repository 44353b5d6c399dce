/**
 What the verdict on a proposal is good for: when a replica votes, step by step and exactly; and over every run, that
 honest votes are for proposals found valid, so that no block is accepted that a quorum's honest members have not checked.
 */
module Validity {
  import opened Options
  import opened Quorum
  import opened Certificates
  import opened Replica
  import opened Agreement

  // ---------------------------------------------------------------------------------------------
  // When a replica votes
  // ---------------------------------------------------------------------------------------------

  /** The message may be voted for while locked: it is justified, and by the lock's own value or by a later round. */
  predicate Passes(lock: QC, m: ProposerMsg) {
    && m.highQC.Some?
    && m.highQC.value.Value() == (BlockToHash(m.qc.block), ResultsHash(m.qc.results))
    && (m.highQC.value.Value() == lock.Value() || lock.view.round < m.highQC.value.view.round)
  }

  /** Nothing in the message itself speaks against a vote: it passes the lock, if there is one, and is built recently enough. */
  predicate Votable(n: Node, m: ProposerMsg) {
    && (n.highQC.Some? ==> Passes(n.highQC.value, m))
    && n.lastRootHeightUpdated <= m.rcBuildHeight
  }

  /** The message is for the value that the replica holds, and from the leader that it follows. */
  predicate Matches(n: Node, m: ProposerMsg) {
    n.proposerKey == Some(m.sender) && m.qc.Value() == (BlockToHash(n.block), ResultsHash(n.results))
  }

  predicate Stored(n: Node, phase: Phase) {
    (n.view.round, phase) in n.proposals
  }

  lemma SafeNodeExactlyWhen(lock: QC, m: ProposerMsg)
    ensures SafeNode(lock, m).None? <==> Passes(lock, m)
  {
  }

  /** An election vote is for the elected leader and for no block. */
  lemma ElectionVoteExactly(n: Node, env: Env)
    requires n.view.phase == ElectionVote
    ensures HandlePhase(n, env) == Effect(n.(view := n.view.(phase := Propose), proposerKey := None), Some(Payload(n.view, NoDigest, NoDigest, env.leader)), None)
  {
  }

  /** With a majority behind it, a locked leader proposes what it is locked on, an unlocked one what it has produced. */
  lemma ProposalExactly(n: Node, env: Env)
    requires n.view.phase == Propose
    ensures var e := HandlePhase(n, env);
      && e.vote.None? && e.decided.None? && e.node.view == n.view.(phase := ProposeVote) && e.node.highQC == n.highQC
      && (!env.majority ==> e.node == n.(view := e.node.view))
      && (env.majority && n.highQC.Some? ==>
            (e.node.block, e.node.results, e.node.rcBuildHeight) == (n.highQC.value.block, n.highQC.value.results, n.rcBuildHeight))
      && (env.majority && n.highQC.None? && env.produced.Some? ==>
            var p := env.produced.value; (e.node.block, e.node.results, e.node.rcBuildHeight) == (Some(p.block), Some(p.results), p.rcBuildHeight))
      && (env.majority && n.highQC.None? && env.produced.None? ==> (e.node.block, e.node.results, e.node.rcBuildHeight) == (None, None, 0))
  {
  }

  /** A replica votes for a proposal exactly if one has arrived, nothing in it speaks against that, and it is found valid. */
  lemma ProposeVoteExactlyWhen(n: Node, env: Env)
    requires n.view.phase == ProposeVote
    ensures var e := HandlePhase(n, env);
      && e.decided.None?
      && (e.vote.Some? <==> Stored(n, Propose) && Votable(n, n.proposals[(n.view.round, Propose)]) && env.valid)
      && (e.vote.Some? ==>
            var m := n.proposals[(n.view.round, Propose)];
            && e.vote.value == Payload(n.view, BlockToHash(m.qc.block), ResultsHash(m.qc.results), m.sender)
            && e.node == n.(view := n.view.(phase := Precommit), proposerKey := Some(m.sender), block := m.qc.block, results := m.qc.results))
      && (e.vote.None? ==> e.node == n.(view := n.view.(phase := Pacemaker), proposerKey := e.node.proposerKey))
  {
    if Stored(n, Propose) && n.highQC.Some? {
      SafeNodeExactlyWhen(n.highQC.value, n.proposals[(n.view.round, Propose)]);
    }
  }

  /** A leader interrupts the round exactly if it lacks a majority; others just move on. */
  lemma LeaderGoesOnExactlyWhen(n: Node, env: Env)
    requires n.view.phase == Precommit || n.view.phase == Commit
    ensures var next := if n.view.phase == Precommit then PrecommitVote else CommitProcess;
      HandlePhase(n, env) == Effect(n.(view := n.view.(phase := if n.proposerKey == Some(n.self) && !env.majority then Pacemaker else next)), None, None)
  {
  }

  /** A replica votes to commit exactly if its leader's certificate is for the value that it holds, and then locks on it. */
  lemma CommitVoteExactlyWhen(n: Node, env: Env)
    requires n.view.phase == PrecommitVote
    ensures var e := HandlePhase(n, env);
      && e.decided.None?
      && (e.vote.Some? <==> Stored(n, Precommit) && Matches(n, n.proposals[(n.view.round, Precommit)]))
      && (e.vote.Some? ==>
            var m := n.proposals[(n.view.round, Precommit)];
            && e.vote.value == Payload(n.view, m.qc.blockHash, m.qc.resultsHash, m.sender)
            && e.node == n.(view := n.view.(phase := Commit), rcBuildHeight := m.rcBuildHeight,
                            highQC := Some(m.qc.(block := n.block, results := n.results))))
      && (e.vote.None? ==> e.node == n.(view := n.view.(phase := Pacemaker)))
  {
  }

  /** A replica commits exactly if its leader's certificate is for the value that it holds. */
  lemma CommitsExactlyWhen(n: Node, env: Env)
    requires n.view.phase == CommitProcess
    ensures var e := HandlePhase(n, env);
      && e.vote.None?
      && (e.decided.Some? <==> Stored(n, Commit) && Matches(n, n.proposals[(n.view.round, Commit)]))
      && (e.decided.Some? ==> e.node == n && e.decided.value == n.proposals[(n.view.round, Commit)].qc.(block := n.block, results := n.results))
      && (e.decided.None? ==> e.node == n.(view := n.view.(phase := Pacemaker)))
  {
  }

  /** After the Pacemaker a replica starts a later round from the beginning, keeping nothing but its lock and its messages. */
  lemma PacemakerExactly(n: Node, env: Env)
    requires n.view.phase == Pacemaker
    ensures var round := if env.pacemakerRound <= n.view.round then n.view.round + 1 else env.pacemakerRound;
      HandlePhase(n, env) == Effect(n.(view := n.view.(round := round, phase := Election), proposerKey := None, block := None, results := None), None, None)
  {
  }

  // ---------------------------------------------------------------------------------------------
  // Over every run
  // ---------------------------------------------------------------------------------------------

  /** In this step replica i has found the proposal behind payload p valid: stored for p's round, recent, and passing its lock. */
  ghost predicate FindsValid(w: World, s: Step, i: nat, p: Payload) {
    && s.Timeout? && s.at == i && i in w.nodes && s.env.valid
    && var n := w.nodes[i];
    && n.view == p.view
    && Stored(n, Propose)
    && var m := n.proposals[(n.view.round, Propose)];
    && Votable(n, m)
    && p == Payload(n.view, BlockToHash(m.qc.block), ResultsHash(m.qc.results), m.sender)
  }

  /** Every honest PROPOSE-VOTE, in every run, was made in a step in which the replica found that very proposal valid. */
  lemma HonestVotesAreValid(cfg: Config, worlds: seq<World>, steps: seq<Step>, k: nat, i: nat, p: Payload) returns (j: nat)
    requires Run(cfg, worlds, steps) && k <= |steps|
    requires cfg.Honest(i) && Signed(i, p) in worlds[k].log && p.view.phase == ProposeVote
    ensures j < k && FindsValid(worlds[j], steps[j], i, p)
  {
    j := HonestVotesAreCast(cfg, worlds, steps, k, i, p);
    var n := worlds[j].nodes[i];
    VotesAreForTheCurrentView(n, steps[j].env);
    ProposeVoteExactlyWhen(n, steps[j].env);
  }

  /** Replica i has found a proposal with this value valid before step k. */
  ghost predicate HasFoundValid(worlds: seq<World>, steps: seq<Step>, k: nat, i: nat, value: (Digest, Digest))
    requires k <= |steps| < |worlds|
  {
    exists j, p :: 0 <= j < k && FindsValid(worlds[j], steps[j], i, p) && p.Value() == value
  }

  /** A quorum whose honest members have all found the value valid. */
  ghost predicate ValidatedBy(cfg: Config, worlds: seq<World>, steps: seq<Step>, k: nat, voters: set<nat>, value: (Digest, Digest))
    requires k <= |steps| < |worlds|
  {
    && cfg.committee.IsQuorum(voters)
    && forall i :: i in voters && i !in cfg.faulty ==> HasFoundValid(worlds, steps, k, i, value)
  }

  /** The honest members of every quorum that has voted for a proposal have found it valid. */
  lemma CertifiedIsValid(cfg: Config, worlds: seq<World>, steps: seq<Step>, k: nat, q: Payload)
    requires Run(cfg, worlds, steps) && k <= |steps|
    requires Certified(cfg.committee, worlds[k].log, q) && q.view.phase == ProposeVote
    ensures ValidatedBy(cfg, worlds, steps, k, Signers(cfg.committee, worlds[k].log, q), q.Value())
  {
    forall i | i in Signers(cfg.committee, worlds[k].log, q) && i !in cfg.faulty
      ensures HasFoundValid(worlds, steps, k, i, q.Value())
    {
      var j := HonestVotesAreValid(cfg, worlds, steps, k, i, q);
    }
  }

  /**
   External validity. In every run whose requests to commit are fresh: behind every certificate to commit stands a quorum whose
   honest members, more than a third of all power, have each found a proposal with that block and results valid.
   */
  lemma CommittedIsValid(cfg: Config, worlds: seq<World>, steps: seq<Step>, k: nat, p: Payload) returns (voters: set<nat>)
    requires Run(cfg, worlds, steps) && k <= |steps| && FreshRun(worlds, steps, k)
    requires IsCommit(cfg, worlds[k].log, p)
    ensures ValidatedBy(cfg, worlds, steps, k, voters, p.Value())
    ensures cfg.committee.TotalPower() < 3 * cfg.committee.Power(voters - cfg.faulty)
  {
    FreshRunKeepsSafeInv(cfg, worlds, steps, k);
    CommitIsPrepared(cfg, worlds[k], p);
    var q :| Certified(cfg.committee, worlds[k].log, q) && q.view.phase == ProposeVote && p.view.round <= q.view.round && q.Value() == p.Value();
    CertifiedIsValid(cfg, worlds, steps, k, q);
    voters := Signers(cfg.committee, worlds[k].log, q);
    HonestPower(cfg.committee, cfg.faulty, voters);
  }

  /** A quorum without its faulty members has more than a third of the power. */
  lemma HonestPower(c: Committee, faulty: set<nat>, voters: set<nat>)
    requires c.Tolerates(faulty) && c.IsQuorum(voters)
    ensures c.TotalPower() < 3 * c.Power(voters - faulty)
  {
    PowerSplits(c.powers, voters, faulty, c.Size());
  }

  lemma {:induction false} PowerSplits(powers: seq<nat>, a: set<nat>, b: set<nat>, n: nat)
    requires n <= |powers|
    ensures PowerTo(powers, a, n) <= PowerTo(powers, a - b, n) + PowerTo(powers, b, n)
  {
    if n != 0 {
      PowerSplits(powers, a, b, n - 1);
    }
  }

  /** An accepted block came with content that agrees with its certificate. */
  lemma {:induction false} DecidedHasContent(cfg: Config, worlds: seq<World>, steps: seq<Step>, k: nat, b: QC)
    requires Run(cfg, worlds, steps) && k <= |steps| && b in worlds[k].decided
    ensures b.block.Some? && b.results.Some? && b.Value() == (BlockToHash(b.block), ResultsHash(b.results))
  {
    if b in worlds[k - 1].decided {
      DecidedHasContent(cfg, worlds, steps, k - 1, b);
    }
  }

  /** No block is accepted, in any run with fresh requests, that some honest replica has not itself found valid: that block and those results. */
  lemma AcceptedBlocksAreValid(cfg: Config, worlds: seq<World>, steps: seq<Step>, k: nat, b: QC) returns (i: nat, j: nat)
    requires Run(cfg, worlds, steps) && k <= |steps| && FreshRun(worlds, steps, k)
    requires b in worlds[k].decided
    ensures cfg.Honest(i) && j < k && i in worlds[j].nodes && steps[j].Timeout? && steps[j].at == i && steps[j].env.valid
    ensures var n := worlds[j].nodes[i];
      && Stored(n, Propose) && Votable(n, n.proposals[(n.view.round, Propose)])
      && n.proposals[(n.view.round, Propose)].qc.block == b.block
      && n.proposals[(n.view.round, Propose)].qc.results == b.results
  {
    RunKeepsInv(cfg, worlds, steps, k);
    DecidedHasContent(cfg, worlds, steps, k, b);
    var voters := CommittedIsValid(cfg, worlds, steps, k, b.SignBytes());
    i := HonestOverlap(cfg.committee, cfg.faulty, voters, voters);
    assert HasFoundValid(worlds, steps, k, i, b.Value());
    var p: Payload;
    j, p :| 0 <= j < k && FindsValid(worlds[j], steps[j], i, p) && p.Value() == b.Value();
  }
}
