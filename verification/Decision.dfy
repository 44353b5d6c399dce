/** A run of the protocol that decides: a lone validator elects itself, proposes, locks and commits in round 0. */
module Decision {
  import opened Options
  import opened Quorum
  import opened Certificates
  import opened Replica
  import opened Agreement

  /** The world is the end of some run. */
  ghost predicate Reachable(cfg: Config, w: World) {
    exists worlds, steps :: Run(cfg, worlds, steps) && worlds[|steps|] == w
  }

  lemma RunExtends(cfg: Config, worlds: seq<World>, steps: seq<Step>, s: Step)
    requires Run(cfg, worlds, steps) && Enabled(cfg, worlds[|steps|], s)
    ensures Run(cfg, worlds + [Next(cfg, worlds[|steps|], s)], steps + [s])
  {
    var worlds', steps' := worlds + [Next(cfg, worlds[|steps|], s)], steps + [s];
    forall k | 0 <= k < |steps'|
      ensures Enabled(cfg, worlds'[k], steps'[k]) && worlds'[k + 1] == Next(cfg, worlds'[k], steps'[k])
    {
      assert worlds'[k] == worlds[k];
    }
  }

  lemma ReachableByStep(cfg: Config, w: World, s: Step)
    requires Reachable(cfg, w) && Enabled(cfg, w, s)
    ensures Reachable(cfg, Next(cfg, w, s))
  {
    var worlds, steps :| Run(cfg, worlds, steps) && worlds[|steps|] == w;
    RunExtends(cfg, worlds, steps, s);
    assert (worlds + [Next(cfg, w, s)])[|steps + [s]|] == Next(cfg, w, s);
  }

  function Lone(height: nat, rootHeight: nat): Config {
    Config(Committee([1]), {}, height, rootHeight)
  }

  const YES: Env := Env(0, true, Some(Produced(0, 7, 8)), true, 0)

  /** The lone validator's signature is a quorum. */
  lemma LoneQuorum(height: nat, rootHeight: nat)
    ensures var c := Lone(height, rootHeight).committee; c.IsQuorum({0}) && c.Tolerates({}) && c.Size() == 1
  {
    var powers := [1];
    assert SumTo(powers, 1) == SumTo(powers, 0) + 1 == 1;
    assert PowerTo(powers, {0}, 1) == PowerTo(powers, {0}, 0) + 1 == 1;
    assert PowerTo(powers, {}, 1) == PowerTo(powers, {}, 0) == 0;
  }

  function ViewAt(cfg: Config, phase: Phase): View {
    View(cfg.height, cfg.rootHeight, 0, phase)
  }

  function Start(cfg: Config): Node {
    Node(0, ViewAt(cfg, Election), map[], None, 0, None, None, None, 0, 0)
  }

  function VoteIn(cfg: Config, phase: Phase): Payload {
    Payload(ViewAt(cfg, phase), BlockToHash(Some(7)), ResultsHash(Some(8)), 0)
  }

  function LeaderMessage(cfg: Config, phase: Phase, vote: Phase): ProposerMsg {
    var content := phase == Propose;
    ProposerMsg(ViewAt(cfg, phase), 0,
                QC(ViewAt(cfg, vote), BlockToHash(Some(7)), ResultsHash(Some(8)), 0,
                   if content then Some(7) else None, if content then Some(8) else None, {0}), None, 0)
  }

  function ElectionBallot(cfg: Config): Payload {
    Payload(ViewAt(cfg, ElectionVote), NoDigest, NoDigest, 0)
  }

  /** The lone validator is in some run in this state, with these signatures made and nothing decided. */
  ghost predicate Stage(cfg: Config, n: Node, log: seq<Signed>) {
    Reachable(cfg, World(map[0 := n], log, {}))
  }

  /** One timer step of the lone validator. */
  lemma Times(cfg: Config, n: Node, log: seq<Signed>, node: Node, vote: Option<Payload>)
    requires Stage(cfg, n, log)
    requires HandlePhase(n, YES) == Effect(node, vote, None)
    ensures Stage(cfg, node, log + Signatures(0, vote))
  {
    var w := World(map[0 := n], log, {});
    ReachableByStep(cfg, w, Timeout(0, YES));
    assert Next(cfg, w, Timeout(0, YES)) == World(map[0 := node], log + Signatures(0, vote), {});
  }

  /** A timer step without a signature. */
  lemma Waits(cfg: Config, n: Node, log: seq<Signed>, node: Node)
    requires Stage(cfg, n, log)
    requires HandlePhase(n, YES) == Effect(node, None, None)
    ensures Stage(cfg, node, log)
  {
    Times(cfg, n, log, node, None);
    assert log + [] == log;
  }

  /** The lone validator's own message reaches itself. */
  lemma Hears(cfg: Config, n: Node, log: seq<Signed>, m: ProposerMsg)
    requires Stage(cfg, n, log)
    requires CheckProposerMessage(cfg.committee, log, m, n.Params()) == Accepted
    ensures Stage(cfg, AddProposal(n, m), log)
  {
    var w := World(map[0 := n], log, {});
    ReachableByStep(cfg, w, DeliverProposal(0, m));
    assert w.nodes[0 := AddProposal(n, m)] == map[0 := AddProposal(n, m)];
  }

  /** A certificate by the lone validator over its own vote is accepted as justification. */
  lemma LeaderIsBelieved(height: nat, rootHeight: nat, n: Node, log: seq<Signed>, phase: Phase, vote: Phase)
    requires (phase, vote) in {(Propose, ElectionVote), (Precommit, ProposeVote), (Commit, PrecommitVote)}
    requires var cfg := Lone(height, rootHeight);
      && Signed(0, if phase == Propose then ElectionBallot(cfg) else VoteIn(cfg, vote)) in log
      && n.block == Some(7) && n.results == Some(8)
      && n.lastRootHeightUpdated == n.lastChainHeightUpdated == 0
      && n.view.height == height && n.view.rootHeight == rootHeight
    ensures var cfg := Lone(height, rootHeight);
      var m := LeaderMessage(cfg, phase, vote);
      CheckProposerMessage(cfg.committee, log, m, n.Params()) == Accepted
  {
    LoneQuorum(height, rootHeight);
    var cfg := Lone(height, rootHeight);
    var m := LeaderMessage(cfg, phase, vote);
    assert m.qc.CheckBasic() && Verifies(cfg.committee, log, m.qc);
  }

  function Elected(cfg: Config): Node {
    Start(cfg).(view := ViewAt(cfg, Propose))
  }

  function Proposing(cfg: Config): Node {
    Elected(cfg).(view := ViewAt(cfg, ProposeVote), block := Some(7), results := Some(8))
  }

  function Voting(cfg: Config): Node {
    AddProposal(Proposing(cfg), LeaderMessage(cfg, Propose, ElectionVote))
  }

  function Voted(cfg: Config): Node {
    Voting(cfg).(view := ViewAt(cfg, PrecommitVote), proposerKey := Some(0))
  }

  function Locking(cfg: Config): Node {
    AddProposal(Voted(cfg), LeaderMessage(cfg, Precommit, ProposeVote))
  }

  function Locked(cfg: Config): Node {
    Locking(cfg).(view := ViewAt(cfg, CommitProcess),
                  highQC := Some(LeaderMessage(cfg, Precommit, ProposeVote).qc.(block := Some(7), results := Some(8))))
  }

  function Committing(cfg: Config): Node {
    AddProposal(Locked(cfg), LeaderMessage(cfg, Commit, PrecommitVote))
  }

  /** Its first votes: for itself, for the block, and to commit it. */
  function Signing(cfg: Config, votes: nat): seq<Signed> {
    [Signed(0, ElectionBallot(cfg)), Signed(0, VoteIn(cfg, ProposeVote)), Signed(0, VoteIn(cfg, PrecommitVote))][..if votes < 3 then votes else 3]
  }

  lemma Starts(height: nat, rootHeight: nat)
    ensures Stage(Lone(height, rootHeight), Start(Lone(height, rootHeight)), [])
  {
    var cfg := Lone(height, rootHeight);
    LoneQuorum(height, rootHeight);
    assert Run(cfg, [World(map[0 := Start(cfg)], [], {})], []);
  }

  lemma Elects(height: nat, rootHeight: nat)
    ensures Stage(Lone(height, rootHeight), Elected(Lone(height, rootHeight)), Signing(Lone(height, rootHeight), 1))
  {
    var cfg := Lone(height, rootHeight);
    Starts(height, rootHeight);
    var n := Start(cfg).(view := ViewAt(cfg, ElectionVote));
    Waits(cfg, Start(cfg), [], n);
    Times(cfg, n, [], Elected(cfg), Some(ElectionBallot(cfg)));
    assert [] + [Signed(0, ElectionBallot(cfg))] == Signing(cfg, 1);
  }

  lemma Proposes(height: nat, rootHeight: nat)
    ensures Stage(Lone(height, rootHeight), Voting(Lone(height, rootHeight)), Signing(Lone(height, rootHeight), 1))
  {
    var cfg := Lone(height, rootHeight);
    Elects(height, rootHeight);
    Waits(cfg, Elected(cfg), Signing(cfg, 1), Proposing(cfg));
    assert Signing(cfg, 1)[0] == Signed(0, ElectionBallot(cfg));
    LeaderIsBelieved(height, rootHeight, Proposing(cfg), Signing(cfg, 1), Propose, ElectionVote);
    Hears(cfg, Proposing(cfg), Signing(cfg, 1), LeaderMessage(cfg, Propose, ElectionVote));
  }

  lemma VotesForIt(height: nat, rootHeight: nat)
    ensures Stage(Lone(height, rootHeight), Locking(Lone(height, rootHeight)), Signing(Lone(height, rootHeight), 2))
  {
    var cfg := Lone(height, rootHeight);
    Proposes(height, rootHeight);
    var n := Voting(cfg).(view := ViewAt(cfg, Precommit), proposerKey := Some(0));
    Times(cfg, Voting(cfg), Signing(cfg, 1), n, Some(VoteIn(cfg, ProposeVote)));
    assert Signing(cfg, 1) + [Signed(0, VoteIn(cfg, ProposeVote))] == Signing(cfg, 2);
    Waits(cfg, n, Signing(cfg, 2), Voted(cfg));
    assert Signing(cfg, 2)[1] == Signed(0, VoteIn(cfg, ProposeVote));
    LeaderIsBelieved(height, rootHeight, Voted(cfg), Signing(cfg, 2), Precommit, ProposeVote);
    Hears(cfg, Voted(cfg), Signing(cfg, 2), LeaderMessage(cfg, Precommit, ProposeVote));
  }

  lemma LocksOnIt(height: nat, rootHeight: nat)
    ensures Stage(Lone(height, rootHeight), Committing(Lone(height, rootHeight)), Signing(Lone(height, rootHeight), 3))
  {
    var cfg := Lone(height, rootHeight);
    VotesForIt(height, rootHeight);
    var n := Locked(cfg).(view := ViewAt(cfg, Commit));
    Times(cfg, Locking(cfg), Signing(cfg, 2), n, Some(VoteIn(cfg, PrecommitVote)));
    assert Signing(cfg, 2) + [Signed(0, VoteIn(cfg, PrecommitVote))] == Signing(cfg, 3);
    Waits(cfg, n, Signing(cfg, 3), Locked(cfg));
    assert Signing(cfg, 3)[2] == Signed(0, VoteIn(cfg, PrecommitVote));
    LeaderIsBelieved(height, rootHeight, Locked(cfg), Signing(cfg, 3), Commit, PrecommitVote);
    Hears(cfg, Locked(cfg), Signing(cfg, 3), LeaderMessage(cfg, Commit, PrecommitVote));
  }

  /** The protocol can decide: the certificate that a lone validator sends out at the end of some run is accepted with its block. */
  lemma LoneValidatorDecides(height: nat, rootHeight: nat)
    ensures exists w, qc :: Reachable(Lone(height, rootHeight), w) && qc in w.decided && qc.block == Some(7)
  {
    var cfg := Lone(height, rootHeight);
    LocksOnIt(height, rootHeight);
    var qc := LeaderMessage(cfg, Commit, PrecommitVote).qc.(block := Some(7), results := Some(8));
    assert HandlePhase(Committing(cfg), YES) == Effect(Committing(cfg), None, Some(qc));
    var w := World(map[0 := Committing(cfg)], Signing(cfg, 3), {});
    LoneQuorum(height, rootHeight);
    assert Signing(cfg, 3)[2] == Signed(0, VoteIn(cfg, PrecommitVote));
    assert qc.CheckBasic() && Verifies(cfg.committee, w.log, qc);
    ReachableByStep(cfg, w, DeliverBlock(qc));
    assert qc in Next(cfg, w, DeliverBlock(qc)).decided;
  }
}
