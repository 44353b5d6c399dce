/** The Pacemaker's new round, and the wait times that make every interrupted replica end a round at the same moment. */
module Rounds {
  import opened Certificates
  import opened Replica

  /** After the Pacemaker a replica is in a later round, and not behind the round that it jumped to. */
  lemma PacemakerRaisesRound(n: Node, pacemakerRound: nat)
    ensures var round := PacemakerPhase(n, pacemakerRound).view.round;
      n.view.round + 1 <= round && pacemakerRound <= round && (round == n.view.round + 1 || round == pacemakerRound)
  {
  }

  // ---------------------------------------------------------------------------------------------
  // Wait times
  // ---------------------------------------------------------------------------------------------

  /** The configured timeouts, in milliseconds. */
  datatype Timeouts = Timeouts(election: nat, electionVote: nat, propose: nat, proposeVote: nat, precommit: nat, precommitVote: nat, commit: nat)

  /** The wait before the next phase, for a replica that is in the given phase. */
  function WaitTime(t: Timeouts, phase: Phase, round: nat, roundInterruptTimeout: nat): nat {
    match phase
    case Election => t.election * (2 * round + 1)
    case ElectionVote => t.electionVote * (2 * round + 1)
    case Propose => t.propose * (2 * round + 1)
    case ProposeVote => t.proposeVote * (2 * round + 1)
    case Precommit => t.precommit * (2 * round + 1)
    case PrecommitVote => t.precommitVote * (2 * round + 1)
    case Commit => t.commit * (2 * round + 1)
    case CommitProcess => 60000 * (2 * round + 1)
    case RoundInterrupt => roundInterruptTimeout
    case Pacemaker => 0
  }

  /** Every phase waits for its own configured timeout in round 0, and for twice that longer in each later round; after a commit, a minute. */
  lemma WaitsGrowWithRounds(t: Timeouts, phase: Phase, round: nat, roundInterruptTimeout: nat)
    requires phase != RoundInterrupt
    ensures WaitTime(t, phase, round + 1, roundInterruptTimeout) == WaitTime(t, phase, round, roundInterruptTimeout) + 2 * WaitTime(t, phase, 0, roundInterruptTimeout)
    ensures seq(9, (i: nat) requires i < 9 => WaitTime(t, [Election, ElectionVote, Propose, ProposeVote, Precommit, PrecommitVote, Commit, CommitProcess, Pacemaker][i], 0, roundInterruptTimeout))
         == [t.election, t.electionVote, t.propose, t.proposeVote, t.precommit, t.precommitVote, t.commit, 60000, 0]
  {
  }

  /** What is left of the round, from the phase in which it is interrupted. */
  function MsLeftInRound(t: Timeouts, phase: Phase, round: nat): nat {
    var electionMs := WaitTime(t, Election, round, 0);
    var electionVoteMs := WaitTime(t, ElectionVote, round, 0);
    var proposeMs := WaitTime(t, Propose, round, 0);
    var proposeVoteMs := WaitTime(t, ProposeVote, round, 0);
    var precommitMs := WaitTime(t, Precommit, round, 0);
    var precommitVoteMs := WaitTime(t, PrecommitVote, round, 0);
    var commitMs := WaitTime(t, Commit, round, 0);
    match phase
    case Election => electionMs + electionVoteMs + proposeMs + proposeVoteMs + precommitMs + precommitVoteMs + commitMs
    case ElectionVote => electionVoteMs + proposeMs + proposeVoteMs + precommitMs + precommitVoteMs + commitMs
    case Propose => proposeMs + proposeVoteMs + precommitMs + precommitVoteMs + commitMs
    case ProposeVote => proposeVoteMs + precommitMs + precommitVoteMs + commitMs
    case Precommit => precommitMs + precommitVoteMs + commitMs
    case PrecommitVote => precommitVoteMs + commitMs
    case Commit => commitMs
    case _ => 0
  }

  /**
   Simulates one replica from the start of a round: it runs the phases in turn, each after the wait set
   by the one before, and interrupts the round in the given phase. Returns the time at which its Pacemaker starts.
   */
  function PacemakerStart(t: Timeouts, n: Node, interruptIn: Phase, now: nat): nat
    requires n.view.phase.Ord() <= interruptIn.Ord() <= CommitProcess.Ord()
    decreases interruptIn.Ord() - n.view.phase.Ord()
  {
    if n.view.phase == interruptIn then
      var left := MsLeftInRound(t, n.view.phase, n.view.round);
      now + WaitTime(t, RoundInterrupted(n).view.phase, n.view.round, left)
    else
      PacemakerStart(t, SetTimerForNextPhase(n), interruptIn, now + WaitTime(t, n.view.phase, n.view.round, 0))
  }

  /** Whichever phase a replica interrupts in, its Pacemaker starts when the whole round is over. */
  lemma {:induction false} RoundAlignment(t: Timeouts, n: Node, interruptIn: Phase, now: nat)
    requires n.view.phase.Ord() <= interruptIn.Ord() <= CommitProcess.Ord()
    ensures PacemakerStart(t, n, interruptIn, now) == now + MsLeftInRound(t, n.view.phase, n.view.round)
    decreases interruptIn.Ord() - n.view.phase.Ord()
  {
    if n.view.phase != interruptIn {
      RoundAlignment(t, SetTimerForNextPhase(n), interruptIn, now + WaitTime(t, n.view.phase, n.view.round, 0));
    }
  }

  /** Two replicas that start a round together reach the Pacemaker together, after all seven waits of that round. */
  lemma InterruptedReplicasMeet(t: Timeouts, a: Node, b: Node, pa: Phase, pb: Phase, now: nat)
    requires a.view.phase == b.view.phase == Election && a.view.round == b.view.round
    requires pa.Ord() <= CommitProcess.Ord() && pb.Ord() <= CommitProcess.Ord()
    ensures PacemakerStart(t, a, pa, now) == PacemakerStart(t, b, pb, now)
    ensures PacemakerStart(t, a, pa, now) == now +
      (t.election + t.electionVote + t.propose + t.proposeVote + t.precommit + t.precommitVote + t.commit) * (2 * a.view.round + 1)
  {
    RoundAlignment(t, a, pa, now);
    RoundAlignment(t, b, pb, now);
    SevenWaits(t, a.view.round);
  }

  lemma SevenWaits(t: Timeouts, round: nat)
    ensures MsLeftInRound(t, Election, round) ==
      (t.election + t.electionVote + t.propose + t.proposeVote + t.precommit + t.precommitVote + t.commit) * (2 * round + 1)
  {
    var m := 2 * round + 1;
    Distribute(t.election, t.electionVote, m);
    Distribute(t.election + t.electionVote, t.propose, m);
    Distribute(t.election + t.electionVote + t.propose, t.proposeVote, m);
    Distribute(t.election + t.electionVote + t.propose + t.proposeVote, t.precommit, m);
    Distribute(t.election + t.electionVote + t.propose + t.proposeVote + t.precommit, t.precommitVote, m);
    Distribute(t.election + t.electionVote + t.propose + t.proposeVote + t.precommit + t.precommitVote, t.commit, m);
  }

  lemma Distribute(a: nat, b: nat, m: nat)
    ensures (a + b) * m == a * m + b * m
  {
  }
}
