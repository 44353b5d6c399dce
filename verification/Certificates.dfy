/**
 Views, signed payloads, quorum certificates and the checks made on them when they arrive.
 A signature is an unforgeable token: the log lists every payload that a committee member signed,
 and a certificate verifies when each signer in its bitmap has signed the certificate's payload.
 A hash is a free constructor, so two hashes are equal only if the hashed contents are.
 */
module Certificates {
  import opened Options
  import opened Quorum

  datatype Phase =
    | Election
    | ElectionVote
    | Propose
    | ProposeVote
    | Precommit
    | PrecommitVote
    | Commit
    | CommitProcess
    | RoundInterrupt
    | Pacemaker
  {
    /** The phase's number on the wire; consecutive, starting at 1. */
    function Ord(): nat {
      match this
      case Election => 1
      case ElectionVote => 2
      case Propose => 3
      case ProposeVote => 4
      case Precommit => 5
      case PrecommitVote => 6
      case Commit => 7
      case CommitProcess => 8
      case RoundInterrupt => 9
      case Pacemaker => 10
    }
  }

  datatype View = View(height: nat, rootHeight: nat, round: nat, phase: Phase) {

    predicate Less(v: View) {
      if height < v.height then true
      else if height > v.height then false
      else if rootHeight < v.rootHeight then true
      else if rootHeight > v.rootHeight then false
      else if round < v.round then true
      else if round > v.round then false
      else phase.Ord() < v.phase.Ord()
    }
  }

  datatype Digest = NoDigest | BlockDigest(block: nat) | ResultsDigest(results: Option<nat>)

  function BlockToHash(block: Option<nat>): Digest {
    match block
    case None => NoDigest
    case Some(b) => BlockDigest(b)
  }

  function ResultsHash(results: Option<nat>): Digest {
    ResultsDigest(results)
  }

  /** What a replica's signature covers. */
  datatype Payload = Payload(view: View, blockHash: Digest, resultsHash: Digest, proposerKey: nat) {

    /** The value voted on: the block and the certificate results. */
    function Value(): (Digest, Digest) {
      (blockHash, resultsHash)
    }
  }

  datatype Signed = Signed(signer: nat, payload: Payload)

  datatype QC = QC(
    view: View,
    blockHash: Digest,
    resultsHash: Digest,
    proposerKey: nat,
    block: Option<nat>,
    results: Option<nat>,
    signers: set<nat>)
  {
    /** An election vote covers only the view and the elected proposer. */
    function SignBytes(): Payload {
      if view.phase == ElectionVote then Payload(view, NoDigest, NoDigest, proposerKey)
      else Payload(view, blockHash, resultsHash, proposerKey)
    }

    function Value(): (Digest, Digest) {
      (blockHash, resultsHash)
    }

    /** The stateless checks: whatever content is attached agrees with its hash. */
    predicate CheckBasic() {
      if resultsHash != NoDigest then
        && (results.Some? ==> resultsHash == ResultsHash(results))
        && (block.Some? ==> blockHash == BlockToHash(block))
      else
        results.None? && blockHash == NoDigest && block.None?
    }
  }

  /** Everyone in the committee who signed a payload. */
  ghost function Signers(c: Committee, log: seq<Signed>, p: Payload): set<nat> {
    set i | 0 <= i < c.Size() && Signed(i, p) in log
  }

  /** A full quorum signed the payload. */
  ghost predicate Certified(c: Committee, log: seq<Signed>, p: Payload) {
    c.IsQuorum(Signers(c, log, p))
  }

  /** The aggregate signature verifies against the bitmap. */
  predicate Verifies(c: Committee, log: seq<Signed>, qc: QC) {
    forall i :: i in qc.signers ==> i < c.Size() && Signed(i, qc.SignBytes()) in log
  }

  datatype CertCheck = Invalid | Partial | Full

  /** The outcome of checking a certificate: a valid signature may still fall short of a quorum. */
  function Check(c: Committee, log: seq<Signed>, qc: QC): CertCheck {
    if !qc.CheckBasic() || !Verifies(c, log, qc) then Invalid
    else if c.IsQuorum(qc.signers) then Full
    else Partial
  }

  /** A certificate that may justify a lock. */
  predicate CheckHighQC(c: Committee, log: seq<Signed>, qc: QC, height: nat, lastRootHeightUpdated: nat) {
    && Check(c, log, qc) == Full
    && lastRootHeightUpdated <= qc.view.rootHeight
    && qc.view.height == height
    && qc.view.phase == ProposeVote
  }

  /** A message of the leader after the election; header is the view in which it was sent. */
  datatype ProposerMsg = ProposerMsg(header: View, sender: nat, qc: QC, highQC: Option<QC>, rcBuildHeight: nat)

  /** What a replica knows when a message arrives. */
  datatype CheckParams = CheckParams(
    view: View,
    lastRootHeightUpdated: nat,
    lastChainHeightUpdated: nat,
    block: Option<nat>,
    results: Option<nat>)

  datatype ProposerCheck = Rejected | PartialQC | Accepted

  /** Validates a PROPOSE, PRECOMMIT or COMMIT message of the leader. */
  function CheckProposerMessage(c: Committee, log: seq<Signed>, m: ProposerMsg, p: CheckParams): ProposerCheck {
    var qcCheck := Check(c, log, m.qc);
    if m.header.phase != Propose && m.header.phase != Precommit && m.header.phase != Commit then Rejected
    else if qcCheck == Invalid then Rejected
    else if m.highQC.Some? && !CheckHighQC(c, log, m.highQC.value, p.view.height, p.lastRootHeightUpdated) then Rejected
    else if m.qc.view.rootHeight != p.view.rootHeight then
      if qcCheck == Partial then PartialQC else Rejected
    else if qcCheck == Partial then PartialQC
    else if m.header.height != p.view.height then Rejected
    else if m.qc.view.height < p.lastChainHeightUpdated then Rejected
    else if m.header.phase == Propose then
      if m.qc.proposerKey != m.sender || m.qc.block.None? || m.qc.results.None? then Rejected else Accepted
    else if p.block.None? then Rejected
    else if m.qc.blockHash != BlockToHash(p.block) || m.qc.resultsHash != ResultsHash(p.results) then Rejected
    else Accepted
  }

  /**
   The certificate with which the leader asks for a vote to commit comes from the PROPOSE-VOTE phase of the
   message's round or of a later one. CheckProposerMessage compares neither round nor phase, so an accepted
   message may fail this.
   */
  predicate Fresh(m: ProposerMsg) {
    m.qc.view.phase == ProposeVote && m.header.round <= m.qc.view.round
  }

  /** A peer's block is accepted with a full certificate of this height, with content, from the PRECOMMIT-VOTE phase. */
  predicate AcceptsBlock(c: Committee, log: seq<Signed>, qc: QC, height: nat) {
    && Check(c, log, qc) == Full
    && qc.block.Some? && qc.results.Some?
    && qc.view.height == height
    && qc.view.phase == PrecommitVote
  }

  /** Within one height and root height the order on views is by round, then by phase. */
  lemma LessWithinHeight(u: View, v: View)
    requires u.height == v.height && u.rootHeight == v.rootHeight
    ensures u.Less(v) <==> u.round < v.round || (u.round == v.round && u.phase.Ord() < v.phase.Ord())
  {
  }

  /** A certificate that checks as full proves that a quorum signed its payload. */
  lemma FullIsCertified(c: Committee, log: seq<Signed>, qc: QC)
    requires Check(c, log, qc) == Full
    ensures Certified(c, log, qc.SignBytes())
  {
    PowerMonotone(c.powers, qc.signers, Signers(c, log, qc.SignBytes()), c.Size());
  }

  /** Signatures are never withdrawn. */
  lemma CertifiedMonotone(c: Committee, log: seq<Signed>, more: seq<Signed>, p: Payload)
    requires log <= more
    requires Certified(c, log, p)
    ensures Certified(c, more, p)
  {
    forall i | i in Signers(c, log, p)
      ensures i in Signers(c, more, p)
    {
      var k :| 0 <= k < |log| && log[k] == Signed(i, p);
      assert more[k] == log[k];
    }
    PowerMonotone(c.powers, Signers(c, log, p), Signers(c, more, p), c.Size());
  }
}
