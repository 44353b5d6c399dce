/**
 Safety of NestBFT at one height: the honest replicas of a fixed committee run their phase handlers,
 at most a third of the voting power is faulty and signs anything, and the network delivers any
 message whose certificates verify, in any order and any number of times.
 */
module Agreement {
  import opened Options
  import opened Quorum
  import opened Certificates
  import opened Replica

  datatype Config = Config(committee: Committee, faulty: set<nat>, height: nat, rootHeight: nat) {
    predicate Honest(i: nat) {
      i < committee.Size() && i !in faulty
    }

    predicate AtHeight(v: View) {
      v.height == height && v.rootHeight == rootHeight
    }
  }

  /** log lists all signatures in the order in which they were made; decided holds the certificates of accepted blocks. */
  datatype World = World(nodes: map<nat, Node>, log: seq<Signed>, decided: set<QC>)

  datatype Step =
    | Forge(signer: nat, payload: Payload)
    | DeliverProposal(to: nat, m: ProposerMsg)
    | DeliverElectionVote(to: nat, qc: QC, block: Option<nat>, results: Option<nat>, rcBuildHeight: nat)
    | Timeout(at: nat, env: Env)
    | DeliverBlock(qc: QC)

  ghost predicate Enabled(cfg: Config, w: World, s: Step) {
    match s
    case Forge(signer, _) =>
      signer in cfg.faulty
    case DeliverProposal(to, m) =>
      && to in w.nodes
      && CheckProposerMessage(cfg.committee, w.log, m, w.nodes[to].Params()) == Accepted
    case DeliverElectionVote(to, qc, _, _, _) =>
      && to in w.nodes
      && CheckHighQC(cfg.committee, w.log, qc, w.nodes[to].view.height, w.nodes[to].lastRootHeightUpdated)
    case Timeout(at, _) =>
      at in w.nodes
    case DeliverBlock(qc) =>
      AcceptsBlock(cfg.committee, w.log, qc, cfg.height)
  }

  function Signatures(at: nat, vote: Option<Payload>): seq<Signed> {
    if vote.Some? then [Signed(at, vote.value)] else []
  }

  ghost function Next(cfg: Config, w: World, s: Step): World
    requires Enabled(cfg, w, s)
  {
    match s
    case Forge(signer, payload) =>
      w.(log := w.log + [Signed(signer, payload)])
    case DeliverProposal(to, m) =>
      w.(nodes := w.nodes[to := AddProposal(w.nodes[to], m)])
    case DeliverElectionVote(to, qc, block, results, rcBuildHeight) =>
      w.(nodes := w.nodes[to := AdoptHighQC(w.nodes[to], qc, block, results, rcBuildHeight)])
    case Timeout(at, env) =>
      var e := HandlePhase(w.nodes[at], env);
      World(w.nodes[at := e.node], w.log + Signatures(at, e.vote), w.decided)
    case DeliverBlock(qc) =>
      w.(decided := w.decided + {qc})
  }

  /** Every honest replica starts the height at round 0, unlocked, before anyone has signed anything. */
  ghost predicate Init(cfg: Config, w: World) {
    && cfg.committee.Tolerates(cfg.faulty)
    && w.log == [] && w.decided == {}
    && (forall i :: i in w.nodes <==> cfg.Honest(i))
    && forall i :: i in w.nodes ==>
         && w.nodes[i].self == i
         && w.nodes[i].view == View(cfg.height, cfg.rootHeight, 0, Election)
         && w.nodes[i].highQC == None
         && w.nodes[i].proposals == map[]
  }

  /** A run: a sequence of worlds linked by enabled steps. */
  ghost predicate Run(cfg: Config, worlds: seq<World>, steps: seq<Step>) {
    && |worlds| == |steps| + 1
    && Init(cfg, worlds[0])
    && forall k :: 0 <= k < |steps| ==> Enabled(cfg, worlds[k], steps[k]) && worlds[k + 1] == Next(cfg, worlds[k], steps[k])
  }

  // ---------------------------------------------------------------------------------------------
  // What every run keeps
  // ---------------------------------------------------------------------------------------------

  /** A certificate to commit, the only kind that makes a peer accept a block. */
  ghost predicate IsCommit(cfg: Config, log: seq<Signed>, p: Payload) {
    Certified(cfg.committee, log, p) && p.view.phase == PrecommitVote
  }

  /** A proper lock: a quorum has voted for the value in a PROPOSE-VOTE of this height. */
  ghost predicate IsLock(cfg: Config, log: seq<Signed>, qc: QC) {
    && qc.view.phase == ProposeVote
    && cfg.AtHeight(qc.view)
    && Certified(cfg.committee, log, qc.SignBytes())
  }

  ghost predicate ProposalOk(cfg: Config, log: seq<Signed>, key: (nat, Phase), m: ProposerMsg) {
    && (m.header.round, m.header.phase) == key
    && cfg.AtHeight(m.qc.view)
    && Certified(cfg.committee, log, m.qc.SignBytes())
    && (m.highQC.Some? ==> IsLock(cfg, log, m.highQC.value))
  }

  ghost predicate NodeInv(cfg: Config, log: seq<Signed>, i: nat, n: Node) {
    && cfg.AtHeight(n.view)
    && (forall p :: Signed(i, p) in log ==> cfg.AtHeight(p.view) && p.view.Less(n.view))
    && (forall key :: key in n.proposals ==> ProposalOk(cfg, log, key, n.proposals[key]))
  }

  /** Honest replicas sign at most one payload for a view. */
  ghost predicate NoEquivocation(cfg: Config, log: seq<Signed>) {
    forall i, p, q :: cfg.Honest(i) && Signed(i, p) in log && Signed(i, q) in log && p.view == q.view ==> p == q
  }

  ghost predicate Inv(cfg: Config, w: World) {
    && cfg.committee.Tolerates(cfg.faulty)
    && (forall i :: i in w.nodes <==> cfg.Honest(i))
    && (forall i :: i in w.nodes ==> NodeInv(cfg, w.log, i, w.nodes[i]))
    && NoEquivocation(cfg, w.log)
    && (forall qc :: qc in w.decided ==> IsCommit(cfg, w.log, qc.SignBytes()))
  }

  /** Two quorums share an honest signer, for any two certified payloads. */
  lemma CommonVoter(cfg: Config, log: seq<Signed>, p: Payload, q: Payload) returns (i: nat)
    requires cfg.committee.Tolerates(cfg.faulty)
    requires Certified(cfg.committee, log, p) && Certified(cfg.committee, log, q)
    ensures cfg.Honest(i) && Signed(i, p) in log && Signed(i, q) in log
  {
    i := HonestOverlap(cfg.committee, cfg.faulty, Signers(cfg.committee, log, p), Signers(cfg.committee, log, q));
  }

  /** Certificates exist only for the committee's current heights: somebody honest has signed them. */
  lemma CertifiedAtHeight(cfg: Config, w: World, p: Payload)
    requires Inv(cfg, w)
    requires Certified(cfg.committee, w.log, p)
    ensures cfg.AtHeight(p.view)
  {
    var i := CommonVoter(cfg, w.log, p, p);
    assert i in w.nodes;
  }

  /** Within one view only one payload is ever certified. */
  lemma OneCertificatePerView(cfg: Config, w: World, p: Payload, q: Payload)
    requires Inv(cfg, w)
    requires Certified(cfg.committee, w.log, p) && Certified(cfg.committee, w.log, q)
    requires p.view == q.view
    ensures p == q
  {
    var i := CommonVoter(cfg, w.log, p, q);
  }

  lemma InitInv(cfg: Config, w: World)
    requires Init(cfg, w)
    ensures Inv(cfg, w)
  {
  }

  /** Facts about certificates survive as the log grows. */
  lemma LockMonotone(cfg: Config, log: seq<Signed>, more: seq<Signed>, qc: QC)
    requires log <= more && IsLock(cfg, log, qc)
    ensures IsLock(cfg, more, qc)
  {
    CertifiedMonotone(cfg.committee, log, more, qc.SignBytes());
  }

  lemma ProposalsMonotone(cfg: Config, log: seq<Signed>, more: seq<Signed>, n: Node)
    requires log <= more
    requires forall key :: key in n.proposals ==> ProposalOk(cfg, log, key, n.proposals[key])
    ensures forall key :: key in n.proposals ==> ProposalOk(cfg, more, key, n.proposals[key])
  {
    forall key | key in n.proposals
      ensures ProposalOk(cfg, more, key, n.proposals[key])
    {
      var m := n.proposals[key];
      CertifiedMonotone(cfg.committee, log, more, m.qc.SignBytes());
      if m.highQC.Some? {
        LockMonotone(cfg, log, more, m.highQC.value);
      }
    }
  }

  /** A signature of somebody else leaves a replica's own invariant alone. */
  lemma NodeInvUnaffected(cfg: Config, log: seq<Signed>, s: Signed, i: nat, n: Node)
    requires NodeInv(cfg, log, i, n)
    requires s.signer != i
    ensures NodeInv(cfg, log + [s], i, n)
  {
    ProposalsMonotone(cfg, log, log + [s], n);
  }

  lemma DecisionsMonotone(cfg: Config, log: seq<Signed>, more: seq<Signed>, decided: set<QC>)
    requires log <= more
    requires forall qc :: qc in decided ==> IsCommit(cfg, log, qc.SignBytes())
    ensures forall qc :: qc in decided ==> IsCommit(cfg, more, qc.SignBytes())
  {
    forall qc | qc in decided
      ensures IsCommit(cfg, more, qc.SignBytes())
    {
      CertifiedMonotone(cfg.committee, log, more, qc.SignBytes());
    }
  }

  lemma ForgeKeepsInv(cfg: Config, w: World, s: Step)
    requires Inv(cfg, w) && s.Forge? && Enabled(cfg, w, s)
    ensures Inv(cfg, Next(cfg, w, s))
  {
    var signed := Signed(s.signer, s.payload);
    forall i | i in w.nodes
      ensures NodeInv(cfg, w.log + [signed], i, w.nodes[i])
    {
      NodeInvUnaffected(cfg, w.log, signed, i, w.nodes[i]);
    }
    DecisionsMonotone(cfg, w.log, w.log + [signed], w.decided);
  }

  lemma HighQCIsLock(cfg: Config, w: World, qc: QC, height: nat, lastRootHeightUpdated: nat)
    requires Inv(cfg, w)
    requires CheckHighQC(cfg.committee, w.log, qc, height, lastRootHeightUpdated)
    ensures IsLock(cfg, w.log, qc)
  {
    FullIsCertified(cfg.committee, w.log, qc);
    CertifiedAtHeight(cfg, w, qc.SignBytes());
  }

  lemma DeliverProposalKeepsInv(cfg: Config, w: World, s: Step)
    requires Inv(cfg, w) && s.DeliverProposal? && Enabled(cfg, w, s)
    ensures Inv(cfg, Next(cfg, w, s))
  {
    var n := w.nodes[s.to];
    FullIsCertified(cfg.committee, w.log, s.m.qc);
    CertifiedAtHeight(cfg, w, s.m.qc.SignBytes());
    if s.m.highQC.Some? {
      HighQCIsLock(cfg, w, s.m.highQC.value, n.view.height, n.lastRootHeightUpdated);
    }
    assert ProposalOk(cfg, w.log, (s.m.header.round, s.m.header.phase), s.m);
    assert NodeInv(cfg, w.log, s.to, AddProposal(n, s.m));
  }

  lemma LessIsTransitive(u: View, v: View, t: View)
    requires u.Less(v) && (v == t || v.Less(t))
    ensures u.Less(t)
  {
  }

  /** The acting replica's own invariant after a timer step. */
  lemma TimeoutKeepsNodeInv(cfg: Config, log: seq<Signed>, at: nat, n: Node, env: Env)
    requires NodeInv(cfg, log, at, n)
    ensures var e := HandlePhase(n, env); NodeInv(cfg, log + Signatures(at, e.vote), at, e.node)
  {
    var e := HandlePhase(n, env);
    var more := log + Signatures(at, e.vote);
    HandlePhaseAdvances(n, env);
    ProposalsAreKept(n, env);
    VotesAreForTheCurrentView(n, env);
    ProposalsMonotone(cfg, log, more, n);
    forall p | Signed(at, p) in more
      ensures cfg.AtHeight(p.view) && p.view.Less(e.node.view)
    {
      if Signed(at, p) in log {
        LessIsTransitive(p.view, n.view, e.node.view);
      }
    }
  }

  lemma TimeoutKeepsInv(cfg: Config, w: World, s: Step)
    requires Inv(cfg, w) && s.Timeout? && Enabled(cfg, w, s)
    ensures Inv(cfg, Next(cfg, w, s))
  {
    var n, e := w.nodes[s.at], HandlePhase(w.nodes[s.at], s.env);
    var more := w.log + Signatures(s.at, e.vote);
    VotesAreForTheCurrentView(n, s.env);
    TimeoutKeepsNodeInv(cfg, w.log, s.at, n, s.env);
    forall i | i in w.nodes && i != s.at
      ensures NodeInv(cfg, more, i, w.nodes[i])
    {
      if e.vote.Some? {
        NodeInvUnaffected(cfg, w.log, Signed(s.at, e.vote.value), i, w.nodes[i]);
      } else {
        assert more == w.log;
      }
    }
    DecisionsMonotone(cfg, w.log, more, w.decided);
  }

  lemma DeliverBlockKeepsInv(cfg: Config, w: World, s: Step)
    requires Inv(cfg, w) && s.DeliverBlock? && Enabled(cfg, w, s)
    ensures Inv(cfg, Next(cfg, w, s))
  {
    FullIsCertified(cfg.committee, w.log, s.qc);
  }

  lemma NextKeepsInv(cfg: Config, w: World, s: Step)
    requires Inv(cfg, w) && Enabled(cfg, w, s)
    ensures Inv(cfg, Next(cfg, w, s))
  {
    match s
    case Forge(_, _) => ForgeKeepsInv(cfg, w, s);
    case DeliverProposal(_, _) => DeliverProposalKeepsInv(cfg, w, s);
    case DeliverElectionVote(to, qc, block, results, rcBuildHeight) =>
      assert NodeInv(cfg, w.log, to, AdoptHighQC(w.nodes[to], qc, block, results, rcBuildHeight));
    case Timeout(_, _) => TimeoutKeepsInv(cfg, w, s);
    case DeliverBlock(_) => DeliverBlockKeepsInv(cfg, w, s);
  }

  lemma {:induction false} RunKeepsInv(cfg: Config, worlds: seq<World>, steps: seq<Step>, k: nat)
    requires Run(cfg, worlds, steps) && k <= |steps|
    ensures Inv(cfg, worlds[k])
  {
    if k == 0 {
      InitInv(cfg, worlds[0]);
    } else {
      RunKeepsInv(cfg, worlds, steps, k - 1);
      NextKeepsInv(cfg, worlds[k - 1], steps[k - 1]);
    }
  }

  /** An honest replica signs at most one payload for each view, in every run. */
  lemma HonestNeverEquivocates(cfg: Config, worlds: seq<World>, steps: seq<Step>, k: nat, i: nat, p: Payload, q: Payload)
    requires Run(cfg, worlds, steps) && k <= |steps|
    requires cfg.Honest(i)
    requires Signed(i, p) in worlds[k].log && Signed(i, q) in worlds[k].log && p.view == q.view
    ensures p == q
  {
    RunKeepsInv(cfg, worlds, steps, k);
  }

  // ---------------------------------------------------------------------------------------------
  // What runs keep whose votes to commit are asked for with fresh certificates
  // ---------------------------------------------------------------------------------------------

  /** The step is an honest vote to commit. */
  ghost predicate VotesToCommit(w: World, s: Step) {
    s.Timeout? && s.at in w.nodes && w.nodes[s.at].view.phase == PrecommitVote && HandlePhase(w.nodes[s.at], s.env).vote.Some?
  }

  /** The leader's message that asks for a vote to commit. */
  ghost function Request(w: World, s: Step): ProposerMsg
    requires VotesToCommit(w, s)
  {
    w.nodes[s.at].GetProposal(Precommit).value
  }

  /** If the step is a vote to commit, the message that asked for it carries a fresh certificate. */
  ghost predicate FreshStep(w: World, s: Step) {
    VotesToCommit(w, s) ==> Fresh(Request(w, s))
  }

  ghost predicate FreshRun(worlds: seq<World>, steps: seq<Step>, k: nat)
    requires k <= |steps| && |worlds| == |steps| + 1
  {
    forall j :: 0 <= j < k ==> FreshStep(worlds[j], steps[j])
  }

  /** The lock invariant as promised: the lock is at least as recent as every PRECOMMIT-VOTE of the replica. */
  ghost predicate LockCovers(log: seq<Signed>, i: nat, lock: Option<QC>) {
    forall p :: Signed(i, p) in log && p.view.phase == PrecommitVote ==> lock.Some? && p.view.round <= lock.value.view.round
  }

  /** A lock that is no more recent than a PRECOMMIT-VOTE is on the value of that vote. */
  ghost predicate LockRemembers(log: seq<Signed>, i: nat, lock: Option<QC>) {
    forall p :: Signed(i, p) in log && p.view.phase == PrecommitVote && lock.Some? && lock.value.view.round <= p.view.round ==>
      lock.value.Value() == p.Value()
  }

  ghost predicate LockKept(cfg: Config, log: seq<Signed>, i: nat, lock: Option<QC>) {
    (lock.Some? ==> IsLock(cfg, log, lock.value)) && LockCovers(log, i, lock)
  }

  /** A PROPOSE-VOTE certificate for the value of a PRECOMMIT-VOTE payload, from its round or a later one. */
  ghost predicate Prepared(cfg: Config, log: seq<Signed>, p: Payload) {
    exists q :: Certified(cfg.committee, log, q) && q.view.phase == ProposeVote && p.view.round <= q.view.round && q.Value() == p.Value()
  }

  /** A PROPOSE-VOTE certificate of a round later than r for another value than the given one. */
  ghost predicate Contested(cfg: Config, log: seq<Signed>, r: nat, value: (Digest, Digest)) {
    exists q :: Certified(cfg.committee, log, q) && q.view.phase == ProposeVote && r < q.view.round && q.Value() != value
  }

  /** Honest replicas vote to commit only what a quorum has voted for. */
  ghost predicate VotesArePrepared(cfg: Config, log: seq<Signed>) {
    forall i, p :: cfg.Honest(i) && Signed(i, p) in log && p.view.phase == PrecommitVote ==> Prepared(cfg, log, p)
  }

  /** An honest replica deserts a value that it voted to commit only if that value was contested before. */
  ghost predicate Desertion(cfg: Config, log: seq<Signed>, b: nat, p: Payload) {
    b < |log| && log[b].payload.view.phase == ProposeVote && p.view.phase == PrecommitVote
    && p.view.round < log[b].payload.view.round && log[b].payload.Value() != p.Value()
  }

  ghost predicate DesertionsAreJustified(cfg: Config, log: seq<Signed>) {
    forall b: nat, p :: b < |log| && cfg.Honest(log[b].signer) && Signed(log[b].signer, p) in log && Desertion(cfg, log, b, p) ==>
      Contested(cfg, log[..b], p.view.round, p.Value())
  }

  ghost predicate SafeNodeInv(cfg: Config, log: seq<Signed>, i: nat, n: Node) {
    LockKept(cfg, log, i, n.highQC) && LockRemembers(log, i, n.highQC)
  }

  ghost predicate SafeInv(cfg: Config, w: World) {
    && Inv(cfg, w)
    && (forall i :: i in w.nodes ==> SafeNodeInv(cfg, w.log, i, w.nodes[i]))
    && VotesArePrepared(cfg, w.log)
    && DesertionsAreJustified(cfg, w.log)
  }

  /**
   The heart of safety. Once a quorum has voted to commit a value in some round, no PROPOSE-VOTE
   certificate of a later round is for another value. By induction on the length of the log in which
   the other certificate is complete: the replica that is in both quorums has deserted the value, so
   the value was contested by a certificate that was complete even earlier.
   */
  lemma {:induction false} CommittedValueIsFinal(cfg: Config, w: World, p: Payload, n: nat, q: Payload)
    requires SafeInv(cfg, w)
    requires IsCommit(cfg, w.log, p)
    requires n <= |w.log|
    requires Certified(cfg.committee, w.log[..n], q) && q.view.phase == ProposeVote
    requires p.view.round < q.view.round
    ensures q.Value() == p.Value()
    decreases n
  {
    CertifiedMonotone(cfg.committee, w.log[..n], w.log, q);
    if q.Value() != p.Value() {
      var i := HonestOverlap(cfg.committee, cfg.faulty, Signers(cfg.committee, w.log, p), Signers(cfg.committee, w.log[..n], q));
      var b :| 0 <= b < n && w.log[b] == Signed(i, q);
      assert Desertion(cfg, w.log, b, p);
      var c :| Certified(cfg.committee, w.log[..b], c) && c.view.phase == ProposeVote && p.view.round < c.view.round && c.Value() != p.Value();
      CommittedValueIsFinal(cfg, w, p, b, c);
      assert false;
    }
  }

  /** Behind a certificate to commit there is a PROPOSE-VOTE certificate for its value, from its round or a later one. */
  lemma CommitIsPrepared(cfg: Config, w: World, p: Payload)
    requires SafeInv(cfg, w)
    requires IsCommit(cfg, w.log, p)
    ensures Prepared(cfg, w.log, p)
  {
    var i := CommonVoter(cfg, w.log, p, p);
  }

  /** Any two certificates to commit, of any rounds, are for the same block and results. */
  lemma CommitsAgree(cfg: Config, w: World, p: Payload, q: Payload)
    requires SafeInv(cfg, w)
    requires IsCommit(cfg, w.log, p) && IsCommit(cfg, w.log, q)
    ensures p.Value() == q.Value()
  {
    CertifiedAtHeight(cfg, w, p);
    CertifiedAtHeight(cfg, w, q);
    if p.view.round < q.view.round {
      CommitsAgreeInOrder(cfg, w, p, q);
    } else if q.view.round < p.view.round {
      CommitsAgreeInOrder(cfg, w, q, p);
    } else {
      OneCertificatePerView(cfg, w, p, q);
    }
  }

  lemma CommitsAgreeInOrder(cfg: Config, w: World, p: Payload, q: Payload)
    requires SafeInv(cfg, w)
    requires IsCommit(cfg, w.log, p) && IsCommit(cfg, w.log, q)
    requires p.view.round < q.view.round
    ensures p.Value() == q.Value()
  {
    CommitIsPrepared(cfg, w, q);
    var q0 :| Certified(cfg.committee, w.log, q0) && q0.view.phase == ProposeVote && q.view.round <= q0.view.round && q0.Value() == q.Value();
    assert w.log[..|w.log|] == w.log;
    CommittedValueIsFinal(cfg, w, p, |w.log|, q0);
  }

  // ---------------------------------------------------------------------------------------------
  // Every fresh step keeps it
  // ---------------------------------------------------------------------------------------------

  lemma PreparedMonotone(cfg: Config, log: seq<Signed>, more: seq<Signed>, p: Payload)
    requires log <= more && Prepared(cfg, log, p)
    ensures Prepared(cfg, more, p)
  {
    var q :| Certified(cfg.committee, log, q) && q.view.phase == ProposeVote && p.view.round <= q.view.round && q.Value() == p.Value();
    CertifiedMonotone(cfg.committee, log, more, q);
  }

  /**
   Appending one signature keeps the properties of the log, provided that an honest signature is
   for a later view, is prepared if it is a vote to commit, and justifies every desertion.
   */
  lemma LogInvExtends(cfg: Config, log: seq<Signed>, s: Signed)
    requires VotesArePrepared(cfg, log) && DesertionsAreJustified(cfg, log)
    requires cfg.Honest(s.signer) && s.payload.view.phase == PrecommitVote ==> Prepared(cfg, log, s.payload)
    requires cfg.Honest(s.signer) ==> forall p :: Signed(s.signer, p) in log ==> p.view.round <= s.payload.view.round
    requires cfg.Honest(s.signer) && s.payload.view.phase == ProposeVote ==> DesertsOnlyContested(cfg, log, s)
    ensures VotesArePrepared(cfg, log + [s]) && DesertionsAreJustified(cfg, log + [s])
  {
    var more := log + [s];
    forall i, p | cfg.Honest(i) && Signed(i, p) in more && p.view.phase == PrecommitVote
      ensures Prepared(cfg, more, p)
    {
      PreparedMonotone(cfg, log, more, p);
    }
    forall b: nat, p | b < |more| && cfg.Honest(more[b].signer) && Signed(more[b].signer, p) in more && Desertion(cfg, more, b, p)
      ensures Contested(cfg, more[..b], p.view.round, p.Value())
    {
      if b < |log| {
        assert log[b] == more[b] && more[..b] == log[..b];
        assert Signed(log[b].signer, log[b].payload) in log;
        assert Signed(log[b].signer, p) in log;
        assert Desertion(cfg, log, b, p);
      } else {
        assert more[..b] == log;
      }
    }
  }

  ghost predicate DesertsOnlyContested(cfg: Config, log: seq<Signed>, s: Signed) {
    forall p :: Signed(s.signer, p) in log && p.view.phase == PrecommitVote && p.Value() != s.payload.Value() ==>
      Contested(cfg, log, p.view.round, p.Value())
  }

  /** A signature of somebody else leaves a replica's lock alone. */
  lemma LockUnaffected(cfg: Config, log: seq<Signed>, s: Signed, i: nat, n: Node)
    requires SafeNodeInv(cfg, log, i, n)
    requires s.signer != i || s.payload.view.phase != PrecommitVote
    ensures SafeNodeInv(cfg, log + [s], i, n)
  {
    if n.highQC.Some? {
      LockMonotone(cfg, log, log + [s], n.highQC.value);
    }
  }

  lemma ForgeKeepsSafeInv(cfg: Config, w: World, s: Step)
    requires SafeInv(cfg, w) && s.Forge? && Enabled(cfg, w, s)
    ensures SafeInv(cfg, Next(cfg, w, s))
  {
    var signed := Signed(s.signer, s.payload);
    ForgeKeepsInv(cfg, w, s);
    LogInvExtends(cfg, w.log, signed);
    forall i | i in w.nodes
      ensures SafeNodeInv(cfg, w.log + [signed], i, w.nodes[i])
    {
      LockUnaffected(cfg, w.log, signed, i, w.nodes[i]);
    }
  }

  /** Adopting a lock from an election vote never lowers the replica's own lock. */
  lemma DeliverElectionVoteKeepsSafeInv(cfg: Config, w: World, s: Step)
    requires SafeInv(cfg, w) && s.DeliverElectionVote? && Enabled(cfg, w, s)
    ensures SafeInv(cfg, Next(cfg, w, s))
  {
    var n := w.nodes[s.to];
    NextKeepsInv(cfg, w, s);
    HighQCIsLock(cfg, w, s.qc, n.view.height, n.lastRootHeightUpdated);
    if n.highQC.Some? {
      LessWithinHeight(n.highQC.value.view, s.qc.view);
    }
    assert SafeNodeInv(cfg, w.log, s.to, AdoptHighQC(n, s.qc, s.block, s.results, s.rcBuildHeight));
  }

  /** A replica that votes for another value than one it voted to commit has seen that value contested in a later round. */
  lemma SafeNodeJustifies(cfg: Config, log: seq<Signed>, i: nat, n: Node, env: Env, p: Payload)
    requires NodeInv(cfg, log, i, n) && SafeNodeInv(cfg, log, i, n)
    requires n.view.phase == ProposeVote
    requires HandlePhase(n, env).vote.Some?
    requires Signed(i, p) in log && p.view.phase == PrecommitVote
    requires p.Value() != HandlePhase(n, env).vote.value.Value()
    ensures Contested(cfg, log, p.view.round, p.Value())
  {
    var lock, m := n.highQC.value, n.proposals[(n.view.round, Propose)];
    assert SafeNode(lock, m).None?;
    if lock.Value() != p.Value() {
      assert lock.SignBytes().Value() != p.Value();
    } else {
      assert ProposalOk(cfg, log, (n.view.round, Propose), m);
      assert m.highQC.value.SignBytes().Value() != p.Value();
    }
  }

  /** A vote to commit with a fresh certificate is prepared, and moves the lock to that certificate. */
  lemma FreshVoteLocks(cfg: Config, log: seq<Signed>, i: nat, n: Node, env: Env)
    requires NodeInv(cfg, log, i, n) && SafeNodeInv(cfg, log, i, n)
    requires n.view.phase == PrecommitVote && HandlePhase(n, env).vote.Some?
    requires Fresh(n.GetProposal(Precommit).value)
    ensures var e := HandlePhase(n, env);
      && Prepared(cfg, log, e.vote.value)
      && SafeNodeInv(cfg, log + Signatures(i, e.vote), i, e.node)
  {
    var e, m := HandlePhase(n, env), n.proposals[(n.view.round, Precommit)];
    var more := log + Signatures(i, e.vote);
    CommitVoteIsForTheMessage(n, env);
    assert ProposalOk(cfg, log, (n.view.round, Precommit), m);
    CertifiedMonotone(cfg.committee, log, more, m.qc.SignBytes());
    forall p | Signed(i, p) in more && p.view.phase == PrecommitVote
      ensures p.view.round <= n.view.round && (p.view.round == n.view.round ==> p == e.vote.value)
    {
      if Signed(i, p) in log {
        LessWithinHeight(p.view, n.view);
      }
    }
  }

  /** Every other vote, and no vote at all, leaves the lock alone. */
  lemma OtherStepsKeepLock(cfg: Config, log: seq<Signed>, i: nat, n: Node, env: Env)
    requires SafeNodeInv(cfg, log, i, n)
    requires n.view.phase != PrecommitVote || HandlePhase(n, env).vote.None?
    ensures var e := HandlePhase(n, env); SafeNodeInv(cfg, log + Signatures(i, e.vote), i, e.node)
  {
    var e := HandlePhase(n, env);
    OnlyCommitVotesLock(n, env);
    VotesAreForTheCurrentView(n, env);
    if e.vote.Some? {
      LockUnaffected(cfg, log, Signed(i, e.vote.value), i, n);
    } else {
      assert log + Signatures(i, e.vote) == log;
    }
  }

  lemma FreshTimeoutKeepsLog(cfg: Config, w: World, s: Step)
    requires SafeInv(cfg, w) && s.Timeout? && Enabled(cfg, w, s) && FreshStep(w, s)
    ensures var log := Next(cfg, w, s).log; VotesArePrepared(cfg, log) && DesertionsAreJustified(cfg, log)
  {
    var n, e := w.nodes[s.at], HandlePhase(w.nodes[s.at], s.env);
    if e.vote.Some? {
      var signed := Signed(s.at, e.vote.value);
      VotesAreForTheCurrentView(n, s.env);
      if n.view.phase == PrecommitVote {
        FreshVoteLocks(cfg, w.log, s.at, n, s.env);
      } else if n.view.phase == ProposeVote {
        forall p | Signed(s.at, p) in w.log && p.view.phase == PrecommitVote && p.Value() != e.vote.value.Value()
          ensures Contested(cfg, w.log, p.view.round, p.Value())
        {
          SafeNodeJustifies(cfg, w.log, s.at, n, s.env, p);
        }
      }
      forall p | Signed(s.at, p) in w.log
        ensures p.view.round <= n.view.round
      {
        LessWithinHeight(p.view, n.view);
      }
      LogInvExtends(cfg, w.log, signed);
    } else {
      assert w.log + Signatures(s.at, e.vote) == w.log;
    }
  }

  lemma FreshTimeoutKeepsLock(cfg: Config, w: World, s: Step, i: nat)
    requires SafeInv(cfg, w) && s.Timeout? && Enabled(cfg, w, s) && FreshStep(w, s) && i in w.nodes
    ensures SafeNodeInv(cfg, Next(cfg, w, s).log, i, Next(cfg, w, s).nodes[i])
  {
    var n, e := w.nodes[s.at], HandlePhase(w.nodes[s.at], s.env);
    if i == s.at {
      if n.view.phase == PrecommitVote && e.vote.Some? {
        FreshVoteLocks(cfg, w.log, i, n, s.env);
      } else {
        OtherStepsKeepLock(cfg, w.log, i, n, s.env);
      }
    } else if e.vote.Some? {
      LockUnaffected(cfg, w.log, Signed(s.at, e.vote.value), i, w.nodes[i]);
    } else {
      assert w.log + Signatures(s.at, e.vote) == w.log;
    }
  }

  lemma FreshTimeoutKeepsSafeInv(cfg: Config, w: World, s: Step)
    requires SafeInv(cfg, w) && s.Timeout? && Enabled(cfg, w, s) && FreshStep(w, s)
    ensures SafeInv(cfg, Next(cfg, w, s))
  {
    TimeoutKeepsInv(cfg, w, s);
    FreshTimeoutKeepsLog(cfg, w, s);
    forall i | i in w.nodes
      ensures SafeNodeInv(cfg, Next(cfg, w, s).log, i, Next(cfg, w, s).nodes[i])
    {
      FreshTimeoutKeepsLock(cfg, w, s, i);
    }
    assert Next(cfg, w, s).nodes.Keys == w.nodes.Keys;
  }

  lemma FreshNextKeepsSafeInv(cfg: Config, w: World, s: Step)
    requires SafeInv(cfg, w) && Enabled(cfg, w, s) && FreshStep(w, s)
    ensures SafeInv(cfg, Next(cfg, w, s))
  {
    match s
    case Forge(_, _) => ForgeKeepsSafeInv(cfg, w, s);
    case DeliverElectionVote(_, _, _, _, _) => DeliverElectionVoteKeepsSafeInv(cfg, w, s);
    case Timeout(_, _) => FreshTimeoutKeepsSafeInv(cfg, w, s);
    case DeliverProposal(to, m) =>
      NextKeepsInv(cfg, w, s);
      assert AddProposal(w.nodes[to], m).highQC == w.nodes[to].highQC;
    case DeliverBlock(_) => NextKeepsInv(cfg, w, s);
  }

  lemma {:induction false} FreshRunKeepsSafeInv(cfg: Config, worlds: seq<World>, steps: seq<Step>, k: nat)
    requires Run(cfg, worlds, steps) && k <= |steps| && FreshRun(worlds, steps, k)
    ensures SafeInv(cfg, worlds[k])
  {
    if k == 0 {
      InitInv(cfg, worlds[0]);
    } else {
      FreshRunKeepsSafeInv(cfg, worlds, steps, k - 1);
      FreshNextKeepsSafeInv(cfg, worlds[k - 1], steps[k - 1]);
    }
  }

  // ---------------------------------------------------------------------------------------------
  // Theorems about runs
  // ---------------------------------------------------------------------------------------------

  /** Agreement: all certificates to commit and all accepted blocks are for one block and results, if every vote to commit was asked for with a fresh certificate. */
  lemma AgreementTheorem(cfg: Config, worlds: seq<World>, steps: seq<Step>, k: nat, l: nat)
    requires Run(cfg, worlds, steps) && k <= l <= |steps| && FreshRun(worlds, steps, l)
    ensures forall p, q | IsCommit(cfg, worlds[l].log, p) && IsCommit(cfg, worlds[l].log, q) :: p.Value() == q.Value()
    ensures forall a, b :: a in worlds[k].decided && b in worlds[l].decided ==> a.Value() == b.Value()
  {
    FreshRunKeepsSafeInv(cfg, worlds, steps, l);
    forall p, q | IsCommit(cfg, worlds[l].log, p) && IsCommit(cfg, worlds[l].log, q)
      ensures p.Value() == q.Value()
    {
      CommitsAgree(cfg, worlds[l], p, q);
    }
    DecisionsStay(cfg, worlds, steps, k, l);
    forall a, b | a in worlds[k].decided && b in worlds[l].decided
      ensures a.Value() == b.Value()
    {
      assert a in worlds[l].decided;
      CommitsAgree(cfg, worlds[l], a.SignBytes(), b.SignBytes());
    }
  }

  lemma {:induction false} DecisionsStay(cfg: Config, worlds: seq<World>, steps: seq<Step>, k: nat, l: nat)
    requires Run(cfg, worlds, steps) && k <= l <= |steps|
    ensures worlds[k].decided <= worlds[l].decided
  {
    if k < l {
      DecisionsStay(cfg, worlds, steps, k, l - 1);
    }
  }

  /**
   The lock invariant, exactly: in a run every honest lock is always a proper certificate at least as recent as
   every vote to commit of its replica if and only if every such vote was asked for with a fresh certificate.
   */
  lemma LockTheorem(cfg: Config, worlds: seq<World>, steps: seq<Step>)
    requires Run(cfg, worlds, steps)
    ensures (forall k, i :: 0 <= k <= |steps| && i in worlds[k].nodes ==> LockKept(cfg, worlds[k].log, i, worlds[k].nodes[i].highQC))
       <==> FreshRun(worlds, steps, |steps|)
  {
    if FreshRun(worlds, steps, |steps|) {
      forall k, i | 0 <= k <= |steps| && i in worlds[k].nodes
        ensures LockKept(cfg, worlds[k].log, i, worlds[k].nodes[i].highQC)
      {
        FreshRunKeepsSafeInv(cfg, worlds, steps, k);
      }
    } else {
      var k :| 0 <= k < |steps| && !FreshStep(worlds[k], steps[k]);
      var w, s := worlds[k], steps[k];
      RunKeepsInv(cfg, worlds, steps, k);
      StaleVoteBreaksLock(cfg, w, s);
      assert s.at in worlds[k + 1].nodes;
    }
  }

  /** A vote to commit with a certificate that is not fresh leaves a lock that is improper or older than the vote. */
  lemma StaleVoteBreaksLock(cfg: Config, w: World, s: Step)
    requires Enabled(cfg, w, s) && !FreshStep(w, s)
    requires Inv(cfg, w)
    ensures var w' := Next(cfg, w, s); s.at in w'.nodes && !LockKept(cfg, w'.log, s.at, w'.nodes[s.at].highQC)
  {
    var n, e := w.nodes[s.at], HandlePhase(w.nodes[s.at], s.env);
    CommitVoteIsForTheMessage(n, s.env);
    VotesAreForTheCurrentView(n, s.env);
    assert ProposalOk(cfg, w.log, (n.view.round, Precommit), n.proposals[(n.view.round, Precommit)]);
    assert Signed(s.at, e.vote.value) in Next(cfg, w, s).log;
  }

  /** Checking on arrival that the certificate of a PRECOMMIT message is fresh makes every run fresh. */
  lemma {:induction false} GuardedRunIsFresh(cfg: Config, worlds: seq<World>, steps: seq<Step>, k: nat)
    requires Run(cfg, worlds, steps) && k <= |steps|
    requires forall j :: 0 <= j < |steps| && steps[j].DeliverProposal? && steps[j].m.header.phase == Precommit ==> Fresh(steps[j].m)
    ensures forall i, r :: i in worlds[k].nodes && (r, Precommit) in worlds[k].nodes[i].proposals ==> Fresh(worlds[k].nodes[i].proposals[(r, Precommit)])
    ensures FreshRun(worlds, steps, k)
  {
    if k != 0 {
      GuardedRunIsFresh(cfg, worlds, steps, k - 1);
      if steps[k - 1].Timeout? {
        ProposalsAreKept(worlds[k - 1].nodes[steps[k - 1].at], steps[k - 1].env);
      }
    }
  }

  /** If the step is a vote to commit, it was asked for with a certificate of its very round. */
  ghost predicate TimelyStep(w: World, s: Step) {
    VotesToCommit(w, s) ==> var m := Request(w, s); m.qc.view.phase == ProposeVote && m.qc.view.round == m.header.round
  }

  ghost predicate TimelyRun(worlds: seq<World>, steps: seq<Step>, k: nat)
    requires k <= |steps| && |worlds| == |steps| + 1
  {
    forall j :: 0 <= j < k ==> TimelyStep(worlds[j], steps[j])
  }

  lemma {:induction false} LogsGrow(cfg: Config, worlds: seq<World>, steps: seq<Step>, k: nat, l: nat)
    requires Run(cfg, worlds, steps) && k <= l <= |steps|
    ensures worlds[k].log <= worlds[l].log
  {
    if k < l {
      LogsGrow(cfg, worlds, steps, k, l - 1);
    }
  }

  /** Every honest signature was made in a timer step of its replica. */
  lemma {:induction false} HonestVotesAreCast(cfg: Config, worlds: seq<World>, steps: seq<Step>, k: nat, i: nat, p: Payload) returns (j: nat)
    requires Run(cfg, worlds, steps) && k <= |steps|
    requires cfg.Honest(i) && Signed(i, p) in worlds[k].log
    ensures j < k && steps[j].Timeout? && steps[j].at == i && i in worlds[j].nodes
    ensures HandlePhase(worlds[j].nodes[i], steps[j].env).vote == Some(p)
  {
    if Signed(i, p) in worlds[k - 1].log {
      j := HonestVotesAreCast(cfg, worlds, steps, k - 1, i, p);
    } else {
      j := k - 1;
    }
  }

  /** In a timely run a certificate to commit comes with a PROPOSE-VOTE certificate of the same round for the same value. */
  lemma CommitIsPreparedInItsRound(cfg: Config, worlds: seq<World>, steps: seq<Step>, k: nat, p: Payload) returns (q: Payload)
    requires Run(cfg, worlds, steps) && k <= |steps| && TimelyRun(worlds, steps, k)
    requires IsCommit(cfg, worlds[k].log, p)
    ensures Certified(cfg.committee, worlds[k].log, q) && q.view == p.view.(phase := ProposeVote) && q.Value() == p.Value()
  {
    RunKeepsInv(cfg, worlds, steps, k);
    var i := CommonVoter(cfg, worlds[k].log, p, p);
    var j := HonestVotesAreCast(cfg, worlds, steps, k, i, p);
    var n := worlds[j].nodes[i];
    RunKeepsInv(cfg, worlds, steps, j);
    VotesAreForTheCurrentView(n, steps[j].env);
    CommitVoteIsForTheMessage(n, steps[j].env);
    assert TimelyStep(worlds[j], steps[j]);
    var m := n.GetProposal(Precommit).value;
    assert ProposalOk(cfg, worlds[j].log, (n.view.round, Precommit), m);
    LogsGrow(cfg, worlds, steps, j, k);
    q := m.qc.SignBytes();
    CertifiedMonotone(cfg.committee, worlds[j].log, worlds[k].log, q);
  }

  /**
   Once a value is certified for commit in a round, every PROPOSE-VOTE certificate of a later round is for it;
   in a timely run so is every one of that round.
   */
  lemma LockedValueTheorem(cfg: Config, worlds: seq<World>, steps: seq<Step>, k: nat, p: Payload, q: Payload)
    requires Run(cfg, worlds, steps) && k <= |steps| && FreshRun(worlds, steps, k)
    requires IsCommit(cfg, worlds[k].log, p)
    requires Certified(cfg.committee, worlds[k].log, q) && q.view.phase == ProposeVote
    requires p.view.round < q.view.round || (p.view.round == q.view.round && TimelyRun(worlds, steps, k))
    ensures p.Value() == q.Value()
  {
    FreshRunKeepsSafeInv(cfg, worlds, steps, k);
    if p.view.round < q.view.round {
      assert worlds[k].log[..|worlds[k].log|] == worlds[k].log;
      CommittedValueIsFinal(cfg, worlds[k], p, |worlds[k].log|, q);
    } else {
      var q0 := CommitIsPreparedInItsRound(cfg, worlds, steps, k, p);
      CertifiedAtHeight(cfg, worlds[k], p);
      CertifiedAtHeight(cfg, worlds[k], q);
      OneCertificatePerView(cfg, worlds[k], q0, q);
    }
  }

  /** The certificate comes with the block and results that it certifies. */
  predicate CarriesValue(qc: QC) {
    qc.Value() == (BlockToHash(qc.block), ResultsHash(qc.results))
  }

  /** What a leader proposes from its lock. */
  function LockProposal(n: Node, election: QC): ProposerMsg {
    ProposeMessage(ProposePhase(n, true, None).node, election)
  }

  /**
   A leader's proposal from its lock passes another lock exactly if it comes with its block and results, and the other lock
   is not from a later round or is on the same value.
   */
  lemma LeaderLockUnlocksExactlyWhen(cfg: Config, w: World, n: Node, other: QC, election: QC)
    requires Inv(cfg, w)
    requires n.highQC.Some? && IsLock(cfg, w.log, n.highQC.value) && IsLock(cfg, w.log, other)
    ensures var lock := n.highQC.value;
      SafeNode(other, LockProposal(n, election)).None?
      <==> CarriesValue(lock) && (other.view.round <= lock.view.round || other.Value() == lock.Value())
  {
    var lock := n.highQC.value;
    if other.view.round == lock.view.round {
      OneCertificatePerView(cfg, w, lock.SignBytes(), other.SignBytes());
    }
  }

  /** What an election vote carries for the leader: the voter's lock and the value behind it. */
  datatype CarriedLock = CarriedLock(qc: QC, block: Option<nat>, results: Option<nat>, rcBuildHeight: nat)

  function AdoptAll(n: Node, votes: seq<CarriedLock>): Node
    decreases |votes|
  {
    if votes == [] then n
    else AdoptAll(AdoptHighQC(n, votes[0].qc, votes[0].block, votes[0].results, votes[0].rcBuildHeight), votes[1..])
  }

  /**
   A leader that has received the locks of others in their election votes ends up with one at least as
   recent as each, together with the block and results that came with it.
   */
  lemma {:induction false} AdoptedLockCoversAll(cfg: Config, n: Node, votes: seq<CarriedLock>, k: nat)
    requires forall j :: 0 <= j < |votes| ==> cfg.AtHeight(votes[j].qc.view) && votes[j].qc.view.phase == ProposeVote
    requires n.highQC.Some? ==> cfg.AtHeight(n.highQC.value.view) && n.highQC.value.view.phase == ProposeVote
    requires k < |votes|
    ensures var after := AdoptAll(n, votes);
      && after.highQC.Some?
      && votes[k].qc.view.round <= after.highQC.value.view.round
      && (n.highQC.Some? ==> n.highQC.value.view.round <= after.highQC.value.view.round)
      && (after == n || CarriedLock(after.highQC.value, after.block, after.results, after.rcBuildHeight) in votes)
    decreases |votes|
  {
    var v := votes[0];
    var first := AdoptHighQC(n, v.qc, v.block, v.results, v.rcBuildHeight);
    if n.highQC.Some? {
      LessWithinHeight(n.highQC.value.view, v.qc.view);
    }
    if |votes| > 1 {
      AdoptedLockCoversAll(cfg, first, votes[1..], if k == 0 then 0 else k - 1);
    }
  }

  /** Vote f is the first one with the highest round, and that is higher than the leader's own. */
  ghost predicate FirstHighest(n: Node, votes: seq<CarriedLock>, f: nat) {
    && f < |votes|
    && (n.highQC.Some? ==> n.highQC.value.view.round < votes[f].qc.view.round)
    && (forall j :: 0 <= j < f ==> votes[j].qc.view.round < votes[f].qc.view.round)
    && (forall j :: f < j < |votes| ==> votes[j].qc.view.round <= votes[f].qc.view.round)
  }

  /** Of several equally high locks the first one received is adopted, with or without its block. */
  lemma {:induction false} FirstHighestIsAdopted(cfg: Config, n: Node, votes: seq<CarriedLock>, f: nat)
    requires forall j :: 0 <= j < |votes| ==> cfg.AtHeight(votes[j].qc.view) && votes[j].qc.view.phase == ProposeVote
    requires n.highQC.Some? ==> cfg.AtHeight(n.highQC.value.view) && n.highQC.value.view.phase == ProposeVote
    requires FirstHighest(n, votes, f)
    ensures AdoptAll(n, votes).highQC == Some(votes[f].qc)
    decreases |votes|
  {
    var v := votes[0];
    var first := AdoptHighQC(n, v.qc, v.block, v.results, v.rcBuildHeight);
    if n.highQC.Some? {
      LessWithinHeight(n.highQC.value.view, v.qc.view);
    }
    if f == 0 {
      LowerLocksAreIgnored(cfg, first, votes[1..]);
    } else {
      assert FirstHighest(first, votes[1..], f - 1);
      FirstHighestIsAdopted(cfg, first, votes[1..], f - 1);
    }
  }

  lemma {:induction false} LowerLocksAreIgnored(cfg: Config, n: Node, votes: seq<CarriedLock>)
    requires n.highQC.Some? && cfg.AtHeight(n.highQC.value.view) && n.highQC.value.view.phase == ProposeVote
    requires forall j :: 0 <= j < |votes| ==>
      cfg.AtHeight(votes[j].qc.view) && votes[j].qc.view.phase == ProposeVote && votes[j].qc.view.round <= n.highQC.value.view.round
    ensures AdoptAll(n, votes) == n
    decreases |votes|
  {
    if votes != [] {
      LessWithinHeight(n.highQC.value.view, votes[0].qc.view);
      LowerLocksAreIgnored(cfg, n, votes[1..]);
    }
  }

  /**
   Whatever else it has received: in every fresh run, a leader that has received a replica's lock in an election vote
   proposes what passes the safe node predicate of that replica, exactly if the lock it has adopted comes with its value.
   */
  lemma InformedLeaderUnlocks(cfg: Config, worlds: seq<World>, steps: seq<Step>, k: nat, leader: nat, i: nat, votes: seq<CarriedLock>, j: nat, election: QC)
    requires Run(cfg, worlds, steps) && k <= |steps| && FreshRun(worlds, steps, k)
    requires leader in worlds[k].nodes && i in worlds[k].nodes
    requires forall v :: v in votes ==> CheckHighQC(cfg.committee, worlds[k].log, v.qc, cfg.height, worlds[k].nodes[leader].lastRootHeightUpdated)
    requires j < |votes| && worlds[k].nodes[i].highQC == Some(votes[j].qc)
    ensures var after := AdoptAll(worlds[k].nodes[leader], votes);
      && after.highQC.Some?
      && (SafeNode(votes[j].qc, LockProposal(after, election)).None? <==> CarriesValue(after.highQC.value))
  {
    var w := worlds[k];
    var n := w.nodes[leader];
    FreshRunKeepsSafeInv(cfg, worlds, steps, k);
    assert SafeNodeInv(cfg, w.log, leader, n) && SafeNodeInv(cfg, w.log, i, w.nodes[i]);
    forall v | v in votes
      ensures IsLock(cfg, w.log, v.qc)
    {
      HighQCIsLock(cfg, w, v.qc, cfg.height, n.lastRootHeightUpdated);
    }
    AdoptedLockCoversAll(cfg, n, votes, j);
    var after := AdoptAll(n, votes);
    assert IsLock(cfg, w.log, after.highQC.value);
    LeaderLockUnlocksExactlyWhen(cfg, w, after, votes[j].qc, election);
  }

  /** The lock without its block and results: it certifies the same, and passes the same check on arrival. */
  function Stripped(v: CarriedLock): CarriedLock {
    v.(qc := v.qc.(block := None, results := None), block := None, results := None)
  }

  lemma StrippedIsAdmitted(c: Committee, log: seq<Signed>, v: CarriedLock, height: nat, lastRootHeightUpdated: nat)
    requires CheckHighQC(c, log, v.qc, height, lastRootHeightUpdated)
    ensures CheckHighQC(c, log, Stripped(v).qc, height, lastRootHeightUpdated)
  {
    assert Stripped(v).qc.SignBytes() == v.qc.SignBytes();
    assert Verifies(c, log, v.qc) ==> Verifies(c, log, Stripped(v).qc);
  }

  /** Sent first, the stripped lock shuts the full one out: the leader's proposal is refused by the very replica whose lock it is. */
  lemma StrippedLockBlocksLeader(cfg: Config, n: Node, v: CarriedLock, election: QC)
    requires cfg.AtHeight(v.qc.view) && v.qc.view.phase == ProposeVote && n.highQC.None?
    requires CarriesValue(v.qc) && v.qc.block.Some?
    ensures SafeNode(v.qc, LockProposal(AdoptAll(n, [v, Stripped(v)]), election)).None?
    ensures SafeNode(v.qc, LockProposal(AdoptAll(n, [Stripped(v), v]), election)) == Some(MismatchedProposals)
  {
    assert FirstHighest(n, [v, Stripped(v)], 0) && FirstHighest(n, [Stripped(v), v], 0);
    FirstHighestIsAdopted(cfg, n, [v, Stripped(v)], 0);
    FirstHighestIsAdopted(cfg, n, [Stripped(v), v], 0);
  }
}
