# Verified model of the Canopy node

A Dafny model of the three parts of the node whose correctness cannot be read off one function, with proofs of what they
are for. `dafny verify dfyconfig.toml` checks everything.

**NestBFT (`bft/`, with the certificate checks of `lib/`).** Honest replicas run the phase handlers of one height as a
transition system; faulty replicas sign anything; the network delivers any message that passes the checks, in any order and
any number of times. Proved over every run: no equivocation, one certificate per view, accountability; that honest locks are
kept exactly if votes to commit are asked for with fresh certificates; that then all decisions agree and are for blocks that
honest replicas have found valid; that otherwise they need not agree; and that a round in which a quorum of honest replicas meets
under an honest leader whose proposal no lock speaks against can always end with its block.

| file | content |
|---|---|
| `Quorum`, `Certificates` | committees, weighted quorums, views, certificates and the checks on arrival |
| `Replica` | the phase handlers as functions, and the replica object whose methods are proved to implement them |
| `Agreement`, `Decision` | the transition system, its invariants and theorems; a run that decides |
| `Validity`, `Progress` | when a replica votes, exactly, and what honest votes are worth; rounds that end |
| `StaleCertificates` | a run of four validators, one of them faulty, in which two different blocks are accepted |
| `Votes`, `Pacemakers`, `Evidence`, `Rounds` | the vote tally, the Pacemaker's threshold, double-sign evidence, the wait times |
| `Deployment` | the replica object with its tally and Pacemaker messages inside a run |

**The cross-chain exchange (`fsm/dex.go`, pool points of `fsm/account.go`, handlers of `fsm/message.go`).** One market maker is
split over two chains that lock batches in turn and replay each other's results. Proved: the pipeline refines one abstract
market that runs each batch exactly once, whatever is delivered when; every owner is paid exactly what is due, down to the
last token of every swap and share; withdrawals never overpay and deposits never dilute. Tokens are conserved against a
counter chain that sends anything, as long as the points that its fallbacks carry cover their holders; with points that do
not, tokens are created.

| file | content |
|---|---|
| `Ledger`, `PoolPoints`, `Arithmetic` | balances and their sum, the ledger of liquidity points, 64-bit products, quotients and roots |
| `Amm` | the market: orders, withdrawals, deposits, whole batches |
| `Batches`, `Exchange` | one chain's exchange as functions on its state, and the object whose methods are proved to implement them |
| `Conservation`, `Payments` | each stage against the market: the sums, and what each single owner gets |
| `Entitlements` | what orders, withdrawals and deposits are due, as inequalities |
| `Refusals` | when the market refuses a batch, in terms of the batch |
| `Pipeline`, `Opening` | the two chains together; how the exchange opens, and how it can lock up before |
| `Solvency`, `Overdrawn` | one chain against anything; what fallbacks whose points do not cover their holders do |

**Ledger and transaction execution (`fsm/state.go`, `account.go`, `byzantine.go`, `committee.go`, `store/txn.go`,
`controller/result.go`, with the handlers of `fsm/message.go`, `validator.go` and `swap.go` that move tokens).** Cached, nested
transactions against a plain map; vesting; rewards from the lottery to the payout; slashing. Over every run of transactions,
certificate results, block rewards, unstaking and exchange with any number of counter chains, the supply counters are the sum
of all accounts, pools and stakes exactly as long as every mint fits in 64 bits, and escrows and holding pools are exactly the
open orders and pending operations as long as no subsidy names one of these pools. Every message pays exactly whom it should,
and no balance falls but by its holder's own spending.

| file | content |
|---|---|
| `Stores`, `Transactions` | nested database transactions; block execution with caches against a plain map |
| `Vesting`, `Rewards`, `Slashing` | vesting tranches; reward percents and payouts; the slash cap |
| `Books`, `Bookkeeper` | all tokens of a chain and every handler that moves them, as functions on states, and the object whose methods are proved to implement them |
| `Supply` | the supply counters, escrows and holding pools against the tokens, over every run |
| `Transfers`, `Outcomes` | who pays whom: every handler against a table of transfers |
| `Blocks` | both objects at work: every step they take is a step of the run, and leaves right books |

Objects that the node updates in place are classes whose methods are proved against functions on their state; the theorems
are about those functions. `None` stands for an error return.

## Premises

- One height, one root height, one committee. Committee indices stand for public keys. Voting power is unbounded, so the
  threshold `2 * total / 3 + 1` is exact. The faulty hold at most a third of the power.
- A signature is an unforgeable token: a certificate verifies exactly if every signer in its bitmap has signed its payload.
  Hashes are free constructors, so equal hashes mean equal contents. The hash of a block is a function of the block.
- `bft/msg.go:56-165` and `lib/certificate.go:115-142` do not compare round and phase of the certificate in a leader's message
  with the message. The model does not either: `Agreement.Enabled` is the code's own check. Locks and agreement are therefore
  proved for runs in which every PRECOMMIT message that an honest replica votes on carries a PROPOSE-VOTE certificate of the
  message's round or a later one (`Certificates.Fresh`, `Agreement.FreshRun`). `Agreement.LockTheorem` shows that honest locks
  are kept exactly in those runs, `Agreement.GuardedRunIsFresh` that checking PRECOMMIT messages on arrival suffices, and
  `StaleCertificates` gives a run without it in which two different blocks are accepted. A block is accepted with the phase
  test of `controller/block.go:618-620`.
- A withdrawal's percent is at most 100 (`lib/certificate.go:891-896`), and the keys of `CopyOrders` are distinct, so that the
  pseudorandom order of execution is some permutation. A chain's locked batch is read by the other one from the state after a
  block, when same-block inclusion is over.
- `Pipeline` excludes subsidies that name a holding or liquidity pool, and fallbacks. A subsidy may name any pool, because its
  chain id is not checked (`fsm/message_helpers.go:537-548`); `Supply` has such subsidies, `Supply.SubsidyCanStray` is one, and
  `Supply.PoolsStayExactExactlyWhen` says what they change.
- A fallback's points are taken over unchecked (`fsm/account.go:576-586`, `lib/certificate.go:873-932`). `Solvency` and `Supply`
  speak of runs in which the points of every delivered fallback cover their holders: together these own at most the total
  (`Solvency.CoveringFallback`). `Overdrawn.OverdrawnFallbackCreatesTokens` is a fallback without this that creates tokens, and
  `Overdrawn.ExitConservesExactlyWhen` shows that the condition is needed.
- In `Books`, what a handler only reads enters as an argument: the governance parameters, the tokens minted per block, the
  chains that are paid, the addresses that finish unstaking, and the part of a balance that vesting locks. Chain ids are
  between 1 and 16383, as the checks of all messages but subsidies demand (`fsm/message_helpers.go:978-1006`). An order's
  identifier, the hash of its transaction, is new. A handler that refuses for a reason outside the model is a step that does not happen.
- In `Transactions`, a check only reads (`fsm/transaction.go:98-181`), and no pool is stored with points but without a balance;
  `Transactions.PoolCacheIsCoherentExactlyWhen` shows that this is exactly when the pool cache stays right.

Where the code and its comments disagree, the model follows the code: the Pacemaker's comment speaks of a two-thirds majority,
while the code jumps at half of the two-thirds threshold (`bft/bft.go:573-605`); the lock adopted from an election vote is
called a PRECOMMIT certificate in places, while the check asks for a PROPOSE-VOTE certificate (`lib/certificate.go:191-221`).

## Model

| member | source | states |
|---|---|---|
| Agreement.AgreementTheorem | controller/block.go:566-649 | In every run with fresh requests to commit, all certificates to commit and all blocks ever accepted are for one block and results, across rounds and replicas |
| Agreement.LockTheorem | bft/bft.go:454-482 | For every run: every honest lock is always a quorum's PROPOSE-VOTE certificate of this height, at least as recent as every PRECOMMIT-VOTE of its replica, if and only if every PRECOMMIT message voted on carried a fresh certificate |
| Agreement.StaleVoteBreaksLock | bft/bft.go:454-482 | Any single vote to commit on a stale certificate leaves that replica with a lock that is not kept |
| Agreement.GuardedRunIsFresh | bft/msg.go:56-165 | If PRECOMMIT messages were checked for a fresh certificate on arrival, every run would be fresh |
| StaleCertificates.StaleCertificatesBreakAgreement | bft/msg.go:56-165 | With the checks as they are, four equal validators with one faulty leader reach a world in which two different blocks have been accepted |
| StaleCertificates.StaleCertificatesBreakLocks | bft/msg.go:56-165 | In the same run an honest replica holds a lock older than a vote to commit that it signed |
| Agreement.FreshRunKeepsSafeInv | bft/bft.go:185-223 | In every fresh run the invariant behind agreement holds: locks are kept, votes to commit are prepared, and who votes against a committed value has seen it contested |
| Agreement.LockedValueTheorem | bft/bft.go:715-734 | In every fresh run, once a value is certified for commit in a round, every PROPOSE-VOTE certificate of a later round is for that value; and of the same round, if certificates are of their message's round |
| Agreement.CommitIsPreparedInItsRound | bft/bft.go:454-482 | If certificates are of their message's round, behind every certificate to commit there is a PROPOSE-VOTE certificate of the same round for the same value |
| Agreement.HonestNeverEquivocates | bft/bft.go:185-223 | In every run an honest replica signs at most one payload for a view |
| Agreement.RunKeepsInv | bft/bft.go:185-223 | In every run, fresh or not: stored messages and locks were checked, honest replicas sign one payload per view and only for views they have reached, and accepted blocks have certificates to commit |
| Agreement.NextKeepsInv | bft/bft.go:185-223 | Every step (forgery, delivery of a proposal, an election vote or a block, timeout) keeps that invariant |
| Agreement.OneCertificatePerView | lib/consensus.go:155-188 | At most one payload is ever certified in a view |
| Agreement.CommitIsPrepared | bft/bft.go:454-482 | Behind every certificate to commit there is a PROPOSE-VOTE certificate of its round or a later one for the same value |
| Agreement.CommittedValueIsFinal | bft/bft.go:359-415 | A value certified for commit cannot be contested by any PROPOSE-VOTE certificate of a later round |
| Agreement.SafeNodeJustifies | bft/bft.go:715-734 | An honest replica votes against a value that it had voted to commit only after a quorum contested that value in that round or later |
| Agreement.DeliverElectionVoteKeepsSafeInv | bft/vote.go:114-158 | Adopting a higher lock from an election vote keeps the invariant behind agreement |
| Agreement.DeliverProposalKeepsInv | bft/prop.go:23-58 | Storing a leader's message that passes the checks, even over an earlier one, keeps the invariant |
| Agreement.DeliverBlockKeepsInv | controller/block.go:566-649 | Whatever block passes the checks on arrival has a certificate to commit of a quorum |
| Agreement.TimeoutKeepsInv | bft/bft.go:185-223 | Whatever a phase handler signs, locks or commits keeps the invariant |
| Agreement.LeaderLockUnlocksExactlyWhen | bft/bft.go:312-351 | A proposal made from the leader's lock passes the safe node predicate of a locked replica exactly if the leader's lock comes with its block and results and the replica's lock is not from a later round or is on the same value |
| Agreement.AdoptedLockCoversAll | bft/vote.go:114-158 | After receiving locks in election votes a leader holds one at least as recent as each, with the block, results and build height that came with it |
| Agreement.InformedLeaderUnlocks | bft/bft.go:312-351 | In every fresh run, whatever else it has received, a leader that has received a replica's lock in an election vote proposes what passes that replica's safe node predicate, exactly if the lock it has adopted comes with its block and results |
| Agreement.FirstHighestIsAdopted | bft/vote.go:114-158 | Of several equally high locks the first one received is adopted, with or without its block |
| Agreement.StrippedLockBlocksLeader | bft/vote.go:114-158 | If a faulty voter sends a lock without its block first, the full one is not adopted, and the leader's proposal is refused by the replica whose lock it is |
| Validity.CommittedIsValid | bft/bft.go:359-415 | In every fresh run, behind every certificate to commit stands a quorum whose honest members, more than a third of all power, have each found a proposal with that block and results valid |
| Validity.AcceptedBlocksAreValid | controller/block.go:566-649 | In every fresh run, every accepted block with its results was found valid by an honest replica, as a stored proposal that passed its lock and was built recently enough |
| Validity.HonestVotesAreValid | bft/bft.go:359-415 | In every run, every honest PROPOSE-VOTE was signed in a timer step with a verdict of valid, on a stored PROPOSE message of that round, recent and passing the lock, for exactly its block and results |
| Validity.CertifiedIsValid | bft/bft.go:359-415 | In every run, all honest members of a quorum that voted for a proposal have found it valid |
| Validity.ProposeVoteExactlyWhen | bft/bft.go:359-415 | A replica votes for a proposal exactly if one has arrived, it passes the lock, it is not built too long ago and it is found valid; the vote is for its block and results; otherwise the round is interrupted |
| Validity.SafeNodeExactlyWhen | bft/bft.go:715-734 | A message passes a lock exactly if it is justified for the proposed value, by the lock's own value or by a later round |
| Validity.ElectionVoteExactly | bft/bft.go:273-301 | The election vote is for the elected leader and no block, and moves on to PROPOSE |
| Validity.ProposalExactly | bft/bft.go:312-351 | Without a majority nothing is proposed; a locked leader proposes its lock's block, an unlocked one what it has produced, if anything |
| Validity.LeaderGoesOnExactlyWhen | bft/bft.go:423-519 | In PRECOMMIT and COMMIT only a leader without a majority interrupts the round |
| Validity.CommitVoteExactlyWhen | bft/bft.go:454-482 | A replica votes to commit exactly if a request of its own leader is for the value that it holds; it then locks on that certificate with its block |
| Validity.CommitsExactlyWhen | bft/bft.go:522-549 | A replica commits exactly if a certificate of its own leader is for the value that it holds |
| Validity.PacemakerExactly | bft/bft.go:573-605 | After the Pacemaker a replica starts the next round or the one it jumps to, keeping only its lock and its messages |
| Progress.GoodRoundDecides | bft/bft.go:185-223 | From every world in which the honest replicas are a quorum and stand together at the start of a round, and no honest lock speaks against what their honest leader has to propose, some steps lead to its block being accepted, and every honest replica then commits it |
| Progress.UnlockedRunsCanDecide | bft/bft.go:185-223 | In every run, whatever faulty replicas have done before, such a meeting without locks can still end with the leader's block accepted |
| Progress.LockedRunsCanDecide | bft/bft.go:312-415 | In every fresh run so can one with locks, if no honest lock is from a later round than the leader's and the others accept that |
| Progress.AcceptedExactlyWhen | bft/msg.go:56-165 | A leader's message is accepted exactly if a quorum signed its certificate, heights and lock are right, and it carries its sender's content or the value that the receiver holds |
| Progress.LockAcceptedExactlyWhen | lib/certificate.go:191-221 | A lock is accepted exactly if a quorum signed its payload in the PROPOSE-VOTE phase of this height, under a root height that is not outdated, and its content agrees with its hashes |
| Progress.BlockAcceptedExactlyWhen | controller/block.go:566-649 | A peer's block is accepted exactly if a quorum signed its payload in the PRECOMMIT-VOTE phase of this height, and block and results are there and agree with it |
| Progress.ProposalIsHeard | bft/bft.go:312-351 | The proposal of a leader that a quorum has elected is accepted by every replica of its height |
| Progress.LeaderSendsProposal | bft/bft.go:312-351 | The proposal that is delivered in a good round is the one that the leader's PROPOSE phase sends |
| Decision.LoneValidatorDecides | bft/bft.go:522-549 | The protocol can decide: some run of a lone validator ends with a committed certificate for its own block |
| Quorum.NewValidatorSet | lib/consensus.go:25-86 | The committee's total power and two-thirds threshold, refused exactly if nobody has power |
| Quorum.GetSigners | lib/consensus.go:274-305 | The committee members in the bitmap, in order, and exactly their power |
| Quorum.GetDoubleSigners | lib/consensus.go:308-348 | Exactly the members that are in both bitmaps, each once |
| Quorum.OverlapOfQuorums | lib/consensus.go:155-188 | Two full quorums share signers of power at least 2 * threshold - total, more than a third |
| Quorum.HonestOverlap | lib/consensus.go:155-188 | With at most a third of the power faulty, two full quorums share an honest signer |
| Quorum.MajorityIsLeast | lib/consensus.go:25-86 | A full quorum is exactly more than two thirds of the total power |
| Certificates.LessWithinHeight | lib/consensus.go:568-615 | Within a height and root height views are ordered by round, then by phase |
| Certificates.FullIsCertified | lib/certificate.go:115-142 | A certificate that checks as full proves that a quorum signed its payload |
| Replica.SafeNode | bft/bft.go:715-734 | A proposal is safe only with a justification for the same value, and then the lock is on that value or the justification is from a later round |
| Replica.HandlePhaseAdvances | bft/bft.go:737-749 | Every timer step that sets a timer moves to a strictly later view; only a committed COMMIT-PROCESS sets none; elections start only after the Pacemaker |
| Replica.RunPhaseView | bft/bft.go:554-605 | A phase keeps the view or interrupts the round; the Pacemaker alone starts a later round |
| Replica.VotesAreForTheCurrentView | bft/bft.go:185-223 | Whatever is signed in a step is for the view in which the step starts, which is then left for good |
| Replica.BFT.Step | bft/bft.go:185-223 | The object runs the current phase with the majority of its own tally and the round of its own Pacemaker messages, and moves on exactly as the transition function says, with the same vote and decision |
| Replica.BFT.StartElectionVotePhase | bft/bft.go:273-301 | The election vote names the elected leader and covers no block |
| Replica.BFT.StartProposePhase | bft/bft.go:312-351 | A leader whose tally holds a quorum of election votes proposes its lock's block and results, and only without a lock a new block |
| Replica.BFT.StartProposeVotePhase | bft/bft.go:359-415 | Votes for the proposal unless it is missing, unsafe for the lock, built on an outdated root height, or invalid; then interrupts the round |
| Replica.BFT.StartLeaderPhase | bft/bft.go:423-447 | The leader interrupts the round exactly if its tally holds no quorum of votes of the phase before (also the COMMIT phase) |
| Replica.BFT.StartPrecommitVotePhase | bft/bft.go:454-482 | Locks on the leader's certificate with the block held, then votes to commit; interrupts on another leader or value |
| Replica.BFT.StartCommitProcessPhase | bft/bft.go:522-549 | Commits the certificate for the block held, or interrupts the round |
| Replica.BFT.RoundInterrupt | bft/bft.go:554-569 | Interrupting changes the phase and nothing else |
| Replica.BFT.Pacemake | bft/bft.go:573-605 | A new round at the larger of the next round and the highest one that enough power reports in the stored messages, without proposer, block and results but with the lock |
| Replica.BFT.NextPhase | bft/bft.go:737-749 | The phase order, with RoundInterrupt leading to Pacemaker and Pacemaker to Election |
| Replica.BFT.GetProposal | bft/prop.go:75-81 | The leader's message of this round for a phase, if it arrived |
| Replica.BFT.HandleProposal | bft/prop.go:23-58 | A leader's message is stored under its round and phase, replacing an earlier one |
| Replica.BFT.HandleHighQC | bft/vote.go:114-158 | A lock carried by an election vote is adopted with its block exactly if it is higher than the own one |
| Votes.Tally.GetVoteSet | bft/vote.go:67-90 | The vote set of a payload, created empty; nothing else moves |
| Votes.Tally.AddVote | bft/vote.go:51-111 | A vote is counted once per committee member, adding exactly its power; a rejected vote moves nothing |
| Votes.Tally.GetMajorityVote | bft/vote.go:27-38 | A vote set of this round and phase whose signers are a quorum, or proof that there is none |
| Deployment.LeaderCertificateIsFullExactlyWhen | bft/bft.go:423-447 | The leader's aggregate is a full certificate for every receiver exactly if the leader still holds the value and key that the majority voted for |
| Deployment.MajorityIsCertified | bft/vote.go:27-38 | A majority in a tally of real signatures is a certificate of its round and phase |
| Deployment.TimerStep | bft/bft.go:185-223 | A timer step of the object, on its own tally and Pacemaker messages, is a step of the run; a leader that goes on has a certificate behind it |
| Evidence.AddSigner | lib/consensus.go:689-697 | The list then names the signer for the height and nobody else anew, without repeated entries |
| Evidence.ProcessDSE | bft/evidence.go:68-134 | One bad piece rejects all; otherwise the result names exactly the signers and heights that some piece implicates |
| Evidence.ValidateByzantineEvidence | bft/evidence.go:17-51 | Every slashed signer of an accepted proposal, at every listed height, is implicated by attached evidence |
| Evidence.HonestIsNeverImplicated | bft/evidence.go:203-235 | In every run, acceptable evidence implicates only faulty replicas |
| Evidence.ConflictImplicatesAThird | bft/evidence.go:203-235 | Two full certificates of one view for different payloads are acceptable evidence against more than a third of the power |
| Evidence.ImplicatedExactlyWhen | bft/evidence.go:68-134 | Accepted evidence implicates exactly who is in both bitmaps and may be slashed at its height, and all of them have signed both payloads |
| Evidence.AcceptedExactlyWhen | bft/evidence.go:203-235 | Evidence is accepted exactly if it is recent, carries no content, is for a phase after PROPOSE, and all signers in both bitmaps have really signed two different payloads of one view |
| Pacemakers.PacemakerRound | bft/bft.go:573-605 | The round to jump to is the highest one that a member reports and enough power has reached; 0 if there is none |
| Pacemakers.ThresholdIsHalf | bft/bft.go:573-605 | Enough power to jump is half of a full quorum, rounded down |
| Rounds.PacemakerRaisesRound | bft/bft.go:573-605 | The new round is the next one or the one jumped to, whichever is higher |
| Rounds.WaitsGrowWithRounds | bft/bft.go:752-784 | Every phase waits for its own timeout in round 0 and for twice that longer in each later round; after a commit, a minute |
| Rounds.RoundAlignment | bft/bft.go:786-814 | Time already waited plus the time left is the same whichever phase a replica interrupts in |
| Rounds.InterruptedReplicasMeet | bft/bft.go:752-814 | Replicas that start a round together reach the Pacemaker together, after the seven waits scaled by 2 * round + 1 |
| Pipeline.RefinementTheorem | fsm/dex.go:164-276 | In every run of the two chains each reserve and points ledger is that of one abstract market after its prefix of the executed batches, the market stays sound, and the shadow sent along is the reserve before the answered batch |
| Pipeline.ExactlyOnceTheorem | fsm/dex.go:209-252 | No batch is executed twice, and delivering an executed batch again changes nothing |
| Pipeline.AnswerIsHandledExactlyWhen | fsm/dex.go:209-276 | Applying receipts never fails: an answer is handled exactly if the market accepts its own operations, and otherwise nothing changes |
| Pipeline.TokensAreConserved | fsm/dex.go:62-101 | In every run each holding pool is exactly the pending operations of its chain, and no exchange step changes a chain's total |
| Pipeline.RunKeepsInv | fsm/dex.go:591-678 | The invariant of the pipeline holds in every world of every run |
| Pipeline.StepKeepsInv | fsm/dex.go:164-206 | Every user operation, block end, publication and delivery keeps the invariant and the chain's total |
| Pipeline.DeliveryOutcome | fsm/dex.go:164-206 | A delivery opens the exchange, runs the delivered batch as the next one, or changes nothing |
| Pipeline.OnlyTheAnswerAnswers | fsm/dex.go:209-229 | Of everything a chain has ever shown, only its current answer matches the counter chain's lock |
| Pipeline.FirstDelivery | fsm/dex.go:255-276 | The first batch of either chain is run on the common starting market |
| Pipeline.AnswerDelivery | fsm/dex.go:209-276 | The answer lifts the waiting chain's lock and is run as the next batch |
| Pipeline.ReceiptsCatchUp | fsm/dex.go:209-252 | Receipts bring the waiting chain to exactly the market that the answering chain has reached |
| Pipeline.ExecuteAndLock | fsm/dex.go:255-276 | Executing a batch is running it on the market, and locks an answer with its hash, receipts and the reserve before it |
| Pipeline.UntimelyDelivery | fsm/dex.go:209-229 | A batch that does not answer the lock changes nothing |
| Pipeline.EmptyDelivery | fsm/dex.go:164-206 | An empty batch only makes a chain without a lock lock its first batch |
| Pipeline.PublishKeepsInv | fsm/dex.go:624-678 | A batch that is shown after its block can no longer change under the reader |
| Pipeline.MarketStaysSound | fsm/dex.go:324-585 | The abstract market stays sound through every history of batches |
| Pipeline.IdleBatchIsAccepted | fsm/dex.go:255-276 | A batch without operations is never refused and leaves the market as it is |
| Opening.ExchangeStartsExactlyWhen | fsm/dex.go:164-229 | Before the first execution and without pending operations, some steps execute a first batch if and only if not both chains have locked one |
| Opening.DeadlockIsForever | fsm/dex.go:209-229 | Once both chains have locked a first batch, no run ever executes a batch or moves a reserve |
| Opening.DeadlockIsReachable | fsm/dex.go:164-206 | From every initial world some run ends with both chains locked in answer to each other's empty batch |
| Opening.FirstExecutionExactlyWhen | fsm/dex.go:164-276 | Before the first execution a delivery executes exactly if the receiving chain has locked nothing and the market accepts the batch |
| Opening.ExchangeStarts | fsm/dex.go:591-621 | From every initial world without pending operations of the nested chain, some run executes a first batch |
| Solvency.NothingIsLost | fsm/dex.go:62-101 | In every run of one chain against arbitrary batches, and fallbacks whose points cover their holders: all tokens stay, the holding pool is the pending operations and its first surplus, the points cover their holders, and no pool is emptied |
| Solvency.PointsAddUp | fsm/account.go:576-586 | If the fallbacks carry points that add up, the points add up in every run |
| Solvency.HandleDexBatchConserves | fsm/dex.go:62-101 | Every successful handling of any batch, or of a fallback whose points cover their holders, conserves tokens and leaves a positive pool positive |
| Overdrawn.OverdrawnFallbackCreatesTokens | fsm/dex.go:681-714 | A fallback with two holders of 10 points each and a total of 5 turns a pool of 1000 into an account of 2000 and a pool of 2^64 - 1000 |
| Overdrawn.ExitConservesExactlyWhen | fsm/dex.go:396-486 | If all holders of a fallback withdraw from a reserve equal to its total and the batch is handled, tokens are conserved if and only if the points cover their holders; otherwise exactly 2^64 are created |
| Overdrawn.ExitWithdraws | fsm/dex.go:396-486 | Such a withdrawal pays every point one for one, and is refused exactly if some holder's exit leaves exactly nothing |
| Solvency.WithoutPoolNothingHappens | fsm/dex.go:62-101 | Without a pool, or without a batch from the counter chain, nothing happens |
| Solvency.ReceiptsConserve | fsm/dex.go:209-252 | Any receipts that are applied at all conserve tokens and free exactly what was held for the answered batch |
| Solvency.ExecutionConserves | fsm/dex.go:255-276 | Any executed batch conserves tokens and never empties the pool |
| Solvency.EmptyMirrorIsRefused | fsm/dex.go:324-341 | A batch that reports an empty pool is never executed, so no deposit can be stranded |
| Solvency.NobodyIsDiluted | fsm/dex.go:164-276 | In every such run, after any fallback and whether points are backed or not, no received batch dilutes the liquidity providers, neither by its receipts nor by its execution |
| Conservation.ReceiptsRefineMarket | fsm/dex.go:209-252 | Receipts for an executed batch never fail, reach the executing chain's market, and take exactly the held amount |
| Conservation.ExecuteRefinesMarket | fsm/dex.go:255-276 | Executing a remote batch fails only if the market rejects it, and otherwise equals running it |
| Conservation.ReceiptsRefineReplay | fsm/dex.go:279-317 | Order receipts fail only where the replay fails, and keep the reserve ledger equal to the pool's amount |
| Conservation.OrdersRefineMarket | fsm/dex.go:324-387 | Paying the orders fails only where their execution fails, and keeps the reserve ledger equal to the pool's amount |
| Conservation.WithdrawRefinesMarket | fsm/dex.go:396-486 | A withdrawal stage fails only where the market refuses, pays exactly what leaves the pool, and keeps ledger and amount equal |
| Conservation.DepositRefinesMarket | fsm/dex.go:490-585 | A deposit stage moves exactly the deposits from holding to liquidity pool if local, and nothing if remote |
| Conservation.RotateKeepsHolding | fsm/dex.go:591-621 | Rotation moves pending operations under the lock and no money |
| Conservation.RotationLocksCollected | fsm/dex.go:591-621 | Rotation locks exactly the collected operations under the given hash, reserve, receipts and the height of this block; while a batch is locked it does nothing |
| Conservation.LinksIdentify | fsm/dex.go:197-206 | Two batches that are not empty link to the same hash exactly if they say the same, whatever their fallback mark and attached points |
| Conservation.InclusionKeepsHolding | fsm/dex.go:624-678 | Same-block inclusion, with its caps, loses no operation's money |
| Conservation.RotationKeepsOperations | fsm/dex.go:591-621 | Rotation loses, repeats and reorders no pending operation |
| Conservation.InclusionKeepsOperations | fsm/dex.go:624-678 | Same-block inclusion loses, repeats and reorders no pending operation, and the lock stays within the caps |
| Conservation.OrderKeepsHolding | fsm/message.go:518-549 | An order's amount moves from the account to the holding pool and the collected batch |
| Conservation.DepositKeepsHolding | fsm/message.go:552-587 | A deposit's amount moves from the account to the holding pool and the collected batch |
| Conservation.OrderIsCollected | fsm/message.go:518-549 | An order is refused exactly without liquidity, capacity or funds; else it is the last one collected, its seller alone pays it, and nothing else changes |
| Conservation.DepositIsCollected | fsm/message.go:552-587 | A deposit is refused exactly without a pool, capacity or funds; else it is the last one collected, and its owner alone pays it |
| Conservation.WithdrawalIsCollected | fsm/message.go:590-621 | A withdrawal is refused exactly without liquidity, capacity or points of its owner; else it is the last one collected, and nothing else changes |
| Conservation.InclusionMovesAllThatFits | fsm/dex.go:624-678 | After same-block inclusion an operation is only left out of the locked batch if that is full |
| Conservation.InclusionSparesOldLocks | fsm/dex.go:624-678 | A batch locked in an earlier block is not touched |
| Conservation.FallbackRefundsEverything | fsm/dex.go:681-714 | The fallback cannot fail: it refunds the whole locked batch, drops it and conserves all tokens |
| Payments.ExecutionPaysOwners | fsm/dex.go:255-276 | Executing a remote batch credits every account exactly its own receipts and withdrawals |
| Payments.ReceiptsPayOwners | fsm/dex.go:209-252 | Applying receipts credits every account exactly its own failed orders and withdrawals |
| Payments.ReceiptsReachTheirOwners | fsm/dex.go:368-385 | Every account receives exactly the receipts of its own orders |
| Payments.RefundsReachTheirOwners | fsm/dex.go:279-317 | Every account gets back exactly its own failed orders |
| Payments.FallbackRefundsOwners | fsm/dex.go:681-714 | The fallback gives every account back exactly its own orders and deposits |
| Payments.LimitsAreRespected | fsm/dex.go:341-367 | In any execution order an order gets nothing or at least what it asked for |
| Payments.MintingReachesOwners | fsm/dex.go:490-585 | Every depositor gets exactly the floored shares of its own deposits; only the dead address gets more |
| Payments.OneWithdrawal | fsm/dex.go:441-474 | A withdrawal takes its percentage of the owner's current points, pays the owner its share and nobody else anything |
| Payments.StrangersAreUntouched | fsm/dex.go:396-486 | Whoever withdraws nothing keeps all points and is paid nothing |
| Entitlements.OrdersAreFilledInTurn | fsm/dex.go:324-387 | For every order of execution: each order is paid, at the reserves that it finds, the largest d with d * (1000 * x + 990 * dX) <= 990 * dX * y, or nothing exactly if d is 0 or less than it asked for; the reserves move by what it sold and was paid |
| Entitlements.FillIsUnique | fsm/dex.go:846-866 | What an order is paid is determined by the reserves that it finds |
| Entitlements.OwnersExit | fsm/dex.go:396-486 | With points that add up, every owner keeps and is paid exactly what its own withdrawals come to one after the other, in proportion to the points that all withdrawals nominally remove; without any nothing happens |
| Entitlements.DepositIssues | fsm/dex.go:490-585 | With points that add up, a deposit stage issues points in proportion to the growth of the root of the reserves, rounded down and cut to 64 bits; every depositor gets its part, and the dead address the root of a new pool and the dust |
| Entitlements.BackedIssueIsExact | fsm/dex.go:518-549 | While the points are backed, nothing of the issue is cut off |
| Entitlements.FirstDepositFounds | fsm/dex.go:515-585 | After the first deposits into a sound market without points, these are the largest t with t * t <= q.x * q.y; the dead address owns the largest r with r * r <= m.x * m.y and the dust, and the depositors own the rest |
| Entitlements.ExecutionOwes | fsm/dex.go:255-276 | With points that add up, executing a batch credits every account the fills of its own orders, and its withdrawals from the reserve that the orders leave |
| Entitlements.ReceiptsOwe | fsm/dex.go:209-252 | With points that add up, applying receipts credits every account its own failed orders, and its withdrawals from the reserve that the successful orders leave |
| Exchange.StateMachine.HandleOrderReceipts | fsm/dex.go:279-317 | The loop over receipts succeeds and ends exactly as the function on states |
| Exchange.StateMachine.HandleDexBatchOrders | fsm/dex.go:324-387 | Execution in pseudorandom order and payout in original order end exactly as the function on states |
| Exchange.StateMachine.HandleBatchWithdraw | fsm/dex.go:396-486 | The two loops over withdrawals end exactly as the function on states |
| Exchange.StateMachine.HandleBatchDeposit | fsm/dex.go:490-585 | Minting, distribution, token movement and dust end exactly as the function on states |
| Exchange.StateMachine.HandleReceiptsForOurLockedBatch | fsm/dex.go:209-252 | Waits on a mismatch; otherwise applies receipts, withdrawals and deposits and lifts the lock |
| Exchange.StateMachine.HandleRemoteChainLockedBatch | fsm/dex.go:255-276 | Runs orders, withdrawals and deposits of the remote batch and returns its receipts |
| Exchange.StateMachine.RotateDexBatches | fsm/dex.go:591-621 | Locks the collected batch exactly if nothing is locked |
| Exchange.StateMachine.HandleRemoteDexBatch | fsm/dex.go:164-206 | One delivery from receipts to rotation, with the reserve snapshot between the two |
| Exchange.StateMachine.HandleLivenessFallback | fsm/dex.go:681-714 | Refunds in order, takes over the remote points and drops the lock |
| Exchange.StateMachine.Handle | fsm/dex.go:62-101 | The entry point, idle without a remote batch or a pool |
| Exchange.StateMachine.IncludeSameBlockDex | fsm/dex.go:624-678 | Moves as many same-block operations under the lock as the caps allow |
| Exchange.StateMachine.HandleMessageDexLimitOrder | fsm/message.go:518-549 | Takes the amount into the holding pool and appends the order, refused exactly without liquidity, capacity or funds |
| Exchange.StateMachine.HandleMessageDexLiquidityDeposit | fsm/message.go:552-587 | Takes the amount into the holding pool and appends the deposit |
| Exchange.StateMachine.HandleMessageDexLiquidityWithdraw | fsm/message.go:590-621 | Appends the withdrawal of a holder |
| Amm.OrdersKeepProduct | fsm/dex.go:324-387 | In any execution order the product of the reserves does not shrink, the paying reserve is not emptied, and reserves move by exactly what was sold and paid |
| Amm.ReplayMatchesExecution | fsm/dex.go:279-317 | Replaying the receipts in original order reaches the executing chain's reserves and never hits the remote debit error |
| Amm.WithdrawNeverOverpays | fsm/dex.go:396-486 | Even with repeated addresses the shares paid are exactly what leaves each reserve, a positive reserve stays positive, and value per remaining point does not fall |
| Amm.WithdrawKeepsSound | fsm/dex.go:396-486 | Withdrawals keep the points backed by the reserves |
| Amm.MintIsExact | fsm/dex.go:490-549 | In any market with positive reserves no mint dilutes the old points, cut off or not; while the points are backed, it is the exact quotient and keeps them backed |
| Amm.DistributionIsExact | fsm/dex.go:551-584 | Shares and dust are together exactly what was minted, and the subtraction for the dust cannot underflow |
| Amm.DepositMintsExactly | fsm/dex.go:490-585 | In any market, backed or not, the reserve grows by exactly the deposits, the points by exactly what one big deposit would have minted, and nobody is diluted; with an empty reserve nothing moves |
| Amm.DepositKeepsSound | fsm/dex.go:490-585 | Deposits keep the points backed by the reserves |
| Amm.MintDependsOnSumOnly | fsm/dex.go:490-585 | How a total is split over deposits and depositors does not change the points minted |
| Amm.BatchKeepsSound | fsm/dex.go:255-276 | A whole batch keeps reserves positive and points backed |
| Refusals.BatchRefusedExactlyWhen | fsm/dex.go:255-276 | A sound market refuses a batch exactly if executed orders take the selling reserve past 64 bits, withdrawals nominally remove more points than 64 bits count, every holder leaves, deposits take the reserve past 64 bits, or the ledger gets full |
| Refusals.WithdrawRefusedExactlyWhen | fsm/dex.go:396-486 | Withdrawals are refused exactly if their nominal sum of points overflows, or if every holder withdraws everything |
| Refusals.DepositRefusedExactlyWhen | fsm/dex.go:490-585 | Deposits are refused exactly if the reserve with them leaves 64 bits, or if holders, recipients and dust together are too many for the ledger |
| PoolPoints.AddPointsKeepsValid | fsm/account.go:997-1032 | Exactly n points more for the address and in total, nobody else touched, holders still distinct, nonzero and summing to the total |
| PoolPoints.RemovePointsKeepsValid | fsm/account.go:1035-1059 | Exactly n points less for the address and in total, refused exactly if the pool would be left without points |
| PoolPoints.OwnedIsReported | fsm/account.go:982-993 | The lookup reports what the address owns in the list |
| Arithmetic.MulDivBound | lib/util.go:1011-1023 | The 64-bit product quotient never exceeds the exact one |
| Arithmetic.MulDivIsQuotient | lib/util.go:1011-1023 | A quotient that fits in 64 bits is the largest q with q * c <= a * b |
| Arithmetic.RootBounds | lib/util.go:995-1002 | The integer square root is the largest integer whose square fits |
| Arithmetic.SwapKeepsProduct | fsm/dex.go:846-866 | A swap with fee never shrinks the product of the reserves |
| Arithmetic.SwapIsLargest | fsm/dex.go:846-866 | A swap pays the largest d with d * (1000 * x + 990 * dX) <= 990 * dX * y |
| Arithmetic.SwapLeavesSomething | fsm/dex.go:846-866 | A swap never pays out the whole reserve |
| Ledger.AccountAddTotal | fsm/account.go:207-231 | A credit changes the sum of all balances by its amount and succeeds whenever they fit in 64 bits |
| Ledger.AccountSubTotal | fsm/account.go:280-304 | A debit changes the sum of all balances by its amount |
| Payments.OneBalanceMoves | fsm/account.go:207-304 | A credit or debit moves one balance by its amount and no other |
| Stores.Txn.Get | store/txn.go:108-121 | A read shows the pending operations merged over all parents |
| Stores.Txn.Update | store/txn.go:144-153 | A write or deletion acts on what the transaction shows |
| Stores.Txn.Commit | store/txn.go:218-265 | The parent then shows exactly what the transaction showed, in whatever order the operations are replayed |
| Stores.Txn.Discard | store/txn.go:184-187 | The transaction shows its parent again |
| Stores.OverlayOneAtATime | store/txn.go:239-265 | Operations on distinct keys can be applied one at a time |
| Transactions.StateMachine.ApplyTransactions | fsm/state.go:261-403 | A block ends on the plain map of its successful transactions with every cached account and pool equal to the store; it fails as a whole exactly on a duplicate or an oversized block |
| Transactions.StateMachine.Apply | fsm/state.go:343-390 | A failed transaction leaves store, events and slash tracker as they were; a successful one has its whole effect |
| Transactions.StateMachine.RollBack | fsm/state.go:361-374 | Nothing of a failed transaction is left in the store, the caches, the events or the slash tracker |
| Transactions.StateMachine.Check | fsm/state.go:276-292 | Checking changes nothing |
| Transactions.StateMachine.Execute | fsm/transaction.go:17-95 | Any handler behaves on caches and nested stores exactly as on the plain map |
| Transactions.StateMachine.TxnWrap | fsm/state.go:732-744 | Writes go to a new transaction over the store, which shows the same |
| Transactions.StateMachine.GetAccount | fsm/account.go:18-42 | Cached or not, the account that the store shows |
| Transactions.StateMachine.SetAccount | fsm/account.go:149-176 | Store and cache both hold the account without its vested tranche |
| Transactions.StateMachine.UpdateAccount | fsm/account.go:207-304 | Add, subtract and add with vesting act as on the plain map |
| Transactions.StateMachine.GetPool | fsm/account.go:389-416 | Cached or not, the pool that the store shows |
| Transactions.StateMachine.SetPool | fsm/account.go:466-496 | Store and cache both hold the pool |
| Transactions.StateMachine.UpdatePool | fsm/account.go:542-573 | Set, add and subtract act as on the plain map |
| Transactions.OnlySuccessesCount | fsm/state.go:317-391 | The final state is that of the included transactions played alone, each emitting exactly the recorded events; every transaction is included or failed, never both; the block fits |
| Transactions.BlockExactly | fsm/state.go:261-403 | A block is refused exactly if a transaction that passed its check repeats an earlier one or does not fit behind those that succeeded; otherwise exactly those fail whose check or handler fails, and the state is that after all handlers |
| Transactions.BalancesMoveExactly | fsm/account.go:207-304 | A credit or debit is refused exactly if the balance would leave 64 bits or what is locked, and moves that balance alone |
| Transactions.PoolsMoveExactly | fsm/account.go:542-573 | A debit of a pool is refused exactly without the amount, other updates never; that pool alone changes |
| Transactions.InstructionsAreOperations | fsm/account.go:207-304 | What a handler does to an account is an operation of that account's history, stored without its vested tranche, and no other account changes |
| Transactions.HandlersKeepLocksCovered | fsm/account.go:134-304 | While computed products fit in 64 bits, no handler ever leaves a balance below what is locked of it |
| Transactions.RecordsExactly | store/txn.go:108-153 | What is saved can be loaded until it is erased; events and slashes add up; nothing else changes |
| Transactions.PoolCacheIsCoherentExactlyWhen | fsm/account.go:466-496 | Storing a pool keeps its cache right exactly if it is not left with points but no balance |
| Transactions.AccountCacheIsCoherentExactlyWhen | fsm/account.go:149-176 | Storing an account keeps its cache right exactly if an empty account is the default account |
| Transactions.EmptiedAccountIsDefault | fsm/account.go:280-304 | An account that runs empty has nothing locked and is stored as the default account |
| Vesting.BalanceCoversLock | fsm/account.go:234-304 | In every history of adds, vesting sends and debits in which every computed product fits in 64 bits, the balance covers what is locked, and an empty account is the default account |
| Vesting.NeverRelocksExactlyWhen | fsm/account.go:101-131 | The locked part never grows again if and only if no computed product wraps around between the first and the last vesting height; with no cliff beyond the start, if and only if the last computed product fits in 64 bits |
| Vesting.LockedNeverGrows | fsm/account.go:101-131 | If every computed product fits in 64 bits the locked part never grows with the height |
| Vesting.LockCanGrowWhenTheProductDoesNotFit | fsm/account.go:101-131 | A tranche whose product leaves 64 bits, with more locked at height 2 than at height 1 |
| Vesting.StoredStaysCovered | fsm/account.go:251-304 | While every computed product fits in 64 bits, every operation at the same or a later height keeps the balance above the lock |
| Vesting.SpendingIsSafeExactlyWhen | fsm/account.go:134-146 | A balance that holds its whole tranche covers the lock at every later height, whatever was spendable and spent, if and only if no computed product wraps around |
| Vesting.VestedExactly | fsm/account.go:101-146 | While computed products fit: nothing is vested before start and cliff, all from the end on, and in between the largest part within the share of the time passed; the rest is locked, and what is not locked can be spent |
| Vesting.OperationsExactly | fsm/account.go:207-304 | When adds, debits and vesting sends are accepted, and exactly what they do to balance, tranche and schedule |
| Rewards.NeverOverDistributes | fsm/committee.go:128-176 | Whatever certificates were combined, the floored payouts never exceed the pool, so burning the rest cannot underflow |
| Rewards.CombineKeepsFair | lib/certificate.go:1113-1174 | One more certificate, reduced for non-signers, keeps the percents within 100 for each sample |
| Rewards.AtMostHundredPerSample | lib/certificate.go:1113-1174 | Combined percents never exceed 100 for each sample |
| Rewards.ReductionOnlyLowers | fsm/automatic.go:212-219 | The reduction for non-signers only lowers percents |
| Rewards.ReductionIsExact | fsm/automatic.go:212-219 | Every entry keeps its recipient and chain, and the largest percent within what the reduction leaves |
| Rewards.CombinedIsFor | lib/certificate.go:1113-1174 | Everybody's percents on this chain are added, and nobody's on another |
| Rewards.CombinedFailsExactlyWhen | lib/certificate.go:1113-1174 | Adding percents fails exactly if somebody's percents would leave 64 bits |
| Rewards.NothingIsForgotten | lib/certificate.go:1113-1174 | However many certificates are combined, everybody's entry is the sum of what they allocate, and each certificate is one sample |
| Rewards.RewardExactly | fsm/committee.go:194-228 | A reward is the largest part of the pool within its percent of all samples; who does not compound gets the largest part of that within the early withdrawal penalty |
| Rewards.RewardRecipients.CalculateRewardRecipients | controller/result.go:102-157 | The percents of every paid chain sum to exactly 100, with one entry per recipient and chain and none elsewhere; every winner has exactly the cut that was left for it in its turn, and the proposer the rest |
| Rewards.RewardRecipients.AddRewardRecipient | controller/result.go:160-176 | A winner's cut comes out of the proposer's; one that the proposer cannot afford is skipped |
| Rewards.RewardRecipients.AddPaymentPercent | controller/result.go:179-187 | The cut is allocated on both paid chains |
| Rewards.RewardRecipients.AddPercentOn | controller/result.go:190-211 | The entry of the recipient grows by the cut, or is appended |
| Rewards.CreditAddsExactly | controller/result.go:190-211 | Exactly the percent is added on exactly the chain, and entries stay unique |
| Rewards.CreditIsFor | controller/result.go:190-211 | Exactly the percent is allocated to exactly the address on exactly the chain |
| Slashing.CapHolds | fsm/byzantine.go:302-351 | After any slashes in one block no committee's tracked percent exceeds the maximum, and exactly those that reached it have lost the validator; with percents up to 100 the percents a committee has really slashed sum to exactly what is tracked; a maximum of 0 forbids every slash |
| Slashing.HugePercentEscapesCap | fsm/byzantine.go:321-337 | A percent near 2^64, which no parameter allows, would wrap the tracker around and take the whole stake |
| Slashing.SlashesTakeAtMost | fsm/byzantine.go:339-351 | n slashes cost at most the sum of the percents of the starting stake and one token of rounding each |
| Slashing.StakeAfterExactly | fsm/byzantine.go:339-351 | A slash leaves the largest stake within the rest of 100 percent |
| Slashing.CappedExactly | fsm/byzantine.go:321-337 | A committee slashes what it asks for or what is left up to the maximum, whichever is less |
| Slashing.SlashesTakeAtLeast | fsm/byzantine.go:302-351 | Any slashes leave at most the product of what their percents leave, whoever slashes and however often |
| Supply.SupplyTheorem | fsm/account.go:197-304 | For every run whose fallbacks carry points that cover their holders: after every step the total supply is the sum of accounts, pools and stakes, the staked supply the sum of stakes, and tokens have come and gone exactly as minted and burned, if and only if no mint takes the total supply past 64 bits |
| Supply.RunKeepsInv | fsm/account.go:517-701 | While mints fit, every state of every such run has right counters, fair committee data, escrows equal to the open orders and holding pools equal to the pending exchange operations, each plus exactly what subsidies have put there |
| Supply.PoolsStayExactExactlyWhen | fsm/message.go:395-411 | Escrows stay exactly the open orders and holding pools exactly the pending operations throughout a run if and only if no subsidy puts tokens into one of them |
| Supply.SubsidyCanStray | fsm/message_helpers.go:537-548 | A subsidy to the id of an escrow pool succeeds and leaves a token there without an order |
| Supply.StepConserves | fsm/automatic.go:11-121 | Every transaction, block mint, certificate, distribution, unstaking and exchange step keeps that invariant, and mints and burns exactly what its kind of step does |
| Supply.ConservingMintFits | fsm/account.go:613-623 | A step can only be counted right if its mint fits |
| Supply.MintCanOverflow | fsm/account.go:613-623 | A mint that does not fit succeeds and leaves a total supply of 0 with all tokens in place |
| Supply.TransactionKeeps | fsm/transaction.go:57-80 | Top-up, fee and message together create exactly what the faucet and the DAO mint and destroy exactly what the message's slashes burn |
| Supply.MessageKeeps | fsm/message.go:16-54 | Every message only moves tokens, except for exactly the DAO's mint and the slashes; a subsidy moves them into the pool it names; `Transfers` says from whom to whom |
| Supply.DistributeKeeps | fsm/committee.go:128-191 | A committee's payments, to accounts or as stake, never exceed its pool; exactly the rest is burned and the pool is empty |
| Supply.RewardsReachTheirOwners | fsm/committee.go:194-228 | Every account and every stake grows by exactly the rewards due to it: compounding validators as stake, other validators at their output, everybody else at the address |
| Supply.FundKeeps | fsm/committee.go:16-36 | Exactly the DAO's cut and the equal parts of the paid committees are minted |
| Supply.BlockMintIsBounded | fsm/committee.go:39-82 | A block mints at most its tokens, and less by less than one token for each paid committee |
| Supply.SlashKeeps | fsm/byzantine.go:302-387 | A slash never fails: exactly what the capped slash takes leaves stake, staked and total supply; the validator is deleted exactly if nothing is left, and otherwise unstakes if below the minimum |
| Supply.FinishUnstakingKeeps | fsm/validator.go:353-388 | A finished unstaking returns exactly the stake and fails exactly if the validator is gone |
| Supply.FinishFailsExactlyWhen | fsm/validator.go:353-388 | Finishing the unstakings of a height fails exactly if an address is repeated or has no validator any more |
| Supply.SlashedAwayBlocksUnstaking | fsm/validator.go:274-298 | After an unstaking validator is slashed to nothing, finishing the unstakings of its height fails |
| Supply.UpdateStakeSum | fsm/validator.go:240-271 | The unchecked addition to a stake cannot overflow, because the checked one to the staked supply has not |
| Supply.EditStakeKeeps | fsm/message.go:157-207 | Editing a stake moves exactly the difference from the signer to the stake |
| Supply.CloseKeeps | fsm/swap.go:283-323 | Closing fails only for an order that is missing or not locked, and hands its escrow to the buyer |
| Supply.DeleteOrderKeeps | fsm/message.go:498-515 | Deleting fails only for an order that is missing or locked, and returns its escrow to the seller |
| Supply.EscrowCoversOrder | fsm/message.go:414-495 | The escrow pool always covers every open order |
| Supply.ResultsKeep | fsm/automatic.go:143-243 | Swaps, slashes and reward percents of a certificate keep the counters right and burn exactly what the slashes take |
| Supply.TradeKeeps | fsm/dex.go:62-101 | Any exchange step with any counter chain keeps the counters right, fallbacks whose points cover their holders included |
| Supply.PoolToAccountKeeps | fsm/account.go:559-573 | Paying out of a pool loses nothing and fails exactly if the pool does not have the amount |
| Transfers.MessagesMoveExactly | fsm/message.go:16-54 | Every message but certificate results, from right books: it is accepted exactly when its conditions hold and its payer can pay; every account, stake and pool then changes by exactly what the message's table of transfers lists, and nothing else but its own validator or order |
| Transfers.SendMoves | fsm/message.go:57-74 | A send is refused exactly without the funds, and moves the amount from the sender to the recipient |
| Transfers.StakeMoves | fsm/message.go:77-154 | A stake moves the amount from the signer to a new validator, and is refused exactly for an existing one, below the minimum or without the funds |
| Transfers.EditStakeMoves | fsm/message.go:157-207 | An edit moves what it adds from the signer to the stake; only the output may change the output, and no stake is lowered |
| Transfers.UnstakeMoves | fsm/message.go:210-241 | Unstaking moves nothing and sets the height at which it finishes |
| Transfers.DAOTransferMoves | fsm/message.go:318-335 | A transfer goes from the DAO's pool, or from a mint into it, to the named account |
| Transfers.SubsidyMoves | fsm/message.go:395-411 | A subsidy goes from its sender into the pool it names |
| Transfers.CreateOrderMoves | fsm/message.go:414-442 | A new order's amount goes from the seller into the escrow of its chain |
| Transfers.EditOrderMoves | fsm/message.go:445-495 | What an order gains the seller pays into the escrow, what it loses the escrow pays back to the seller; only an open order, and not below the minimum |
| Transfers.DeleteOrderMoves | fsm/message.go:498-515 | A deleted order's amount goes from the escrow back to its seller |
| Transfers.TransactionsMoveExactly | fsm/transaction.go:57-80 | Every transaction, from right books: refused exactly if the sender cannot pay the fee or the message is refused after it; everything changes by exactly the faucet's top-up, the fee from the sender to this chain's own reward pool, and the message's table |
| Transfers.TopUpExactly | fsm/account.go:308-334 | The faucet is given just what it lacks of amount and fee next to what it can spend, and nobody else anything |
| Outcomes.BalancesFallOnlyBySpending | fsm/account.go:197-304 | In every run, the balance of an account that neither sends nor pays a transaction nor sells or provides in the exchange never falls |
| Outcomes.SwapsMoveInTurn | fsm/swap.go:20-61 | Each lock, reset and close acts on the order as it is in its turn, or not at all; a close pays the buyer from the escrow |
| Outcomes.CloseMoves | fsm/swap.go:283-323 | Closing moves the order's amount from the escrow to the buyer who locked it |
| Outcomes.SlashTakes | fsm/byzantine.go:302-387 | From right books, and as long as maximum and percent together fit in 64 bits, a slash never fails: it burns from stake, staked and total supply all but the largest stake that the allowed percent leaves, tracks that percent, ejects at the maximum, deletes at 0 and unstakes below the minimum; a validator out of reach is left alone |
| Outcomes.SlashBurnsItsPercent | fsm/byzantine.go:302-387 | Stake, staked and total supply go down by the same amount: at least the allowed percent of the stake, and less than one token more |
| Outcomes.SlashesTakeInTurn | fsm/byzantine.go:284-299 | A list of validators is slashed one by one, each as it is in its turn |
| Outcomes.ResultsMoveInTurn | fsm/automatic.go:143-243 | A certificate's results act in order: swaps, non-signers, double signers, reward percents reduced for the absent power; they are refused exactly for more than 100 percent or if the percents cannot be added |
| Outcomes.FundingMoves | fsm/committee.go:16-82 | The committees together get the largest part that the DAO's percentage leaves, each an equal part rounded down, and the DAO the rest |
| Outcomes.UnstakingsReturn | fsm/validator.go:353-388 | Every finished unstaking returns its stake to the validator's output and deletes the validator |
| Outcomes.DistributionMoves | fsm/committee.go:128-191 | Distributing to a committee never fails: its pool pays every stub where it belongs, the rest is burned, and the pool is empty |
| Outcomes.CommitteesAreRewardedInTurn | fsm/committee.go:128-191 | Committees are rewarded one by one, and each one's data is then empty |
| Outcomes.DistributionNeverFails | fsm/committee.go:128-191 | From right books the distribution to all committees succeeds |
| Blocks.Advance | fsm/automatic.go:11-121 | Whatever step the objects take from right books, its mint fitting: they end where the run says, the books are right again, and tokens have come and gone exactly as minted and burned |
| Blocks.TakeStep | fsm/state.go:343-380 | Every step of the object is the step of the run; a failing one is taken back |
| Blocks.Face | fsm/dex.go:62-101 | Every event of the exchange object is the step of the run against any counter chain; a failing one is taken back |
| Bookkeeper.StateMachine.ApplyOrRollBack | fsm/state.go:343-380 | A transaction has its whole effect or leaves no trace |
| Bookkeeper.StateMachine.ApplyTransaction | fsm/transaction.go:57-80 | The faucet's top-up, the fee and the message succeed and end exactly as the function on states |
| Bookkeeper.StateMachine.FaucetTopUp | fsm/account.go:308-334 | Mints exactly what the faucet lacks of amount and fee |
| Bookkeeper.StateMachine.SlashValidator | fsm/byzantine.go:302-387 | The slash is capped, tracked, burned from stake and counters, ejects on reaching the cap, and deletes or unstakes the validator as the function on states |
| Bookkeeper.StateMachine.SlashValidators | fsm/byzantine.go:284-299 | The loop over validators ends exactly as the function on states |
| Bookkeeper.StateMachine.DistributeCommitteeRewards | fsm/committee.go:128-191 | The loop over committees pays, burns, empties the pools and clears the data exactly as the function on states |
| Bookkeeper.StateMachine.PayStubs | fsm/committee.go:153-172 | The loop over stubs pays each its floored share; it fails exactly if a payment or the sum leaves 64 bits |
| Bookkeeper.StateMachine.DistributeCommitteeReward | fsm/committee.go:194-228 | One stub is paid to stake, output or account exactly as the function on states |
| Bookkeeper.StateMachine.FundCommitteeRewardPools | fsm/committee.go:16-36 | The loop over paid committees mints exactly as the function on states |
| Bookkeeper.StateMachine.DeleteFinishedUnstaking | fsm/validator.go:353-388 | The loop returns each stake and deletes its validator exactly as the function on states |
| Bookkeeper.StateMachine.HandleCommitteeSwaps | fsm/swap.go:20-61 | Locks, resets and closes take effect one by one, and failing ones are skipped |
| Bookkeeper.StateMachine.CloseOrder | fsm/swap.go:283-323 | Checks both sides first, so that a failing close changes nothing |
| Bookkeeper.StateMachine.UpsertCommitteeData | fsm/committee.go:418-441 | Finds or appends the committee's data and combines the percents exactly as the function on states |
| Bookkeeper.StateMachine.HandleMessageEditOrder | fsm/message.go:445-495 | Moves exactly the difference between seller and escrow and stores the order |

## Left out

- NEW_COMMITTEE resets and root-height changes inside a height: rounds restart at 0 while locks are kept and the safe node predicate compares rounds only, so agreement is claimed for a fixed committee.
- Partial certificates, the evidence and random-function outputs attached to votes, sortition and delay functions: the election may pick any leader, and `Votes.Tally.AddVote` takes the verdict on attachments as an input.
- The cached block hash of a replica: the hash is recomputed from the block.
- Agreement.AgreementTheorem: for fresh runs only, because it is false otherwise; whether a run that is not fresh still agrees is not characterised.
- Replica.BFT.StartCommitProcessPhase: `GetLocalDSE` may take the stored message's certificate as evidence, and `AddDSE` then nulls its block and results (`bft/evidence.go:143-144`) after they were filled in for the commit (`bft/bft.go:535`); this aliasing is not modelled.
- Liveness beyond `Rounds`, `Decision`, `Opening` and `Progress`: that an honest leader is elected and that messages arrive in time is not claimed.
- Evidence uses one committee; historical committees and the duplicate key of evidence lists are not modelled.
- Error codes of the exchange and the writes of a handler that fails: its caller rolls back, so failure is one outcome.
- Several counter chains in `Pipeline`: pools and batches of different chains are disjoint, so one counter chain is modelled there; `Supply` has any number.
- Order identifiers, events, the informational counter pool size and prices of the exchange.
- Hashing an empty batch writes the filler hash into the hashed object (`lib/dex.go:18-27`): the model hashes without changing its argument, and a stored empty batch is read as absent.
- Pipeline.RefinementTheorem: without fallbacks, which break the common history on purpose; `Solvency` covers what they do to one chain.
- Overdrawn.ExitConservesExactlyWhen: the converse is for reserves equal to the total; with a smaller reserve, rounding can keep points that do not cover their holders harmless.
- The vesting of accounts inside the exchange: a debit there only asks for the balance.
- A liquidity pool stored with amount 0 loses its points; no exchange step empties a pool that is positive, so this is not modelled there.
- Transactions.StateMachine.ApplyTransactions: requires that no pool is stored with points but without a balance, as explained above; the mempool's oversize path, plugins, the interrupt signal, validator and parameter caches, and the indexer are not modelled; iteration over the store is not an instruction.
- Aliasing of cached accounts: a fetched account points into the cache, and a handler that changes it without storing it is not modelled.
- The counters of delegated stake and of stake per committee, pauses, and the governance messages, none of which moves tokens.
- Supply.SupplyTheorem: genesis is any state whose counters are right; the genesis loader is not modelled. Debits ask for the balance, while the code also refuses what vesting locks.
- The heights and the retirement of a committee in `Books`: they only make a certificate be refused.
- Vesting.NeverRelocksExactlyWhen: requires that tranche and duration leave room for each other in 64 bits (their sum is at most 2^64); beyond that a wrap need not lower the quotient. `Vesting.SpendingIsSafeExactlyWhen` has the same premise.
- Slashing.CapHolds: starts from an empty slash tracker, as after a reset of the state machine.
- Bookkeeper.StateMachine.SlashValidator: protocol versions before 2 have no cap.
