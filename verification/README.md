# HotStuff-rs: a verified model

HotStuff-rs is a Byzantine fault tolerant consensus core: pipelined and phased HotStuff over a pruned
block tree, with a pacemaker that divides views into epochs. This project models that core in Dafny
and proves what it keeps over all runs. `dafny verify dfyconfig.toml` checks everything.

The model follows the code. Where the code and a comment or the documentation disagree, the code wins
and the difference is stated as a lemma (see "Where the code differs from what it says").

## How it is organised

* **Values.** `Types`, `Quorums`, `UpdateSets`. Hashes are terms, so they are injective and parent links
  are well-founded. A signature is the term "this key signed this message"; an honest key's
  signature exists only over messages that it signed.
* **Voting, locking, committing.** `SafetyRules` has the predicates and decisions over a block tree.
  `VoteLog` derives everything about certificates from a log of honest votes; its induction runs over the
  order in which certificates become available. `Protocol` is the distributed step machine: honest
  replicas run the handlers, and arrival of messages, views and Byzantine signatures are arbitrary.
  `Proposer` adds the Highest PC and what a leader broadcasts; `Stalls` and `StallWitness` show where that
  leads to a standstill. `Handlers` and `HotStuff` are the message handlers, first as functions and then as an
  object, with the proof that each is a step of the machine; `Electorate` relates who votes to whose votes count;
  `EndToEnd` puts the handlers together into agreement of the stores, and `WorldWitness` has a run of the handlers that shows what the hypotheses of agreement are worth.
* **Block tree.** `BlockStore`, `Commitment`, `StoreRuns` and `Overlay` describe the store as a value: its
  shape, the tree after `insert`, `commit` and `update`, whole runs, and the app-state overlay.
  `WriteBatches`, `CommitBatches` and `BlockTree` have the code's own form: methods that fill a batch from
  reads of the store before the batch and then write it atomically, last operation per key wins.
  `BranchSearch` is the depth-first search, `BlockData` the per-datum storage. `Refinement` shows that the
  store is a step of the protocol machine. `Decisions` relates undecided updates to the shape of the tree.
* **Certificates.** `Verdicts` chooses the validator set to check a certificate against. `Collecting`,
  `PairRuns` and `Collectors` build certificates from votes: one vote, any sequence of votes, and the objects. `ValidatorSets` is the mutable validator set.
* **Pacemaker.** `Leader`, `Pacing` (steps as functions), `Pacemaker` (the object), `PaceWitness` (two
  runs) and `EpochBarrier` (many pacemakers).
* **Message buffer.** `Buffering` and `MessageBuffer`.

## Main results

* Agreement (`Protocol.Agreement`): any two blocks committed by honest replicas lie on one branch, through
  any of the commit rules, in every run in which no honest lock has fallen between two votes. Without that
  hypothesis it is false (`WorldWitness.DisagreementWithoutLocks`).
* Store agreement (`EndToEnd.StoresAgree`): honest replicas that run the message handlers over their stores have
  the same committed block at every height that both have reached. It rests on the handlers being steps of the
  protocol machine (`Handlers.ProposalIsMachineStep` and its siblings) and on the concrete store with its
  pruning being what the machine allows (`Refinement.UpdateRefines`).
* `commit` on a stale batch equals a closed-form tree (`BlockTree.BlockTreeSingleton.Update`,
  `CommitBatches.CommitBatchWrites`), which keeps the shape of the tree (`Commitment.CommitKeepsShape`) and shows
  exactly what the overlay showed (`Overlay.OverlayEqualsCommit`).
* In every run of the store, updating blocks are committed before they get children, and the committed
  validator set is the fold of the committed updates (`StoreRuns.StoreRunKeepsInv`); nothing is built on an
  updating block until its update is decided (`Decisions.RunKeepsChildless`).
* What must happen does: `update` commits exactly what the commit rules call for (`StoreRuns.CommitsExactlyWhen`), a
  leader broadcasts exactly what its Highest PC calls for (`Proposer.BroadcastIsCalledFor`) and votes for it
  (`EndToEnd.LeaderVotesForOwnBroadcast`), honest validators alone reach a quorum exactly when Byzantine ones hold less
  than a third (`Quorums.HonestReachQuorumExactlyWhen`), a pair of collectors emits a certificate exactly when the
  voters hold a quorum of one of its sets (`PairRuns.PairCertificateIffQuorum`, `PairRuns.TimeoutCertificateIffQuorum`),
  and an AdvanceView moves every peer that it should (`Pacing.AdvanceViewMovesPeers`).
* The set that makes a replica a voter is the set against which the certificate will be checked, across validator set
  updates (`Electorate.VotersAreCheckedAgainst`), and the verdict on a certificate does not depend on whether its block
  has arrived yet or has been pruned (`Verdicts.InsertKeepsVerdict`, `Verdicts.PlainCommitKeepsVerdict`).
* Epoch barrier (`EpochBarrier.EpochBarrier`), timeout coverage (`Pacing.TimeoutsNeverMissing`) and strictly
  increasing AdvanceView broadcasts (`Pacing.AdvancesStrictlyIncrease`).
* Standstill (`Stalls.StuckForever`): honest replicas that can block every quorum, locked on a Precommit certificate
  and past the view after it, never move their locks again, and no further certificate is formed.
* Leader fairness (`Leader.LeaderFairness`), collector soundness and completeness
  (`Collecting.CertificateAtFirstCrossing`, `Collecting.CertificateIffQuorum`), buffer bounds
  (`MessageBuffer.ProgressMessageBuffer.Insert`).

## Hypotheses

* Byzantine validators hold at most a third of the power of one fixed validator set (agreement, uniqueness,
  causality, epoch barrier).
* No honest lock has fallen between two votes (agreement only). The code does not ensure this:
  `SafetyRules.LockFallsExactlyWhen` says when a lock falls, `WorldWitness.LockCanFall` has a run in which one
  does, and `WorldWitness.DisagreementWithoutLocks` continues it to two conflicting commits. In that run a Byzantine
  validator with an eleventh of the power leads one view, every proposal comes from the leader of its view, and
  honest leaders propose what `enter_view` makes them propose.
* Honest replicas vote from view 1 on, because view 0 belongs to the Genesis PC, which is always correct.
* An inserted block is one higher than its parent, is not committed, and has a parent in the uncommitted part of
  the tree or at its tip (`BlockStore.FitsOnTop`). The code leaves this to honest proposers;
  `BlockStore.InsertKeepsShapeExactlyWhen` shows that the tree keeps its shape exactly then, or when a committed
  block comes again without updates.
* The app is a deterministic function of the block.
* Pacemaker messages are for the current view or a later one, as the receiving code ensures, and epochs have
  at least one view.

## Where the code differs from what it says

* A lock can fall, and then conflicting blocks can be committed (above).
* A leader that re-proposes a block on which it is locked refuses its own proposal
  (`Proposer.ReproposalPassesExactlyWhen`, and a run in `StallWitness.RefusalIsReachable`). When replicas that every
  quorum needs are in that position, no certificate is ever formed again (`Stalls.StuckForever`).
* `is_correct` itself does not reject a Generic certificate for a validator-set-updating block until the block is
  committed (`Verdicts.VerdictChangesExactlyWhen`). The voting rules close the gap: no such certificate can exist
  (`VoteLog.PhaseFitsBlock`), so committing an update changes the verdict on no certificate in range that can
  exist (`Verdicts.ExistingVerdictsStay`).
* `update_validator_sets` on a decided state without a PVS collector creates one, and the next call removes
  it again (`Collecting.UpdatedPairMatchesExactlyWhen`, `Collecting.UpdateOfMatchingPair`). When the committed set
  is replaced, the votes collected for it are dropped (`Collecting.VotesForReplacedSetAreDropped`).
* A replica outside the active validator sets broadcasts an AdvanceView if it did so in an earlier view
  (`Pacing.OutsiderAdvancesExactlyWhen`, and a run in `PaceWitness.OutsiderCanAdvance`).
* A correct timeout vote whose fallback certificate is for an earlier view makes the pacemaker fail, and with it the
  algorithm thread (`Pacing.TimeoutVoteIsGood`, and a run in `PaceWitness.FallbackCanFail`).
* Total power is cut down to 64 bits in leader selection (`Leader.TruncationStarvesValidator`).
* Epoch-change views are the multiples of N; the module documentation puts them one view earlier.
* Deadlines count whole seconds: with a view time below one second all views of an epoch expire at once
  (`Pacing.DeadlinesIncreaseExactlyWhen`).
* The message buffer's capacity leaks: bytes of messages that were taken or have expired stay counted, so the
  messages stored share what is left (`MessageBuffer.InsertedFits`).
* Reading a block's data back returns the empty list, whatever was written (`BlockData.RoundTrip`), so a
  re-proposed block is sent without its data (`HotStuff.HotStuff.EnterView`).

## Model

| member | source | states |
|---|---|---|
| Quorums.QuorumsIntersect | src/types/signed_messages.rs:109-153 | two sets that reach the quorum share an honest validator when Byzantine power is at most a third |
| Quorums.HonestShareOfQuorum | src/types/validator_set.rs:157-170 | the honest part of a quorum holds at least the quorum minus the Byzantine power |
| Quorums.HonestReachQuorumExactlyWhen | src/types/validator_set.rs:157-170 | honest validators reach the quorum alone iff Byzantine ones hold less than a third of the power, and the quorum is the least number above two thirds |
| SafetyRules.LockFallsExactlyWhen | src/block_tree/invariants.rs:421-464 | on a safe justify the lock's view falls if and only if the certificate that would be locked is older than the lock (and, for Commit and Decide, of another block) |
| SafetyRules.LockCheckReachesTwoBack | src/block_tree/invariants.rs:607-620 | on a stored block with a stored parent the lock check passes iff the locked block is the certified block, its parent or its grandparent |
| WorldWitness.LockCanFall | src/block_tree/invariants.rs:431-464 | a run of the handlers, Byzantine power below a third and proposals from their views' leaders only, in which an honest replica's lock moves to a lower view |
| WorldWitness.DisagreementWithoutLocks | src/block_tree/invariants.rs:431-569 | its continuation, in which two honest stores have different committed blocks at height 0 |
| VoteLog.CertificateUniqueness | src/hotstuff/implementation.rs:415-439 | two valid certificates of one view certify the same block and phase |
| VoteLog.Causality | src/hotstuff/implementation.rs:357-439 | a block certified by Generic or Prepare votes has a justify of a strictly lower view, itself available or genesis |
| VoteLog.PhasedChain | src/block_tree/invariants.rs:381-456 | behind a Commit certificate stand Precommit and Prepare certificates for the block in the two views before, and honest signers were locked on a Precommit certificate of it |
| VoteLog.PhaseFitsBlock | src/hotstuff/implementation.rs:422-426 | a certificate is Generic iff its block does not update the validator set |
| VoteLog.DecideFollowsCommit | src/hotstuff/implementation.rs:521-548 | a Decide certificate has a Commit certificate for the same block |
| VoteLog.CertificatesExtendAnchor | src/block_tree/invariants.rs:323-333 | once a quorum is locked on a block, every certificate of that view or later extends the block |
| VoteLog.CommittableBlocksAreOneBranch | src/block_tree/invariants.rs:491-569 | any two blocks that meet a commit rule are on one branch |
| Protocol.TargetIsCommittable | src/block_tree/invariants.rs:491-569 | what block_to_commit names has the chain of certificates that its rule demands |
| Protocol.VoteIsGood | src/hotstuff/implementation.rs:342-568 | a handler casts at most one vote, in a view above all its earlier votes, with the justify, lock and phase that the voting rules demand |
| Protocol.RunKeepsInv | src/hotstuff/implementation.rs:342-667 | every reachable state keeps the invariant on logs, locks, blocks and commits |
| Protocol.Agreement | src/block_tree/invariants.rs:351-569 | blocks committed by any two honest replicas lie on one branch in every run in which no honest lock has fallen between two votes |
| Protocol.SteadyLocksNeverFall | src/block_tree/invariants.rs:421-464 | a run in which no step lowers a lock meets that hypothesis |
| Protocol.CertificatesAreUnique | src/hotstuff/implementation.rs:415-439 | certificate uniqueness in every run |
| Protocol.JustifiesComeFirst | src/hotstuff/implementation.rs:357-439 | causality in every run |
| Protocol.CommitsAreConsecutive | src/block_tree/invariants.rs:381-456 | the phased chain in every run |
| Protocol.CommitsAreForever | src/block_tree/accessors/internal.rs:286-337 | what a replica has committed it keeps committed |
| WorldWitness.CommitIsReachable | src/block_tree/invariants.rs:491-540 | there is a run of the handlers, with proper leaders, that meets all hypotheses of store agreement and commits a block |
| Proposer.RunKeepsHighest | src/block_tree/accessors/internal.rs:286-337 | the Highest PC is at least as high as the lock and every justify in the tree, and its phase fits its block, in every run |
| Proposer.HighestNeverFalls | src/block_tree/accessors/internal.rs:297-301 | the Highest PC's view never falls |
| Proposer.BroadcastIsCalledFor | src/hotstuff/implementation.rs:183-275 | a leader nudges iff its Highest PC is Commit, or Prepare or Precommit of the view before; re-proposes iff it is Prepare or Precommit of another view and the block is stored; proposes on top of it iff it is Generic or Decide and the block is stored or genesis |
| Proposer.CertificatePassesExactlyWhen | src/block_tree/invariants.rs:323-394 | in every run, a certificate that can exist, of a stored block with its parent, passes the safety checks iff it is newer than the lock or the locked block is at most two links below |
| Proposer.LeaderAcceptsOwnBroadcast | src/hotstuff/implementation.rs:183-275 | in every run, if the leader has the block of its Highest PC and no chain of phases is broken, its broadcast is the proposal or nudge that the Highest PC calls for and passes its own correctness, lock, phase and view checks; a new block sits one above its parent |
| Proposer.ReproposalPassesExactlyWhen | src/hotstuff/implementation.rs:189-209 | when a chain of phases is broken the leader re-proposes, and its own checks pass iff the block's justify passes the lock check; never if the leader is locked on the block |
| StallWitness.RefusalIsReachable | src/hotstuff/implementation.rs:189-209 | a run at whose end a leader is locked on the block that it re-proposes, and refuses it |
| Stalls.StuckReplicaStays | src/block_tree/invariants.rs:323-394 | a replica locked on a Precommit certificate of an updating block and past the next view casts no vote in any step, and stays locked on that block and view, if no quorum goes without it and others like it |
| Stalls.StuckForever | src/block_tree/invariants.rs:323-394 | once such replicas can block every quorum, they stay as they are and no certificate of a view above their lock is ever available, in any continuation of the run |
| StallWitness.NothingEverHappens | src/hotstuff/implementation.rs:189-209 | the run of RefusalIsReachable ends like that: no continuation of it has a certificate of a later view |
| Handlers.OneProposalPerLeader | src/hotstuff/implementation.rs:303-316 | after a leader's message is processed none from it is accepted in the view, whatever arrives in between, and after two leaders none at all |
| Handlers.ListensExactlyWhen | src/hotstuff/implementation.rs:303-316 | after messages of any leaders, a leader is listened to iff at most one leader has been heard in the view and it is not the one |
| Handlers.UpdateStep | src/block_tree/accessors/internal.rs:286-337 | update on a safe justify succeeds, restores the store invariant and is the machine's update |
| Handlers.UpdateKeepsStore | src/hotstuff/implementation.rs:631-667 | an update on a safe certificate leaves a store that runs reach, with well-formed sets, also across validator set updates |
| Handlers.InsertKeepsStore | src/hotstuff/implementation.rs:386-400 | the same for insert followed by update |
| Handlers.ProposalIsMachineStep | src/hotstuff/implementation.rs:342-460 | processing an acceptable proposal is a proposal step of the protocol machine with exactly the votes sent, votes iff in the voting set and not yet in this view, and keeps the store invariant |
| Handlers.NudgeIsMachineStep | src/hotstuff/implementation.rs:471-568 | the same for a nudge |
| Handlers.CertificateIsMachineStep | src/hotstuff/implementation.rs:631-667 | the same for a certificate from a NewView |
| Handlers.OtherChainsChangeNothing | src/block_tree/invariants.rs:351-394 | certificates of another chain, and proposals and nudges built on one, change neither the tree nor the votes |
| Handlers.CollectedIsUnforged | src/hotstuff/types.rs:340-393 | a collector that saw only signatures that can exist emits certificates that can exist |
| Handlers.PairIsUnforged | src/types/signed_messages.rs:258-271 | the same for the pair of collectors |
| Collecting.PhasePairIsSound | src/types/signed_messages.rs:258-271 | the pair of phase-vote collectors stays valid, and what it emits is signed by a quorum of one of its sets |
| Collecting.PhasePairStep | src/types/signed_messages.rs:258-271 | per block and phase, a certificate comes out iff the vote takes the signers to the quorum of one of the pair's sets; otherwise both collectors hold exactly the earlier signers and the new voter |
| Collecting.UpdatedPhasePairIsOk | src/types/signed_messages.rs:279-326 | the updated pair of phase-vote collectors is valid, covers the active sets, and matches them iff the update is undecided or there was a PVS collector |
| Handlers.VoteIsMachineStep | src/hotstuff/implementation.rs:575-624 | a vote that completes an acceptable certificate is a certificate step of the machine, and any other vote leaves the replica as it was |
| EndToEnd.WorldStepIsNext | src/hotstuff/implementation.rs:342-667 | a message handled by one of many honest replicas is a step of the machine and keeps every replica ready for the next |
| EndToEnd.WorldRunIsRun | src/hotstuff/implementation.rs:130-667 | a run of the handlers of all honest replicas is a run of the machine |
| EndToEnd.StoresAgree | src/block_tree/invariants.rs:351-569 | in such a run, while no update is committed and no lock has fallen between votes, any two honest stores agree on every common height |
| EndToEnd.LeaderVotesForOwnBroadcast | src/hotstuff/implementation.rs:183-568 | in every run of the handlers, a leader that has the block of its Highest PC, no broken chain of phases and no vote yet in its view accepts its own proposal or nudge, and casts exactly one correct vote, for that block and the phase due, iff it is a phase voter |
| HotStuff.HotStuff.constructor | src/hotstuff/implementation.rs:82-105 | a valid participant that collects for exactly the active sets and listens to every leader |
| HotStuff.HotStuff.EnterView | src/hotstuff/implementation.rs:130-278 | NewViews for the old view go to the next leaders; the participant stays valid, collects for exactly the active sets and listens to every leader; a proposer that has the block of its Highest PC broadcasts the re-proposal (with the data lost in reading it back), proposal or nudge that the Highest PC calls for, and otherwise fails only where the block is missing |
| HotStuff.HotStuff.SendNewViews | src/hotstuff/roles.rs:188-206 | one NewView with the Highest PC to the next leader in each active set |
| HotStuff.NewViewsReachNextProposers | src/hotstuff/roles.rs:188-206 | NewViews go to exactly the proposers of the next view, one per active set, with the Highest PC |
| HotStuff.ComputeIsProposer | src/hotstuff/roles.rs:74-82 | leader of the committed set, or of the previous set while undecided |
| HotStuff.HotStuff.Admits | src/hotstuff/implementation.rs:304-316 | a proposal or nudge is looked at iff its sender is a proposer of the view that may still propose |
| HotStuff.HotStuff.OnReceiveProposal | src/hotstuff/implementation.rs:342-460 | the participant stays valid and stops listening to the leader; tree, votes and highest voted view become those of Handlers.OnProposal, each vote goes to the next leader in the set whose votes count; the collectors are brought up to date and cover the active sets iff the tree was updated |
| HotStuff.HotStuff.OnReceiveNudge | src/hotstuff/implementation.rs:471-568 | the same for Handlers.OnNudge |
| HotStuff.FindRecipient | src/hotstuff/roles.rs:151-172 | the leader of the next view, in the committed set if the update is decided or the vote is a Decide vote, otherwise in the previous set |
| Electorate.VotersAreCheckedAgainst | src/hotstuff/roles.rs:110-172 | a replica is a phase voter iff it is in the very set against which is_correct checks the certificate that the vote goes into, and the vote goes to that set's next leader; except for votes that come too late, which are checked against the previous set or rejected |
| Electorate.RunVotersAreCheckedAgainst | src/hotstuff/roles.rs:110-172 | the same in every run of the store that starts without an update |
| Electorate.UncommittedIsInTime | src/hotstuff/roles.rs:110-172 | votes on an uncommitted block never come too late |
| Electorate.VotesGoToNextProposer | src/hotstuff/roles.rs:74-172 | votes go to a proposer of the next view, and proposers are active validators |
| Electorate.ValidatorsAreCollected | src/hotstuff/roles.rs:43-54 | the active validators are exactly those whose votes a matching pair of collectors counts |
| HotStuff.HotStuff.CastVote | src/hotstuff/implementation.rs:409-445 | at most one vote goes out, correctly signed for the current view, to the next leader; it is above every earlier vote and rules out another one in this view |
| HotStuff.HotStuff.OnReceivePhaseVote | src/hotstuff/implementation.rs:575-624 | the participant stays valid, in the same view; a correct vote is collected; only a certificate that is correct and safe changes the tree, and then the collectors cover the active sets |
| HotStuff.HotStuff.OnReceiveNewView | src/hotstuff/implementation.rs:631-667 | the participant stays valid; only a certificate that is correct and safe changes the tree, and then the collectors cover the active sets |
| BlockStore.InsertKeepsShape | src/block_tree/accessors/internal.rs:233-266 | insert keeps the shape of the tree |
| BlockStore.InsertKeepsShapeExactlyWhen | src/block_tree/accessors/internal.rs:233-266 | insert keeps the shape iff the block fits on top of the tree, or is committed already and comes without updates |
| Commitment.PathFacts | src/block_tree/accessors/internal.rs:394-419 | the blocks to commit start right above the tip and climb to the target one height at a time |
| Commitment.CommitGrowsChain | src/block_tree/accessors/internal.rs:389-485 | old block-at-height entries are unchanged and the new ones are exactly the path at consecutive heights |
| Commitment.CommitKeepsShape | src/block_tree/accessors/internal.rs:389-550 | a commit keeps the shape, and what survives is exactly the target's ancestors and descendants |
| Overlay.OverlayEqualsCommit | src/block_tree/accessors/internal.rs:149-212 | for every key the overlay shows the value that committing the parent and its uncommitted ancestors would leave |
| Overlay.OverlayFollowsPath | src/block_tree/accessors/app.rs:94-116 | the first matching update set decides as applying all update sets in order does |
| Overlay.OverlayOfInserted | src/block_tree/accessors/internal.rs:149-266 | on top of an inserted block the app sees the block's own updates and otherwise what it saw on top of the parent |
| Overlay.OverlaySurvivesCommit | src/block_tree/accessors/internal.rs:149-485 | a commit changes nothing that the app sees on top of the committed block or its descendants |
| StoreRuns.UpdateNeverErrs | src/block_tree/accessors/internal.rs:286-337 | on a safe justify no lookup of update fails |
| StoreRuns.TargetIsUncommitted | src/block_tree/invariants.rs:491-569 | block_to_commit names a stored, uncommitted ancestor of the certified block |
| StoreRuns.CommitsExactlyWhen | src/block_tree/invariants.rs:491-569 | after update on a safe justify a block is committed iff it was before, or it is an ancestor of (or is) the first block of the three-chain that the justify ends, or of the block that a Commit or Decide justify certifies |
| StoreRuns.RulesAlwaysCommit | src/block_tree/invariants.rs:491-569 | every three-chain of consecutive views gets its first block committed, and every Commit or Decide certificate its own block |
| StoreRuns.UpdateMoves | src/block_tree/invariants.rs:421-464 | the lock after update is the certified block's justify in the pipelined mode, a certificate of the certified block from Precommit on, and otherwise the old one; the Highest PC is replaced by later certificates only |
| StoreRuns.DecidedExactlyWhen | src/block_tree/accessors/internal.rs:314-331 | the update is decided afterwards iff the justify is Decide, or it was decided before and no pending update is committed |
| StoreRuns.UpdateIsIdempotent | src/block_tree/accessors/internal.rs:286-337 | a certificate that has been processed is still safe, and processing it again changes nothing |
| StoreRuns.OnlyLastUpdates | src/block_tree/accessors/internal.rs:328-336 | a commit batch has at most one validator-set-updating block and it is the last |
| StoreRuns.CommitFolds | src/block_tree/accessors/internal.rs:454-466 | the committed set stays the fold of the committed updates although commit reads stale state |
| StoreRuns.NewcomerBecomesImmediate | src/block_tree/accessors/internal.rs:286-337 | the update after an insert commits the newcomer's parent if it updates the validator set |
| StoreRuns.LockSurvives | src/block_tree/accessors/internal.rs:303-312 | the locked block is not pruned by the commit of the same update |
| StoreRuns.StepKeepsStoreInv | src/block_tree/accessors/internal.rs:233-337 | insert-and-update and update keep the store invariant and do not lower the Highest PC |
| StoreRuns.StoreRunKeepsInv | src/block_tree/accessors/internal.rs:233-550 | in every run: shape, immediacy, fold of updates, lock in the tree, Highest PC above lock and justifies |
| StoreRuns.InsertedSurvives | src/block_tree/accessors/internal.rs:233-337 | an inserted block survives the update on its own justify, uncommitted, with its contents, its pending app-state updates and its pending validator set updates, and is the newest block |
| Decisions.NewcomerDecides | src/block_tree/accessors/internal.rs:314-317 | a block on top of the updating block decides the update in the step that inserts it |
| Decisions.RunKeepsChildless | src/block_tree/accessors/internal.rs:314-331 | in every run no block in the tree extends the updating block while the update is undecided |
| Decisions.UndecidedIsTip | src/block_tree/accessors/internal.rs:328-331 | in every run the updating block is the tip of the committed chain until the update is decided |
| BranchSearch.BlocksInBranch | src/block_tree/accessors/internal.rs:537-550 | on any acyclic relation the search ends, returns exactly the root and its descendants, and makes as many visits as the unfolded subtree has nodes |
| WriteBatches.ChildrenAreRanked | src/block_tree/accessors/internal.rs:537-550 | the children relation of a tree is acyclic |
| WriteBatches.DeadGrows | src/block_tree/accessors/internal.rs:500-533 | committing one more block prunes exactly the branches of its siblings |
| WriteBatches.InsertBatchWrites | tests/common/mem_db.rs:64-72 | writing the batch of insert gives the inserted tree |
| CommitBatches.CommitBatchWrites | src/block_tree/accessors/internal.rs:389-485 | writing the batch that commit fills gives the committed tree, in every key family |
| BlockTree.BlockTreeSingleton.constructor | src/block_tree/accessors/internal.rs:105-135 | the initial store meets the store invariant for every app |
| CommitBatches.LastOperationWins | tests/common/mem_db.rs:64-72 | per key, the last operation in a batch decides what a write leaves, whatever the batch held before |
| BlockTree.BlockTreeSingleton.Insert | src/block_tree/accessors/internal.rs:233-266 | the store becomes the inserted tree |
| BlockTree.BlockTreeSingleton.BlocksInBranch | src/block_tree/accessors/internal.rs:537-550 | exactly the stored blocks that extend the root |
| BlockTree.BlockTreeSingleton.DeleteBranch | src/block_tree/accessors/internal.rs:519-533 | schedules the deletion of all data of the branch and of nothing else |
| BlockTree.BlockTreeSingleton.DeleteSiblings | src/block_tree/accessors/internal.rs:500-516 | schedules the deletion of the siblings' branches and makes the block the only child, also with duplicate entries |
| BlockTree.BlockTreeSingleton.CollectUncommitted | src/block_tree/accessors/internal.rs:394-419 | the path of uncommitted ancestors, oldest first |
| BlockTree.BlockTreeSingleton.CommitOne | src/block_tree/accessors/internal.rs:427-476 | one round of the commit loop, with its stale reads and the mark on the target |
| BlockTree.BlockTreeSingleton.Commit | src/block_tree/accessors/internal.rs:389-485 | the batch, once written, is the committed tree, and the result lists the committed blocks with their updates |
| BlockTree.BlockTreeSingleton.Update | src/block_tree/accessors/internal.rs:286-337 | the store becomes the updated tree or, on a failed lookup, stays as it was; the updates returned are those that take the committed validator set to the new one, and none if it stays |
| Refinement.InsertRefines | src/block_tree/accessors/internal.rs:233-266 | insert is the protocol machine's insert |
| Refinement.UpdateRefines | src/block_tree/accessors/internal.rs:286-337 | update with its pruning is an update of the protocol machine |
| BlockData.ReadData | src/block_tree/pluggables.rs:147-164 | no length key: none; a datum missing: error; otherwise the empty list |
| BlockData.RoundTrip | src/block_tree/pluggables.rs:147-176 | reading back what was written returns the empty list, which is what was written iff that was empty |
| Verdicts.VerdictChangesExactlyWhen | src/hotstuff/types.rs:48-145 | committing an update changes the verdict on a Generic to Commit certificate above the previous update iff it is a quorum-signed Generic certificate of the updating block |
| Verdicts.VerdictCanChange | src/hotstuff/types.rs:48-145 | is_correct alone does not exclude a change: a tree and a certificate, signed by a quorum against the voting rules, for which the verdict changes |
| Verdicts.ExistingVerdictsStay | src/hotstuff/types.rs:48-145 | no certificate in that range that can exist changes its verdict |
| Verdicts.RunVerdictsStay | src/hotstuff/types.rs:48-145 | the same in every run of the protocol machine |
| Verdicts.DecideVerdictStays | src/hotstuff/types.rs:83-109 | Decide certificates of the previous updating block keep their verdict |
| Verdicts.DecideNeedsNewSet | src/hotstuff/types.rs:83-109 | Decide certificates of the updating block are checked against the old set before the commit and against the new set after it |
| Verdicts.TimeoutVerdict | src/pacemaker/types.rs:46-59 | after the commit timeout certificates of both sets are accepted |
| Verdicts.TimeoutVerdictOnceDecided | src/pacemaker/types.rs:46-59 | after update on a Decide justify only timeout certificates of the committed set are accepted |
| Verdicts.VerdictAtUpdateHeight | src/hotstuff/types.rs:83-109 | certificates of a pending block at the update height itself have the same verdict before and after its commit, and Generic ones are rejected |
| Verdicts.InsertKeepsVerdict | src/hotstuff/types.rs:48-81 | inserting a block above the update height changes no verdict, in particular none on the certificates of that block |
| Verdicts.RunInsertKeepsVerdict | src/hotstuff/types.rs:48-81 | in every run of the store inserting a block changes no verdict |
| Verdicts.PlainCommitKeepsVerdict | src/hotstuff/types.rs:48-81 | a commit without a validator set update changes no verdict, also none on the certificates of pruned blocks |
| Verdicts.RunKeepsUpdateHeight | src/block_tree/accessors/internal.rs:454-466 | in every run the update height is that of a committed block marked as updating |
| Verdicts.RunVerdicts | src/hotstuff/types.rs:48-145 | the verdict theorem for every step of every run of the store |
| Verdicts.VerdictUnderFixedSet | src/hotstuff/types.rs:48-66 | before the first update is_correct is the verdict of the protocol machine |
| Collecting.CountedOk | src/hotstuff/types.rs:367-373 | counting at an empty position adds the validator to the signers and its power to the sum |
| Collecting.PhaseCollectorIsSound | src/hotstuff/types.rs:340-393 | running powers stay the sums at filled positions and emitted certificates are correctly signed |
| Collecting.CertificateAtFirstCrossing | src/hotstuff/types.rs:340-393 | below the quorum, the next vote yields a certificate iff it takes the voters to the quorum, with all their signatures |
| Collecting.CertificateIffQuorum | src/hotstuff/types.rs:340-393 | some vote yields a certificate for a block and phase iff its voters hold a quorum |
| Collecting.NextCertificateNeedsQuorum | src/hotstuff/types.rs:375-389 | a certificate uses its votes up: after it, a further one for the same block and phase comes out iff later voters hold a quorum of their own |
| Collecting.ArrivalOrderIsIrrelevant | src/hotstuff/types.rs:340-393 | any order of the same votes gives the same answer |
| Collecting.TimeoutCollectorStep | src/pacemaker/types.rs:150-176 | the signers grow by exactly the new voter, and a certificate comes out iff a new voter leaves them with a quorum |
| Collecting.TimeoutPairStep | src/types/signed_messages.rs:258-271 | a pair of timeout-vote collectors stays valid and yields a certificate iff the vote takes the signers of one of its sets to a quorum; the signers of the CVS collector grow by exactly the new voter, and so do those of the PVS collector unless the vote completes a certificate in the first |
| Collecting.NewPairMatches | src/types/signed_messages.rs:234-255 | a new pair collects for exactly the active sets |
| Collecting.PairIsSound | src/types/signed_messages.rs:258-271 | a matching pair stays matching and emits only certificates that is_correct accepts |
| PairRuns.PairCertificateIffQuorum | src/types/signed_messages.rs:258-271 | over any sequence of votes, some vote yields a certificate for a block and phase iff its voters hold a quorum of one of the pair's sets; until then both collectors hold the signatures of all voters |
| PairRuns.TimeoutCertificateIffQuorum | src/types/signed_messages.rs:258-271 | the same for timeout votes |
| PairRuns.NewPairsAreEmpty | src/types/signed_messages.rs:234-255 | the pairs that a view starts with hold no votes, so both theorems apply to every view |
| Collecting.UpdatedPairMatchesExactlyWhen | src/types/signed_messages.rs:279-326 | the updated pair matches the state iff the update is undecided or there was a PVS collector; the returned flag says exactly whether the pair has changed |
| Collecting.UpdateOfMatchingPair | src/types/signed_messages.rs:273-326 | a matching pair is left alone if undecided; if decided it gains a PVS collector that the next call removes |
| Collecting.VotesOfActiveSetsSurvive | src/types/signed_messages.rs:279-326 | votes survive in every collector whose set stays active; a collector for a new set starts empty, or with the votes of the CVS collector if that has the same set |
| Collecting.VotesForReplacedSetAreDropped | src/types/signed_messages.rs:282-322 | votes collected for a replaced committed set are lost |
| Collectors.IsCorrectlySigned | src/hotstuff/types.rs:149-187 | the loop accepts iff all present signatures verify and reach the quorum |
| Collectors.PhaseVoteCollector.Collect | src/hotstuff/types.rs:340-393 | stays valid and emits only correctly signed certificates; new state and result are those of Collecting.PhaseCollected |
| Collectors.TimeoutVoteCollector.Collect | src/pacemaker/types.rs:150-176 | stays valid and emits only correctly signed certificates; new state and result are those of Collecting.TimeoutCollected |
| Collectors.ActiveCollectorPair.constructor | src/types/signed_messages.rs:234-255 | matches the validator set state |
| Collectors.ActiveCollectorPair.Collect | src/types/signed_messages.rs:258-271 | tries the committed set's collector, then the previous set's, in place; new state and result are those of Collecting.TimeoutPairCollected, which remembers every vote (Collecting.TimeoutPairStep) |
| Collectors.ActiveCollectorPair.UpdateValidatorSets | src/types/signed_messages.rs:279-326 | which collectors are kept, replaced, cloned or dropped, and the returned flag, as Collecting.PairUpdated has them |
| UpdateSets.UpdateSetBuilder.Insert | src/types/update_sets.rs:46-49 | whatever was scheduled, applying the set maps the key to the value and treats other keys as before |
| UpdateSets.UpdateSetBuilder.Delete | src/types/update_sets.rs:54-57 | the same for a deletion |
| UpdateSets.ValidSetIsItsPowers | src/types/validator_set.rs:21-37 | a valid set is determined by its powers |
| ValidatorSets.BinarySearch | src/types/validator_set.rs:61-64 | finds the key or its insertion point |
| ValidatorSets.MutableValidatorSet.Put | src/types/validator_set.rs:58-69 | sets one power and keeps list and map in step and in order |
| ValidatorSets.MutableValidatorSet.Remove | src/types/validator_set.rs:76-87 | removes one key and returns its power, or changes nothing |
| ValidatorSets.MutableValidatorSet.ApplyUpdates | src/types/validator_set.rs:91-99 | insertions, then deletions, independently of the order in which the collections are walked |
| ValidatorSets.MutableValidatorSet.Position | src/types/validator_set.rs:144-153 | the index of a member, none for others |
| ValidatorSets.MutableValidatorSet.ComputeTotalPower | src/types/validator_set.rs:107-113 | the sum over all members, in any order |
| ValidatorSets.MutableValidatorSet.ComputeQuorum | src/types/validator_set.rs:157-170 | the quorum of the set, which is the least number above two thirds of its power |
| Leader.SelectLeader | src/pacemaker/implementation.rs:675-708 | the search returns the slot of the interleaved schedule at view mod total power (cut to 64 bits), and fails exactly when that is zero |
| Leader.ScheduleLength | src/pacemaker/implementation.rs:676-681 | the schedule has one slot per unit of power |
| Leader.ScheduleCount | src/pacemaker/implementation.rs:692-703 | each validator has as many slots as it has power |
| Leader.ScheduleIsInterleaved | src/pacemaker/implementation.rs:683-705 | turn number t of the schedule goes to exactly the validators with power at least t, in ascending order of their keys, after all turns number t - 1 and before all turns number t + 1 |
| Leader.LeadersOfOneCycle | src/pacemaker/implementation.rs:675-708 | wherever it starts, one cycle of views uses the same slots once each |
| Leader.LeaderFairness | src/pacemaker/implementation.rs:675-708 | with total power P, 0 < P < 2^64, each validator leads exactly its power many of any P consecutive views |
| Leader.TruncationStarvesValidator | src/pacemaker/implementation.rs:681 | with powers that fit 64 bits and a total beyond 2^64, a validator with power never leads |
| Pacing.EpochBounds | src/pacemaker/implementation.rs:711-718 | an epoch ends at the multiple of N at or right above the view; the view is an epoch-change view iff it is that multiple |
| Pacing.DeadlinesIncreaseExactlyWhen | src/pacemaker/implementation.rs:558-570 | the views of an epoch get increasing deadlines iff the view time is at least a second |
| Pacing.DeadlinesAreEvenlySpaced | src/pacemaker/implementation.rs:558-570 | the first view of an epoch gets one view time, cut to whole seconds, and each later view one more |
| Pacing.EpochStartsClock | src/pacemaker/implementation.rs:405-445 | entering a new epoch restarts the deadlines of its views from now; moving within an epoch leaves them alone |
| Pacing.StartKeepsInv | src/pacemaker/implementation.rs:66-87 | the start state covers the rest of its epoch with deadlines one view time apart, counted from now |
| Pacing.UpdateViewKeepsInv | src/pacemaker/implementation.rs:405-445 | moving to a later view always finds its timeout and keeps the invariant; any other move fails without effect |
| Pacing.ExtendViewIsGood | src/pacemaker/implementation.rs:453-475 | extending an epoch-change view never fails and sets its deadline a full view time from now |
| Pacing.TickIsGood | src/pacemaker/implementation.rs:96-176 | a tick never fails, moves at most to the next view and never out of the epoch |
| Pacing.TickSpeaksExactlyWhen | src/pacemaker/implementation.rs:96-176 | exactly when a tick broadcasts a TimeoutVote, or an AdvanceView with the Highest PC, and when it moves on; an extended view lasts a full view time, and a tick in a live view leaves collectors that cover the active sets |
| Pacing.TimeoutVoteIsGood | src/pacemaker/implementation.rs:207-313 | a timeout vote moves the view only by its fallback certificate, and fails iff it counts, completes no certificate, and the fallback is news but older than the current view; correct votes of validators for epoch-change views are collected and others change nothing |
| Pacing.AnswersExactlyWhen | src/pacemaker/implementation.rs:257-291 | a replica answers a timeout vote with an AdvanceView iff the vote completes a certificate that is news and it has not broadcast in this view (outside the active sets it must in addition have broadcast in an earlier one); the AdvanceView carries that certificate, which becomes the Highest TC |
| Pacing.FallbackCatchesUp | src/pacemaker/implementation.rs:293-309 | a vote that completes nothing, with a correct fallback certificate of the current view or later that is news, moves the replica right past that certificate, with the certificate as Highest TC and new collectors; votes of outsiders change nothing |
| PaceWitness.FallbackCanFail | src/pacemaker/implementation.rs:293-309 | a run from view 0, with signed messages of the replica's chain, in which a correct timeout vote makes the handler fail |
| Pacing.AdvanceViewIsGood | src/pacemaker/implementation.rs:320-397 | a certificate moves the view right past its own iff it is valid and from a validator, and never fails; the certificate received is passed on iff the replica is a validator that has not broadcast in this view; a timeout certificate of another view than an epoch-change view, or anything from an outsider, changes nothing |
| Pacing.AdvanceViewMovesPeers | src/pacemaker/implementation.rs:150-397 | whatever makes a replica with a correct Highest PC and matching collectors broadcast an AdvanceView, its certificate is of the current view or later, and a peer in a view up to that one, with the same tree, enters the view right after it on receipt |
| Pacing.SentIsValid | src/pacemaker/implementation.rs:150-385 | the certificate in an AdvanceView is one that receivers with the same tree accept, and its sender is a validator for them |
| Pacing.RunKeepsPaceInv | src/pacemaker/implementation.rs:405-571 | in every run the timeout table covers the rest of the epoch |
| Pacing.TimeoutsNeverMissing | src/pacemaker/implementation.rs:427-475 | in every run a missing timeout and an extension of an ordinary view are impossible |
| Pacing.TableHoldsOneEpoch | src/pacemaker/implementation.rs:548-571 | in every run the timeout table holds views of the current epoch only: entries of past epochs are dropped |
| Pacing.AdvancesStrictlyIncrease | src/pacemaker/implementation.rs:150-385 | in every run the views of AdvanceView broadcasts strictly increase across the three sites |
| Pacing.TicksStayInEpoch | src/pacemaker/implementation.rs:104-142 | ticks alone never cross an epoch |
| Pacing.OutsiderAdvancesExactlyWhen | src/pacemaker/implementation.rs:269-291 | a non-validator answers a timeout vote with an AdvanceView iff the vote completes a certificate that is news and the replica broadcast in an earlier view |
| PaceWitness.OutsiderCanAdvance | src/pacemaker/implementation.rs:269-291 | such a run in which a replica that has left the validator set, by an update that a run of the store commits and decides, broadcasts an AdvanceView |
| Pacemaker.FillTimeouts | src/pacemaker/implementation.rs:558-570 | the loop sets exactly the timeouts of the rest of the epoch |
| Pacemaker.Pacemaker.constructor | src/pacemaker/implementation.rs:66-87 | the start state of Pacing.Start, in which the invariant holds |
| Pacemaker.Pacemaker.UpdateTimeouts | src/pacemaker/implementation.rs:548-571 | drops expired entries and adds the new epoch's |
| Pacemaker.Pacemaker.UpdateView | src/pacemaker/implementation.rs:405-445 | a later view is always entered, with the timeout invariant and matching collectors; any other view is refused without effect |
| Pacemaker.Pacemaker.ExtendView | src/pacemaker/implementation.rs:453-475 | succeeds exactly in epoch-change views; then the view lasts a full view time from now, other timeouts stay and the invariant holds; otherwise nothing changes |
| Pacemaker.Pacemaker.Tick | src/pacemaker/implementation.rs:96-176 | never fails, stays in the epoch and keeps the timeout invariant; new state and broadcasts are those of Pacing.Tick |
| Pacemaker.Pacemaker.OnReceiveTimeoutVote | src/pacemaker/implementation.rs:207-313 | keeps the timeout invariant, also when it fails; new state, broadcasts and failure are those of Pacing.OnTimeoutVote |
| Pacemaker.Pacemaker.OnReceiveAdvanceView | src/pacemaker/implementation.rs:320-397 | never fails on a current or later certificate and keeps the timeout invariant; new state and broadcasts are those of Pacing.OnAdvanceView |
| EpochBarrier.CertificateCrosses | src/pacemaker/implementation.rs:293-397 | a genuine certificate for a view at or beyond an epoch's end implies that honest quorum-minus-Byzantine power has been at that end |
| EpochBarrier.RunKeepsNetInv | src/pacemaker/implementation.rs:96-445 | every reachable network state keeps the barrier at all epoch ends |
| EpochBarrier.EpochBarrier | src/pacemaker/implementation.rs:96-445 | for k >= 1, an honest replica is above view k*N only if honest replicas with quorum-minus-Byzantine power have been in view k*N |
| Buffering.CutDropsJustEnough | src/networking/receiving.rs:300-330 | eviction frees the bytes or drops everything, and no message more than needed |
| Buffering.EvictionPrefersHighViews | src/networking/receiving.rs:298-341 | no message that stays has a higher view than one that is evicted |
| Buffering.PlacedInOrder | src/networking/receiving.rs:262-284 | a message goes right behind all messages of its view and of lower ones |
| Buffering.FromIsSuffix | src/networking/receiving.rs:344-346 | expiry cuts off exactly the messages of lower views |
| MessageBuffer.InsertedFits | src/networking/receiving.rs:242-287 | after an insertion the stored bytes fit what messages taken or expired leave of the capacity, or one message is stored |
| MessageBuffer.InsertedDropsJustEnough | src/networking/receiving.rs:242-341 | an insertion drops messages iff the new one does not fit, from the high end, and no more of them than its size demands; the message then goes behind those of its view and of lower ones |
| MessageBuffer.SizeOverflowsExactlyWhen | src/networking/receiving.rs:248-284 | the 64-bit size overflows in an insertion iff the bytes still counted for messages taken or expired exceed 2^64 - 1 together with the new message |
| MessageBuffer.ProgressMessageBuffer.constructor | src/networking/receiving.rs:226-232 | an empty buffer |
| MessageBuffer.ProgressMessageBuffer.Insert | src/networking/receiving.rs:242-287 | exactly when the message is stored and where, what is evicted, and that the size counts the stored bytes and those taken or expired, which the stored ones leave room for unless one message is stored |
| MessageBuffer.ProgressMessageBuffer.GetMsg | src/networking/receiving.rs:291-296 | takes the first message of the view, if any; its bytes stay counted in the size |
| MessageBuffer.ProgressMessageBuffer.RemoveHighestViewedMsgs | src/networking/receiving.rs:300-341 | leaves a prefix of the view-ordered contents, lowers the size by exactly what was dropped, removes only emptied views and the highest ones |
| MessageBuffer.ProgressMessageBuffer.RemoveExpiredMsgs | src/networking/receiving.rs:344-346 | keeps exactly the messages at or above the view, in order; the bytes of the others stay counted in the size |

## Left out

- Ed25519, SHA-256 and Borsh: signatures and hashes are terms, and stored values are not serialised.
- Fixed-width overflow: views, heights, powers and sizes are unbounded, except where 64-bit width changes a result (the modulus in leader selection, the overload check of the buffer).
- Agreement across changing validator sets, and liveness: agreement is for one fixed set, and the link from the handlers to the protocol machine holds until the first validator set update is committed.
- Restarts: pacemaker runs start at view 0, and replicas keep their state.
- Threads, channels, the network, events and logging, and the configuration builder.
- Block sync's client and server, apart from its insert-then-update loop, which is a proposal step without a vote.
- The receiving loop around the message buffer and its clock.
- Byte conversions of validator sets and update sets.
- Per-field keys of a block: a block is one value in the store; only its data is also modelled key by key.
- The Highest TC, the highest voted view and the highest entered view are fields of the pacemaker and of the HotStuff object instead of variables in the store.
- Collector pairs inside the pacemaker and the HotStuff object are values that the methods replace; Collectors.ActiveCollectorPair is the in-place form of the pair, for timeout votes.
- Protocol.Agreement: assumes that no honest lock has fallen between two votes, because pc_to_lock does not compare views; it is false otherwise.
- VoteLog.CertificatesExtendAnchor: the same hypothesis, on the log of votes.
- VoteLog.CommittableBlocksAreOneBranch: the same hypothesis, on the log of votes.
- EndToEnd.StoresAgree: the same hypothesis; also no committed validator set update and blocks that fit on top of the tree.
- Proposer.LeaderAcceptsOwnBroadcast: is about proposals and nudges; re-proposals, made when a chain of phases is broken, are in Proposer.ReproposalPassesExactlyWhen.
- EndToEnd.LeaderVotesForOwnBroadcast: the same, and holds until the first validator set update is committed.
- Handlers.UpdateStep: holds until the first validator set update is committed; Handlers.UpdateKeepsStore has what holds after it.
- Handlers.ProposalIsMachineStep: holds until the first validator set update is committed, and for blocks that fit on top of the tree.
- Handlers.NudgeIsMachineStep: holds until the first validator set update is committed.
- Handlers.CertificateIsMachineStep: holds until the first validator set update is committed.
- Handlers.VoteIsMachineStep: holds until the first validator set update is committed.
- Handlers.InsertKeepsStore: accepted blocks fit on top of the tree.
- EndToEnd.WorldStepIsNext: holds until the first validator set update is committed, and for blocks that fit on top of the tree.
- EndToEnd.WorldRunIsRun: holds until the first validator set update is committed, and for blocks that fit on top of the tree.
- Verdicts.RunVerdictsStay: is about runs of the protocol machine, which has one validator set.
- Stalls.StuckForever: is about one validator set, and views that do not go back below the lock, which the protocol machine would allow.
- StoreRuns.StepKeepsStoreInv: inserted blocks fit on top of the tree; BlockStore.InsertKeepsShapeExactlyWhen shows that they have to.
- StoreRuns.StoreRunKeepsInv: inserted blocks fit on top of the tree.
- BlockStore.InsertKeepsShape: blocks that do not fit are in BlockStore.InsertKeepsShapeExactlyWhen.
- Decisions.RunKeepsChildless: starts from a store without a previous validator set update; a store initialised with one has no block at that height yet.
- Decisions.UndecidedIsTip: the same start.
- Verdicts.RunKeepsUpdateHeight: the same start.
- Verdicts.RunVerdicts: the same start.
- Verdicts.RunInsertKeepsVerdict: the same start.
- Electorate.RunVotersAreCheckedAgainst: the same start, with nothing undecided; votes that come too late are in Electorate.VotersAreCheckedAgainst.
- Pacing.AdvanceViewMovesPeers: the sender's Highest PC is correct in its tree, its collectors match the active sets, and sender and receiver have the same tree.
- EpochBarrier.EpochBarrier: is about steps that return without an error, one validator set and no restarts.
- HotStuff.HotStuff.OnReceiveProposal: takes the app's answer as a parameter instead of calling the app, and accepted blocks fit on top of the tree.
- MessageBuffer.ProgressMessageBuffer.Insert: keeps the size unbounded; MessageBuffer.SizeOverflowsExactlyWhen says when the 64-bit field would overflow.
