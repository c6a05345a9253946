/** What the HotStuff message handlers do to a replica, as functions on its state, and the proof that they are steps of
    the protocol machine. */
module Handlers {
  import opened Types
  import opened Quorums
  import opened UpdateSets
  import opened SafetyRules
  import opened BlockStore
  import opened StoreRuns
  import opened Verdicts
  import opened Refinement
  import opened Collecting
  import opened Pacing
  import Leader
  import VoteLog
  import Protocol

  datatype ProposalStatus = WaitingForProposal | OneLeaderProposed(leader: VerifyingKey) | AllLeadersProposed

  /** `Invalid` blocks are not inserted. */
  datatype AppResponse = Invalid | Valid(app: Option<AppStateUpdates>, vsu: Option<ValidatorSetUpdates>)

  /** The parts of a replica that the handlers change; `voted` is the block tree's highest view voted. */
  datatype Handler = Handler(tree: Tree, view: nat, status: ProposalStatus, voted: Option<nat>)

  function Noted(status: ProposalStatus, leader: VerifyingKey): ProposalStatus {
    match status
    case WaitingForProposal => OneLeaderProposed(leader)
    case _ => AllLeadersProposed
  }

  predicate Accepts(status: ProposalStatus, leader: VerifyingKey) {
    status != OneLeaderProposed(leader) && !status.AllLeadersProposed?
  }

  /** Once a leader's proposal or nudge has been processed, no other from it is processed in that view, whatever
      arrives in between; and after two leaders, none. */
  lemma OneProposalPerLeader(status: ProposalStatus, first: VerifyingKey)
    ensures !Accepts(Noted(status, first), first)
    ensures forall leader | !Accepts(status, leader) :: !Accepts(Noted(status, first), leader)
    ensures forall second, leader :: !Accepts(Noted(Noted(status, first), second), leader)
  {
  }

  /** The status after messages of these leaders have been processed, in this order. */
  function StatusAfter(leaders: seq<VerifyingKey>): ProposalStatus {
    if leaders == [] then WaitingForProposal else Noted(StatusAfter(leaders[..|leaders| - 1]), leaders[|leaders| - 1])
  }

  /** A leader is listened to if and only if it has not been heard yet in this view and at most one leader has: so both
      leaders of a view with two active validator sets are heard, in any order. */
  lemma {:induction false} ListensExactlyWhen(leaders: seq<VerifyingKey>, leader: VerifyingKey)
    ensures Accepts(StatusAfter(leaders), leader) <==> |leaders| < 2 && leader !in leaders
  {
    if |leaders| == 1 {
      assert leaders[..0] == [];
    } else if |leaders| >= 2 {
      var front := leaders[..|leaders| - 1];
      ListensExactlyWhen(front, front[|front| - 1]);
      assert front[|front| - 1] in front;
      HeardTwice(front, leaders[|leaders| - 1]);
    }
  }

  lemma HeardTwice(leaders: seq<VerifyingKey>, second: VerifyingKey)
    requires leaders != []
    ensures Noted(StatusAfter(leaders), second) == AllLeadersProposed
  {
  }

  function LeaderOf(view: nat, vs: ValidatorSet): Option<VerifyingKey> {
    if Leader.Modulus(vs) == 0 then None
    else
      Leader.ScheduleLength(vs);
      Some(Leader.Schedule(vs)[view % Leader.Modulus(vs)])
  }

  predicate IsProposer(key: VerifyingKey, view: nat, vss: ValidatorSetState) {
    LeaderOf(view, vss.committed) == Some(key) || (!vss.updateDecided && LeaderOf(view, vss.previous) == Some(key))
  }

  predicate IsPhaseVoter(key: VerifyingKey, vss: ValidatorSetState, justify: PhaseCertificate) {
    if vss.updateDecided || justify.phase.Commit? then vss.committed.Contains(key) else vss.previous.Contains(key)
  }

  /** The leader of the next view in the set whose votes count; None is the panic of `select_leader`. */
  function VoteRecipient(vss: ValidatorSetState, phase: Phase, view: nat): Option<VerifyingKey> {
    LeaderOf(view + 1, if vss.updateDecided || phase.Decide? then vss.committed else vss.previous)
  }

  predicate BlockIsCorrect(t: Tree, block: Block) {
    block.hash == Digest(block.height, block.justify, block.dataHash) && IsCorrect(t, block.justify)
  }

  /** The tree after `update`, which leaves it alone when it fails. */
  ghost function UpdatedOn(t: Tree, justify: PhaseCertificate): Tree {
    if PcToLock(t.View(), justify).Ok? && BlockToCommit(t.View(), justify).Ok? then UpdateTree(t, justify) else t
  }

  predicate MayVote(key: VerifyingKey, h: Handler, justify: PhaseCertificate) {
    IsPhaseVoter(key, StateOf(h.tree), justify) && (h.voted.None? || h.voted.value < h.view)
  }

  function NewPhaseVote(
      chainId: nat, key: VerifyingKey, view: nat, block: CryptoHash, phase: Phase, salt: nat): PhaseVote {
    PhaseVote(chainId, view, block, phase, Signed(key, PhaseMessage(chainId, view, block, phase), salt))
  }

  ghost function Vote(
      chainId: nat, key: VerifyingKey, h: Handler, justify: PhaseCertificate, block: CryptoHash, phase: Phase,
      salt: nat):
      (Handler, seq<PhaseVote>)
  {
    if MayVote(key, h, justify)
    then (h.(voted := Some(h.view)), [NewPhaseVote(chainId, key, h.view, block, phase, salt)])
    else (h, [])
  }

  predicate AcceptsBlock(chainId: nat, t: Tree, block: Block) {
    BlockIsCorrect(t, block) && SafeBlock(t.View(), block, chainId)
  }

  ghost function OnProposal(
      chainId: nat, key: VerifyingKey, h: Handler, block: Block, origin: VerifyingKey, response: AppResponse,
      salt: nat):
      (Handler, seq<PhaseVote>)
  {
    var noted := h.(status := Noted(h.status, origin));
    if !AcceptsBlock(chainId, h.tree, block) || response.Invalid? then (noted, [])
    else
      var t := UpdatedOn(InsertBlock(h.tree, block, response.app, response.vsu), block.justify);
      var phase := if response.vsu.Some? then Prepare else Generic;
      Vote(chainId, key, noted.(tree := t), block.justify, block.hash, phase, salt)
  }

  predicate AcceptsNudge(chainId: nat, t: Tree, nudge: Nudge, view: nat) {
    IsCorrect(t, nudge.justify) && SafeNudge(t.View(), nudge, view, chainId)
  }

  ghost function OnNudge(chainId: nat, key: VerifyingKey, h: Handler, nudge: Nudge, origin: VerifyingKey, salt: nat):
      (Handler, seq<PhaseVote>)
  {
    var noted := h.(status := Noted(h.status, origin));
    if !AcceptsNudge(chainId, h.tree, nudge, h.view) then (noted, [])
    else
      var t := UpdatedOn(h.tree, nudge.justify);
      var phase := Protocol.NextPhase(nudge.justify.phase);
      Vote(chainId, key, noted.(tree := t), nudge.justify, nudge.justify.block, phase, salt)
  }

  predicate AcceptsPc(chainId: nat, t: Tree, pc: PhaseCertificate) {
    IsCorrect(t, pc) && SafePc(t.View(), pc, chainId)
  }

  /** A certificate from a NewView message, or collected from votes. */
  ghost function OnCertificate(chainId: nat, h: Handler, pc: PhaseCertificate): Handler {
    if AcceptsPc(chainId, h.tree, pc) then h.(tree := UpdatedOn(h.tree, pc)) else h
  }

  /** Messages of other chains have no effect beyond silencing their sender: with the same keys on two chains, neither a
      certificate nor a block or nudge built on one carries over. */
  lemma OtherChainsChangeNothing(
      chainId: nat, key: VerifyingKey, h: Handler, block: Block, nudge: Nudge, pc: PhaseCertificate,
      origin: VerifyingKey, response: AppResponse, salt: nat)
    ensures IsOfOtherChain(chainId, pc) ==> OnCertificate(chainId, h, pc) == h
    ensures IsOfOtherChain(chainId, block.justify) ==>
      OnProposal(chainId, key, h, block, origin, response, salt) == (h.(status := Noted(h.status, origin)), [])
    ensures IsOfOtherChain(chainId, nudge.justify) || nudge.chainId != chainId ==>
      OnNudge(chainId, key, h, nudge, origin, salt) == (h.(status := Noted(h.status, origin)), [])
  {
  }

  predicate IsOfOtherChain(chainId: nat, pc: PhaseCertificate) {
    pc.chainId != chainId && !IsGenesisPc(pc)
  }

  // ---------------------------------------------------------------------------------------------------
  // The handlers are steps of the protocol machine

  ghost function ReplicaOf(h: Handler): Protocol.Replica {
    AsReplica(h.tree, h.view, h.voted)
  }

  /** The invariant that the store keeps in every run, while the validator set has not been updated. */
  ghost predicate Ready(c: VoteLog.Config, app: Verdict, h: Handler) {
    && StoreInv(h.tree, c.vs, app) && SameApp(c, app)
    && h.tree.committedVs == c.vs && h.tree.updateHeight.None?
  }

  /** `votes` are the signed form of `casts`. */
  ghost predicate Signs(c: VoteLog.Config, k: VerifyingKey, casts: VoteLog.Log, votes: seq<PhaseVote>) {
    && |casts| == |votes|
    && forall i | 0 <= i < |votes| ::
         && PhaseVoteIsCorrect(k, votes[i]) && casts[i].voter == k
         && PhaseMessage(votes[i].chainId, votes[i].view, votes[i].block, votes[i].phase) ==
           VoteLog.SignedBy(c, casts[i])
  }

  /** The entry that a vote leaves in the log: with its justify, and the locks before the handler ran and at the
      vote. */
  function CastsOf(
      k: VerifyingKey, h: Handler, h': Handler, justify: PhaseCertificate, votes: seq<PhaseVote>): VoteLog.Log {
    if votes == [] then []
    else [VoteLog.Cast(k, votes[0].view, votes[0].block, votes[0].phase, justify, h.tree.lockedPc, h'.tree.lockedPc)]
  }

  ghost predicate IsMachineStep(
      c: VoteLog.Config, log: VoteLog.Log, k: VerifyingKey, h: Handler, e: Protocol.Event, h': Handler,
      justify: PhaseCertificate, votes: seq<PhaseVote>)
  {
    var casts := CastsOf(k, h, h', justify, votes);
    Protocol.ReplicaStep(c, log, k, ReplicaOf(h), e, ReplicaOf(h'), casts) && Signs(c, k, casts, votes)
  }

  /** An update on a safe justify, in a tree that keeps the invariant between insert and update, is the machine's
      update, and brings the store invariant back. */
  lemma UpdateStep(
      c: VoteLog.Config, app: Verdict, t: Tree, newcomer: Option<CryptoHash>, justify: PhaseCertificate, view: nat,
      voted: Option<nat>)
    requires MidInv(t, c.vs, app, newcomer, justify) && SafePc(t.View(), justify, c.chainId) && t.updateHeight.None?
    ensures PcToLock(t.View(), justify).Ok? && BlockToCommit(t.View(), justify).Ok?
    ensures StoreInv(UpdatedOn(t, justify), c.vs, app)
    ensures Protocol.Update(AsReplica(t, view, voted), justify, AsReplica(UpdatedOn(t, justify), view, voted))
  {
    UpdateNeverErrs(t, justify, c.chainId);
    UpdateReachesInv(t, c.vs, app, c.chainId, newcomer, justify);
    StepKeepsUpdateHeight(t, c.vs, app, c.chainId, newcomer, justify);
    UpdateRefines(t, justify, view, voted);
  }

  lemma StoreInvIsMidInv(t: Tree, vs: ValidatorSet, app: Verdict, justify: PhaseCertificate)
    requires StoreInv(t, vs, app)
    ensures MidInv(t, vs, app, None, justify)
  {
  }

  lemma InsertStep(
      c: VoteLog.Config, app: Verdict, t: Tree, block: Block, appUpdates: Option<AppStateUpdates>, view: nat,
      voted: Option<nat>)
    requires StoreInv(t, c.vs, app) && SameApp(c, app) && SafeBlock(t.View(), block, c.chainId) && MayInsert(t, block)
    ensures
      var t1 := InsertBlock(t, block, appUpdates, app(block.hash));
      && MidInv(t1, c.vs, app, Some(block.hash), block.justify) && SafePc(t1.View(), block.justify, c.chainId)
      && AsReplica(t1, view, voted)
         == AsReplica(t, view, voted).(tree := Protocol.Insert(t.View(), block.hash, c.updates(block.hash)))
  {
    InsertReachesMidInv(t, c.vs, app, c.chainId, block, appUpdates);
    InsertRefines(t, block, appUpdates, app(block.hash));
    assert c.updates(block.hash) <==> app(block.hash).Some?;
  }

  /** A block that passes the checks of a proposal, and fits on top of the tree, may be inserted: the checks
      cover its hash and that its parent is stored. */
  lemma AcceptedMayBeInserted(chainId: nat, t: Tree, block: Block)
    requires AcceptsBlock(chainId, t, block) && FitsOnTop(t, block)
    ensures MayInsert(t, block)
  {
  }

  lemma ProposalUpdates(c: VoteLog.Config, app: Verdict, h: Handler, block: Block, appUpdates: Option<AppStateUpdates>)
    requires Ready(c, app, h) && AcceptsBlock(c.chainId, h.tree, block) && MayInsert(h.tree, block)
    ensures Protocol.IsCorrect(c, block.justify)
    ensures
      var t' := UpdatedOn(InsertBlock(h.tree, block, appUpdates, app(block.hash)), block.justify);
      && StoreInv(t', c.vs, app)
      && Protocol.Update(
           ReplicaOf(h).(tree := Protocol.Insert(h.tree.View(), block.hash, c.updates(block.hash))),
           block.justify, AsReplica(t', h.view, h.voted))
  {
    InsertStep(c, app, h.tree, block, appUpdates, h.view, h.voted);
    var t1 := InsertBlock(h.tree, block, appUpdates, app(block.hash));
    UpdateStep(c, app, t1, Some(block.hash), block.justify, h.view, h.voted);
    VerdictUnderFixedSet(h.tree, c, block.justify);
  }

  /** The replica after inserting the block and updating on its justify, before it votes. */
  ghost function Proposed(
      h: Handler, block: Block, origin: VerifyingKey, app: Option<AppStateUpdates>, vsu: Option<ValidatorSetUpdates>):
      Handler
  {
    h.(status := Noted(h.status, origin), tree := UpdatedOn(InsertBlock(h.tree, block, app, vsu), block.justify))
  }

  lemma ProposalThenVote(
      chainId: nat, k: VerifyingKey, h: Handler, block: Block, origin: VerifyingKey, app: Option<AppStateUpdates>,
      vsu: Option<ValidatorSetUpdates>, salt: nat)
    requires AcceptsBlock(chainId, h.tree, block)
    ensures OnProposal(chainId, k, h, block, origin, Valid(app, vsu), salt) ==
      Vote(
        chainId, k, Proposed(h, block, origin, app, vsu), block.justify, block.hash,
        if vsu.Some? then Prepare else Generic, salt)
  {
  }

  /** A proposal that passes the checks is a proposal step of the machine, with exactly the votes that are sent. */
  lemma ProposalIsMachineStep(
      c: VoteLog.Config, app: Verdict, log: VoteLog.Log, k: VerifyingKey, h: Handler, block: Block,
      origin: VerifyingKey, appUpdates: Option<AppStateUpdates>, salt: nat)
    requires Ready(c, app, h) && Protocol.CanArrive(c, log, block.justify)
    requires AcceptsBlock(c.chainId, h.tree, block) && FitsOnTop(h.tree, block)
    ensures
      var (h', votes) := OnProposal(c.chainId, k, h, block, origin, Valid(appUpdates, app(block.hash)), salt);
      && IsMachineStep(c, log, k, h, Protocol.ReceiveProposal(block, votes != []), h', block.justify, votes)
      && StoreInv(h'.tree, c.vs, app)
      && (votes != [] <==>
            IsPhaseVoter(k, StateOf(h'.tree), block.justify) && (h.voted.None? || h.voted.value < h.view))
  {
    var updated := Proposed(h, block, origin, appUpdates, app(block.hash));
    var phase := if app(block.hash).Some? then Prepare else Generic;
    AcceptedMayBeInserted(c.chainId, h.tree, block);
    ProposalUpdates(c, app, h, block, appUpdates);
    ProposalThenVote(c.chainId, k, h, block, origin, appUpdates, app(block.hash), salt);
    assert c.updates(block.hash) <==> app(block.hash).Some?;
    VotedProposal(c, log, k, h, block, updated, phase, salt);
    VotingKeepsTree(c.chainId, k, updated, block.justify, block.hash, phase, salt);
  }

  lemma VotingKeepsTree(
      chainId: nat, k: VerifyingKey, h: Handler, justify: PhaseCertificate, block: CryptoHash, phase: Phase, salt: nat)
    ensures Vote(chainId, k, h, justify, block, phase, salt).0.tree == h.tree
  {
  }

  lemma VotedProposal(
      c: VoteLog.Config, log: VoteLog.Log, k: VerifyingKey, h: Handler, block: Block, updated: Handler, phase: Phase,
      salt: nat)
    requires Protocol.CanArrive(c, log, block.justify) && Protocol.IsCorrect(c, block.justify)
    requires block.hash == Digest(block.height, block.justify, block.dataHash) &&
      SafeBlock(h.tree.View(), block, c.chainId)
    requires Protocol.Update(
      ReplicaOf(h).(tree := Protocol.Insert(h.tree.View(), block.hash, c.updates(block.hash))),
      block.justify, ReplicaOf(updated))
    requires phase == if c.updates(block.hash) then Prepare else Generic
    ensures
      var (h', votes) := Vote(c.chainId, k, updated, block.justify, block.hash, phase, salt);
      IsMachineStep(c, log, k, h, Protocol.ReceiveProposal(block, votes != []), h', block.justify, votes)
  {
    var (h', votes) := Vote(c.chainId, k, updated, block.justify, block.hash, phase, salt);
    var casts := CastsOf(k, h, h', block.justify, votes);
    assert casts == ProposalCasts(c, k, ReplicaOf(h), block, ReplicaOf(updated), votes != []);
    ProposalStep(c, log, k, ReplicaOf(h), block, ReplicaOf(updated), votes != [], ReplicaOf(h'));
    assert Signs(c, k, casts, votes);
  }

  ghost function ProposalCasts(
      c: VoteLog.Config, k: VerifyingKey, r: Protocol.Replica, block: Block, u: Protocol.Replica,
      votes: bool): VoteLog.Log
  {
    if !votes then []
    else [VoteLog.Cast(k, u.view, block.hash, if c.updates(block.hash) then Prepare else Generic,
                       block.justify, r.tree.lockedPc, u.tree.lockedPc)]
  }

  /** Assembles a proposal step from its parts. */
  lemma ProposalStep(
      c: VoteLog.Config, log: VoteLog.Log, k: VerifyingKey, r: Protocol.Replica, block: Block, u: Protocol.Replica,
      votes: bool, r': Protocol.Replica)
    requires Protocol.CanArrive(c, log, block.justify) && Protocol.IsCorrect(c, block.justify)
    requires block.hash == Digest(block.height, block.justify, block.dataHash) && SafeBlock(r.tree, block, c.chainId)
    requires Protocol.Update(r.(tree := Protocol.Insert(r.tree, block.hash, c.updates(block.hash))), block.justify, u)
    requires if votes then Protocol.MayVote(u) && r' == u.(voted := Some(u.view)) else r' == u
    ensures Protocol.ReplicaStep(
      c, log, k, r, Protocol.ReceiveProposal(block, votes), r', ProposalCasts(c, k, r, block, u, votes))
  {
  }

  /** The replica after updating on a nudge's justify, before it votes. */
  ghost function Nudged(h: Handler, justify: PhaseCertificate, origin: VerifyingKey): Handler {
    h.(status := Noted(h.status, origin), tree := UpdatedOn(h.tree, justify))
  }

  lemma NudgeThenVote(chainId: nat, k: VerifyingKey, h: Handler, nudge: Nudge, origin: VerifyingKey, salt: nat)
    requires AcceptsNudge(chainId, h.tree, nudge, h.view)
    ensures OnNudge(chainId, k, h, nudge, origin, salt) ==
      Vote(chainId, k, Nudged(h, nudge.justify, origin), nudge.justify, nudge.justify.block,
           Protocol.NextPhase(nudge.justify.phase), salt)
  {
  }

  lemma NudgeIsMachineStep(
      c: VoteLog.Config, app: Verdict, log: VoteLog.Log, k: VerifyingKey, h: Handler, nudge: Nudge,
      origin: VerifyingKey, salt: nat)
    requires Ready(c, app, h) && Protocol.CanArrive(c, log, nudge.justify)
    requires AcceptsNudge(c.chainId, h.tree, nudge, h.view)
    ensures
      var (h', votes) := OnNudge(c.chainId, k, h, nudge, origin, salt);
      && IsMachineStep(c, log, k, h, Protocol.ReceiveNudge(nudge, votes != []), h', nudge.justify, votes)
      && StoreInv(h'.tree, c.vs, app)
      && (votes != [] <==>
            IsPhaseVoter(k, StateOf(h'.tree), nudge.justify) && (h.voted.None? || h.voted.value < h.view))
  {
    var (h', votes) := OnNudge(c.chainId, k, h, nudge, origin, salt);
    var justify := nudge.justify;
    StoreInvIsMidInv(h.tree, c.vs, app, justify);
    UpdateStep(c, app, h.tree, None, justify, h.view, h.voted);
    VerdictUnderFixedSet(h.tree, c, justify);
    var r, u := ReplicaOf(h), AsReplica(UpdatedOn(h.tree, justify), h.view, h.voted);
    var casts := CastsOf(k, h, h', justify, votes);
    assert Protocol.Update(r, justify, u);
    assert Protocol.ReplicaStep(c, log, k, r, Protocol.ReceiveNudge(nudge, votes != []), ReplicaOf(h'), casts);
    assert Signs(c, k, casts, votes);
  }

  lemma CertificateIsMachineStep(
      c: VoteLog.Config, app: Verdict, log: VoteLog.Log, k: VerifyingKey, h: Handler, pc: PhaseCertificate)
    requires Ready(c, app, h) && Protocol.CanArrive(c, log, pc) && AcceptsPc(c.chainId, h.tree, pc)
    ensures IsMachineStep(c, log, k, h, Protocol.ReceiveCertificate(pc), OnCertificate(c.chainId, h, pc), pc, [])
    ensures StoreInv(OnCertificate(c.chainId, h, pc).tree, c.vs, app)
  {
    StoreInvIsMidInv(h.tree, c.vs, app, pc);
    UpdateStep(c, app, h.tree, None, pc, h.view, h.voted);
    VerdictUnderFixedSet(h.tree, c, pc);
    assert Protocol.ReplicaStep(
      c, log, k, ReplicaOf(h), Protocol.ReceiveCertificate(pc), ReplicaOf(OnCertificate(c.chainId, h, pc)), []);
    assert Signs(c, k, [], []);
  }

  // ---------------------------------------------------------------------------------------------------
  // Certificates collected from votes

  ghost predicate GenuineTallies(c: VoteLog.Config, log: VoteLog.Log, col: PhaseCollector) {
    forall b | b in col.votes :: VoteLog.Unforged(c, log, col.votes[b].signatures)
  }

  ghost predicate GenuinePair(c: VoteLog.Config, log: VoteLog.Log, pair: PhasePair) {
    GenuineTallies(c, log, pair.cvs) && (pair.pvs.Some? ==> GenuineTallies(c, log, pair.pvs.value))
  }

  /** A collector that has only seen signatures that can exist emits certificates that can exist. */
  lemma CollectedIsUnforged(
      c: VoteLog.Config, log: VoteLog.Log, col: PhaseCollector, signer: VerifyingKey, vote: PhaseVote)
    requires PhaseOk(col) && GenuineTallies(c, log, col) && VoteLog.Unforged(c, log, [Some(vote.signature)])
    ensures
      var (col', pc) := PhaseCollected(col, signer, vote);
      GenuineTallies(c, log, col') && (pc.Some? ==> Protocol.CanArrive(c, log, pc.value))
  {
    if col.chainId == vote.chainId && col.view == vote.view && signer in col.vs.validators {
      var ballot := (vote.block, vote.phase);
      TallyForOk(col, ballot);
      var pos := PositionOf(col.vs, signer).value;
      CountedIsUnforged(c, log, TallyFor(col, ballot).signatures, pos, vote.signature);
      if TallyFor(col, ballot).signatures[pos].None? {
        TalliesStayGenuine(c, log, col, ballot, Counted(col.vs, TallyFor(col, ballot), pos, vote.signature));
      }
    }
  }

  lemma TalliesStayGenuine(
      c: VoteLog.Config, log: VoteLog.Log, col: PhaseCollector, ballot: Ballot, counted: Tally)
    requires GenuineTallies(c, log, col) && VoteLog.Unforged(c, log, counted.signatures)
    ensures GenuineTallies(c, log, col.(votes := col.votes - {ballot}))
    ensures GenuineTallies(c, log, col.(votes := col.votes[ballot := counted]))
  {
  }

  lemma CountedIsUnforged(
      c: VoteLog.Config, log: VoteLog.Log, signatures: seq<Option<Signature>>, pos: nat, signature: Signature)
    requires pos < |signatures| && VoteLog.Unforged(c, log, signatures) && VoteLog.Unforged(c, log, [Some(signature)])
    ensures VoteLog.Unforged(c, log, signatures[pos := Some(signature)])
  {
    assert [Some(signature)][0] == Some(signature);
  }

  lemma PairIsUnforged(c: VoteLog.Config, log: VoteLog.Log, pair: PhasePair, signer: VerifyingKey, vote: PhaseVote)
    requires PhasePairOk(pair) && GenuinePair(c, log, pair) && VoteLog.Unforged(c, log, [Some(vote.signature)])
    ensures
      var (pair', pc) := PhasePairCollected(pair, signer, vote);
      GenuinePair(c, log, pair') && (pc.Some? ==> Protocol.CanArrive(c, log, pc.value))
  {
    CollectedIsUnforged(c, log, pair.cvs, signer, vote);
    if pair.pvs.Some? {
      CollectedIsUnforged(c, log, pair.pvs.value, signer, vote);
    }
  }

  /** The replica after a phase vote. */
  ghost function OnVote(chainId: nat, h: Handler, pair: PhasePair, signer: VerifyingKey, vote: PhaseVote): Handler
    requires PhasePairOk(pair)
  {
    var pc := PhasePairCollected(pair, signer, vote).1;
    if PhaseVoteIsCorrect(signer, vote) && pc.Some? then OnCertificate(chainId, h, pc.value) else h
  }

  /** A vote that completes a certificate which passes the checks is a certificate step of the machine; any other vote
      leaves the replica as it was. */
  lemma VoteIsMachineStep(
      c: VoteLog.Config, app: Verdict, log: VoteLog.Log, k: VerifyingKey, h: Handler, pair: PhasePair,
      signer: VerifyingKey, vote: PhaseVote)
    requires Ready(c, app, h) && PhasePairOk(pair) && GenuinePair(c, log, pair)
    requires VoteLog.Unforged(c, log, [Some(vote.signature)])
    ensures
      var pc := PhasePairCollected(pair, signer, vote).1;
      var h' := OnVote(c.chainId, h, pair, signer, vote);
      if PhaseVoteIsCorrect(signer, vote) && pc.Some? && AcceptsPc(c.chainId, h.tree, pc.value)
      then IsMachineStep(c, log, k, h, Protocol.ReceiveCertificate(pc.value), h', pc.value, [])
      else h' == h
  {
    PairIsUnforged(c, log, pair, signer, vote);
    var pc := PhasePairCollected(pair, signer, vote).1;
    if pc.Some? && AcceptsPc(c.chainId, h.tree, pc.value) {
      CertificateIsMachineStep(c, app, log, k, h, pc.value);
    }
  }

  // ---------------------------------------------------------------------------------------------------
  // What the handlers keep, with or without validator set updates

  /** The store is one that runs reach, and its validator sets are well-formed. */
  ghost predicate StoreOk(t: Tree, vs: ValidatorSet, app: Verdict) {
    StoreInv(t, vs, app) && StateOf(t).Valid()
  }

  lemma UpdateKeepsStore(t: Tree, vs: ValidatorSet, app: Verdict, chainId: nat, pc: PhaseCertificate)
    requires StoreOk(t, vs, app) && SafePc(t.View(), pc, chainId)
    ensures StoreOk(UpdatedOn(t, pc), vs, app)
  {
    UpdateNeverErrs(t, pc, chainId);
    StepKeepsStoreInv(t, vs, app, chainId, UpdateOn(pc), UpdatedOn(t, pc));
  }

  lemma InsertKeepsStore(
      t: Tree, vs: ValidatorSet, app: Verdict, chainId: nat, block: Block, appUpdates: Option<AppStateUpdates>)
    requires StoreOk(t, vs, app) && SafeBlock(t.View(), block, chainId) && MayInsert(t, block)
    ensures StoreOk(UpdatedOn(InsertBlock(t, block, appUpdates, app(block.hash)), block.justify), vs, app)
  {
    var t1 := InsertBlock(t, block, appUpdates, app(block.hash));
    InsertReachesMidInv(t, vs, app, chainId, block, appUpdates);
    UpdateNeverErrs(t1, block.justify, chainId);
    StepKeepsStoreInv(t, vs, app, chainId, InsertAndUpdate(block, appUpdates), UpdatedOn(t1, block.justify));
  }
}
