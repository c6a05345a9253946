/** Agreement of the stores of honest replicas that run the message handlers.

    A world holds the handlers' state of every honest replica, and the log of their votes.  Which message arrives where
    and when is arbitrary, and so is everything that Byzantine validators sign.  A certificate arrives in a NewView
    message, or is collected from votes, or comes with a proposal or a nudge. */
module EndToEnd {
  import opened Types
  import opened Quorums
  import opened UpdateSets
  import opened SafetyRules
  import opened BlockStore
  import opened Commitment
  import opened StoreRuns
  import opened Verdicts
  import opened Collecting
  import opened Handlers
  import opened Refinement
  import VoteLog
  import Protocol
  import Proposer
  import Pacing

  datatype World = World(log: VoteLog.Log, handlers: map<VerifyingKey, Handler>)

  datatype Arrival =
    | ViewArrives(view: nat)
    | ProposalArrives(block: Block, origin: VerifyingKey, response: AppResponse, salt: nat)
    | NudgeArrives(nudge: Nudge, origin: VerifyingKey, salt: nat)
    | CertificateArrives(pc: PhaseCertificate)

  function JustifyIn(e: Arrival): PhaseCertificate {
    match e
    case ViewArrives(_) => GENESIS_PC
    case ProposalArrives(block, _, _, _) => block.justify
    case NudgeArrives(nudge, _, _) => nudge.justify
    case CertificateArrives(pc) => pc
  }

  ghost function Handled(chainId: nat, k: VerifyingKey, h: Handler, e: Arrival): (Handler, seq<PhaseVote>) {
    match e
    case ViewArrives(view) => (h.(view := view, status := WaitingForProposal), [])
    case ProposalArrives(block, origin, response, salt) => OnProposal(chainId, k, h, block, origin, response, salt)
    case NudgeArrives(nudge, origin, salt) => OnNudge(chainId, k, h, nudge, origin, salt)
    case CertificateArrives(pc) => (OnCertificate(chainId, h, pc), [])
  }

  /** The signatures in the message can exist; the app answers as it always does; and, the one thing that handlers
      leave to the proposer, an accepted block fits on top of the tree. */
  ghost predicate MayArrive(c: VoteLog.Config, app: Verdict, log: VoteLog.Log, h: Handler, e: Arrival) {
    && Protocol.CanArrive(c, log, JustifyIn(e))
    && (e.ProposalArrives? ==>
          && (e.response.Valid? ==> e.response.vsu == app(e.block.hash))
          && (AcceptsBlock(c.chainId, h.tree, e.block) && e.response.Valid? ==> FitsOnTop(h.tree, e.block)))
  }

  ghost predicate WorldStepBy(c: VoteLog.Config, app: Verdict, w: World, k: VerifyingKey, e: Arrival, w': World) {
    && k in w.handlers && MayArrive(c, app, w.log, w.handlers[k], e)
    && var (h, votes) := Handled(c.chainId, k, w.handlers[k], e);
       w' == World(w.log + CastsOf(k, w.handlers[k], h, JustifyIn(e), votes), w.handlers[k := h])
  }

  ghost predicate WorldStep(c: VoteLog.Config, app: Verdict, w: World, w': World) {
    exists k, e :: WorldStepBy(c, app, w, k, e, w')
  }

  ghost predicate StartsEmpty(c: VoteLog.Config, h: Handler) {
    exists appState, previousVs, decided ::
      h == Handler(InitialTree(appState, c.vs, previousVs, None, decided), h.view, WaitingForProposal, None)
  }

  ghost predicate IsWorldRun(c: VoteLog.Config, app: Verdict, run: seq<World>) {
    && SameApp(c, app) && |run| > 0
    && run[0].log == [] && run[0].handlers.Keys == c.honest
    && (forall k | k in run[0].handlers :: StartsEmpty(c, run[0].handlers[k]))
    && (forall i | 0 <= i < |run| - 1 :: WorldStep(c, app, run[i], run[i + 1]))
  }

  /** Hypotheses: no honest replica has committed a validator set update, and honest replicas vote from view 1 on. */
  ghost predicate FixedSetSoFar(w: World) {
    forall k | k in w.handlers :: w.handlers[k].tree.updateHeight.None?
  }

  ghost predicate VotesFromViewOne(w: World) {
    forall i | 0 <= i < |w.log| :: w.log[i].view >= 1
  }

  ghost predicate IsPlainRun(c: VoteLog.Config, app: Verdict, run: seq<World>) {
    IsWorldRun(c, app, run) && forall i | 0 <= i < |run| :: FixedSetSoFar(run[i]) && VotesFromViewOne(run[i])
  }

  // ---------------------------------------------------------------------------------------------------
  // Worlds are states of the protocol machine

  ghost function AsState(w: World): Protocol.State {
    Protocol.State(w.log, map k | k in w.handlers :: ReplicaOf(w.handlers[k]))
  }

  ghost predicate AllReady(c: VoteLog.Config, app: Verdict, w: World) {
    forall k | k in w.handlers :: Ready(c, app, w.handlers[k])
  }

  /** A commit that leaves the update height unset leaves the validator set alone. */
  lemma SetUnchanged(t: Tree, pc: PhaseCertificate)
    requires t.updateHeight.None? && UpdatedOn(t, pc).updateHeight.None?
    ensures UpdatedOn(t, pc).committedVs == t.committedVs
  {
  }

  lemma ReadyAfter(c: VoteLog.Config, app: Verdict, h: Handler, t: Tree, pc: PhaseCertificate, h': Handler)
    requires Ready(c, app, h) && t.committedVs == h.tree.committedVs && t.updateHeight == h.tree.updateHeight
    requires h'.tree == UpdatedOn(t, pc) && StoreInv(h'.tree, c.vs, app) && h'.tree.updateHeight.None?
    ensures Ready(c, app, h')
  {
    SetUnchanged(t, pc);
  }

  /** What handling one message does to one replica: a step of the machine, or nothing that the machine sees. */
  ghost predicate StepsOrStays(
      c: VoteLog.Config, log: VoteLog.Log, k: VerifyingKey, h: Handler, h': Handler, justify: PhaseCertificate,
      votes: seq<PhaseVote>)
  {
    exists e :: Protocol.ReplicaStep(c, log, k, ReplicaOf(h), e, ReplicaOf(h'), CastsOf(k, h, h', justify, votes))
  }

  lemma Stays(c: VoteLog.Config, log: VoteLog.Log, k: VerifyingKey, h: Handler, h': Handler, justify: PhaseCertificate)
    requires h'.tree == h.tree && h'.voted == h.voted
    ensures StepsOrStays(c, log, k, h, h', justify, [])
  {
    assert CastsOf(k, h, h', justify, []) == [];
    assert Protocol.ReplicaStep(
      c, log, k, ReplicaOf(h), Protocol.EnterView(h'.view), ReplicaOf(h'), CastsOf(k, h, h', justify, []));
  }

  lemma ProposalSteps(
      c: VoteLog.Config, app: Verdict, log: VoteLog.Log, k: VerifyingKey, h: Handler, e: Arrival, h': Handler,
      votes: seq<PhaseVote>)
    requires Ready(c, app, h) && MayArrive(c, app, log, h, e) && e.ProposalArrives?
    requires (h', votes) == Handled(c.chainId, k, h, e) && h'.tree.updateHeight.None?
    ensures StepsOrStays(c, log, k, h, h', e.block.justify, votes) && Ready(c, app, h')
  {
    if AcceptsBlock(c.chainId, h.tree, e.block) && e.response.Valid? {
      var vsu := e.response.vsu;
      ProposalIsMachineStep(c, app, log, k, h, e.block, e.origin, e.response.app, e.salt);
      ProposalThenVote(c.chainId, k, h, e.block, e.origin, e.response.app, vsu, e.salt);
      VotingKeepsTree(
        c.chainId, k, Proposed(h, e.block, e.origin, e.response.app, vsu), e.block.justify, e.block.hash,
        if vsu.Some? then Prepare else Generic, e.salt);
      ReadyAfter(c, app, h, InsertBlock(h.tree, e.block, e.response.app, vsu), e.block.justify, h');
    } else {
      Stays(c, log, k, h, h', e.block.justify);
    }
  }

  lemma NudgeSteps(
      c: VoteLog.Config, app: Verdict, log: VoteLog.Log, k: VerifyingKey, h: Handler, e: Arrival, h': Handler,
      votes: seq<PhaseVote>)
    requires Ready(c, app, h) && MayArrive(c, app, log, h, e) && e.NudgeArrives?
    requires (h', votes) == Handled(c.chainId, k, h, e) && h'.tree.updateHeight.None?
    ensures StepsOrStays(c, log, k, h, h', e.nudge.justify, votes) && Ready(c, app, h')
  {
    var justify := e.nudge.justify;
    if AcceptsNudge(c.chainId, h.tree, e.nudge, h.view) {
      NudgeIsMachineStep(c, app, log, k, h, e.nudge, e.origin, e.salt);
      NudgeThenVote(c.chainId, k, h, e.nudge, e.origin, e.salt);
      VotingKeepsTree(
        c.chainId, k, Nudged(h, justify, e.origin), justify, justify.block, Protocol.NextPhase(justify.phase), e.salt);
      ReadyAfter(c, app, h, h.tree, justify, h');
    } else {
      Stays(c, log, k, h, h', justify);
    }
  }

  lemma ArrivalSteps(
      c: VoteLog.Config, app: Verdict, log: VoteLog.Log, k: VerifyingKey, h: Handler, e: Arrival, h': Handler,
      votes: seq<PhaseVote>)
    requires Ready(c, app, h) && MayArrive(c, app, log, h, e)
    requires (h', votes) == Handled(c.chainId, k, h, e) && h'.tree.updateHeight.None?
    ensures StepsOrStays(c, log, k, h, h', JustifyIn(e), votes) && Ready(c, app, h')
  {
    match e
    case ViewArrives(view) => Stays(c, log, k, h, h', GENESIS_PC);
    case ProposalArrives(_, _, _, _) => ProposalSteps(c, app, log, k, h, e, h', votes);
    case NudgeArrives(_, _, _) => NudgeSteps(c, app, log, k, h, e, h', votes);
    case CertificateArrives(pc) =>
      if AcceptsPc(c.chainId, h.tree, pc) {
        CertificateIsMachineStep(c, app, log, k, h, pc);
        ReadyAfter(c, app, h, h.tree, pc, h');
      } else {
        Stays(c, log, k, h, h', pc);
      }
  }

  /** A step of the world is a step of the machine. */
  lemma WorldStepIsNext(c: VoteLog.Config, app: Verdict, w: World, w': World)
    requires AllReady(c, app, w) && WorldStep(c, app, w, w') && FixedSetSoFar(w')
    ensures AllReady(c, app, w') && Protocol.Next(c, AsState(w), AsState(w')) && w'.handlers.Keys == w.handlers.Keys
  {
    var k, e :| WorldStepBy(c, app, w, k, e, w');
    StepByIsNext(c, app, w, k, e, w');
  }

  lemma StepByIsNext(c: VoteLog.Config, app: Verdict, w: World, k: VerifyingKey, e: Arrival, w': World)
    requires AllReady(c, app, w) && WorldStepBy(c, app, w, k, e, w') && FixedSetSoFar(w')
    ensures AllReady(c, app, w') && Protocol.Next(c, AsState(w), AsState(w')) && w'.handlers.Keys == w.handlers.Keys
  {
    var (h, votes) := Handled(c.chainId, k, w.handlers[k], e);
    assert w'.handlers[k] == h;
    ArrivalSteps(c, app, w.log, k, w.handlers[k], e, h, votes);
    NextFrom(c, w, w', k, h, CastsOf(k, w.handlers[k], h, JustifyIn(e), votes));
    OneMoreReady(c, app, w, k, h, w');
  }

  lemma OneMoreReady(c: VoteLog.Config, app: Verdict, w: World, k: VerifyingKey, h: Handler, w': World)
    requires AllReady(c, app, w) && k in w.handlers && Ready(c, app, h) && w'.handlers == w.handlers[k := h]
    ensures AllReady(c, app, w') && w'.handlers.Keys == w.handlers.Keys
  {
  }

  lemma NextFrom(c: VoteLog.Config, w: World, w': World, k: VerifyingKey, h: Handler, casts: VoteLog.Log)
    requires k in w.handlers && w' == World(w.log + casts, w.handlers[k := h])
    requires exists e :: Protocol.ReplicaStep(c, w.log, k, ReplicaOf(w.handlers[k]), e, ReplicaOf(h), casts)
    ensures Protocol.Next(c, AsState(w), AsState(w'))
  {
    var s, s' := AsState(w), AsState(w');
    assert k in s.replicas && k in s'.replicas;
    assert s'.replicas == s.replicas[k := s'.replicas[k]];
    var e :| Protocol.ReplicaStep(c, s.log, k, s.replicas[k], e, s'.replicas[k], casts);
  }

  lemma EmptyIsReady(c: VoteLog.Config, app: Verdict, h: Handler)
    requires StartsEmpty(c, h) && SameApp(c, app)
    ensures Ready(c, app, h)
    ensures ReplicaOf(h) == Protocol.Replica(TreeView({}, {}, GENESIS_PC, GENESIS_PC, None), h.view, None, {})
  {
  }

  lemma {:induction false} RunStaysReady(c: VoteLog.Config, app: Verdict, run: seq<World>, n: nat)
    requires IsPlainRun(c, app, run) && n < |run|
    ensures AllReady(c, app, run[n]) && run[n].handlers.Keys == c.honest
  {
    if n == 0 {
      forall k | k in run[0].handlers ensures Ready(c, app, run[0].handlers[k]) {
        EmptyIsReady(c, app, run[0].handlers[k]);
      }
    } else {
      RunStaysReady(c, app, run, n - 1);
      assert WorldStep(c, app, run[n - 1], run[n - 1 + 1]);
      WorldStepIsNext(c, app, run[n - 1], run[n]);
    }
  }

  ghost function AsRun(run: seq<World>): (states: seq<Protocol.State>)
    ensures |states| == |run| && forall i | 0 <= i < |run| :: states[i] == AsState(run[i])
  {
    seq(|run|, i requires 0 <= i < |run| => AsState(run[i]))
  }

  /** A run of the handlers of all honest replicas is a run of the machine. */
  lemma WorldRunIsRun(c: VoteLog.Config, app: Verdict, run: seq<World>)
    requires IsPlainRun(c, app, run)
    ensures Protocol.IsRun(c, AsRun(run))
  {
    var states := AsRun(run);
    forall k | k in states[0].replicas
      ensures states[0].replicas[k] ==
        Protocol.Replica(TreeView({}, {}, GENESIS_PC, GENESIS_PC, None), states[0].replicas[k].view, None, {})
    {
      EmptyIsReady(c, app, run[0].handlers[k]);
    }
    assert Protocol.Init(c, states[0]);
    forall i | 0 <= i < |states| - 1 ensures Protocol.Next(c, states[i], states[i + 1]) {
      RunStaysReady(c, app, run, i);
      assert WorldStep(c, app, run[i], run[i + 1]);
      WorldStepIsNext(c, app, run[i], run[i + 1]);
    }
    forall i | 0 <= i < |states| ensures Protocol.NoVoteInViewZero(states[i]) {
      assert VotesFromViewOne(run[i]);
    }
  }

  // ---------------------------------------------------------------------------------------------------
  // Agreement of stores

  lemma ChainIsCommitted(c: VoteLog.Config, app: Verdict, h: Handler, i: nat)
    requires Ready(c, app, h) && i in h.tree.atHeight
    ensures h.tree.atHeight[i] in ReplicaOf(h).committed
    ensures h.tree.atHeight[i] in h.tree.blocks && h.tree.atHeight[i].Digest? && h.tree.atHeight[i].height == i
  {
  }

  /** Store agreement: in every run of the handlers of all honest replicas in which no validator set update is
      committed and no honest lock has fallen between two votes, any two honest replicas have the same committed
      block at every height at which both have one. */
  lemma StoresAgree(
      c: VoteLog.Config, app: Verdict, run: seq<World>, n: nat, p: VerifyingKey, q: VerifyingKey, i: nat)
    requires VoteLog.GoodConfig(c) && IsPlainRun(c, app, run) && n < |run| && VoteLog.LocksNeverFall(run[n].log)
    requires p in run[n].handlers && i in run[n].handlers[p].tree.atHeight
    requires q in run[n].handlers && i in run[n].handlers[q].tree.atHeight
    ensures run[n].handlers[p].tree.atHeight[i] == run[n].handlers[q].tree.atHeight[i]
  {
    RunStaysReady(c, app, run, n);
    WorldRunIsRun(c, app, run);
    var tp, tq := run[n].handlers[p].tree, run[n].handlers[q].tree;
    var a, b := tp.atHeight[i], tq.atHeight[i];
    ChainIsCommitted(c, app, run[n].handlers[p], i);
    ChainIsCommitted(c, app, run[n].handlers[q], i);
    Protocol.Agreement(c, AsRun(run), n, p, q, a, b);
    if Extends(a, b) {
      AncestorsStored(tp, a, b);
    } else {
      AncestorsStored(tq, b, a);
    }
  }

  // ---------------------------------------------------------------------------------------------------
  // Leaders vote for what they broadcast

  lemma HandlerAccepts(c: VoteLog.Config, app: Verdict, h: Handler, broadcast: Proposer.Broadcast)
    requires Ready(c, app, h) && Proposer.Passes(c, ReplicaOf(h), broadcast)
    ensures broadcast.Proposal? ==> AcceptsBlock(c.chainId, h.tree, broadcast.block)
    ensures broadcast.SendNudge? ==> AcceptsNudge(c.chainId, h.tree, broadcast.nudge, h.view)
  {
    if broadcast.Proposal? {
      VerdictUnderFixedSet(h.tree, c, broadcast.block.justify);
    } else {
      VerdictUnderFixedSet(h.tree, c, broadcast.nudge.justify);
    }
  }

  /** The vote of a phase voter, and no vote of anyone else. */
  ghost predicate VotesOnce(
      chainId: nat, k: VerifyingKey, h: Handler, after: (Handler, seq<PhaseVote>), justify: PhaseCertificate,
      block: CryptoHash, phase: Phase)
  {
    var (h', votes) := after;
    if IsPhaseVoter(k, Pacing.StateOf(h'.tree), justify)
    then
      && |votes| == 1 && PhaseVoteIsCorrect(k, votes[0]) && votes[0].chainId == chainId
      && votes[0].view == h.view && votes[0].block == block && votes[0].phase == phase && h'.voted == Some(h.view)
    else votes == [] && h'.voted == h.voted
  }

  ghost predicate HasNotVoted(h: Handler) {
    h.voted.None? || h.voted.value < h.view
  }

  lemma AcceptedBlockGetsVote(
      chainId: nat, k: VerifyingKey, h: Handler, block: Block, response: AppResponse, salt: nat)
    requires HasNotVoted(h) && AcceptsBlock(chainId, h.tree, block) && response.Valid?
    ensures
      VotesOnce(
        chainId, k, h, OnProposal(chainId, k, h, block, k, response, salt), block.justify, block.hash,
        if response.vsu.Some? then Prepare else Generic)
  {
  }

  lemma AcceptedNudgeGetsVote(chainId: nat, k: VerifyingKey, h: Handler, nudge: Nudge, salt: nat)
    requires HasNotVoted(h) && AcceptsNudge(chainId, h.tree, nudge, h.view)
    ensures
      VotesOnce(
        chainId, k, h, OnNudge(chainId, k, h, nudge, k, salt), nudge.justify, nudge.justify.block,
        Protocol.NextPhase(nudge.justify.phase))
  {
  }

  /** In every run of the handlers, a leader that has the block of its Highest PC, whose chain of phases is not
      broken, and that has not voted yet in its view, votes for its own broadcast exactly if it is a phase
      voter after it has acted on the justify: for a new block on top of the Highest PC that its app accepts,
      or for the next phase of the block that the Highest PC certifies. */
  lemma LeaderVotesForOwnBroadcast(
      c: VoteLog.Config, app: Verdict, run: seq<World>, n: nat, k: VerifyingKey, dataHash: nat, data: seq<Bytes>,
      response: AppResponse, salt: nat)
    requires VoteLog.GoodConfig(c) && IsPlainRun(c, app, run) && n < |run| && k in run[n].handlers && response.Valid?
    requires
      var h := run[n].handlers[k];
      && Proposer.HasHighest(h.tree.View()) && !Proposer.ChainIsBroken(h.tree.highestPc, h.view) && HasNotVoted(h)
    ensures
      var h := run[n].handlers[k];
      match Proposer.EnterViewBroadcast(h.tree.View(), h.view, c.chainId, dataHash, data)
      case Proposal(block) =>
        && block.justify == h.tree.highestPc
        && VotesOnce(
             c.chainId, k, h, OnProposal(c.chainId, k, h, block, k, response, salt), h.tree.highestPc, block.hash,
             if response.vsu.Some? then Prepare else Generic)
      case SendNudge(nudge) =>
        VotesOnce(
          c.chainId, k, h, OnNudge(c.chainId, k, h, nudge, k, salt), h.tree.highestPc, h.tree.highestPc.block,
          Protocol.NextPhase(h.tree.highestPc.phase))
      case _ => false
  {
    var h := run[n].handlers[k];
    var broadcast := Proposer.EnterViewBroadcast(h.tree.View(), h.view, c.chainId, dataHash, data);
    OwnBroadcastPasses(c, app, run, n, k, broadcast, dataHash, data);
    HandlerAccepts(c, app, h, broadcast);
    if broadcast.Proposal? {
      AcceptedBlockGetsVote(c.chainId, k, h, broadcast.block, response, salt);
    } else {
      AcceptedNudgeGetsVote(c.chainId, k, h, broadcast.nudge, salt);
    }
  }

  lemma OwnBroadcastPasses(
      c: VoteLog.Config, app: Verdict, run: seq<World>, n: nat, k: VerifyingKey, broadcast: Proposer.Broadcast,
      dataHash: nat, data: seq<Bytes>)
    requires VoteLog.GoodConfig(c) && IsPlainRun(c, app, run) && n < |run| && k in run[n].handlers
    requires
      var h := run[n].handlers[k];
      && Proposer.HasHighest(h.tree.View()) && !Proposer.ChainIsBroken(h.tree.highestPc, h.view)
      && broadcast == Proposer.EnterViewBroadcast(h.tree.View(), h.view, c.chainId, dataHash, data)
    ensures
      var h := run[n].handlers[k];
      && Ready(c, app, h) && Proposer.Passes(c, ReplicaOf(h), broadcast)
      && Proposer.IsCalledFor(h.tree.highestPc, h.view, broadcast)
  {
    var h := run[n].handlers[k];
    RunStaysReady(c, app, run, n);
    WorldRunIsRun(c, app, run);
    assert AsRun(run)[n].replicas[k] == ReplicaOf(h);
    Proposer.LeaderAcceptsOwnBroadcast(c, AsRun(run), n, k, dataHash, data);
  }
}
