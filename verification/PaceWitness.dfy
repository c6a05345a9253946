/** Runs of one pacemaker, from a fresh start, in which the two surprising outcomes of a timeout vote happen.  All
    messages are for the replica's chain and correctly signed. */
module PaceWitness {
  import opened Types
  import opened Quorums
  import opened UpdateSets
  import opened SafetyRules
  import opened Collecting
  import opened BlockStore
  import opened Commitment
  import opened StoreRuns
  import opened Verdicts
  import opened Pacing

  const CHAIN: nat := 7
  const CONFIG := Config(CHAIN, 9, 1, 1_000_000_000)

  /** Validator 2 alone is a quorum; the replica itself is validator 9. */
  const SET := ValidatorSet([1, 2, 9], map[1 := 1, 2 := 7, 9 := 1])
  const TREE := InitialTree(map[], SET, SET, None, true)

  function TcOf(view: nat): TimeoutCertificate {
    TimeoutCertificate(CHAIN, view, [None, Some(Signed(2, TimeoutMessage(CHAIN, view), 0)), None])
  }

  const BLOCK := Digest(0, GENESIS_PC, 1)
  const PC1 := PhaseCertificate(
    CHAIN, 1, BLOCK, Generic, [None, Some(Signed(2, PhaseMessage(CHAIN, 1, BLOCK, Generic), 0)), None])

  function VoteBy(k: VerifyingKey, highestTc: Option<TimeoutCertificate>): TimeoutVote {
    TimeoutVote(CHAIN, 2, Signed(k, TimeoutMessage(CHAIN, 2), 0), highestTc)
  }

  /** The replica leaves view 0 by a timeout certificate and view 1 by a phase certificate. */
  const E0 := AdvanceViewEvent(ByTimeout(TcOf(0)), 2, TREE, 0)
  const E1 := AdvanceViewEvent(ByPhase(PC1), 2, TREE, 0)
  const P0 := Start(CONFIG, 0, StateOf(TREE), None, 0)

  /** What `recv` lets through: messages of the replica's chain. */
  predicate IsOnChain(c: Config, e: PaceEvent) {
    match e
    case TickEvent(_, _, _, _) => true
    case TimeoutVoteEvent(vote, _, _, _) =>
      vote.chainId == c.chainId && (vote.highestTc.Some? ==> vote.highestTc.value.chainId == c.chainId)
    case AdvanceViewEvent(ByTimeout(tc), _, _, _) => tc.chainId == c.chainId
    case AdvanceViewEvent(ByPhase(pc), _, _, _) => pc.chainId == c.chainId
  }

  // ---------------------------------------------------------------------------------------------------
  // Powers and certificates

  lemma SetIsValid()
    ensures StateOf(TREE).Valid()
  {
    assert SET.validators[0] == 1 && SET.validators[1] == 2 && SET.validators[2] == 9;
  }

  lemma PowersAre(keys: set<VerifyingKey>)
    ensures PowerOf(SET, keys) ==
      (if 1 in keys then 1 else 0) + (if 2 in keys then 7 else 0) + if 9 in keys then 1 else 0
  {
    assert PowerUpTo(SET, keys, 1) == PowerUpTo(SET, keys, 0) + if 1 in keys then 1 else 0;
    assert PowerUpTo(SET, keys, 2) == PowerUpTo(SET, keys, 1) + if 2 in keys then 7 else 0;
  }

  lemma QuorumIs()
    ensures Quorum(SET) == 7
  {
    PowersAre(Members(SET));
    assert SET.validators[0] in Members(SET) && SET.validators[1] in Members(SET) && SET.validators[2] in Members(SET);
  }

  /** A signature of validator 2 is a quorum. */
  lemma TwoIsEnough(message: Message, signatures: seq<Option<Signature>>)
    requires signatures == [None, Some(Signed(2, message, 0)), None]
    ensures SignedByQuorum(SET, message, signatures)
  {
    QuorumIs();
    PowersAre({2});
    assert Signers(SET, signatures) == {2} by {
      assert SET.validators[1] == 2 && signatures[1].Some?;
    }
  }

  /** From empty collectors, a vote of validator 2 completes a certificate and one of validator 1 does not. */
  lemma WhoCompletes(vote: TimeoutVote, k: VerifyingKey)
    requires vote.chainId == CHAIN && vote.view == 2 && (k == 1 || k == 2)
    ensures TimeoutPairOk(NewTimeoutPair(CHAIN, 2, StateOf(TREE)))
    ensures CompletesPair(NewTimeoutPair(CHAIN, 2, StateOf(TREE)), k, vote) <==> k == 2
  {
    SetIsValid();
    NewPairMatches(CHAIN, 2, StateOf(TREE));
    NewTimeoutCollectorIsValid(CHAIN, 2, SET);
    QuorumIs();
    PowersAre({} + {k});
    assert SET.validators[0] == 1 && SET.validators[1] == 2;
  }

  // ---------------------------------------------------------------------------------------------------
  // The way to view 2

  /** A valid certificate for the current view takes the replica to the next one, with an AdvanceView on the way. */
  lemma Advance(p: Pace, certificate: ProgressCertificate) returns (p': Pace)
    requires PaceInv(CONFIG, p) && certificate.View() == p.view && ProgressIsValid(CONFIG, certificate, TREE)
    requires HasNotAdvanced(p)
    ensures MayHappen(p, AdvanceViewEvent(certificate, 2, TREE, 0))
    ensures p' == Respond(CONFIG, p, AdvanceViewEvent(certificate, 2, TREE, 0)).pace && PaceInv(CONFIG, p')
    ensures p'.view == p.view + 1 && p'.lastAdvance == Some(p.view)
    ensures p'.collectors == NewTimeoutPair(CHAIN, p.view + 1, StateOf(TREE))
    ensures p'.highestTc == BeforeMove(CONFIG, p, certificate, StateOf(TREE)).highestTc
  {
    SetIsValid();
    p' := AdvanceOn(CONFIG, p, certificate, StateOf(TREE), 0).pace;
    AdvanceOnIsGood(CONFIG, p, certificate, StateOf(TREE), 0);
  }

  /** The replica in view 2: it has advanced before, and its Highest TC is that of view 0. */
  ghost predicate InViewTwo(p: Pace) {
    && PaceInv(CONFIG, p) && p.view == 2 && p.lastAdvance == Some(1) && p.highestTc == Some(TcOf(0))
    && p.collectors == NewTimeoutPair(CHAIN, 2, StateOf(TREE))
  }

  lemma ReachesViewOne() returns (p: Pace)
    ensures PaceStep(CONFIG, P0, E0, p) && PaceInv(CONFIG, p)
    ensures p.view == 1 && p.lastAdvance == Some(0) && p.highestTc == Some(TcOf(0))
  {
    SetIsValid();
    StartKeepsInv(CONFIG, 0, StateOf(TREE), None, 0);
    TwoIsEnough(TimedOutMessage(TcOf(0)), TcOf(0).signatures);
    p := Advance(P0, ByTimeout(TcOf(0)));
  }

  lemma ReachesViewTwo() returns (p: Pace, run: seq<Pace>)
    ensures IsPaceRun(CONFIG, run, [E0, E1]) && run[2] == p && InViewTwo(p)
  {
    SetIsValid();
    var p1 := ReachesViewOne();
    TwoIsEnough(CertifiedMessage(PC1), PC1.signatures);
    p := Advance(p1, ByPhase(PC1));
    run := [P0, p1, p];
    IsRunOfTwo(p1, p);
  }

  lemma IsRunOfTwo(p1: Pace, p2: Pace)
    requires StateOf(TREE).Valid() && PaceStep(CONFIG, P0, E0, p1) && PaceStep(CONFIG, p1, E1, p2)
    ensures IsPaceRun(CONFIG, [P0, p1, p2], [E0, E1])
  {
    assert [P0, p1, p2][0] == Start(CONFIG, 0, StateOf(TREE), None, 0);
  }

  // ---------------------------------------------------------------------------------------------------
  // The failing fallback

  lemma FallbackFails(p: Pace, vote: TimeoutVote)
    requires InViewTwo(p) && vote == VoteBy(1, Some(TcOf(1)))
    ensures OnTimeoutVote(CONFIG, p, vote, 1, TREE, 0).error.Some?
  {
    SetIsValid();
    TwoIsEnough(TimedOutMessage(TcOf(1)), TcOf(1).signatures);
    WhoCompletes(vote, 1);
    assert FallbackOf(vote, TREE) == Some(TcOf(1));
    TimeoutVoteIsGood(CONFIG, p, vote, 1, TREE, 0);
  }

  /** A correct timeout vote for the current view, with a correct and newer certificate for an earlier one, makes the
      handler fail: the replica has left that view by another certificate. */
  lemma FallbackCanFail() returns (c: Config, run: seq<Pace>, events: seq<PaceEvent>, p: Pace, e: PaceEvent)
    ensures IsPaceRun(c, run, events) && run != [] && p == run[|run| - 1]
    ensures forall i | 0 <= i < |events| :: IsOnChain(c, events[i])
    ensures PaceInv(c, p) && MayHappen(p, e) && IsOnChain(c, e) && Respond(c, p, e).error.Some?
  {
    p, run := ReachesViewTwo();
    var vote := VoteBy(1, Some(TcOf(1)));
    c, events, e := CONFIG, [E0, E1], TimeoutVoteEvent(vote, 1, TREE, 0);
    SetIsValid();
    FallbackFails(p, vote);
  }

  // ---------------------------------------------------------------------------------------------------
  // The advancing outsider

  /** A block that removes validator 9, and the certificate that commits and decides it. */
  const UPDATES: ValidatorSetUpdates := UpdateSet(map[], {9})
  const UPDATING := Digest(0, GENESIS_PC, 3)
  const UPDATING_BLOCK := Block(0, UPDATING, GENESIS_PC, 3, [])
  const DECIDE := PhaseCertificate(
    CHAIN, 5, UPDATING, Decide, [None, Some(Signed(2, PhaseMessage(CHAIN, 5, UPDATING, Decide), 0)), None])
  const APP: Verdict := h => if h == UPDATING then Some(UPDATES) else None

  ghost function InsertedTree(): Tree {
    InsertBlock(TREE, UPDATING_BLOCK, None, Some(UPDATES))
  }

  lemma InsertStep()
    ensures CanStep(TREE, APP, CHAIN, InsertedTree()) && StoreInv(InsertedTree(), SET, APP)
  {
    var t := InsertedTree();
    assert t == UpdateTree(t, GENESIS_PC);
    assert StoreStep(TREE, APP, CHAIN, InsertAndUpdate(UPDATING_BLOCK, None), t);
    StepKeepsStoreInv(TREE, SET, APP, CHAIN, InsertAndUpdate(UPDATING_BLOCK, None), t);
  }

  lemma DecideIsCorrect()
    ensures IsCorrect(InsertedTree(), DECIDE)
  {
    TwoIsEnough(CertifiedMessage(DECIDE), DECIDE.signatures);
  }

  lemma DecideIsSafe()
    ensures
      var v := InsertedTree().View();
      SafePc(v, DECIDE, CHAIN) && PcToLock(v, DECIDE).Ok? && BlockToCommit(v, DECIDE) == Ok(Some(UPDATING))
  {
    var v := InsertedTree().View();
    assert v.Contains(UPDATING) && UPDATING in v.updating;
  }

  lemma DecideCommitsUpdate()
    ensures Shape(InsertedTree()) && CommitsUpdate(InsertedTree(), UPDATING)
  {
    InsertStep();
    assert UncommittedPath(InsertedTree(), UPDATING) == [UPDATING];
  }

  /** The tree after the update is committed and decided. */
  lemma DecideStep() returns (t: Tree)
    ensures CanStep(InsertedTree(), APP, CHAIN, t)
    ensures t.committedVs == ApplyUpdates(SET, UPDATES) && t.previousVs == SET
    ensures t.updateHeight == Some(0) && t.updateDecided
  {
    DecideIsSafe();
    DecideCommitsUpdate();
    t := UpdateTree(InsertedTree(), DECIDE);
    assert StoreStep(InsertedTree(), APP, CHAIN, UpdateOn(DECIDE), t);
    UpdatingCommit(InsertedTree(), UPDATING);
  }

  lemma NineIsGone(t: Tree)
    requires t.committedVs == ApplyUpdates(SET, UPDATES) && t.previousVs == SET && t.updateDecided
    ensures StateOf(t).Valid() && IsValidator(2, StateOf(t)) && !IsValidator(9, StateOf(t))
  {
    SetIsValid();
    assert t.committedVs.powers == Applied(SET.powers, UPDATES);
  }

  lemma IsStoreRunOfTwo(t1: Tree, t2: Tree)
    requires CanStep(TREE, APP, CHAIN, t1) && CanStep(t1, APP, CHAIN, t2)
    ensures IsStoreRun(SET, APP, CHAIN, [TREE, t1, t2])
  {
    assert [TREE, t1, t2][0] == InitialTree(map[], SET, SET, None, true);
  }

  /** A store run that starts at `TREE`, and ends with a decided update after which validator 9 is gone. */
  lemma LaterTree() returns (t: Tree, trees: seq<Tree>)
    ensures IsStoreRun(SET, APP, CHAIN, trees) && |trees| == 3 && trees[0] == TREE && trees[2] == t
    ensures IsCorrect(trees[1], DECIDE)
    ensures StateOf(t).Valid() && IsValidator(2, StateOf(t)) && !IsValidator(9, StateOf(t))
  {
    InsertStep();
    t := DecideStep();
    trees := [TREE, InsertedTree(), t];
    DecideIsCorrect();
    IsStoreRunOfTwo(InsertedTree(), t);
    NineIsGone(t);
  }

  lemma OutsiderAdvances(p: Pace, e: PaceEvent)
    requires InViewTwo(p) && StateOf(e.tree).Valid()
    requires IsValidator(2, StateOf(e.tree)) && !IsValidator(9, StateOf(e.tree))
    requires e == TimeoutVoteEvent(VoteBy(2, None), 2, e.tree, 0)
    ensures Advances(CONFIG, p, e)
  {
    WhoCompletes(e.vote, 2);
    OutsiderAdvancesExactlyWhen(CONFIG, p, e.vote, 2, e.tree, 0);
    SentIsAdvance(p, e);
  }

  lemma SentIsAdvance(p: Pace, e: PaceEvent)
    requires PaceInv(CONFIG, p) && MayHappen(p, e) && Respond(CONFIG, p, e).sent != []
    requires e.TimeoutVoteEvent? && p.lastAdvance.Some? && p.lastAdvance.value < p.view
    ensures Advances(CONFIG, p, e)
  {
    RespondIsGood(CONFIG, p, e);
    assert Respond(CONFIG, p, e).sent[0].BroadcastAdvanceView?;
  }

  /** A replica that has left the validator set, by an update that a store run commits and decides, broadcasts an
      AdvanceView. */
  lemma OutsiderCanAdvance()
      returns (c: Config, run: seq<Pace>, events: seq<PaceEvent>, p: Pace, e: PaceEvent, trees: seq<Tree>)
    ensures IsPaceRun(c, run, events) && run != [] && p == run[|run| - 1]
    ensures forall i | 0 <= i < |events| :: IsOnChain(c, events[i])
    ensures IsStoreRun(SET, APP, c.chainId, trees) && |trees| > 0 && trees[0] == TREE && e.tree == trees[|trees| - 1]
    ensures PaceInv(c, p) && MayHappen(p, e) && IsOnChain(c, e)
    ensures !IsValidator(c.key, StateOf(e.tree)) && Advances(c, p, e)
  {
    p, run := ReachesViewTwo();
    var t;
    t, trees := LaterTree();
    c, events, e := CONFIG, [E0, E1], TimeoutVoteEvent(VoteBy(2, None), 2, t, 0);
    OutsiderAdvances(p, e);
  }
}
