/** A run with a single, honest validator that proposes an updating block, gets it through the Prepare and Precommit
    phases, misses the next view, and then refuses its own re-proposal for good. */
module StallWitness {
  import opened Types
  import opened Quorums
  import opened SafetyRules
  import opened VoteLog
  import opened Protocol
  import opened Proposer
  import opened Stalls

  const CHAIN: nat := 7
  const KEY: VerifyingKey := 5
  const SET := ValidatorSet([KEY], map[KEY := 1])
  const B := Digest(0, GENESIS_PC, 1)
  const BLOCK := Block(0, B, GENESIS_PC, 1, [])
  const CONFIG := Config(CHAIN, SET, {KEY}, (h: CryptoHash) => h == B)

  function Certify(view: nat, phase: Phase): PhaseCertificate {
    PhaseCertificate(CHAIN, view, B, phase, [Some(Signed(KEY, PhaseMessage(CHAIN, view, B, phase), 0))])
  }

  const PREPARE := Certify(1, Prepare)
  const PRECOMMIT := Certify(2, Precommit)

  const V0 := TreeView({}, {}, GENESIS_PC, GENESIS_PC, None)
  const V1 := TreeView({B}, {B}, GENESIS_PC, GENESIS_PC, None)
  const V2 := TreeView({B}, {B}, GENESIS_PC, PREPARE, None)
  const V3 := TreeView({B}, {B}, PRECOMMIT, PRECOMMIT, None)

  const C1 := Cast(KEY, 1, B, Prepare, GENESIS_PC, GENESIS_PC, GENESIS_PC)
  const C2 := Cast(KEY, 2, B, Precommit, PREPARE, GENESIS_PC, GENESIS_PC)

  function At(log: Log, r: Replica): State {
    State(log, map[KEY := r])
  }

  function StateAt(i: nat): State {
    match i
    case 0 => At([], Replica(V0, 1, None, {}))
    case 1 => At([C1], Replica(V1, 1, Some(1), {}))
    case 2 => At([C1], Replica(V2, 1, Some(1), {}))
    case 3 => At([C1], Replica(V2, 2, Some(1), {}))
    case 4 => At([C1, C2], Replica(V2, 2, Some(2), {}))
    case 5 => At([C1, C2], Replica(V3, 2, Some(2), {}))
    case 6 => At([C1, C2], Replica(V3, 3, Some(2), {}))
    case _ => At([C1, C2], Replica(V3, 4, Some(2), {}))
  }

  function Run(): (run: seq<State>)
    ensures |run| == 8 && forall i | 0 <= i < 8 :: run[i] == StateAt(i)
  {
    seq(8, i requires 0 <= i < 8 => StateAt(i))
  }

  lemma SetIsGood()
    ensures GoodConfig(CONFIG) && Quorum(SET) == 1 && Blocking(SET, {KEY})
  {
    assert SET.validators[0] == KEY;
    assert Members(SET) == {KEY};
    assert PowerUpTo(SET, {KEY}, 1) == PowerUpTo(SET, {KEY}, 0) + 1;
    assert Members(SET) - {KEY} == {};
    PowerOfNobody(SET, 1);
  }

  lemma Certified(view: nat, phase: Phase, log: Log, i: nat)
    requires i < |log| && log[i].voter == KEY && SignedBy(CONFIG, log[i]) == PhaseMessage(CHAIN, view, B, phase)
    ensures IsCorrect(CONFIG, Certify(view, phase)) && CanArrive(CONFIG, log, Certify(view, phase))
  {
    var signatures := Certify(view, phase).signatures;
    SetIsGood();
    assert Signers(SET, signatures) == {KEY} by {
      assert SET.validators[0] == KEY && signatures[0].Some?;
    }
    assert PowerUpTo(SET, {KEY}, 1) == PowerUpTo(SET, {KEY}, 0) + 1;
    assert HasSigned(CONFIG, log, KEY, PhaseMessage(CHAIN, view, B, phase));
  }

  lemma StepTaken(log: Log, r: Replica, e: Event, r': Replica, casts: Log, log': Log)
    requires ReplicaStep(CONFIG, log, KEY, r, e, r', casts) && log' == log + casts
    ensures Next(CONFIG, At(log, r), At(log', r'))
  {
    var s, s' := At(log, r), At(log', r');
    assert KEY in s.replicas && KEY in s'.replicas;
    assert s'.replicas == s.replicas[KEY := s'.replicas[KEY]];
    assert ReplicaStep(CONFIG, s.log, KEY, s.replicas[KEY], e, s'.replicas[KEY], casts);
  }

  lemma Proposes()
    ensures Next(CONFIG, StateAt(0), StateAt(1))
  {
    var r, u := Replica(V0, 1, None, {}), Replica(V1, 1, None, {});
    assert Update(r.(tree := Insert(V0, B, true)), GENESIS_PC, u);
    StepTaken([], r, ReceiveProposal(BLOCK, true), u.(voted := Some(1)), [C1], [C1]);
  }

  lemma Learns(v: TreeView, pc: PhaseCertificate, v': TreeView, log: Log, view: nat, voted: nat)
    requires IsCorrect(CONFIG, pc) && CanArrive(CONFIG, log, pc) && SafePc(v, pc, CHAIN)
    requires PcToLock(v, pc).Ok? && BlockToCommit(v, pc) == Ok(None)
    requires v' == v.(lockedPc := NewLock(v, pc), highestPc := NewHighest(v, pc))
    ensures Next(CONFIG, At(log, Replica(v, view, Some(voted), {})), At(log, Replica(v', view, Some(voted), {})))
  {
    var r, r' := Replica(v, view, Some(voted), {}), Replica(v', view, Some(voted), {});
    assert Update(r, pc, r');
    StepTaken(log, r, ReceiveCertificate(pc), r', [], log);
  }

  lemma Nudges()
    ensures Next(CONFIG, StateAt(3), StateAt(4))
  {
    var r := Replica(V2, 2, Some(1), {});
    Certified(1, Prepare, [C1], 0);
    assert Update(r, PREPARE, r);
    StepTaken([C1], r, ReceiveNudge(Nudge(CHAIN, 2, PREPARE), true), r.(voted := Some(2)), [C2], [C1, C2]);
  }

  lemma Enters(log: Log, r: Replica, view: nat)
    ensures Next(CONFIG, At(log, r), At(log, r.(view := view)))
  {
    StepTaken(log, r, EnterView(view), r.(view := view), [], log);
  }

  lemma StepOfRun(i: nat)
    requires i < 7
    ensures Next(CONFIG, StateAt(i), StateAt(i + 1))
  {
    match i {
      case 0 =>
        Proposes();
      case 1 =>
        Certified(1, Prepare, [C1], 0);
        Learns(V1, PREPARE, V2, [C1], 1, 1);
      case 2 =>
        Enters([C1], Replica(V2, 1, Some(1), {}), 2);
      case 3 =>
        Nudges();
      case 4 =>
        Certified(2, Precommit, [C1, C2], 1);
        Learns(V2, PRECOMMIT, V3, [C1, C2], 2, 2);
      case 5 =>
        Enters([C1, C2], Replica(V3, 2, Some(2), {}), 3);
      case 6 =>
        Enters([C1, C2], Replica(V3, 3, Some(2), {}), 4);
    }
  }

  lemma IsRunAtAll()
    ensures IsRun(CONFIG, Run())
  {
    var run := Run();
    assert Init(CONFIG, run[0]);
    forall i | 0 <= i < 7 ensures Next(CONFIG, run[i], run[i + 1]) {
      StepOfRun(i);
    }
    forall i | 0 <= i < 8 ensures NoVoteInViewZero(run[i]) {
      assert forall j | 0 <= j < |run[i].log| :: run[i].log[j] == C1 || run[i].log[j] == C2;
    }
  }

  /** The proposal and the nudge of the run are the validator's own broadcasts. */
  lemma OwnBroadcasts()
    ensures EnterViewBroadcast(V0, 1, CHAIN, 1, []) == Proposal(BLOCK)
    ensures EnterViewBroadcast(V2, 2, CHAIN, 1, []) == SendNudge(Nudge(CHAIN, 2, PREPARE))
  {
  }

  /** A leader that refuses its own re-proposal is reachable: it is locked on the block that `enter_view`
      re-proposes. */
  lemma RefusalIsReachable() returns (c: Config, run: seq<State>, k: VerifyingKey, block: Block)
    ensures GoodConfig(c) && IsRun(c, run) && run != [] && k in run[|run| - 1].replicas
    ensures
      var r := run[|run| - 1].replicas[k];
      && (forall dataHash, data ::
            EnterViewBroadcast(r.tree, r.view, c.chainId, dataHash, data) == Reproposal(block.(data := [])))
      && r.tree.Contains(block.hash)
      && r.tree.lockedPc.block == block.hash
      && IsCorrect(c, block.justify) && !SafeBlock(r.tree, block, c.chainId)
  {
    c, run, k, block := CONFIG, Run(), KEY, BLOCK;
    SetIsGood();
    IsRunAtAll();
    ReproposalPassesExactlyWhen(c, run, 7, k, block);
  }

  /** From there on, whatever happens, no certificate of a view above 2 ever becomes available. */
  lemma NothingEverHappens(run: seq<State>, n: nat, pc: PhaseCertificate)
    requires IsRun(CONFIG, run) && Run() <= run && 7 <= n < |run|
    requires forall i | 7 <= i <= n :: ViewsStay(run[i], {KEY}, 2)
    requires Available(CONFIG, run[n].log, pc)
    ensures pc.view <= 2
  {
    SetIsGood();
    assert run[7] == Run()[7] == StateAt(7);
    IsStuckAtTheEnd();
    StuckForever(CONFIG, run, 7, n, {KEY}, B, 2, pc);
  }

  lemma IsStuckAtTheEnd()
    ensures Stuck(StateAt(7), {KEY}, B, 2)
  {
  }
}
