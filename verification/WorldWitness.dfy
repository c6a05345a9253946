/** A run of the message handlers, with one Byzantine validator below a third of the power, in which every proposal
    comes from the leader of its view and every honest leader proposes what `enter_view` makes it propose.  It first
    commits a block under all hypotheses of store agreement.  Then the Byzantine leader replays a certificate, the
    voter's lock falls, and the two honest replicas end up with different blocks at height 0. */
module WorldWitness {
  import opened Types
  import opened Quorums
  import opened UpdateSets
  import opened SafetyRules
  import opened BlockStore
  import opened Commitment
  import opened StoreRuns
  import opened Verdicts
  import opened Collecting
  import opened Handlers
  import opened Refinement
  import opened EndToEnd
  import opened Proposer
  import Leader
  import Pacing
  import VoteLog
  import Protocol

  const CHAIN: nat := 7
  const OBSERVER: VerifyingKey := 5
  const VOTER: VerifyingKey := 6
  const TRAITOR: VerifyingKey := 7

  /** The voter alone is a quorum. */
  const SET := ValidatorSet([OBSERVER, VOTER, TRAITOR], map[OBSERVER := 1, VOTER := 9, TRAITOR := 1])
  const CONFIG := VoteLog.Config(CHAIN, SET, {OBSERVER, VOTER}, _ => false)
  const APP: Verdict := _ => None

  function Certify(view: nat, block: CryptoHash): PhaseCertificate {
    var signature := Signed(VOTER, PhaseMessage(CHAIN, view, block, Generic), 0);
    PhaseCertificate(CHAIN, view, block, Generic, [None, Some(signature), None])
  }

  /** A branch of three blocks with certificates in views 10 to 12, and another one with views 13 to 15. */
  const B0 := Digest(0, GENESIS_PC, 1)
  const P0 := Certify(10, B0)
  const B1 := Digest(1, P0, 2)
  const P1 := Certify(11, B1)
  const B2 := Digest(2, P1, 3)
  const P2 := Certify(12, B2)

  const D0 := Digest(0, GENESIS_PC, 11)
  const Q0 := Certify(13, D0)
  const D1 := Digest(1, Q0, 12)
  const Q1 := Certify(14, D1)
  const D2 := Digest(2, Q1, 13)
  const Q2 := Certify(15, D2)

  function BlockOf(h: CryptoHash): Block
    requires h.Digest?
  {
    Block(h.height, h, h.justify, h.dataHash, [])
  }

  function VoteFor(
      k: VerifyingKey, view: nat, h: CryptoHash, before: PhaseCertificate, after: PhaseCertificate): VoteLog.Cast
    requires h.Digest?
  {
    VoteLog.Cast(k, view, h, Generic, h.justify, before, after)
  }

  const LOG: VoteLog.Log := [
    VoteFor(VOTER, 10, B0, GENESIS_PC, GENESIS_PC),
    VoteFor(OBSERVER, 10, B0, GENESIS_PC, GENESIS_PC),
    VoteFor(VOTER, 11, B1, GENESIS_PC, GENESIS_PC),
    VoteFor(OBSERVER, 11, B1, GENESIS_PC, GENESIS_PC),
    VoteFor(VOTER, 12, B2, P0, P0),
    VoteFor(OBSERVER, 12, B2, GENESIS_PC, P0),
    VoteFor(VOTER, 13, D0, GENESIS_PC, GENESIS_PC),
    VoteFor(VOTER, 14, D1, GENESIS_PC, GENESIS_PC),
    VoteFor(VOTER, 15, D2, Q0, Q0)]

  // ---------------------------------------------------------------------------------------------------
  // What is known of a replica

  /** A replica that has committed nothing: the blocks in its tree, its lock, and so on. */
  datatype Known = Known(
    blocks: set<CryptoHash>, locked: PhaseCertificate, highest: PhaseCertificate, view: nat, voted: Option<nat>,
    listening: bool)

  datatype Fact = Open(x: Known) | Done(first: CryptoHash)

  function ViewOf(x: Known): TreeView {
    TreeView(x.blocks, {}, x.locked, x.highest, None)
  }

  ghost predicate IsAsKnown(h: Handler, x: Known) {
    && Ready(CONFIG, APP, h)
    && h.tree.View() == ViewOf(x) && h.tree.highestCommitted.None? && h.tree.status == map[] && h.tree.updateDecided
    && h.view == x.view && h.voted == x.voted && (x.listening ==> h.status == WaitingForProposal)
  }

  ghost predicate Holds(h: Handler, f: Fact) {
    match f
    case Open(x) => IsAsKnown(h, x)
    case Done(b) => Ready(CONFIG, APP, h) && 0 in h.tree.atHeight && h.tree.atHeight[0] == b
  }

  /** Accepting the block `b` turns `x` into `x'`. */
  ghost predicate Grows(x: Known, b: CryptoHash, x': Known) {
    && b.Digest? && SafeBlock(ViewOf(x), BlockOf(b), CHAIN)
    && (if IsGenesisPc(b.justify) then b.height == 0
        else b.justify.block in x.blocks && b.justify.block.Digest? && b.height == b.justify.block.height + 1)
    && var v := Protocol.Insert(ViewOf(x), b, false);
       && PcToLock(v, b.justify).Ok? && BlockToCommit(v, b.justify) == Ok(None)
       && x' == Known(v.blocks, NewLock(v, b.justify), NewHighest(v, b.justify), x.view, Some(x.view), false)
  }

  /** Accepting the certificate `pc` turns `x` into `x'`. */
  ghost predicate Learns(x: Known, pc: PhaseCertificate, x': Known) {
    && SafePc(ViewOf(x), pc, CHAIN)
    && PcToLock(ViewOf(x), pc).Ok? && BlockToCommit(ViewOf(x), pc) == Ok(None)
    && x' == x.(locked := NewLock(ViewOf(x), pc), highest := NewHighest(ViewOf(x), pc))
  }

  /** Accepting the certificate `pc` commits the block `target` at height 0. */
  ghost predicate CommitsFirst(x: Known, pc: PhaseCertificate, target: CryptoHash) {
    && SafePc(ViewOf(x), pc, CHAIN) && PcToLock(ViewOf(x), pc).Ok?
    && BlockToCommit(ViewOf(x), pc) == Ok(Some(target)) && target.Digest? && target.height == 0
  }

  ghost predicate Usable(log: VoteLog.Log, pc: PhaseCertificate) {
    Protocol.IsCorrect(CONFIG, pc) && Protocol.CanArrive(CONFIG, log, pc)
  }

  /** An update that commits nothing. */
  lemma PlainUpdate(t: Tree, pc: PhaseCertificate)
    requires PcToLock(t.View(), pc).Ok? && BlockToCommit(t.View(), pc) == Ok(None) && !pc.phase.Decide?
    ensures UpdatedOn(t, pc) == t.(highestPc := NewHighest(t.View(), pc), lockedPc := NewLock(t.View(), pc))
  {
  }

  function ProposalOf(b: CryptoHash, origin: VerifyingKey): Arrival
    requires b.Digest?
  {
    ProposalArrives(BlockOf(b), origin, Valid(None, None), 0)
  }

  lemma InsertAsKnown(h: Handler, x: Known, b: CryptoHash, x': Known)
    requires IsAsKnown(h, x) && Grows(x, b, x') && Protocol.IsCorrect(CONFIG, b.justify)
    ensures AcceptsBlock(CHAIN, h.tree, BlockOf(b)) && FitsOnTop(h.tree, BlockOf(b))
    ensures
      var t := UpdatedOn(InsertBlock(h.tree, BlockOf(b), None, None), b.justify);
      && t.View() == ViewOf(x') && t.highestCommitted.None? && t.status == map[] && t.updateDecided
      && t.committedVs == SET && t.updateHeight.None?
  {
    VerdictUnderFixedSet(h.tree, CONFIG, b.justify);
    InsertRefines(h.tree, BlockOf(b), None, None);
    PlainUpdate(InsertBlock(h.tree, BlockOf(b), None, None), b.justify);
  }

  lemma ProposalAsKnown(
      log: VoteLog.Log, k: VerifyingKey, h: Handler, x: Known, b: CryptoHash, origin: VerifyingKey, x': Known)
    requires IsAsKnown(h, x) && Grows(x, b, x') && Usable(log, b.justify)
    requires SET.Contains(k) && (x.voted.None? || x.voted.value < x.view)
    ensures
      var e := ProposalOf(b, origin);
      var (h', votes) := Handled(CHAIN, k, h, e);
      && MayArrive(CONFIG, APP, log, h, e) && IsAsKnown(h', x')
      && CastsOf(k, h, h', b.justify, votes) == [VoteFor(k, x.view, b, x.locked, x'.locked)]
  {
    var e := ProposalOf(b, origin);
    var (h', votes) := Handled(CHAIN, k, h, e);
    InsertAsKnown(h, x, b, x');
    ProposalThenVote(CHAIN, k, h, BlockOf(b), origin, None, None, 0);
    ArrivalSteps(CONFIG, APP, log, k, h, e, h', votes);
  }

  lemma CertificateAsKnown(log: VoteLog.Log, k: VerifyingKey, h: Handler, x: Known, pc: PhaseCertificate, x': Known)
    requires IsAsKnown(h, x) && Learns(x, pc, x') && Usable(log, pc) && !pc.phase.Decide?
    ensures
      var e := CertificateArrives(pc);
      var (h', votes) := Handled(CHAIN, k, h, e);
      MayArrive(CONFIG, APP, log, h, e) && IsAsKnown(h', x') && CastsOf(k, h, h', pc, votes) == []
  {
    VerdictUnderFixedSet(h.tree, CONFIG, pc);
    PlainUpdate(h.tree, pc);
    var e := CertificateArrives(pc);
    var (h', votes) := Handled(CHAIN, k, h, e);
    ArrivalSteps(CONFIG, APP, log, k, h, e, h', votes);
  }

  lemma CommitAsKnown(log: VoteLog.Log, k: VerifyingKey, h: Handler, x: Known, pc: PhaseCertificate, target: CryptoHash)
    requires IsAsKnown(h, x) && Usable(log, pc) && CommitsFirst(x, pc, target)
    ensures
      var e := CertificateArrives(pc);
      var (h', votes) := Handled(CHAIN, k, h, e);
      MayArrive(CONFIG, APP, log, h, e) && Holds(h', Done(target)) && CastsOf(k, h, h', pc, votes) == []
  {
    VerdictUnderFixedSet(h.tree, CONFIG, pc);
    var e := CertificateArrives(pc);
    var (h', votes) := Handled(CHAIN, k, h, e);
    TargetIsUncommitted(h.tree, pc);
    TargetAtHeight(h.tree, target);
    NobodyUpdates(h.tree, UncommittedPath(h.tree, target));
    ArrivalSteps(CONFIG, APP, log, k, h, e, h', votes);
  }

  lemma ViewAsKnown(log: VoteLog.Log, k: VerifyingKey, h: Handler, x: Known, view: nat)
    requires IsAsKnown(h, x)
    ensures
      var e := ViewArrives(view);
      var (h', votes) := Handled(CHAIN, k, h, e);
      && MayArrive(CONFIG, APP, log, h, e) && IsAsKnown(h', x.(view := view, listening := true))
      && CastsOf(k, h, h', GENESIS_PC, votes) == []
  {
  }

  // ---------------------------------------------------------------------------------------------------
  // Powers, certificates and leaders

  lemma PowersAre(keys: set<VerifyingKey>)
    ensures PowerOf(SET, keys) ==
      (if OBSERVER in keys then 1 else 0) + (if VOTER in keys then 9 else 0) + if TRAITOR in keys then 1 else 0
  {
    assert PowerUpTo(SET, keys, 1) == PowerUpTo(SET, keys, 0) + if OBSERVER in keys then 1 else 0;
    assert PowerUpTo(SET, keys, 2) == PowerUpTo(SET, keys, 1) + if VOTER in keys then 9 else 0;
  }

  lemma SetIsGood()
    ensures VoteLog.GoodConfig(CONFIG) && Quorum(SET) == 8 && TotalPower(SET) == 11
  {
    assert SET.validators[0] == OBSERVER && SET.validators[1] == VOTER && SET.validators[2] == TRAITOR;
    assert Members(SET) == {OBSERVER, VOTER, TRAITOR};
    PowersAre(Members(SET));
    PowersAre(Members(SET) - CONFIG.honest);
  }

  /** A certificate can be used once the voter's vote is in the log. */
  lemma CertificateIsUsable(view: nat, block: CryptoHash, i: nat, votes: nat)
    requires i < votes <= |LOG| && LOG[i].voter == VOTER
    requires VoteLog.SignedBy(CONFIG, LOG[i]) == PhaseMessage(CHAIN, view, block, Generic)
    ensures Usable(LOG[..votes], Certify(view, block))
  {
    var signatures := Certify(view, block).signatures;
    SetIsGood();
    PowersAre({VOTER});
    assert Signers(SET, signatures) == {VOTER} by {
      assert SET.validators[1] == VOTER && signatures[1].Some?;
    }
    assert LOG[..votes][i] == LOG[i];
    assert VoteLog.HasSigned(CONFIG, LOG[..votes], VOTER, PhaseMessage(CHAIN, view, block, Generic));
  }

  lemma GenesisIsUsable(log: VoteLog.Log)
    ensures Usable(log, GENESIS_PC)
  {
  }

  lemma RoundIs(t: nat)
    requires 1 <= t <= 9
    ensures Leader.Round(SET, t, 3) == if t == 1 then [OBSERVER, VOTER, TRAITOR] else [VOTER]
  {
    assert SET.Power(OBSERVER) == SET.Power(TRAITOR) == 1 && SET.Power(VOTER) == 9;
    assert Leader.Round(SET, t, 0) == [];
    assert Leader.Round(SET, t, 1) == if t == 1 then [OBSERVER] else [];
    assert Leader.Round(SET, t, 2) == if t == 1 then [OBSERVER, VOTER] else [VOTER];
  }

  lemma {:induction false} RoundsAre(t: nat, i: nat)
    requires 1 <= t <= 9 && i < t + 2
    ensures |Leader.Rounds(SET, t)| == t + 2
    ensures Leader.Rounds(SET, t)[i] == if i == 0 then OBSERVER else if i == 2 then TRAITOR else VOTER
  {
    RoundIs(t);
    if t == 1 {
      assert Leader.Rounds(SET, 1) == Leader.Rounds(SET, 0) + Leader.Round(SET, 1, 3);
    } else {
      RoundsAre(t - 1, if i < t + 1 then i else 0);
      assert Leader.Rounds(SET, t) == Leader.Rounds(SET, t - 1) + [VOTER];
    }
  }

  /** The schedule repeats every eleven views: the observer, the voter, the traitor, and then the voter eight times. */
  lemma LeaderIs(view: nat)
    ensures LeaderOf(view, SET) ==
      Some(if view % 11 == 0 then OBSERVER else if view % 11 == 2 then TRAITOR else VOTER)
  {
    SetIsGood();
    assert SET.Power(OBSERVER) == SET.Power(TRAITOR) == 1 && SET.Power(VOTER) == 9;
    assert Leader.MaxPower(SET, 0) == 0;
    assert Leader.MaxPower(SET, 1) == 1;
    assert Leader.MaxPower(SET, 2) == 9;
    assert Leader.MaxPower(SET, 3) == 9;
    assert Leader.Modulus(SET) == 11;
    RoundsAre(9, view % 11);
  }

  // ---------------------------------------------------------------------------------------------------
  // The events, and what they lead to

  function Event(n: nat): (VerifyingKey, Arrival) {
    match n
    case 0 => (VOTER, ProposalOf(B0, VOTER))
    case 1 => (OBSERVER, ProposalOf(B0, VOTER))
    case 2 => (OBSERVER, CertificateArrives(P0))
    case 3 => (OBSERVER, ViewArrives(11))
    case 4 => (VOTER, ViewArrives(11))
    case 5 => (VOTER, ProposalOf(B1, OBSERVER))
    case 6 => (OBSERVER, ProposalOf(B1, OBSERVER))
    case 7 => (VOTER, CertificateArrives(P1))
    case 8 => (VOTER, ViewArrives(12))
    case 9 => (OBSERVER, ViewArrives(12))
    case 10 => (VOTER, ProposalOf(B2, VOTER))
    case 11 => (OBSERVER, ProposalOf(B2, VOTER))
    case 12 => (OBSERVER, CertificateArrives(P2))
    case 13 => (VOTER, ViewArrives(13))
    case 14 => (VOTER, CertificateArrives(P0))
    case 15 => (VOTER, ProposalOf(D0, TRAITOR))
    case 16 => (VOTER, CertificateArrives(Q0))
    case 17 => (VOTER, ViewArrives(14))
    case 18 => (VOTER, ProposalOf(D1, VOTER))
    case 19 => (VOTER, CertificateArrives(Q1))
    case 20 => (VOTER, ViewArrives(15))
    case 21 => (VOTER, ProposalOf(D2, VOTER))
    case _ => (VOTER, CertificateArrives(Q2))
  }

  function VotesAt(n: nat): (votes: nat)
    ensures votes <= 9
  {
    if n < 1 then 0
    else if n < 2 then 1
    else if n < 6 then 2
    else if n < 7 then 3
    else if n < 11 then 4
    else if n < 12 then 5
    else if n < 16 then 6
    else if n < 19 then 7
    else if n < 22 then 8
    else 9
  }

  const S0: set<CryptoHash> := {}
  const S1: set<CryptoHash> := {B0}
  const S2: set<CryptoHash> := {B0, B1}
  const S3: set<CryptoHash> := {B0, B1, B2}
  const S4: set<CryptoHash> := {B0, B1, B2, D0}
  const S5: set<CryptoHash> := {B0, B1, B2, D0, D1}
  const S6: set<CryptoHash> := {B0, B1, B2, D0, D1, D2}

  /** The observer and the voter, each from the event of that number on. */
  const O0 := Known(S0, GENESIS_PC, GENESIS_PC, 10, None, true)
  const O2 := Known(S1, GENESIS_PC, GENESIS_PC, 10, Some(10), false)
  const O3 := Known(S1, GENESIS_PC, P0, 10, Some(10), false)
  const O4 := Known(S1, GENESIS_PC, P0, 11, Some(10), true)
  const O7 := Known(S2, GENESIS_PC, P0, 11, Some(11), false)
  const O10 := Known(S2, GENESIS_PC, P0, 12, Some(11), true)
  const O12 := Known(S3, P0, P1, 12, Some(12), false)

  const V0 := Known(S0, GENESIS_PC, GENESIS_PC, 10, None, true)
  const V1 := Known(S1, GENESIS_PC, GENESIS_PC, 10, Some(10), false)
  const V5 := Known(S1, GENESIS_PC, GENESIS_PC, 11, Some(10), true)
  const V6 := Known(S2, GENESIS_PC, P0, 11, Some(11), false)
  const V8 := Known(S2, P0, P1, 11, Some(11), false)
  const V9 := Known(S2, P0, P1, 12, Some(11), true)
  const V11 := Known(S3, P0, P1, 12, Some(12), false)
  const V14 := Known(S3, P0, P1, 13, Some(12), true)
  const V15 := Known(S3, GENESIS_PC, P1, 13, Some(12), true)
  const V16 := Known(S4, GENESIS_PC, P1, 13, Some(13), false)
  const V17 := Known(S4, GENESIS_PC, Q0, 13, Some(13), false)
  const V18 := Known(S4, GENESIS_PC, Q0, 14, Some(13), true)
  const V19 := Known(S5, GENESIS_PC, Q0, 14, Some(14), false)
  const V20 := Known(S5, Q0, Q1, 14, Some(14), false)
  const V21 := Known(S5, Q0, Q1, 15, Some(14), true)
  const V22 := Known(S6, Q0, Q1, 15, Some(15), false)

  function OfObserver(n: nat): Fact {
    if n < 2 then Open(O0)
    else if n < 3 then Open(O2)
    else if n < 4 then Open(O3)
    else if n < 7 then Open(O4)
    else if n < 10 then Open(O7)
    else if n < 12 then Open(O10)
    else if n < 13 then Open(O12)
    else Done(B0)
  }

  function OfVoter(n: nat): Fact {
    if n < 1 then Open(V0)
    else if n < 5 then Open(V1)
    else if n < 6 then Open(V5)
    else if n < 8 then Open(V6)
    else if n < 9 then Open(V8)
    else if n < 11 then Open(V9)
    else if n < 14 then Open(V11)
    else if n < 15 then Open(V14)
    else if n < 16 then Open(V15)
    else if n < 17 then Open(V16)
    else if n < 18 then Open(V17)
    else if n < 19 then Open(V18)
    else if n < 20 then Open(V19)
    else if n < 21 then Open(V20)
    else if n < 22 then Open(V21)
    else if n < 23 then Open(V22)
    else Done(D0)
  }

  function OfReplica(k: VerifyingKey, n: nat): Fact {
    if k == OBSERVER then OfObserver(n) else OfVoter(n)
  }

  /** Event `n` takes what is known of the replica from `f` to `f'`, and adds the vote that is next in the log, if
      any. */
  ghost predicate Plan(n: nat, k: VerifyingKey, e: Arrival, f: Fact, f': Fact) {
    && f.Open? && Usable(LOG[..VotesAt(n)], JustifyIn(e))
    && match e
       case ViewArrives(view) =>
         f' == Open(f.x.(view := view, listening := true)) && VotesAt(n + 1) == VotesAt(n)
       case ProposalArrives(block, origin, _, _) =>
         && block.hash.Digest? && e == ProposalOf(block.hash, origin)
         && f'.Open? && Grows(f.x, block.hash, f'.x) && (f.x.voted.None? || f.x.voted.value < f.x.view)
         && VotesAt(n + 1) == VotesAt(n) + 1
         && LOG[VotesAt(n)] == VoteFor(k, f.x.view, block.hash, f.x.locked, f'.x.locked)
       case CertificateArrives(pc) =>
         && VotesAt(n + 1) == VotesAt(n) && pc.phase.Generic?
         && (match f' case Open(x') => Learns(f.x, pc, x') case Done(b) => CommitsFirst(f.x, pc, b))
       case _ => false
  }

  ghost predicate PlanAt(n: nat) {
    var (k, e) := Event(n);
    && Plan(n, k, e, OfReplica(k, n), OfReplica(k, n + 1))
    && (k == OBSERVER ==> OfVoter(n + 1) == OfVoter(n)) && (k == VOTER ==> OfObserver(n + 1) == OfObserver(n))
  }

  lemma FirstBranchGrows()
    ensures Grows(V0, B0, V1) && Grows(O0, B0, O2)
  {
    assert S0 + {B0} == S1;
  }

  lemma FirstBranchGoesOn()
    ensures Grows(V5, B1, V6) && Grows(O4, B1, O7)
  {
    assert S1 + {B1} == S2;
  }

  lemma FirstBranchEnds()
    ensures Grows(V9, B2, V11) && Grows(O10, B2, O12)
  {
    assert S2 + {B2} == S3;
  }

  lemma SecondBranchGrows()
    ensures Grows(V15, D0, V16)
  {
    assert S3 + {D0} == S4;
  }

  lemma SecondBranchGoesOn()
    ensures Grows(V18, D1, V19)
  {
    assert S4 + {D1} == S5;
  }

  lemma BranchesCommit()
    ensures CommitsFirst(O12, P2, B0) && CommitsFirst(V22, Q2, D0)
  {
  }

  lemma SecondBranchEnds()
    ensures Grows(V21, D2, V22)
  {
    assert S5 + {D2} == S6;
  }

  lemma FirstBlockPlan(n: nat)
    requires n < 4
    ensures PlanAt(n)
  {
    GenesisIsUsable(LOG[..VotesAt(n)]);
    match n
    case 0 => FirstBranchGrows();
    case 1 => FirstBranchGrows();
    case 2 => CertificateIsUsable(10, B0, 0, 2);
    case 3 =>
  }

  lemma FirstBranchPlan(n: nat)
    requires 4 <= n < 7
    ensures PlanAt(n)
  {
    GenesisIsUsable(LOG[..VotesAt(n)]);
    match n
    case 4 =>
    case 5 =>
      CertificateIsUsable(10, B0, 0, 2);
      FirstBranchGoesOn();
    case 6 =>
      CertificateIsUsable(10, B0, 0, 3);
      FirstBranchGoesOn();
  }

  lemma CommitPlan(n: nat)
    requires 7 <= n < 13
    ensures PlanAt(n)
  {
    GenesisIsUsable(LOG[..VotesAt(n)]);
    match n
    case 7 => CertificateIsUsable(11, B1, 2, 4);
    case 8 =>
    case 9 =>
    case 10 =>
      CertificateIsUsable(11, B1, 2, 4);
      FirstBranchEnds();
    case 11 =>
      CertificateIsUsable(11, B1, 2, 5);
      FirstBranchEnds();
    case 12 =>
      CertificateIsUsable(12, B2, 4, 6);
      BranchesCommit();
  }

  lemma SecondBranchPlan(n: nat)
    requires 13 <= n < 18
    ensures PlanAt(n)
  {
    GenesisIsUsable(LOG[..VotesAt(n)]);
    match n
    case 13 =>
    case 14 => CertificateIsUsable(10, B0, 0, 6);
    case 15 => SecondBranchGrows();
    case 16 => CertificateIsUsable(13, D0, 6, 7);
    case 17 =>
  }

  lemma ThirdBlockPlan(n: nat)
    requires 18 <= n < 20
    ensures PlanAt(n)
  {
    match n
    case 18 =>
      CertificateIsUsable(13, D0, 6, 7);
      SecondBranchGoesOn();
    case 19 => CertificateIsUsable(14, D1, 7, 8);
  }

  lemma LastBlockPlan(n: nat)
    requires 20 <= n < 22
    ensures PlanAt(n)
  {
    GenesisIsUsable(LOG[..VotesAt(n)]);
    if n == 21 {
      CertificateIsUsable(14, D1, 7, 8);
      SecondBranchEnds();
    }
  }

  lemma SecondCommitPlan()
    ensures PlanAt(22)
  {
    CertificateIsUsable(15, D2, 8, 9);
    BranchesCommit();
    assert Event(22) == (VOTER, CertificateArrives(Q2)) && OfReplica(VOTER, 22) == Open(V22) && OfVoter(23) == Done(D0);
  }

  lemma PlanIsOk(n: nat)
    requires n < 23
    ensures PlanAt(n)
  {
    if n < 4 {
      FirstBlockPlan(n);
    } else if n < 7 {
      FirstBranchPlan(n);
    } else if n < 13 {
      CommitPlan(n);
    } else if n < 18 {
      SecondBranchPlan(n);
    } else if n < 20 {
      ThirdBlockPlan(n);
    } else if n < 22 {
      LastBlockPlan(n);
    } else {
      SecondCommitPlan();
    }
  }

  // ---------------------------------------------------------------------------------------------------
  // The run

  function FirstHandler(): Handler {
    Handler(InitialTree(map[], SET, SET, None, true), 10, WaitingForProposal, None)
  }

  /** The state of replica `k` after the first `n` events. */
  ghost function HandlerAt(k: VerifyingKey, n: nat): Handler {
    if n == 0 then FirstHandler()
    else if Event(n - 1).0 == k then Handled(CHAIN, k, HandlerAt(k, n - 1), Event(n - 1).1).0
    else HandlerAt(k, n - 1)
  }

  ghost function WorldAt(n: nat): World {
    WorldOf(VotesAt(n), HandlerAt(OBSERVER, n), HandlerAt(VOTER, n))
  }

  lemma FirstIsKnown()
    ensures IsAsKnown(FirstHandler(), V0) && StartsEmpty(CONFIG, FirstHandler())
  {
    assert StartsEmpty(CONFIG, FirstHandler());
    EmptyIsReady(CONFIG, APP, FirstHandler());
    assert FirstHandler().tree.View() == ViewOf(V0);
  }

  /** A replica that holds `f` and takes a planned event holds `f'`. */
  lemma PlanWorks(n: nat, k: VerifyingKey, e: Arrival, h: Handler, f: Fact, f': Fact)
    requires Plan(n, k, e, f, f') && Holds(h, f) && SET.Contains(k)
    ensures
      var (h', votes) := Handled(CHAIN, k, h, e);
      && MayArrive(CONFIG, APP, LOG[..VotesAt(n)], h, e) && Holds(h', f')
      && LOG[..VotesAt(n)] + CastsOf(k, h, h', JustifyIn(e), votes) == LOG[..VotesAt(n + 1)]
  {
    var log := LOG[..VotesAt(n)];
    match e
    case ViewArrives(view) => ViewAsKnown(log, k, h, f.x, view);
    case ProposalArrives(block, origin, _, _) =>
      ProposalAsKnown(log, k, h, f.x, block.hash, origin, f'.x);
      OneMoreVote(VotesAt(n));
    case CertificateArrives(pc) =>
      match f' {
        case Open(x') => CertificateAsKnown(log, k, h, f.x, pc, x');
        case Done(b) => CommitAsKnown(log, k, h, f.x, pc, b);
      }
  }

  lemma OneMoreVote(n: nat)
    requires n < 9
    ensures LOG[..n] + [LOG[n]] == LOG[..n + 1]
  {
  }

  lemma {:induction false} HandlerHolds(k: VerifyingKey, n: nat)
    requires n <= 23 && (k == OBSERVER || k == VOTER)
    ensures Holds(HandlerAt(k, n), OfReplica(k, n))
  {
    if n == 0 {
      FirstIsKnown();
    } else {
      HandlerHolds(k, n - 1);
      PlanIsOk(n - 1);
      if Event(n - 1).0 == k {
        PlanWorks(n - 1, k, Event(n - 1).1, HandlerAt(k, n - 1), OfReplica(k, n - 1), OfReplica(k, n));
      }
    }
  }

  /** A world of two replicas, and the step of one of them. */
  ghost function WorldOf(votes: nat, observer: Handler, voter: Handler): World
    requires votes <= 9
  {
    World(LOG[..votes], map[OBSERVER := observer, VOTER := voter])
  }

  lemma WorldSteps(
      votes: nat, votes': nat, k: VerifyingKey, e: Arrival, observer: Handler, voter: Handler, h: Handler, h': Handler)
    requires votes <= 9 && votes' <= 9
    requires (k == OBSERVER || k == VOTER) && h == (if k == OBSERVER then observer else voter)
    requires MayArrive(CONFIG, APP, LOG[..votes], h, e) && h' == Handled(CHAIN, k, h, e).0
    requires LOG[..votes] + CastsOf(k, h, h', JustifyIn(e), Handled(CHAIN, k, h, e).1) == LOG[..votes']
    ensures WorldStepBy(
      CONFIG, APP, WorldOf(votes, observer, voter), k, e,
      WorldOf(votes', if k == OBSERVER then h' else observer, if k == VOTER then h' else voter))
  {
    var w := WorldOf(votes, observer, voter);
    assert w.handlers[k := h'] ==
      map[OBSERVER := if k == OBSERVER then h' else observer, VOTER := if k == VOTER then h' else voter];
  }

  lemma PlannedStep(n: nat, k: VerifyingKey, e: Arrival, observer: Handler, voter: Handler, f: Fact, f': Fact)
    requires (k == OBSERVER || k == VOTER) && Plan(n, k, e, f, f')
    requires Holds(if k == OBSERVER then observer else voter, f)
    ensures
      var h := Handled(CHAIN, k, if k == OBSERVER then observer else voter, e).0;
      WorldStepBy(
        CONFIG, APP, WorldOf(VotesAt(n), observer, voter), k, e,
        WorldOf(VotesAt(n + 1), if k == OBSERVER then h else observer, if k == VOTER then h else voter))
  {
    var h := if k == OBSERVER then observer else voter;
    PlanWorks(n, k, e, h, f, f');
    WorldSteps(VotesAt(n), VotesAt(n + 1), k, e, observer, voter, h, Handled(CHAIN, k, h, e).0);
  }

  lemma HandlersMove(n: nat)
    ensures
      var (k, e) := Event(n);
      && HandlerAt(k, n + 1) == Handled(CHAIN, k, HandlerAt(k, n), e).0
      && (k == OBSERVER ==> HandlerAt(VOTER, n + 1) == HandlerAt(VOTER, n))
      && (k == VOTER ==> HandlerAt(OBSERVER, n + 1) == HandlerAt(OBSERVER, n))
  {
  }

  lemma PlanOf(n: nat)
    requires n < 23
    ensures Event(n).0 == OBSERVER || Event(n).0 == VOTER
    ensures Plan(n, Event(n).0, Event(n).1, OfReplica(Event(n).0, n), OfReplica(Event(n).0, n + 1))
  {
    PlanIsOk(n);
  }

  lemma StepOfRun(n: nat)
    requires n < 23
    ensures WorldStepBy(CONFIG, APP, WorldAt(n), Event(n).0, Event(n).1, WorldAt(n + 1))
  {
    var k, e := Event(n).0, Event(n).1;
    PlanOf(n);
    HandlerHolds(k, n);
    PlannedStep(n, k, e, HandlerAt(OBSERVER, n), HandlerAt(VOTER, n), OfReplica(k, n), OfReplica(k, n + 1));
    HandlersMove(n);
  }

  ghost function Run(n: nat): (run: seq<World>)
    ensures |run| == n && forall i | 0 <= i < n :: run[i] == WorldAt(i)
  {
    seq(n, i requires 0 <= i < n => WorldAt(i))
  }

  function Events(n: nat): (events: seq<(VerifyingKey, Arrival)>)
    ensures |events| == n && forall i | 0 <= i < n :: events[i] == Event(i)
  {
    seq(n, i requires 0 <= i < n => Event(i))
  }

  lemma HandlerIsPlain(k: VerifyingKey, n: nat)
    requires n <= 23 && (k == OBSERVER || k == VOTER)
    ensures HandlerAt(k, n).tree.updateHeight.None?
  {
    HandlerHolds(k, n);
  }

  lemma VoteIsLater(i: nat)
    requires i < 9
    ensures LOG[i].view >= 10
  {
  }

  lemma WorldIsPlain(n: nat)
    requires n <= 23
    ensures FixedSetSoFar(WorldAt(n)) && VotesFromViewOne(WorldAt(n))
  {
    HandlerIsPlain(OBSERVER, n);
    HandlerIsPlain(VOTER, n);
    forall i | 0 <= i < VotesAt(n) ensures LOG[..VotesAt(n)][i].view >= 1 {
      VoteIsLater(i);
    }
  }

  lemma RunIsPlain(n: nat)
    requires 0 < n <= 24
    ensures IsPlainRun(CONFIG, APP, Run(n))
  {
    var run := Run(n);
    FirstIsKnown();
    forall i | 0 <= i < n - 1 ensures WorldStep(CONFIG, APP, run[i], run[i + 1]) {
      StepOfRun(i);
    }
    forall i | 0 <= i < n ensures FixedSetSoFar(run[i]) && VotesFromViewOne(run[i]) {
      WorldIsPlain(i);
    }
  }

  // ---------------------------------------------------------------------------------------------------
  // Leaders

  /** A proposal comes from the leader of the replica's view, which the replica still listens to; and if the leader is
      honest, the proposal is what `enter_view` makes it broadcast in that view. */
  ghost predicate LedProperly(c: VoteLog.Config, w: World, k: VerifyingKey, e: Arrival) {
    e.ProposalArrives? ==>
      && k in w.handlers && LeaderOf(w.handlers[k].view, c.vs) == Some(e.origin)
      && Accepts(w.handlers[k].status, e.origin)
      && (e.origin in c.honest ==>
            && e.origin in w.handlers
            && EnterViewBroadcast(
                 w.handlers[e.origin].tree.View(), w.handlers[k].view, c.chainId, e.block.dataHash, e.block.data)
               == Proposal(e.block))
  }

  /** Who leads event `n`, in terms of what is known of the replicas. */
  ghost predicate LedAt(n: nat) {
    var (k, e) := Event(n);
    e.ProposalArrives? ==>
      && OfReplica(k, n).Open? && OfReplica(k, n).x.listening
      && LeaderOf(OfReplica(k, n).x.view, SET) == Some(e.origin)
      && (e.origin == TRAITOR ||
          (&& OfReplica(e.origin, n).Open? && (e.origin == OBSERVER || e.origin == VOTER)
           && EnterViewBroadcast(
                ViewOf(OfReplica(e.origin, n).x), OfReplica(k, n).x.view, CHAIN, e.block.dataHash, e.block.data)
              == Proposal(e.block)))
  }

  lemma FirstBranchIsLed(n: nat)
    requires n < 12
    ensures LedAt(n)
  {
    LeaderIs(10);
    LeaderIs(11);
    LeaderIs(12);
  }

  lemma SecondBranchIsLed(n: nat)
    requires 12 <= n < 23
    ensures LedAt(n)
  {
    LeaderIs(13);
    LeaderIs(14);
    LeaderIs(15);
  }

  /** As much of what is known as the leaders' part needs. */
  ghost predicate Looks(h: Handler, f: Fact) {
    f.Open? ==>
      && h.tree.View() == ViewOf(f.x) && h.view == f.x.view && h.tree.lockedPc == f.x.locked
      && (f.x.listening ==> h.status == WaitingForProposal)
  }

  lemma LooksAt(k: VerifyingKey, n: nat)
    requires n <= 23 && (k == OBSERVER || k == VOTER)
    ensures Looks(HandlerAt(k, n), OfReplica(k, n))
  {
    HandlerHolds(k, n);
    HoldsLooks(HandlerAt(k, n), OfReplica(k, n));
  }

  lemma HoldsLooks(h: Handler, f: Fact)
    requires Holds(h, f)
    ensures Looks(h, f)
  {
    if f.Open? {
      assert h.tree.View().lockedPc == ViewOf(f.x).lockedPc;
    }
  }

  lemma LedFrom(w: World, k: VerifyingKey, e: Arrival, x: Known, leader: Option<Known>)
    requires k in w.handlers && w.handlers[k].view == x.view && w.handlers[k].status == WaitingForProposal
    requires e.ProposalArrives? && LeaderOf(x.view, SET) == Some(e.origin)
    requires leader.None? ==> e.origin !in CONFIG.honest
    requires leader.Some? ==>
      && e.origin in w.handlers && w.handlers[e.origin].tree.View() == ViewOf(leader.value)
      && EnterViewBroadcast(ViewOf(leader.value), x.view, CHAIN, e.block.dataHash, e.block.data) == Proposal(e.block)
    ensures LedProperly(CONFIG, w, k, e)
  {
  }

  lemma LedWith(n: nat, observer: Handler, voter: Handler)
    requires n < 23 && Looks(observer, OfObserver(n)) && Looks(voter, OfVoter(n))
    ensures LedProperly(CONFIG, WorldOf(VotesAt(n), observer, voter), Event(n).0, Event(n).1)
  {
    var w := WorldOf(VotesAt(n), observer, voter);
    var (k, e) := Event(n);
    if e.ProposalArrives? {
      if n < 12 {
        FirstBranchIsLed(n);
      } else {
        SecondBranchIsLed(n);
      }
      var leader := if e.origin == TRAITOR then None else Some(OfReplica(e.origin, n).x);
      LedFrom(w, k, e, OfReplica(k, n).x, leader);
    }
  }

  lemma IsLed(n: nat)
    requires n < 23
    ensures LedProperly(CONFIG, WorldAt(n), Event(n).0, Event(n).1)
  {
    LooksAt(OBSERVER, n);
    LooksAt(VOTER, n);
    LedWith(n, HandlerAt(OBSERVER, n), HandlerAt(VOTER, n));
  }

  /** The run is one of the handlers, step by step, with proper leaders. */
  ghost predicate IsLedRun(c: VoteLog.Config, app: Verdict, run: seq<World>, events: seq<(VerifyingKey, Arrival)>) {
    && VoteLog.GoodConfig(c) && IsPlainRun(c, app, run) && |run| == |events| + 1
    && forall i | 0 <= i < |events| ::
         && WorldStepBy(c, app, run[i], events[i].0, events[i].1, run[i + 1])
         && LedProperly(c, run[i], events[i].0, events[i].1)
  }

  lemma RunIsLed(n: nat)
    requires n <= 23
    ensures IsLedRun(CONFIG, APP, Run(n + 1), Events(n))
  {
    SetIsGood();
    RunIsPlain(n + 1);
    var run, events := Run(n + 1), Events(n);
    forall i | 0 <= i < n
      ensures WorldStepBy(CONFIG, APP, run[i], events[i].0, events[i].1, run[i + 1])
      ensures LedProperly(CONFIG, run[i], events[i].0, events[i].1)
    {
      StepOfRun(i);
      IsLed(i);
    }
  }

  // ---------------------------------------------------------------------------------------------------
  // What the run shows

  lemma LocksHaveNotFallen(votes: nat)
    requires votes <= 6
    ensures VoteLog.LocksNeverFall(LOG[..votes])
  {
  }

  lemma FirstOf(k: VerifyingKey, n: nat, b: CryptoHash)
    requires n <= 23 && (k == OBSERVER || k == VOTER) && OfReplica(k, n) == Done(b)
    ensures 0 in HandlerAt(k, n).tree.atHeight && HandlerAt(k, n).tree.atHeight[0] == b
  {
    HandlerHolds(k, n);
  }

  lemma VoterLock(n: nat)
    requires n == 14 || n == 15
    ensures HandlerAt(VOTER, n).tree.lockedPc == if n == 14 then P0 else GENESIS_PC
  {
    LooksAt(VOTER, n);
  }

  lemma CommittingRun(n: nat)
      returns (c: VoteLog.Config, app: Verdict, run: seq<World>, events: seq<(VerifyingKey, Arrival)>, k: VerifyingKey)
    requires n == 13
    ensures IsLedRun(c, app, run, events) && VoteLog.LocksNeverFall(run[|run| - 1].log)
    ensures k in run[|run| - 1].handlers && 0 in run[|run| - 1].handlers[k].tree.atHeight
  {
    c, app, run, events, k := CONFIG, APP, Run(n + 1), Events(n), OBSERVER;
    FirstOf(OBSERVER, n, B0);
    LocksHaveNotFallen(VotesAt(n));
    RunIsLed(n);
  }

  lemma FallingRun(n: nat)
      returns (c: VoteLog.Config, app: Verdict, run: seq<World>, events: seq<(VerifyingKey, Arrival)>, k: VerifyingKey)
    requires n == 14
    ensures IsLedRun(c, app, run, events) && |run| > 1
    ensures k in run[|run| - 2].handlers && k in run[|run| - 1].handlers
    ensures run[|run| - 1].handlers[k].tree.lockedPc.view < run[|run| - 2].handlers[k].tree.lockedPc.view
  {
    c, app, run, events, k := CONFIG, APP, Run(n + 2), Events(n + 1), VOTER;
    VoterLock(n);
    VoterLock(n + 1);
    RunIsLed(n + 1);
  }

  /** There is a run that meets every hypothesis of store agreement and commits a block. */
  lemma CommitIsReachable()
      returns (c: VoteLog.Config, app: Verdict, run: seq<World>, events: seq<(VerifyingKey, Arrival)>, k: VerifyingKey)
    ensures IsLedRun(c, app, run, events) && VoteLog.LocksNeverFall(run[|run| - 1].log)
    ensures k in run[|run| - 1].handlers && 0 in run[|run| - 1].handlers[k].tree.atHeight
  {
    c, app, run, events, k := CommittingRun(13);
  }

  /** Locks do fall: here the last step moves an honest replica's lock to a lower view. */
  lemma LockCanFall()
      returns (c: VoteLog.Config, app: Verdict, run: seq<World>, events: seq<(VerifyingKey, Arrival)>, k: VerifyingKey)
    ensures IsLedRun(c, app, run, events) && |run| > 1
    ensures k in run[|run| - 2].handlers && k in run[|run| - 1].handlers
    ensures run[|run| - 1].handlers[k].tree.lockedPc.view < run[|run| - 2].handlers[k].tree.lockedPc.view
  {
    c, app, run, events, k := FallingRun(14);
  }

  /** Agreement needs its hypothesis on locks: here Byzantine validators hold an eleventh of the power, and two honest
      replicas have committed different blocks at height 0. */
  lemma DisagreementWithoutLocks()
      returns (
        c: VoteLog.Config, app: Verdict, run: seq<World>, events: seq<(VerifyingKey, Arrival)>,
        p: VerifyingKey, q: VerifyingKey)
    ensures IsLedRun(c, app, run, events) && run != []
    ensures p in run[|run| - 1].handlers && 0 in run[|run| - 1].handlers[p].tree.atHeight
    ensures q in run[|run| - 1].handlers && 0 in run[|run| - 1].handlers[q].tree.atHeight
    ensures run[|run| - 1].handlers[p].tree.atHeight[0] != run[|run| - 1].handlers[q].tree.atHeight[0]
  {
    c, app, run, events, p, q := CONFIG, APP, Run(24), Events(23), OBSERVER, VOTER;
    FirstOf(OBSERVER, 23, B0);
    FirstOf(VOTER, 23, D0);
    RunIsLed(23);
  }
}
