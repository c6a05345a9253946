/** The HotStuff subprotocol as a distributed step machine.

    Each honest replica runs the handlers of `hotstuff/implementation.rs` and the insert-then-update loop
    of block sync (a proposal without a vote).  Everything else is adversarial: which message arrives where
    and when, which view a replica is in, and what Byzantine validators sign.  The app is any
    deterministic function from blocks to verdicts.  A certificate can arrive
    as soon as the honest signatures in it exist.  Three things are left looser than the code, so that the
    results hold whatever the store does: pruning may drop any blocks from a tree, a commit of a block marks
    any of its ancestors (and itself) as committed, and an update may set the committed height to anything. */
module Protocol {
  import opened Types
  import opened Quorums
  import opened SafetyRules
  import opened VoteLog

  datatype Replica = Replica(tree: TreeView, view: nat, voted: Option<nat>, committed: set<CryptoHash>)

  datatype State = State(log: Log, replicas: map<VerifyingKey, Replica>)

  datatype Event =
    | EnterView(view: nat)
    | ReceiveProposal(block: Block, votes: bool)
    | ReceiveNudge(nudge: Nudge, votes: bool)
    | ReceiveCertificate(pc: PhaseCertificate)

  /** `is_correct` under one fixed validator set. */
  ghost predicate IsCorrect(c: Config, pc: PhaseCertificate) {
    IsGenesisPc(pc) || PcCorrectlySigned(pc, c.vs)
  }

  ghost predicate CanArrive(c: Config, log: Log, pc: PhaseCertificate) {
    Unforged(c, log, pc.signatures)
  }

  /** `BlockTreeSingleton::insert`. */
  function Insert(v: TreeView, hash: CryptoHash, updating: bool): TreeView {
    v.(blocks := v.blocks + {hash}, updating := if updating then v.updating + {hash} else v.updating)
  }

  /** `BlockTreeSingleton::update`, when it returns without an error. */
  ghost predicate Update(r: Replica, justify: PhaseCertificate, r': Replica) {
    && PcToLock(r.tree, justify).Ok? && BlockToCommit(r.tree, justify).Ok?
    && r'.tree.lockedPc == NewLock(r.tree, justify)
    && r'.tree.highestPc == NewHighest(r.tree, justify)
    && r'.view == r.view && r'.voted == r.voted
    && (match BlockToCommit(r.tree, justify).value
        case None =>
          && r'.committed == r.committed
          && r'.tree.blocks == r.tree.blocks && r'.tree.updating == r.tree.updating
        case Some(target) =>
          && r.committed <= r'.committed
          && (forall b | b in r'.committed :: b in r.committed || Extends(target, b))
          && r'.tree.blocks <= r.tree.blocks && r'.tree.updating <= r.tree.updating
          && (forall b | b in r'.tree.blocks :: b in r'.tree.updating <==> b in r.tree.updating))
  }

  predicate MayVote(r: Replica) {
    r.voted.None? || r.voted.value < r.view
  }

  function NextPhase(p: Phase): Phase {
    match p
    case Prepare => Precommit
    case Precommit => Commit
    case _ => Decide
  }

  /** What one honest replica does on an event, and the vote that it casts, if any. */
  ghost predicate ReplicaStep(c: Config, log: Log, k: VerifyingKey, r: Replica, e: Event, r': Replica, casts: Log) {
    match e
    case EnterView(view) => r' == r.(view := view) && casts == []
    case ReceiveProposal(block, votes) =>
      && CanArrive(c, log, block.justify)
      && block.hash == Digest(block.height, block.justify, block.dataHash)
      && IsCorrect(c, block.justify) && SafeBlock(r.tree, block, c.chainId)
      && (exists u: Replica ::
            && Update(r.(tree := Insert(r.tree, block.hash, c.updates(block.hash))), block.justify, u)
            && if votes then
                 && MayVote(u) && r' == u.(voted := Some(u.view))
                 && casts == [Cast(k, u.view, block.hash, if c.updates(block.hash) then Prepare else Generic,
                                   block.justify, r.tree.lockedPc, u.tree.lockedPc)]
               else r' == u && casts == [])
    case ReceiveNudge(nudge, votes) =>
      && CanArrive(c, log, nudge.justify)
      && IsCorrect(c, nudge.justify) && SafeNudge(r.tree, nudge, r.view, c.chainId)
      && (exists u: Replica ::
            && Update(r, nudge.justify, u)
            && if votes then
                 && MayVote(u) && r' == u.(voted := Some(u.view))
                 && casts == [Cast(k, u.view, nudge.justify.block, NextPhase(nudge.justify.phase),
                                   nudge.justify, r.tree.lockedPc, u.tree.lockedPc)]
               else r' == u && casts == [])
    case ReceiveCertificate(pc) =>
      && CanArrive(c, log, pc)
      && IsCorrect(c, pc) && SafePc(r.tree, pc, c.chainId)
      && Update(r, pc, r') && casts == []
  }

  ghost predicate Next(c: Config, s: State, s': State) {
    exists k, e, casts | k in s.replicas && k in s'.replicas ::
      && ReplicaStep(c, s.log, k, s.replicas[k], e, s'.replicas[k], casts)
      && s'.log == s.log + casts
      && s'.replicas == s.replicas[k := s'.replicas[k]]
  }

  ghost predicate Init(c: Config, s: State) {
    && s.log == []
    && s.replicas.Keys == c.honest
    && forall k | k in s.replicas ::
         s.replicas[k] == Replica(TreeView({}, {}, GENESIS_PC, GENESIS_PC, None), s.replicas[k].view, None, {})
  }

  /** Hypothesis: honest replicas vote from view 1 on.  View 0 belongs to the Genesis PC. */
  ghost predicate NoVoteInViewZero(s: State) {
    forall i | 0 <= i < |s.log| :: s.log[i].view >= 1
  }

  /** Hypothesis: no honest replica's lock moves to a certificate of a lower view in the step. */
  ghost predicate LocksHold(s: State, s': State) {
    forall k | k in s.replicas && k in s'.replicas ::
      s.replicas[k].tree.lockedPc.view <= s'.replicas[k].tree.lockedPc.view
  }

  ghost predicate IsRun(c: Config, run: seq<State>) {
    && |run| > 0 && Init(c, run[0])
    && (forall i | 0 <= i < |run| - 1 :: Next(c, run[i], run[i + 1]))
    && (forall i | 0 <= i < |run| :: NoVoteInViewZero(run[i]))
  }

  ghost predicate LocksHoldThroughout(run: seq<State>) {
    forall i | 0 <= i < |run| - 1 :: LocksHold(run[i], run[i + 1])
  }

  // ---------------------------------------------------------------------------------------------------
  // What every step keeps

  ghost predicate ReplicaInv(c: Config, log: Log, k: VerifyingKey, r: Replica) {
    && AvailableOrGenesis(c, log, r.tree.lockedPc)
    && AvailableOrGenesis(c, log, r.tree.highestPc)
    && (forall b | b in r.tree.blocks :: b.Digest? && AvailableOrGenesis(c, log, b.justify))
    && (forall b | b in r.committed :: IsCommittedBy(c, log, b))
    && (forall i | 0 <= i < |log| && log[i].voter == k :: r.voted.Some? && log[i].view <= r.voted.value)
  }

  ghost predicate IsCommittedBy(c: Config, log: Log, b: CryptoHash) {
    exists target :: Committable(c, log, target) && Extends(target, b)
  }

  ghost predicate Inv(c: Config, s: State) {
    && s.replicas.Keys == c.honest
    && GoodLog(c, s.log)
    && forall k | k in s.replicas :: ReplicaInv(c, s.log, k, s.replicas[k])
  }

  /** The lock of every honest replica is at least as high as at its last vote. */
  ghost predicate LockInv(s: State) {
    && LocksNeverFall(s.log)
    && forall i | 0 <= i < |s.log| && s.log[i].voter in s.replicas ::
         s.log[i].after.view <= s.replicas[s.log[i].voter].tree.lockedPc.view
  }

  lemma LogGrows(c: Config, log: Log, casts: Log, k: VerifyingKey, r: Replica)
    requires ReplicaInv(c, log, k, r)
    requires forall i | 0 <= i < |casts| :: casts[i].voter != k
    ensures ReplicaInv(c, log + casts, k, r)
  {
    assert (log + casts)[..|log|] == log;
    forall pc | Available(c, log, pc) ensures Available(c, log + casts, pc) {
      AvailableMonotone(c, log + casts, |log|, pc);
    }
    forall b | b in r.committed ensures IsCommittedBy(c, log + casts, b) {
      CommittedStays(c, log, casts, b);
    }
  }

  lemma CommittedStays(c: Config, log: Log, casts: Log, b: CryptoHash)
    requires IsCommittedBy(c, log, b)
    ensures IsCommittedBy(c, log + casts, b)
  {
    var target :| Committable(c, log, target) && Extends(target, b);
    var pc :| ThreeChain(c, log, target, pc) || PhasedCommit(c, log, target, pc);
    assert (log + casts)[..|log|] == log;
    AvailableMonotone(c, log + casts, |log|, pc);
    assert ThreeChain(c, log + casts, target, pc) || PhasedCommit(c, log + casts, target, pc);
  }

  /** A block that `block_to_commit` names has the chain of certificates that its commit rule demands. */
  lemma TargetIsCommittable(c: Config, log: Log, v: TreeView, justify: PhaseCertificate)
    requires IsCorrect(c, justify) && CanArrive(c, log, justify)
    requires BlockToCommit(v, justify).Ok? && BlockToCommit(v, justify).value.Some?
    ensures Committable(c, log, BlockToCommit(v, justify).value.value)
  {
    var target := BlockToCommit(v, justify).value.value;
    assert Available(c, log, justify);
    assert ThreeChain(c, log, target, justify) || PhasedCommit(c, log, target, justify);
  }

  /** `update` keeps the replica invariant. */
  lemma UpdateKeepsInv(c: Config, log: Log, k: VerifyingKey, r: Replica, justify: PhaseCertificate, u: Replica)
    requires ReplicaInv(c, log, k, r)
    requires IsCorrect(c, justify) && CanArrive(c, log, justify)
    requires Update(r, justify, u)
    ensures ReplicaInv(c, log, k, u)
  {
    forall b | b in u.committed ensures IsCommittedBy(c, log, b) {
      if b !in r.committed {
        TargetIsCommittable(c, log, r.tree, justify);
      }
    }
  }

  /** A vote appended by a step obeys the voting rules. */
  lemma VoteIsGood(c: Config, log: Log, k: VerifyingKey, r: Replica, e: Event, r': Replica, casts: Log)
    requires k in c.honest && ReplicaInv(c, log, k, r)
    requires ReplicaStep(c, log, k, r, e, r', casts)
    ensures |casts| <= 1
    ensures casts != [] ==>
      && casts[0].before == r.tree.lockedPc && casts[0].after == r'.tree.lockedPc
      && casts[0].voter == k && r'.voted == Some(casts[0].view)
      && (casts[0].view >= 1 ==> GoodCast(c, log, casts[0]))
    ensures ReplicaInv(c, log, k, r'.(voted := r.voted))
    ensures casts == [] ==> r'.voted == r.voted
    ensures casts != [] ==> r.voted.None? || r.voted.value < casts[0].view
  {
    match e
    case EnterView(view) =>
    case ReceiveProposal(block, votes) =>
      var i := r.(tree := Insert(r.tree, block.hash, c.updates(block.hash)));
      var u :| Update(i, block.justify, u) && if votes then
                 && MayVote(u) && r' == u.(voted := Some(u.view))
                 && casts == [Cast(k, u.view, block.hash, if c.updates(block.hash) then Prepare else Generic,
                                   block.justify, r.tree.lockedPc, u.tree.lockedPc)]
               else r' == u && casts == [];
      assert ReplicaInv(c, log, k, i);
      UpdateKeepsInv(c, log, k, i, block.justify, u);
      if votes {
        LockCheckIsExtension(r.tree, block.justify, c.chainId);
      }
    case ReceiveNudge(nudge, votes) =>
      var u :| Update(r, nudge.justify, u) && if votes then
                 && MayVote(u) && r' == u.(voted := Some(u.view))
                 && casts == [Cast(k, u.view, nudge.justify.block, NextPhase(nudge.justify.phase),
                                   nudge.justify, r.tree.lockedPc, u.tree.lockedPc)]
               else r' == u && casts == [];
      UpdateKeepsInv(c, log, k, r, nudge.justify, u);
      if votes {
        LockCheckIsExtension(r.tree, nudge.justify, c.chainId);
      }
    case ReceiveCertificate(pc) =>
      UpdateKeepsInv(c, log, k, r, pc, r');
  }

  lemma LockCheckIsExtension(v: TreeView, pc: PhaseCertificate, chainId: nat)
    requires SafePc(v, pc, chainId)
    ensures pc.view > v.lockedPc.view || Extends(pc.block, v.lockedPc.block)
  {
    if pc.view <= v.lockedPc.view && pc.block != v.lockedPc.block {
      assert Extends(pc.block.justify.block, v.lockedPc.block);
    }
  }

  lemma GoodLogExtends(c: Config, log: Log, cast: Cast)
    requires GoodLog(c, log) && GoodCast(c, log, cast)
    ensures GoodLog(c, log + [cast])
  {
    forall i | 0 <= i < |log| + 1 ensures GoodCast(c, (log + [cast])[..i], (log + [cast])[i]) {
      assert (log + [cast])[..i] == log[..i];
      assert log[..|log|] == log;
    }
  }

  lemma StepKeepsInv(c: Config, s: State, s': State)
    requires Inv(c, s) && Next(c, s, s') && NoVoteInViewZero(s')
    ensures Inv(c, s')
  {
    var k, e, casts :| k in s.replicas && k in s'.replicas &&
      ReplicaStep(c, s.log, k, s.replicas[k], e, s'.replicas[k], casts) &&
      s'.log == s.log + casts && s'.replicas == s.replicas[k := s'.replicas[k]];
    var r, r' := s.replicas[k], s'.replicas[k];
    VoteIsGood(c, s.log, k, r, e, r', casts);
    if casts == [] {
      assert s'.log == s.log;
    } else {
      assert casts == [casts[0]];
      assert s'.log[|s.log|] == casts[0];
      GoodLogExtends(c, s.log, casts[0]);
      OwnReplicaInv(c, s.log, k, r, r', casts[0]);
    }
    forall h | h in s'.replicas ensures ReplicaInv(c, s'.log, h, s'.replicas[h]) {
      if h != k {
        LogGrows(c, s.log, casts, h, s.replicas[h]);
      }
    }
  }

  lemma OwnReplicaInv(c: Config, log: Log, k: VerifyingKey, r: Replica, r': Replica, cast: Cast)
    requires ReplicaInv(c, log, k, r'.(voted := r.voted))
    requires r'.voted == Some(cast.view) && (r.voted.None? || r.voted.value < cast.view)
    ensures ReplicaInv(c, log + [cast], k, r')
  {
    assert (log + [cast])[..|log|] == log;
    forall pc | Available(c, log, pc) ensures Available(c, log + [cast], pc) {
      AvailableMonotone(c, log + [cast], |log|, pc);
    }
    forall b | b in r'.committed ensures IsCommittedBy(c, log + [cast], b) {
      CommittedStays(c, log, [cast], b);
    }
  }

  /** The acting replica of a step, and the votes it adds with the locks around them. */
  lemma StepActor(c: Config, s: State, s': State) returns (k: VerifyingKey, casts: Log)
    requires Inv(c, s) && Next(c, s, s')
    ensures k in s.replicas && k in s'.replicas
    ensures s'.log == s.log + casts && s'.replicas == s.replicas[k := s'.replicas[k]]
    ensures |casts| <= 1
    ensures casts != [] ==>
      && casts[0].voter == k
      && casts[0].before == s.replicas[k].tree.lockedPc && casts[0].after == s'.replicas[k].tree.lockedPc
    ensures s.replicas[k].committed <= s'.replicas[k].committed
  {
    var e;
    k, e, casts :| k in s.replicas && k in s'.replicas &&
      ReplicaStep(c, s.log, k, s.replicas[k], e, s'.replicas[k], casts) &&
      s'.log == s.log + casts && s'.replicas == s.replicas[k := s'.replicas[k]];
    VoteIsGood(c, s.log, k, s.replicas[k], e, s'.replicas[k], casts);
  }

  lemma StepKeepsLockInv(s: State, s': State, k: VerifyingKey, casts: Log)
    requires LockInv(s) && LocksHold(s, s')
    requires k in s.replicas && k in s'.replicas
    requires s'.log == s.log + casts && s'.replicas == s.replicas[k := s'.replicas[k]]
    requires |casts| <= 1
    requires casts != [] ==>
      && casts[0].voter == k
      && casts[0].before == s.replicas[k].tree.lockedPc && casts[0].after == s'.replicas[k].tree.lockedPc
    ensures LockInv(s')
  {
  }

  lemma {:induction false} RunKeepsInv(c: Config, run: seq<State>, n: nat)
    requires IsRun(c, run) && n < |run|
    ensures Inv(c, run[n])
    ensures LocksHoldThroughout(run) ==> LockInv(run[n])
  {
    if n > 0 {
      RunKeepsInv(c, run, n - 1);
      assert Next(c, run[n - 1], run[n - 1 + 1]);
      StepKeepsInv(c, run[n - 1], run[n]);
      if LocksHoldThroughout(run) {
        assert LocksHold(run[n - 1], run[n - 1 + 1]);
        var k, casts := StepActor(c, run[n - 1], run[n]);
        StepKeepsLockInv(run[n - 1], run[n], k, casts);
      }
    }
  }

  // ---------------------------------------------------------------------------------------------------
  // Theorems about every run

  /** Agreement: in every run in which no honest lock has fallen between two votes, any two blocks committed by any two
      honest replicas, through whichever commit rule, lie on one branch. */
  lemma Agreement(c: Config, run: seq<State>, n: nat, p: VerifyingKey, q: VerifyingKey, a: CryptoHash, b: CryptoHash)
    requires GoodConfig(c) && IsRun(c, run) && n < |run| && LocksNeverFall(run[n].log)
    requires p in run[n].replicas && q in run[n].replicas
    requires a in run[n].replicas[p].committed && b in run[n].replicas[q].committed
    ensures Extends(a, b) || Extends(b, a)
  {
    RunKeepsInv(c, run, n);
    var log := run[n].log;
    assert IsCommittedBy(c, log, a) && IsCommittedBy(c, log, b);
    var targetA :| Committable(c, log, targetA) && Extends(targetA, a);
    var targetB :| Committable(c, log, targetB) && Extends(targetB, b);
    CommittableBlocksAreOneBranch(c, log, targetA, targetB);
    if Extends(targetA, targetB) {
      ExtendsTransitive(targetA, targetB, b);
      AncestorsAreOneBranch(targetA, a, b);
    } else {
      ExtendsTransitive(targetB, targetA, a);
      AncestorsAreOneBranch(targetB, a, b);
    }
  }

  /** Locks that fall in no step have not fallen between votes. */
  lemma SteadyLocksNeverFall(c: Config, run: seq<State>, n: nat)
    requires IsRun(c, run) && LocksHoldThroughout(run) && n < |run|
    ensures LocksNeverFall(run[n].log)
  {
    RunKeepsInv(c, run, n);
  }

  /** In every run, one view certifies at most one block in one phase. */
  lemma CertificatesAreUnique(c: Config, run: seq<State>, n: nat, p: PhaseCertificate, q: PhaseCertificate)
    requires GoodConfig(c) && IsRun(c, run) && n < |run|
    requires Available(c, run[n].log, p) && Available(c, run[n].log, q) && p.view == q.view
    ensures p.block == q.block && p.phase == q.phase
  {
    RunKeepsInv(c, run, n);
    CertificateUniqueness(c, run[n].log, p, q);
  }

  /** In every run, a block certified by Generic or Prepare votes was justified in an earlier view. */
  lemma JustifiesComeFirst(c: Config, run: seq<State>, n: nat, pc: PhaseCertificate)
    requires GoodConfig(c) && IsRun(c, run) && n < |run|
    requires Available(c, run[n].log, pc) && (pc.phase.Generic? || pc.phase.Prepare?)
    ensures pc.block.Digest? && pc.block.justify.view < pc.view
  {
    RunKeepsInv(c, run, n);
    Causality(c, run[n].log, pc);
  }

  /** In every run, a Commit certificate stands on Precommit and Prepare certificates of the two views
      before it, and its honest signers were locked on the block when they signed. */
  lemma CommitsAreConsecutive(c: Config, run: seq<State>, n: nat, pc: PhaseCertificate)
      returns (precommit: PhaseCertificate, prepare: PhaseCertificate)
    requires GoodConfig(c) && IsRun(c, run) && n < |run|
    requires Available(c, run[n].log, pc) && pc.phase.Commit?
    ensures Available(c, run[n].log, precommit) && precommit.phase.Precommit?
    ensures Available(c, run[n].log, prepare) && prepare.phase.Prepare?
    ensures precommit.block == prepare.block == pc.block
    ensures precommit.view + 1 == pc.view && prepare.view + 2 == pc.view
    ensures forall m | 0 <= m < |run[n].log| && SignedBy(c, run[n].log[m]) == CertifiedMessage(pc) ::
      && run[n].log[m].after.phase.Precommit? && run[n].log[m].after.block == pc.block
      && run[n].log[m].after.view + 1 == pc.view
  {
    RunKeepsInv(c, run, n);
    precommit, prepare := PhasedChain(c, run[n].log, pc);
  }

  /** Commits are never undone, so agreement also relates commits made at different times. */
  lemma {:induction false} CommitsAreForever(c: Config, run: seq<State>, m: nat, n: nat, k: VerifyingKey, b: CryptoHash)
    requires IsRun(c, run) && m <= n < |run|
    requires k in run[m].replicas && b in run[m].replicas[k].committed
    ensures k in run[n].replicas && b in run[n].replicas[k].committed
    decreases n - m
  {
    if m < n {
      RunKeepsInv(c, run, m);
      var _, _ := StepActor(c, run[m], run[m + 1]);
      CommitsAreForever(c, run, m + 1, n, k, b);
    }
  }
}
