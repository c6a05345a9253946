/** Highest PC, locked PC, and what an honest leader broadcasts when it enters a view. */
module Proposer {
  import opened Types
  import opened Quorums
  import opened SafetyRules
  import opened VoteLog
  import opened Protocol

  /** What a tree keeps at every step boundary: the Highest PC is at least as high as the lock and as
      every justify in the tree, and the phase of the Highest PC fits its block. */
  ghost predicate HighestInv(c: Config, v: TreeView) {
    && v.lockedPc.view <= v.highestPc.view
    && (forall b | b in v.blocks :: b.Digest? && b.justify.view <= v.highestPc.view)
    && StatusInv(c, v)
    && (IsGenesisPc(v.highestPc) || (v.highestPc.phase.Generic? <==> !c.updates(v.highestPc.block)))
  }

  /** The stored update statuses reflect the app's verdicts. */
  ghost predicate StatusInv(c: Config, v: TreeView) {
    && (forall b | b in v.updating :: b.Digest? && c.updates(b))
    && (forall b | b in v.blocks && c.updates(b) :: b in v.updating)
  }

  /** An update raises the Highest PC to cover the block that was inserted just before it. */
  lemma UpdateKeepsHighest(c: Config, r: Replica, justify: PhaseCertificate, u: Replica)
    requires Update(r, justify, u)
    requires SafePc(r.tree, justify, c.chainId) || IsGenesisPc(justify)
    requires r.tree.lockedPc.view <= r.tree.highestPc.view && StatusInv(c, r.tree)
    requires forall b | b in r.tree.blocks ::
      b.Digest? && (b.justify.view <= r.tree.highestPc.view || b.justify == justify)
    requires IsGenesisPc(r.tree.highestPc) || (r.tree.highestPc.phase.Generic? <==> !c.updates(r.tree.highestPc.block))
    ensures HighestInv(c, u.tree)
    ensures u.tree.highestPc.view >= r.tree.highestPc.view
  {
    if justify.phase.Generic? && !IsGenesisPc(justify) {
      assert justify.block in r.tree.blocks;
      assert justify.block.justify.view <= NewHighest(r.tree, justify).view;
    }
  }

  lemma StepKeepsHighest(c: Config, log: Log, k: VerifyingKey, r: Replica, e: Event, r': Replica, casts: Log)
    requires ReplicaStep(c, log, k, r, e, r', casts) && HighestInv(c, r.tree)
    ensures HighestInv(c, r'.tree) && r'.tree.highestPc.view >= r.tree.highestPc.view
  {
    match e
    case EnterView(view) =>
    case ReceiveProposal(block, votes) =>
      var i := r.(tree := Insert(r.tree, block.hash, c.updates(block.hash)));
      var u: Replica :| Update(i, block.justify, u) && u.tree == r'.tree;
      SafeAfterInsert(r.tree, block, c.updates(block.hash), c.chainId);
      UpdateKeepsHighest(c, i, block.justify, u);
    case ReceiveNudge(nudge, votes) =>
      var u: Replica :| Update(r, nudge.justify, u) && u.tree == r'.tree;
      UpdateKeepsHighest(c, r, nudge.justify, u);
    case ReceiveCertificate(pc) =>
      UpdateKeepsHighest(c, r, pc, r');
  }

  /** Inserting a block does not make its own justify unsafe. */
  lemma SafeAfterInsert(v: TreeView, block: Block, updating: bool, chainId: nat)
    requires SafeBlock(v, block, chainId) && block.hash == Digest(block.height, block.justify, block.dataHash)
    ensures SafePc(Insert(v, block.hash, updating), block.justify, chainId)
  {
    NotOwnAncestor(block.hash);
    assert block.justify.block != block.hash;
  }

  lemma NotOwnAncestor(h: CryptoHash)
    requires h.Digest?
    ensures h.justify.block != h
  {
  }

  lemma StateStepKeepsHighest(c: Config, s: State, s': State, k: VerifyingKey)
    requires Next(c, s, s') && k in s.replicas && HighestInv(c, s.replicas[k].tree)
    ensures s'.replicas.Keys == s.replicas.Keys
    ensures HighestInv(c, s'.replicas[k].tree)
    ensures s'.replicas[k].tree.highestPc.view >= s.replicas[k].tree.highestPc.view
  {
    var k', e, casts :| k' in s.replicas && k' in s'.replicas &&
      ReplicaStep(c, s.log, k', s.replicas[k'], e, s'.replicas[k'], casts) &&
      s'.log == s.log + casts && s'.replicas == s.replicas[k' := s'.replicas[k']];
    if k == k' {
      StepKeepsHighest(c, s.log, k, s.replicas[k], e, s'.replicas[k], casts);
    }
  }

  lemma {:induction false} RunKeepsHighest(c: Config, run: seq<State>, n: nat, k: VerifyingKey)
    requires IsRun(c, run) && n < |run| && k in run[0].replicas
    ensures k in run[n].replicas && HighestInv(c, run[n].replicas[k].tree)
  {
    if n > 0 {
      RunKeepsHighest(c, run, n - 1, k);
      assert Next(c, run[n - 1], run[n - 1 + 1]);
      StateStepKeepsHighest(c, run[n - 1], run[n], k);
    }
  }

  /** The view of a replica's Highest PC never falls. */
  lemma {:induction false} HighestNeverFalls(c: Config, run: seq<State>, m: nat, n: nat, k: VerifyingKey)
    requires IsRun(c, run) && m <= n < |run| && k in run[0].replicas
    ensures k in run[m].replicas && k in run[n].replicas
    ensures run[m].replicas[k].tree.highestPc.view <= run[n].replicas[k].tree.highestPc.view
    decreases n - m
  {
    RunKeepsHighest(c, run, m, k);
    if m < n {
      assert Next(c, run[m], run[m + 1]);
      StateStepKeepsHighest(c, run[m], run[m + 1], k);
      HighestNeverFalls(c, run, m + 1, n, k);
    }
  }

  /** What `enter_view` broadcasts at a proposer.  `Refused` is the error return and the failed assertion in
      `Block::new`. */
  datatype Broadcast = Reproposal(block: Block) | Proposal(block: Block) | SendNudge(nudge: Nudge) | Refused

  function NewBlock(height: nat, justify: PhaseCertificate, dataHash: nat, data: seq<Bytes>): Option<Block> {
    if IsBlockJustify(justify)
    then Some(Block(height, Digest(height, justify, dataHash), justify, dataHash, data))
    else None
  }

  function EnterViewBroadcast(v: TreeView, view: nat, chainId: nat, dataHash: nat, data: seq<Bytes>): Broadcast {
    match ReproposeBlock(v, view)
    case Some(hash) =>
      if v.Contains(hash) then Reproposal(Block(hash.height, hash, hash.justify, hash.dataHash, [])) else Refused
    case None =>
      if IsBlockJustify(v.highestPc) then
        var childHeight :=
          if IsGenesisPc(v.highestPc) then Some(0)
          else if v.Contains(v.highestPc.block) then Some(v.highestPc.block.height + 1)
          else None;
        if childHeight.None? then Refused
        else
          match NewBlock(childHeight.value, v.highestPc, dataHash, data)
          case None => Refused
          case Some(block) => Proposal(block)
      else SendNudge(Nudge(chainId, view, v.highestPc))
  }

  /** A proposal or a nudge that passes every check of replica `r`; a proposed block sits one above its parent. */
  ghost predicate Passes(c: Config, r: Replica, broadcast: Broadcast) {
    match broadcast
    case Proposal(block) =>
      && block.hash == Digest(block.height, block.justify, block.dataHash)
      && (if IsGenesisPc(block.justify) then block.height == 0
          else block.justify.block.Digest? && block.height == block.justify.block.height + 1)
      && IsCorrect(c, block.justify) && SafeBlock(r.tree, block, c.chainId)
    case SendNudge(nudge) =>
      IsCorrect(c, nudge.justify) && SafeNudge(r.tree, nudge, r.view, c.chainId)
    case _ => false
  }

  /** The leader has the block of its Highest PC. */
  predicate HasHighest(v: TreeView) {
    IsGenesisPc(v.highestPc) || v.Contains(v.highestPc.block)
  }

  /** A chain of consecutive views for a validator-set-updating block is broken between the Highest PC and `view`. */
  predicate ChainIsBroken(highestPc: PhaseCertificate, view: nat) {
    (highestPc.phase.Prepare? || highestPc.phase.Precommit?) && view != highestPc.view + 1
  }

  /** What the Highest PC calls for in `view`: a new block on top of it if its phase is Generic or Decide; its
      block once more if the chain of phases is broken; and otherwise a nudge into the next phase. */
  ghost predicate IsCalledFor(highestPc: PhaseCertificate, view: nat, broadcast: Broadcast) {
    match broadcast
    case Proposal(block) => IsBlockJustify(highestPc) && block.justify == highestPc
    case Reproposal(block) => ChainIsBroken(highestPc, view) && block.hash == highestPc.block && block.data == []
    case SendNudge(nudge) =>
      && IsNudgeJustify(highestPc) && !ChainIsBroken(highestPc, view)
      && nudge.justify == highestPc && nudge.view == view
    case Refused => false
  }

  /** A leader that has the block of its Highest PC broadcasts what the Highest PC calls for.  In particular it
      nudges if and only if the phase is Commit, or Prepare or Precommit of the view before. */
  lemma BroadcastIsCalledFor(v: TreeView, view: nat, chainId: nat, dataHash: nat, data: seq<Bytes>)
    ensures
      var broadcast := EnterViewBroadcast(v, view, chainId, dataHash, data);
      var phase := v.highestPc.phase;
      && (HasHighest(v) ==> IsCalledFor(v.highestPc, view, broadcast))
      && (broadcast.SendNudge? <==>
            phase.Commit? || ((phase.Prepare? || phase.Precommit?) && view == v.highestPc.view + 1))
      && (broadcast.Proposal? <==> (phase.Generic? || phase.Decide?) && HasHighest(v))
      && (broadcast.Reproposal? <==>
            (phase.Prepare? || phase.Precommit?) && view != v.highestPc.view + 1 && v.Contains(v.highestPc.block))
  {
  }

  /** An honest leader's own proposal or nudge passes every check that it would run on it, in every reachable state
      in which it still has the block of its Highest PC; and it is a proposal or a nudge unless a chain of phases is
      broken. */
  lemma LeaderAcceptsOwnBroadcast(c: Config, run: seq<State>, n: nat, k: VerifyingKey, dataHash: nat, data: seq<Bytes>)
    requires GoodConfig(c) && IsRun(c, run) && n < |run| && k in run[n].replicas
    requires HasHighest(run[n].replicas[k].tree)
    requires !ChainIsBroken(run[n].replicas[k].tree.highestPc, run[n].replicas[k].view)
    ensures
      var r := run[n].replicas[k];
      var broadcast := EnterViewBroadcast(r.tree, r.view, c.chainId, dataHash, data);
      Passes(c, r, broadcast) && IsCalledFor(r.tree.highestPc, r.view, broadcast)
  {
    RunKeepsInv(c, run, n);
    RunKeepsInv(c, run, 0);
    RunKeepsHighest(c, run, n, k);
    HighestPasses(c, run[n].log, k, run[n].replicas[k]);
    BroadcastPasses(c, run[n].replicas[k], dataHash, data);
    BroadcastIsCalledFor(run[n].replicas[k].tree, run[n].replicas[k].view, c.chainId, dataHash, data);
  }

  lemma BroadcastPasses(c: Config, r: Replica, dataHash: nat, data: seq<Bytes>)
    requires IsCorrect(c, r.tree.highestPc) && SafePc(r.tree, r.tree.highestPc, c.chainId)
    requires HasHighest(r.tree) && !ChainIsBroken(r.tree.highestPc, r.view)
    ensures Passes(c, r, EnterViewBroadcast(r.tree, r.view, c.chainId, dataHash, data))
  {
  }

  /** In every run, a certificate that can exist, of a block that is in the tree with its parent, passes all
      safety checks of a replica if and only if it is newer than the replica's lock or the locked block is at
      most two links below. */
  lemma CertificatePassesExactlyWhen(c: Config, run: seq<State>, n: nat, k: VerifyingKey, pc: PhaseCertificate)
    requires GoodConfig(c) && IsRun(c, run) && n < |run| && k in run[n].replicas && Available(c, run[n].log, pc)
    requires
      var v := run[n].replicas[k].tree;
      v.Contains(pc.block) && (v.Contains(pc.block.justify.block) || pc.block.justify.block == Zero)
    ensures
      var v := run[n].replicas[k].tree;
      SafePc(v, pc, c.chainId) <==>
        || pc.view > v.lockedPc.view
        || v.lockedPc.block in {Below(pc.block, 0), Below(pc.block, 1), Below(pc.block, 2)}
  {
    RunKeepsInv(c, run, n);
    RunKeepsInv(c, run, 0);
    RunKeepsHighest(c, run, n, k);
    CertifiedViewIsPositive(c, run[n].log, pc);
    PhaseFitsBlock(c, run[n].log, pc);
    LockCheckReachesTwoBack(run[n].replicas[k].tree, pc);
  }

  /** The Highest PC passes the checks of the replica that holds it. */
  lemma HighestPasses(c: Config, log: Log, k: VerifyingKey, r: Replica)
    requires GoodConfig(c) && GoodLog(c, log) && ReplicaInv(c, log, k, r) && HighestInv(c, r.tree)
    requires IsGenesisPc(r.tree.highestPc) || r.tree.Contains(r.tree.highestPc.block)
    ensures IsCorrect(c, r.tree.highestPc) && SafePc(r.tree, r.tree.highestPc, c.chainId)
  {
    var highest, locked := r.tree.highestPc, r.tree.lockedPc;
    if !IsGenesisPc(locked) {
      CertifiedViewIsPositive(c, log, locked);
    }
    if !IsGenesisPc(highest) {
      CertifiedViewIsPositive(c, log, highest);
      if highest.view == locked.view {
        CertificateUniqueness(c, log, highest, locked);
      }
    }
  }

  /** The justify of every certified block is available and earlier. */
  lemma CertifiedAfterJustify(c: Config, log: Log, pc: PhaseCertificate)
    requires GoodConfig(c) && GoodLog(c, log) && Available(c, log, pc)
    ensures pc.block.Digest? && pc.block.justify.view < pc.view && IsBlockJustify(pc.block.justify)
    ensures AvailableOrGenesis(c, log, pc.block.justify)
  {
    match pc.phase
    case Generic => Causality(c, log, pc);
    case Prepare => Causality(c, log, pc);
    case Precommit =>
      var prepare := PreviousPhase(c, log, pc);
      Causality(c, log, prepare);
    case Commit =>
      var _, prepare := PhasedChain(c, log, pc);
      Causality(c, log, prepare);
    case Decide =>
      var commit := DecideFollowsCommit(c, log, pc);
      var _, prepare := PhasedChain(c, log, commit);
      Causality(c, log, prepare);
  }

  /** Exactly when a re-proposal passes the leader's own checks, in every reachable state in which the re-proposed
      block and its parent are in the tree: when its justify passes the lock check.  In particular, a leader that is
      locked on the block, as it is after a Precommit certificate, refuses its own re-proposal. */
  lemma ReproposalPassesExactlyWhen(c: Config, run: seq<State>, n: nat, k: VerifyingKey, block: Block)
    requires GoodConfig(c) && IsRun(c, run) && n < |run| && k in run[n].replicas
    requires
      var r := run[n].replicas[k];
      && ChainIsBroken(r.tree.highestPc, r.view) && r.tree.highestPc.block == block.hash && r.tree.Contains(block.hash)
      && block.hash == Digest(block.height, block.justify, block.dataHash)
      && (IsGenesisPc(block.justify) || r.tree.Contains(block.justify.block))
    ensures forall dataHash, data ::
      var r := run[n].replicas[k];
      EnterViewBroadcast(r.tree, r.view, c.chainId, dataHash, data) == Reproposal(block.(data := []))
    ensures
      var v := run[n].replicas[k].tree;
      && IsCorrect(c, block.justify)
      && (SafeBlock(v, block, c.chainId) <==>
            block.justify.view > v.lockedPc.view || ExtendsLockedPcBlock(v, block.justify))
      && (v.lockedPc.block == block.hash ==> !SafeBlock(v, block, c.chainId))
  {
    var log, r := run[n].log, run[n].replicas[k];
    RunKeepsInv(c, run, n);
    RunKeepsInv(c, run, 0);
    RunKeepsHighest(c, run, n, k);
    assert ReplicaInv(c, log, k, r);
    CertifiedAfterJustify(c, log, r.tree.highestPc);
    if !IsGenesisPc(block.justify) {
      CertifiedViewIsPositive(c, log, block.justify);
      PhaseFitsBlock(c, log, block.justify);
    }
    LockedOnItself(c, log, r.tree, block);
  }

  lemma LockedOnItself(c: Config, log: Log, v: TreeView, block: Block)
    requires GoodConfig(c) && GoodLog(c, log) && AvailableOrGenesis(c, log, v.lockedPc)
    requires block.hash == Digest(block.height, block.justify, block.dataHash)
    ensures v.lockedPc.block == block.hash ==> !SafeBlock(v, block, c.chainId)
  {
    if v.lockedPc.block == block.hash && SafeBlock(v, block, c.chainId) {
      CertifiedAfterJustify(c, log, v.lockedPc);
      LockCheckIsExtension(v, block.justify, c.chainId);
      ExtendsDepth(block.justify.block, block.hash);
    }
  }
}
