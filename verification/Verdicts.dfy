/** Which validator set a certificate is checked against, and how a commit that updates the validator set
    changes the verdict. */
module Verdicts {
  import opened Types
  import opened Quorums
  import opened UpdateSets
  import opened SafetyRules
  import opened BlockStore
  import opened Commitment
  import opened StoreRuns
  import VoteLog
  import Protocol

  /** The set whose quorum must have signed `pc`, or None if `pc` is rejected whoever signed it. */
  function SetToCheck(t: Tree, pc: PhaseCertificate): Option<ValidatorSet> {
    if pc.block !in t.blocks || t.updateHeight.None? then Some(t.committedVs)
    else
      var height, updateHeight := t.blocks[pc.block].height, t.updateHeight.value;
      if height < updateHeight then Some(t.previousVs)
      else if height > updateHeight then Some(t.committedVs)
      else if pc.phase.Generic? || pc.block !in t.status then None
      else
        match t.status[pc.block]
        case Committed => Some(if pc.phase.Decide? then t.committedVs else t.previousVs)
        case Pending(updates) => Some(if pc.phase.Decide? then ApplyUpdates(t.committedVs, updates) else t.committedVs)
  }

  /** `PhaseCertificate::is_correct`. */
  predicate IsCorrect(t: Tree, pc: PhaseCertificate) {
    IsGenesisPc(pc) || (SetToCheck(t, pc).Some? && PcCorrectlySigned(pc, SetToCheck(t, pc).value))
  }

  /** `TimeoutCertificate::is_correct`. */
  predicate TcIsCorrect(t: Tree, tc: TimeoutCertificate) {
    TcCorrectlySigned(tc, t.committedVs) || (!t.updateDecided && TcCorrectlySigned(tc, t.previousVs))
  }

  /** The update height, if there is one, is that of a committed block marked as having updated the set. */
  ghost predicate UpdateHeightOk(t: Tree) {
    t.updateHeight.Some? ==>
      && t.updateHeight.value in t.atHeight
      && t.atHeight[t.updateHeight.value] in t.status
      && t.status[t.atHeight[t.updateHeight.value]].Committed?
  }

  /** The tree is about to commit `target`, which updates the validator set. */
  ghost predicate CommitsUpdate(t: Tree, target: CryptoHash) {
    && target in t.blocks && !IsCommitted(t, target) && OnlyTargetUpdates(t, target)
    && target in t.status && t.status[target].Pending?
  }

  /** What such a commit does to the validator set variables. */
  lemma UpdatingCommit(t: Tree, target: CryptoHash)
    requires Shape(t) && CommitsUpdate(t, target)
    ensures
      var t' := CommitTree(t, target);
      && t'.committedVs == ApplyUpdates(t.committedVs, t.status[target].updates)
      && t'.previousVs == t.committedVs
      && target.Digest? && t'.updateHeight == Some(target.height) && !t'.updateDecided
      && target in t'.blocks && target in t'.status && t'.status[target] == Committed
  {
    PathFacts(t, target);
  }

  /** The previous update lies on the committed chain, hence below the new one. */
  lemma PreviousUpdateIsLower(t: Tree, target: CryptoHash)
    requires Shape(t) && UpdateHeightOk(t) && target in t.blocks && !IsCommitted(t, target)
    requires t.updateHeight.Some?
    ensures target.Digest? && t.updateHeight.value < target.height
  {
    AboveTipDescends(t, target);
  }

  lemma SurvivorAtHeight(t: Tree, target: CryptoHash, h: CryptoHash)
    requires BlocksOk(t) && target in t.blocks && h in t.blocks && Comparable(h, target)
    ensures h.Digest? && target.Digest? && t.blocks[h].height == h.height
    ensures h.height == target.height ==> h == target
  {
    assert BlockOk(t, h) && BlockOk(t, target);
    if Extends(h, target) {
      AncestorsStored(t, h, target);
    } else {
      AncestorsStored(t, target, h);
    }
  }

  /** The set that votes on an updating block: the new one decides, the old one does the rest. */
  function SetForUpdate(t: Tree, target: CryptoHash, phase: Phase): Option<ValidatorSet>
    requires target in t.status && t.status[target].Pending?
  {
    match phase
    case Generic => None
    case Decide => Some(ApplyUpdates(t.committedVs, t.status[target].updates))
    case _ => Some(t.committedVs)
  }

  /** After the commit, a surviving block below the target is checked against the set that was replaced, and the
      target against one of the two sets, depending on the phase. */
  lemma SetAfterCommit(t: Tree, target: CryptoHash, pc: PhaseCertificate)
    requires Shape(t) && CommitsUpdate(t, target)
    requires pc.block in t.blocks && Comparable(pc.block, target)
    ensures pc.block.Digest? && target.Digest? && t.blocks[pc.block].height == pc.block.height
    ensures t.blocks[target].height == target.height && (pc.block.height == target.height <==> pc.block == target)
    ensures pc.block.height < target.height ==> SetToCheck(CommitTree(t, target), pc) == Some(t.committedVs)
    ensures pc.block == target ==> SetToCheck(CommitTree(t, target), pc) == SetForUpdate(t, target, pc.phase)
  {
    UpdatingCommit(t, target);
    SurvivorAtHeight(t, target, pc.block);
    SurvivorAtHeight(t, target, target);
  }

  /** Committing a validator set update at height h does not change the verdict on a Generic, Prepare,
      Precommit or Commit certificate of a surviving block above the previous update height and at or below h,
      with one exception: a Generic certificate for the updating block itself, signed by a quorum of the
      old set, was correct before the commit and is rejected after it. */
  lemma VerdictChangesExactlyWhen(t: Tree, target: CryptoHash, pc: PhaseCertificate)
    requires Shape(t) && UpdateHeightOk(t) && CommitsUpdate(t, target)
    requires pc.block in t.blocks && Comparable(pc.block, target) && !pc.phase.Decide?
    requires t.updateHeight.Some? ==> t.blocks[pc.block].height > t.updateHeight.value
    requires t.blocks[pc.block].height <= t.blocks[target].height
    ensures IsCorrect(t, pc) != IsCorrect(CommitTree(t, target), pc) <==>
      pc.phase.Generic? && pc.block == target && PcCorrectlySigned(pc, t.committedVs)
  {
    SetAfterCommit(t, target, pc);
  }

  lemma SoleValidatorSigns(vs: ValidatorSet, pc: PhaseCertificate)
    requires vs == ValidatorSet([5], map[5 := 1])
    requires pc.signatures == [Some(Signed(5, CertifiedMessage(pc), 0))]
    ensures PcCorrectlySigned(pc, vs)
  {
    assert Signers(vs, pc.signatures) == {5} by {
      assert vs.validators[0] == 5;
    }
    assert Members(vs) == {5};
    assert PowerUpTo(vs, {5}, 1) == PowerUpTo(vs, {5}, 0) + 1;
  }

  lemma GenesisBlockPending(vs: ValidatorSet, target: CryptoHash) returns (t: Tree)
    requires target == Digest(0, GENESIS_PC, 1)
    ensures Shape(t) && UpdateHeightOk(t) && CommitsUpdate(t, target)
    ensures t.committedVs == vs && t.updateHeight.None?
  {
    var block := Block(0, target, GENESIS_PC, 1, []);
    var t0 := InitialTree(map[], vs, vs, None, true);
    var updates: ValidatorSetUpdates := UpdateSet(map[6 := 1], {});
    t := InsertBlock(t0, block, None, Some(updates));
    InsertKeepsShape(t0, block, None, Some(updates));
    assert UncommittedPath(t, target) == [target];
  }

  /** The exception is not ruled out by `is_correct` alone: no line rejects a Generic certificate for a block with
      pending updates. */
  lemma VerdictCanChange() returns (t: Tree, target: CryptoHash, pc: PhaseCertificate)
    ensures Shape(t) && UpdateHeightOk(t) && CommitsUpdate(t, target) && pc.block == target
    ensures IsCorrect(t, pc) && !IsCorrect(CommitTree(t, target), pc)
  {
    target := Digest(0, GENESIS_PC, 1);
    var vs := ValidatorSet([5], map[5 := 1]);
    pc := PhaseCertificate(7, 1, target, Generic, [Some(Signed(5, PhaseMessage(7, 1, target, Generic), 0))]);
    SoleValidatorSigns(vs, pc);
    t := GenesisBlockPending(vs, target);
    VerdictChangesExactlyWhen(t, target, pc);
  }

  /** Decide certificates of the block that made the previous update keep their verdict. */
  lemma DecideVerdictStays(t: Tree, target: CryptoHash, pc: PhaseCertificate)
    requires Shape(t) && UpdateHeightOk(t) && CommitsUpdate(t, target)
    requires t.updateHeight.Some? && pc.block == t.atHeight[t.updateHeight.value] && pc.phase.Decide?
    ensures IsCorrect(t, pc) == IsCorrect(CommitTree(t, target), pc)
  {
    TipBelowTarget(t, target);
    ExtendsTransitive(target, t.highestCommitted.value, pc.block);
    PreviousUpdateIsLower(t, target);
    SetAfterCommit(t, target, pc);
  }

  /** A certificate of the updating block changes hands at the commit: before it, the Decide quorum is not yet
      accepted from the new set, and after it, only from the new set. */
  lemma DecideNeedsNewSet(t: Tree, target: CryptoHash, pc: PhaseCertificate)
    requires Shape(t) && UpdateHeightOk(t) && CommitsUpdate(t, target)
    requires pc.block == target && pc.phase.Decide?
    ensures IsCorrect(t, pc) <==> PcCorrectlySigned(pc, t.committedVs)
    ensures IsCorrect(CommitTree(t, target), pc) <==>
      PcCorrectlySigned(pc, ApplyUpdates(t.committedVs, t.status[target].updates))
  {
    SetAfterCommit(t, target, pc);
    if t.updateHeight.Some? {
      PreviousUpdateIsLower(t, target);
    }
  }

  /** Until the update is decided, timeout certificates of the old set and of the new set are both accepted. */
  lemma TimeoutVerdict(t: Tree, target: CryptoHash, tc: TimeoutCertificate)
    requires Shape(t) && CommitsUpdate(t, target)
    ensures TcIsCorrect(CommitTree(t, target), tc) <==>
      || TcCorrectlySigned(tc, t.committedVs)
      || TcCorrectlySigned(tc, ApplyUpdates(t.committedVs, t.status[target].updates))
    ensures t.updateDecided && TcIsCorrect(t, tc) ==> TcIsCorrect(CommitTree(t, target), tc)
  {
    UpdatingCommit(t, target);
  }

  /** A Decide justify closes the period of two sets: from then on, only timeout certificates of the committed
      set count, also if the same justify has just committed an update. */
  lemma TimeoutVerdictOnceDecided(t: Tree, justify: PhaseCertificate, tc: TimeoutCertificate)
    requires Shape(t) && justify.phase.Decide?
    requires PcToLock(t.View(), justify).Ok? && BlockToCommit(t.View(), justify).Ok?
    ensures TcIsCorrect(UpdateTree(t, justify), tc) <==> TcCorrectlySigned(tc, UpdateTree(t, justify).committedVs)
  {
  }

  /** A store can be initialised with an update height at which it has no block yet.  When a block with pending updates
      arrives at that height, its certificates are checked, already before its commit, as they are after it. */
  lemma VerdictAtUpdateHeight(t: Tree, target: CryptoHash, pc: PhaseCertificate)
    requires Shape(t) && CommitsUpdate(t, target) && t.updateHeight == Some(t.blocks[target].height)
    requires pc.block == target
    ensures IsCorrect(t, pc) == IsCorrect(CommitTree(t, target), pc)
    ensures pc.phase.Generic? ==> !IsCorrect(t, pc)
  {
    assert BlockOk(t, target);
    SetAfterCommit(t, target, pc);
  }

  // ---------------------------------------------------------------------------------------------------
  // Blocks that come and go

  /** Blocks are inserted above the latest update. */
  lemma InsertedAboveUpdate(t: Tree, block: Block)
    requires BlocksOk(t) && ChainOk(t) && UpdateHeightOk(t) && MayInsert(t, block) && t.updateHeight.Some?
    ensures block.height > t.updateHeight.value
  {
    AncestorsStored(t, block.justify.block, t.highestCommitted.value);
  }

  /** A certificate gets the same verdict before its block arrives and after: inserting a block above the update height
      changes no verdict. */
  lemma InsertKeepsVerdict(
      t: Tree, block: Block, app: Option<AppStateUpdates>, vsu: Option<ValidatorSetUpdates>, pc: PhaseCertificate)
    requires BlocksOk(t) && block.hash == Digest(block.height, block.justify, block.dataHash)
    requires t.updateHeight.Some? ==> block.height > t.updateHeight.value
    ensures IsCorrect(t, pc) <==> IsCorrect(InsertBlock(t, block, app, vsu), pc)
  {
    if block.hash in t.blocks {
      assert BlockOk(t, block.hash);
    }
  }

  /** What a commit prunes lies above the latest update. */
  lemma PrunedAboveUpdate(t: Tree, target: CryptoHash, h: CryptoHash)
    requires Shape(t) && UpdateHeightOk(t) && target in t.blocks && !IsCommitted(t, target)
    requires h in t.blocks && !Comparable(h, target) && t.updateHeight.Some?
    ensures t.blocks[h].height > t.updateHeight.value
  {
    assert BlockOk(t, h);
    AboveTipDescends(t, h);
    if IsCommitted(t, h) {
      TipBelowTarget(t, target);
      ExtendsTransitive(target, t.highestCommitted.value, h);
    }
  }

  /** Trees that differ in nothing that `is_correct` reads about `pc`, except that `t'` lacks its block. */
  lemma SameSetToCheck(t: Tree, t': Tree, pc: PhaseCertificate)
    requires t'.committedVs == t.committedVs && t'.previousVs == t.previousVs && t'.updateHeight == t.updateHeight
    requires
      if pc.block in t'.blocks
      then
        && pc.block in t.blocks && t'.blocks[pc.block] == t.blocks[pc.block]
        && (pc.block in t.status <==> pc.block in t'.status)
        && (pc.block in t.status ==> t.status[pc.block] == t'.status[pc.block])
      else pc.block in t.blocks && t.updateHeight.Some? ==> t.blocks[pc.block].height > t.updateHeight.value
    ensures IsCorrect(t, pc) <==> IsCorrect(t', pc)
  {
  }

  /** A certificate gets the same verdict before its block is pruned and after: a commit that does not update
      the validator set changes no verdict. */
  lemma PlainCommitKeepsVerdict(t: Tree, target: CryptoHash, pc: PhaseCertificate)
    requires Shape(t) && UpdateHeightOk(t) && target in t.blocks && !IsCommitted(t, target)
    requires LastUpdating(t, UncommittedPath(t, target)).None?
    ensures IsCorrect(t, pc) <==> IsCorrect(CommitTree(t, target), pc)
  {
    if pc.block in t.blocks && !Comparable(pc.block, target) && t.updateHeight.Some? {
      PrunedAboveUpdate(t, target, pc.block);
    }
    SameSetToCheck(t, CommitTree(t, target), pc);
  }

  /** In every run of the store, inserting a block changes no verdict. */
  lemma RunInsertKeepsVerdict(
      vs: ValidatorSet, app: Verdict, chainId: nat, run: seq<Tree>, n: nat, block: Block,
      appUpdates: Option<AppStateUpdates>, pc: PhaseCertificate)
    requires IsStoreRun(vs, app, chainId, run) && n < |run| && run[0].updateHeight.None? && MayInsert(run[n], block)
    ensures IsCorrect(run[n], pc) <==> IsCorrect(InsertBlock(run[n], block, appUpdates, app(block.hash)), pc)
  {
    RunKeepsUpdateHeight(vs, app, chainId, run, n);
    StoreRunKeepsInv(vs, app, chainId, run, n);
    if run[n].updateHeight.Some? {
      InsertedAboveUpdate(run[n], block);
    }
    InsertKeepsVerdict(run[n], block, appUpdates, app(block.hash), pc);
  }

  // ---------------------------------------------------------------------------------------------------
  // The update height in runs

  lemma InsertKeepsUpdateHeight(t: Tree, block: Block, app: Option<AppStateUpdates>, vsu: Option<ValidatorSetUpdates>)
    requires ChainOk(t) && UpdateHeightOk(t) && MayInsert(t, block)
    ensures UpdateHeightOk(InsertBlock(t, block, app, vsu))
  {
  }

  /** The target's own block-at-height entry. */
  lemma TargetAtHeight(t: Tree, target: CryptoHash)
    requires Shape(t) && target in t.blocks && !IsCommitted(t, target)
    ensures target.Digest?
    ensures target.height in CommitTree(t, target).atHeight && CommitTree(t, target).atHeight[target.height] == target
  {
    var path := UncommittedPath(t, target);
    PathFacts(t, target);
    CommitGrowsChain(t, target);
    PathIsOrdered(t, target, path, 0, |path| - 1);
    TopOfStack(t.atHeight, BaseHeight(t), path, CommitTree(t, target).atHeight);
  }

  lemma TopOfStack(before: map<nat, CryptoHash>, base: nat, path: seq<CryptoHash>, after: map<nat, CryptoHash>)
    requires Stacked(before, base, path, after) && path != []
    ensures base + |path| - 1 in after && after[base + |path| - 1] == path[|path| - 1]
  {
    assert after[base + (|path| - 1)] == path[|path| - 1];
  }

  /** An entry of the committed chain, and its update status, stay. */
  lemma EntryStays(t: Tree, target: CryptoHash, i: nat)
    requires Shape(t) && target in t.blocks && !IsCommitted(t, target)
    requires i in t.atHeight && t.atHeight[i] in t.status
    ensures i in CommitTree(t, target).atHeight && CommitTree(t, target).atHeight[i] == t.atHeight[i]
    ensures t.atHeight[i] in CommitStatus(t, target)
    ensures t.status[t.atHeight[i]].Committed? ==> CommitStatus(t, target)[t.atHeight[i]].Committed?
  {
    CommitGrowsChain(t, target);
    TipBelowTarget(t, target);
    ExtendsTransitive(target, t.highestCommitted.value, t.atHeight[i]);
    assert i < BaseHeight(t);
  }

  lemma CommitKeepsUpdateHeight(t: Tree, target: CryptoHash)
    requires Shape(t) && UpdateHeightOk(t)
    requires target in t.blocks && !IsCommitted(t, target) && OnlyTargetUpdates(t, target)
    ensures UpdateHeightOk(CommitTree(t, target))
  {
    var last := LastUpdating(t, UncommittedPath(t, target));
    if last.Some? {
      assert last.value == target;
      TargetAtHeight(t, target);
    } else if t.updateHeight.Some? {
      EntryStays(t, target, t.updateHeight.value);
    }
  }

  lemma StepKeepsUpdateHeight(
      t: Tree, vs: ValidatorSet, app: Verdict, chainId: nat, newcomer: Option<CryptoHash>, justify: PhaseCertificate)
    requires MidInv(t, vs, app, newcomer, justify) && UpdateHeightOk(t)
    requires PcToLock(t.View(), justify).Ok? && BlockToCommit(t.View(), justify).Ok?
    ensures UpdateHeightOk(UpdateTree(t, justify))
    ensures BlockToCommit(t.View(), justify).value.Some? ==>
      CommitsOnlyTarget(t, BlockToCommit(t.View(), justify).value.value)
  {
    if BlockToCommit(t.View(), justify).value.Some? {
      var target := BlockToCommit(t.View(), justify).value.value;
      TargetIsUncommitted(t, justify);
      if newcomer.Some? && Extends(target, newcomer.value) {
        ExtendsTransitive(justify.block, target, newcomer.value);
        ExtendsDepth(justify.block, newcomer.value);
      }
      OnlyLastUpdates(t, newcomer, target);
      CommitKeepsUpdateHeight(t, target);
    }
  }

  ghost predicate CommitsOnlyTarget(t: Tree, target: CryptoHash) {
    target in t.blocks && !IsCommitted(t, target) && OnlyTargetUpdates(t, target)
  }

  /** The tree in which a step's `update` runs: after the insert, if the step inserts. */
  function TreeAtUpdate(t: Tree, app: Verdict, e: StoreEvent): Tree {
    match e
    case InsertAndUpdate(block, appUpdates) => InsertBlock(t, block, appUpdates, app(block.hash))
    case UpdateOn(_) => t
  }

  function JustifyOf(e: StoreEvent): PhaseCertificate {
    match e
    case InsertAndUpdate(block, _) => block.justify
    case UpdateOn(pc) => pc
  }

  lemma StoreStepKeepsUpdateHeight(t: Tree, vs: ValidatorSet, app: Verdict, chainId: nat, e: StoreEvent, t': Tree)
    requires StoreInv(t, vs, app) && UpdateHeightOk(t) && StoreStep(t, app, chainId, e, t')
    ensures UpdateHeightOk(t')
    ensures
      var t1 := TreeAtUpdate(t, app, e);
      && Shape(t1) && UpdateHeightOk(t1)
      && (BlockToCommit(t1.View(), JustifyOf(e)).value.Some? ==>
            CommitsOnlyTarget(t1, BlockToCommit(t1.View(), JustifyOf(e)).value.value))
  {
    match e
    case InsertAndUpdate(block, appUpdates) =>
      InsertReachesMidInv(t, vs, app, chainId, block, appUpdates);
      InsertKeepsUpdateHeight(t, block, appUpdates, app(block.hash));
      StepKeepsUpdateHeight(TreeAtUpdate(t, app, e), vs, app, chainId, Some(block.hash), block.justify);
    case UpdateOn(pc) =>
      StepKeepsUpdateHeight(t, vs, app, chainId, None, pc);
  }

  /** In every run that starts without a previous update, the update height is that of a committed updating block. */
  lemma {:induction false} RunKeepsUpdateHeight(vs: ValidatorSet, app: Verdict, chainId: nat, run: seq<Tree>, n: nat)
    requires IsStoreRun(vs, app, chainId, run) && n < |run| && run[0].updateHeight.None?
    ensures UpdateHeightOk(run[n])
  {
    if n > 0 {
      RunKeepsUpdateHeight(vs, app, chainId, run, n - 1);
      StoreRunKeepsInv(vs, app, chainId, run, n - 1);
      assert CanStep(run[n - 1], app, chainId, run[n - 1 + 1]);
      var e :| StoreStep(run[n - 1], app, chainId, e, run[n]);
      StoreStepKeepsUpdateHeight(run[n - 1], vs, app, chainId, e, run[n]);
    }
  }

  /** The tree after an updating commit, as far as the survivors' heights go. */
  lemma SurvivorsOf(t: Tree, justify: PhaseCertificate, target: CryptoHash, h: CryptoHash)
    requires PcToLock(t.View(), justify).Ok? && BlockToCommit(t.View(), justify).Ok?
    requires BlockToCommit(t.View(), justify).value == Some(target)
    requires h in UpdateTree(t, justify).blocks
    ensures h in t.blocks && Comparable(h, target) && t.blocks[h] == UpdateTree(t, justify).blocks[h]
  {
  }

  lemma StepVerdicts(
      t: Tree, vs: ValidatorSet, app: Verdict, chainId: nat, e: StoreEvent, t': Tree, target: CryptoHash,
      pc: PhaseCertificate)
    requires StoreInv(t, vs, app) && UpdateHeightOk(t) && StoreStep(t, app, chainId, e, t')
    requires BlockToCommit(TreeAtUpdate(t, app, e).View(), JustifyOf(e)).value == Some(target)
    requires app(target).Some? && !pc.phase.Decide? && pc.block in t'.blocks && target in t'.blocks
    requires t.updateHeight.Some? ==> t'.blocks[pc.block].height > t.updateHeight.value
    requires t'.blocks[pc.block].height <= t'.blocks[target].height
    ensures IsCorrect(TreeAtUpdate(t, app, e), pc) != IsCorrect(t', pc) <==>
      pc.phase.Generic? && pc.block == target && PcCorrectlySigned(pc, t.committedVs)
  {
    var t1 := TreeAtUpdate(t, app, e);
    StoreStepKeepsUpdateHeight(t, vs, app, chainId, e, t');
    StatusBeforeCommit(t, vs, app, chainId, e, target);
    SurvivorsOf(t1, JustifyOf(e), target, pc.block);
    SurvivorsOf(t1, JustifyOf(e), target, target);
    VerdictChangesExactlyWhen(t1, target, pc);
    SameVerdict(CommitTree(t1, target), t', pc);
  }

  /** The verdict theorem for every step of every run: a step that commits a validator set update changes the
      verdict on a certificate in its range only for a quorum-signed Generic certificate of the updating block. */
  lemma RunVerdicts(
      vs: ValidatorSet, app: Verdict, chainId: nat, run: seq<Tree>, n: nat, e: StoreEvent, target: CryptoHash,
      pc: PhaseCertificate)
    requires IsStoreRun(vs, app, chainId, run) && n < |run| - 1 && run[0].updateHeight.None?
    requires StoreStep(run[n], app, chainId, e, run[n + 1])
    requires BlockToCommit(TreeAtUpdate(run[n], app, e).View(), JustifyOf(e)).value == Some(target)
    requires app(target).Some? && !pc.phase.Decide? && pc.block in run[n + 1].blocks && target in run[n + 1].blocks
    requires run[n].updateHeight.Some? ==> run[n + 1].blocks[pc.block].height > run[n].updateHeight.value
    requires run[n + 1].blocks[pc.block].height <= run[n + 1].blocks[target].height
    ensures IsCorrect(TreeAtUpdate(run[n], app, e), pc) != IsCorrect(run[n + 1], pc) <==>
      pc.phase.Generic? && pc.block == target && PcCorrectlySigned(pc, run[n].committedVs)
  {
    RunKeepsUpdateHeight(vs, app, chainId, run, n);
    StoreRunKeepsInv(vs, app, chainId, run, n);
    StepVerdicts(run[n], vs, app, chainId, e, run[n + 1], target, pc);
  }

  lemma StatusBeforeCommit(t: Tree, vs: ValidatorSet, app: Verdict, chainId: nat, e: StoreEvent, target: CryptoHash)
    requires StoreInv(t, vs, app) && SafeEvent(t, chainId, e)
    requires target in TreeAtUpdate(t, app, e).blocks && !IsCommitted(TreeAtUpdate(t, app, e), target) &&
      app(target).Some?
    ensures target in TreeAtUpdate(t, app, e).status && TreeAtUpdate(t, app, e).status[target].Pending?
  {
    match e
    case InsertAndUpdate(block, appUpdates) =>
      InsertReachesMidInv(t, vs, app, chainId, block, appUpdates);
      assert StatusAt(TreeAtUpdate(t, app, e), app, target);
    case UpdateOn(_) =>
      assert StatusAt(t, app, target);
  }

  ghost predicate SafeEvent(t: Tree, chainId: nat, e: StoreEvent) {
    e.InsertAndUpdate? ==> SafeBlock(t.View(), e.block, chainId) && MayInsert(t, e.block)
  }

  /** The certificates and the decided flag play no part in the verdict on a phase certificate. */
  lemma SameVerdict(t: Tree, t': Tree, pc: PhaseCertificate)
    requires t' == t.(highestPc := t'.highestPc, lockedPc := t'.lockedPc, updateDecided := t'.updateDecided)
    ensures IsCorrect(t, pc) == IsCorrect(t', pc)
  {
  }

  // ---------------------------------------------------------------------------------------------------
  // Certificates that can exist

  /** The replica's app is the deterministic function that the machine is configured with. */
  ghost predicate SameApp(c: VoteLog.Config, app: Verdict) {
    forall b {:trigger c.updates(b)} {:trigger app(b)} :: c.updates(b) <==> app(b).Some?
  }

  /** No signature makes a Generic certificate for an updating block, unless a third of the power is Byzantine.  So of
      the certificates that can exist under the set that is about to be replaced, every Generic, Prepare, Precommit and
      Commit certificate of a surviving block above the previous update height and at or below h keeps its verdict. */
  lemma ExistingVerdictsStay(
      c: VoteLog.Config, log: VoteLog.Log, app: Verdict, t: Tree, target: CryptoHash, pc: PhaseCertificate)
    requires VoteLog.GoodConfig(c) && VoteLog.GoodLog(c, log) && VoteLog.Unforged(c, log, pc.signatures)
    requires SameApp(c, app) && StatusOk(t, app) && t.committedVs == c.vs
    requires Shape(t) && UpdateHeightOk(t) && CommitsUpdate(t, target)
    requires pc.block in t.blocks && Comparable(pc.block, target) && !pc.phase.Decide?
    requires t.updateHeight.Some? ==> t.blocks[pc.block].height > t.updateHeight.value
    requires t.blocks[pc.block].height <= t.blocks[target].height
    ensures IsCorrect(t, pc) == IsCorrect(CommitTree(t, target), pc)
  {
    VerdictChangesExactlyWhen(t, target, pc);
    assert StatusAt(t, app, target);
    assert c.updates(target) <==> app(target).Some?;
    if pc.phase.Generic? && pc.block == target && PcCorrectlySigned(pc, t.committedVs) {
      VoteLog.PhaseFitsBlock(c, log, pc);
    }
  }

  /** The same in every run of the protocol machine. */
  lemma RunVerdictsStay(
      c: VoteLog.Config, run: seq<Protocol.State>, n: nat, app: Verdict, t: Tree, target: CryptoHash,
      pc: PhaseCertificate)
    requires VoteLog.GoodConfig(c) && Protocol.IsRun(c, run) && n < |run| && Protocol.CanArrive(c, run[n].log, pc)
    requires SameApp(c, app) && StatusOk(t, app) && t.committedVs == c.vs
    requires Shape(t) && UpdateHeightOk(t) && CommitsUpdate(t, target)
    requires pc.block in t.blocks && Comparable(pc.block, target) && !pc.phase.Decide?
    requires t.updateHeight.Some? ==> t.blocks[pc.block].height > t.updateHeight.value
    requires t.blocks[pc.block].height <= t.blocks[target].height
    ensures IsCorrect(t, pc) == IsCorrect(CommitTree(t, target), pc)
  {
    Protocol.RunKeepsInv(c, run, n);
    ExistingVerdictsStay(c, run[n].log, app, t, target, pc);
  }

  // ---------------------------------------------------------------------------------------------------
  // One fixed validator set

  /** Before the first validator set update, `is_correct` is the verdict that the protocol machine uses. */
  lemma VerdictUnderFixedSet(t: Tree, c: VoteLog.Config, pc: PhaseCertificate)
    requires t.committedVs == c.vs && t.updateHeight.None?
    ensures IsCorrect(t, pc) <==> Protocol.IsCorrect(c, pc)
  {
  }
}
