/** `update`, and what every run of inserts and updates keeps. */
module StoreRuns {
  import opened Types
  import opened Quorums
  import opened UpdateSets
  import opened SafetyRules
  import opened BlockStore
  import opened Commitment

  ghost function CommitIfNeeded(t: Tree, target: Option<CryptoHash>): Tree {
    match target
    case None => t
    case Some(block) => CommitTree(t, block)
  }

  /** The tree that `update` writes; all its reads see the tree before. */
  ghost function UpdateTree(t: Tree, justify: PhaseCertificate): Tree
    requires PcToLock(t.View(), justify).Ok? && BlockToCommit(t.View(), justify).Ok?
  {
    var t1 := CommitIfNeeded(t, BlockToCommit(t.View(), justify).value);
    t1.(highestPc := NewHighest(t.View(), justify),
        lockedPc := NewLock(t.View(), justify),
        updateDecided := justify.phase.Decide? || t1.updateDecided)
  }

  /** On a safe justify, no lookup that `update` makes can fail. */
  lemma UpdateNeverErrs(t: Tree, justify: PhaseCertificate, chainId: nat)
    requires BlocksOk(t) && SafePc(t.View(), justify, chainId)
    ensures PcToLock(t.View(), justify).Ok? && BlockToCommit(t.View(), justify).Ok?
  {
    if !IsGenesisPc(justify) {
      assert BlockOk(t, justify.block);
      var parentJustify := justify.block.justify;
      if !IsGenesisPc(parentJustify) {
        assert BlockOk(t, parentJustify.block);
        var grandparentJustify := parentJustify.block.justify;
        if !IsGenesisPc(grandparentJustify) {
          assert BlockOk(t, grandparentJustify.block);
        }
      }
    }
  }

  /** `block_to_commit` names a stored block that is not committed yet. */
  lemma TargetIsUncommitted(t: Tree, justify: PhaseCertificate)
    requires BlocksOk(t) && ChainOk(t)
    requires BlockToCommit(t.View(), justify).Ok? && BlockToCommit(t.View(), justify).value.Some?
    ensures
      var target := BlockToCommit(t.View(), justify).value.value;
      && target in t.blocks && !IsCommitted(t, target)
      && justify.block in t.blocks && Extends(justify.block, target)
  {
    var target := BlockToCommit(t.View(), justify).value.value;
    if t.highestCommitted.Some? {
      assert BlockOk(t, t.highestCommitted.value);
      AboveTipDescends(t, target);
    }
    if justify.phase.Generic? {
      assert Extends(justify.block.justify.block, target);
    }
  }

  // ---------------------------------------------------------------------------------------------------
  // What an update commits, locks and decides

  /** `b` starts a chain of three Generic certificates of consecutive views that `justify` ends. */
  ghost predicate StartsThreeChain(justify: PhaseCertificate, b: CryptoHash) {
    && justify.phase.Generic? && !IsGenesisPc(justify) && justify.block.Digest?
    && var parent := justify.block.justify;
       && !IsGenesisPc(parent) && parent.block.Digest? && justify.view == parent.view + 1
       && var grandparent := parent.block.justify;
          !IsGenesisPc(grandparent) && grandparent.block == b && parent.view == grandparent.view + 1
  }

  /** The commit rule of the pipelined mode and that of the phased mode. */
  ghost predicate CommitRule(justify: PhaseCertificate, b: CryptoHash) {
    || StartsThreeChain(justify, b)
    || ((justify.phase.Commit? || justify.phase.Decide?) && justify.block == b)
  }

  lemma TargetMeetsRule(v: TreeView, justify: PhaseCertificate)
    requires BlockToCommit(v, justify).Ok? && BlockToCommit(v, justify).value.Some?
    ensures CommitRule(justify, BlockToCommit(v, justify).value.value)
  {
  }

  /** What a commit rule names is stored. */
  lemma RuleNamesStored(t: Tree, justify: PhaseCertificate, chainId: nat, b: CryptoHash)
    requires BlocksOk(t) && SafePc(t.View(), justify, chainId) && CommitRule(justify, b)
    ensures b in t.blocks && b.Digest?
  {
    assert BlockOk(t, justify.block);
    if justify.phase.Generic? {
      assert BlockOk(t, justify.block.justify.block);
    }
    assert BlockOk(t, b);
  }

  /** On a safe justify, `update` commits exactly what the commit rules call for: a block is committed afterwards if and
      only if it was before, or a rule names it or one of its descendants. */
  lemma CommitsExactlyWhen(t: Tree, justify: PhaseCertificate, chainId: nat, h: CryptoHash)
    requires Shape(t) && SafePc(t.View(), justify, chainId)
    ensures PcToLock(t.View(), justify).Ok? && BlockToCommit(t.View(), justify).Ok?
    ensures IsCommitted(UpdateTree(t, justify), h) <==>
      IsCommitted(t, h) || exists b :: CommitRule(justify, b) && Extends(b, h)
  {
    UpdateNeverErrs(t, justify, chainId);
    match BlockToCommit(t.View(), justify).value
    case Some(target) =>
      TargetIsUncommitted(t, justify);
      TipBelowTarget(t, target);
      TargetMeetsRule(t.View(), justify);
      if IsCommitted(t, h) {
        ExtendsTransitive(target, t.highestCommitted.value, h);
      }
    case None =>
      if b :| CommitRule(justify, b) && Extends(b, h) {
        RuleNamesStored(t, justify, chainId, b);
        assert t.highestCommitted.Some? ==> BlockOk(t, t.highestCommitted.value);
        AboveTipDescends(t, b);
        ExtendsTransitive(t.highestCommitted.value, b, h);
      }
  }

  /** Every three-chain gets its first block committed, and every Commit or Decide certificate its own. */
  lemma RulesAlwaysCommit(t: Tree, justify: PhaseCertificate, chainId: nat, b: CryptoHash)
    requires Shape(t) && SafePc(t.View(), justify, chainId) && CommitRule(justify, b)
    ensures PcToLock(t.View(), justify).Ok? && BlockToCommit(t.View(), justify).Ok?
    ensures IsCommitted(UpdateTree(t, justify), b)
  {
    CommitsExactlyWhen(t, justify, chainId, b);
  }

  // ---------------------------------------------------------------------------------------------------
  // Immediacy

  ghost predicate ImmediateAt(t: Tree, h: CryptoHash) {
    h.Digest? && h.justify.block in t.status ==> IsCommitted(t, h.justify.block)
  }

  /** Every validator-set-updating block with a child other than `newcomer` is committed. */
  ghost predicate ImmediateBut(t: Tree, newcomer: Option<CryptoHash>) {
    forall h {:trigger ImmediateAt(t, h)} | h in t.blocks && newcomer != Some(h) :: ImmediateAt(t, h)
  }

  ghost predicate Immediacy(t: Tree) {
    ImmediateBut(t, None)
  }

  /** A commit batch has at most one validator-set-updating block, and it is the last. */
  lemma OnlyLastUpdates(t: Tree, newcomer: Option<CryptoHash>, target: CryptoHash)
    requires Shape(t) && ImmediateBut(t, newcomer)
    requires target in t.blocks && !IsCommitted(t, target)
    requires newcomer.Some? ==> !Extends(target, newcomer.value)
    ensures OnlyTargetUpdates(t, target)
  {
    var path := UncommittedPath(t, target);
    PathFacts(t, target);
    forall h | h in path && h != target ensures h !in t.status {
      var i :| 0 <= i < |path| && path[i] == h;
      assert path[i + 1].justify.block == path[i + 1 - 1];
      assert ImmediateAt(t, path[i + 1]);
    }
  }

  // ---------------------------------------------------------------------------------------------------
  // The committed validator set is the fold of the committed updates

  type Verdict = CryptoHash -> Option<ValidatorSetUpdates>

  /** `vs` after the updates of `h` and all of its ancestors, in chain order. */
  function SetAfter(vs: ValidatorSet, app: Verdict, h: CryptoHash): ValidatorSet {
    if h.Zero? then vs
    else
      var before := SetAfter(vs, app, h.justify.block);
      if app(h).Some? then ApplyUpdates(before, app(h).value) else before
  }

  /** Update statuses of uncommitted blocks record what the app answered. */
  ghost predicate StatusAt(t: Tree, app: Verdict, h: CryptoHash) {
    && (h in t.status <==> app(h).Some?)
    && (h in t.status && !IsCommitted(t, h) ==> t.status[h] == Pending(app(h).value))
  }

  ghost predicate StatusOk(t: Tree, app: Verdict) {
    forall h {:trigger StatusAt(t, app, h)} | h in t.blocks :: StatusAt(t, app, h)
  }

  ghost predicate FoldOk(t: Tree, vs: ValidatorSet, app: Verdict) {
    t.committedVs == SetAfter(vs, app, Base(t))
  }

  /** Along a path without updating blocks, the fold does not change. */
  lemma {:induction false} FoldAlongPath(
      t: Tree, vs: ValidatorSet, app: Verdict, target: CryptoHash, path: seq<CryptoHash>, i: nat)
    requires IsPathTo(t, target, path) && i < |path|
    requires forall j | 0 <= j < i :: app(path[j]).None?
    ensures SetAfter(vs, app, path[i].justify.block) == SetAfter(vs, app, Base(t))
  {
    if i > 0 {
      FoldAlongPath(t, vs, app, target, path, i - 1);
    }
  }

  lemma CommitFolds(t: Tree, vs: ValidatorSet, app: Verdict, target: CryptoHash)
    requires Shape(t) && StatusOk(t, app) && FoldOk(t, vs, app)
    requires target in t.blocks && !IsCommitted(t, target) && OnlyTargetUpdates(t, target)
    ensures FoldOk(CommitTree(t, target), vs, app)
  {
    var path := UncommittedPath(t, target);
    PathFacts(t, target);
    forall j | 0 <= j < |path| - 1 ensures app(path[j]).None? {
      assert StatusAt(t, app, path[j]);
      PathIsOrdered(t, target, path, j, |path| - 1);
    }
    FoldAlongPath(t, vs, app, target, path, |path| - 1);
    assert StatusAt(t, app, target);
    if app(target).None? {
      NobodyUpdates(t, path);
    }
  }

  lemma {:induction false} NobodyUpdates(t: Tree, path: seq<CryptoHash>)
    requires forall h | h in path :: h !in t.status
    ensures LastUpdating(t, path).None?
  {
    if path != [] {
      assert path[|path| - 1] in path;
      NobodyUpdates(t, path[..|path| - 1]);
    }
  }

  lemma CommitKeepsStatus(t: Tree, app: Verdict, target: CryptoHash)
    requires Shape(t) && StatusOk(t, app)
    requires target in t.blocks && !IsCommitted(t, target) && OnlyTargetUpdates(t, target)
    ensures StatusOk(CommitTree(t, target), app)
  {
    var t' := CommitTree(t, target);
    TipBelowTarget(t, target);
    forall h | h in t'.blocks ensures StatusAt(t', app, h) {
      assert StatusAt(t, app, h);
      if IsCommitted(t, h) {
        ExtendsTransitive(target, t.highestCommitted.value, h);
      }
    }
  }

  lemma CommitKeepsImmediacy(t: Tree, newcomer: Option<CryptoHash>, target: CryptoHash)
    requires BlocksOk(t) && ChainOk(t) && ImmediateBut(t, newcomer) && target in t.blocks && !IsCommitted(t, target)
    ensures ImmediateBut(CommitTree(t, target), newcomer)
  {
    var t' := CommitTree(t, target);
    TipBelowTarget(t, target);
    forall h | h in t'.blocks && newcomer != Some(h) ensures ImmediateAt(t', h) {
      assert ImmediateAt(t, h);
      if h.Digest? && IsCommitted(t, h.justify.block) {
        ExtendsTransitive(target, t.highestCommitted.value, h.justify.block);
      }
    }
  }

  // ---------------------------------------------------------------------------------------------------
  // Runs

  /** The locked block is in the tree, or genesis; the Highest PC covers the lock and every justify. */
  ghost predicate CertificatesOk(t: Tree, pendingJustify: Option<PhaseCertificate>) {
    && (IsGenesisPc(t.lockedPc) || t.lockedPc.block in t.blocks)
    && t.lockedPc.view <= t.highestPc.view
    && (forall h | h in t.blocks && h.Digest? ::
          h.justify.view <= t.highestPc.view || pendingJustify == Some(h.justify))
  }

  ghost predicate StoreInv(t: Tree, vs: ValidatorSet, app: Verdict) {
    Shape(t) && Immediacy(t) && StatusOk(t, app) && FoldOk(t, vs, app) && CertificatesOk(t, None)
  }

  datatype StoreEvent =
    | InsertAndUpdate(block: Block, appUpdates: Option<AppStateUpdates>)
    | UpdateOn(pc: PhaseCertificate)

  ghost predicate StoreStep(t: Tree, app: Verdict, chainId: nat, e: StoreEvent, t': Tree) {
    match e
    case InsertAndUpdate(block, appUpdates) =>
      && SafeBlock(t.View(), block, chainId) && MayInsert(t, block)
      && var t1 := InsertBlock(t, block, appUpdates, app(block.hash));
         PcToLock(t1.View(), block.justify).Ok? && BlockToCommit(t1.View(), block.justify).Ok?
         && t' == UpdateTree(t1, block.justify)
    case UpdateOn(pc) =>
      && SafePc(t.View(), pc, chainId)
      && PcToLock(t.View(), pc).Ok? && BlockToCommit(t.View(), pc).Ok?
      && t' == UpdateTree(t, pc)
  }

  /** The invariant between the two writes of an insert-and-update step: the newcomer's parent may still be an
      uncommitted validator-set-updating block, and the Highest PC may lag behind the newcomer's justify. */
  ghost predicate MidInv(
      t: Tree, vs: ValidatorSet, app: Verdict, newcomer: Option<CryptoHash>, justify: PhaseCertificate) {
    && Shape(t) && ImmediateBut(t, newcomer) && StatusOk(t, app) && FoldOk(t, vs, app)
    && CertificatesOk(t, Some(justify))
    && (newcomer.Some? ==> newcomer.value.Digest? && newcomer.value.justify == justify && IsBlockJustify(justify))
  }

  lemma InsertReachesMidInv(
      t: Tree, vs: ValidatorSet, app: Verdict, chainId: nat, block: Block, appUpdates: Option<AppStateUpdates>)
    requires StoreInv(t, vs, app) && SafeBlock(t.View(), block, chainId) && MayInsert(t, block)
    ensures MidInv(InsertBlock(t, block, appUpdates, app(block.hash)), vs, app, Some(block.hash), block.justify)
    ensures SafePc(InsertBlock(t, block, appUpdates, app(block.hash)).View(), block.justify, chainId)
  {
    var t1 := InsertBlock(t, block, appUpdates, app(block.hash));
    InsertKeepsShape(t, block, appUpdates, app(block.hash));
    forall h | h in t1.blocks && Some(block.hash) != Some(h) ensures ImmediateAt(t1, h) {
      assert ImmediateAt(t, h);
      if h.Digest? && h.justify.block == block.hash {
        assert BlockOk(t, h);
        assert StatusAt(t, app, block.hash);
      }
    }
    forall h | h in t1.blocks ensures StatusAt(t1, app, h) {
      if h in t.blocks {
        assert StatusAt(t, app, h);
      }
    }
    assert block.justify.block != block.hash;
  }

  /** The newcomer's parent, if it updates the validator set, is committed by the update that follows. */
  lemma NewcomerBecomesImmediate(t: Tree, justify: PhaseCertificate, chainId: nat, h: CryptoHash)
    requires BlocksOk(t) && ChainOk(t) && SafePc(t.View(), justify, chainId) && IsBlockJustify(justify)
    requires PcToLock(t.View(), justify).Ok? && BlockToCommit(t.View(), justify).Ok?
    requires h.Digest? && h.justify == justify
    ensures ImmediateAt(UpdateTree(t, justify), h)
  {
    var parent := justify.block;
    if parent in t.status {
      assert justify.phase.Decide?;
      assert BlockOk(t, parent);
      if t.highestCommitted.Some? {
        assert BlockOk(t, t.highestCommitted.value);
        AboveTipDescends(t, parent);
      }
    }
  }

  /** After an update the lock points into the part of the tree that a commit keeps. */
  lemma LockSurvives(t: Tree, justify: PhaseCertificate, chainId: nat)
    requires BlocksOk(t) && ChainOk(t) && SafePc(t.View(), justify, chainId)
    requires IsGenesisPc(t.lockedPc) || t.lockedPc.block in t.blocks
    requires PcToLock(t.View(), justify).Ok? && BlockToCommit(t.View(), justify).Ok?
    ensures
      var lock := NewLock(t.View(), justify);
      IsGenesisPc(lock) || (lock.block in t.blocks &&
        (BlockToCommit(t.View(), justify).value.Some? ==>
          Comparable(lock.block, BlockToCommit(t.View(), justify).value.value)))
  {
    if !IsGenesisPc(justify) {
      assert BlockOk(t, justify.block);
      var parentJustify := justify.block.justify;
      if !IsGenesisPc(parentJustify) {
        assert BlockOk(t, parentJustify.block);
        assert Extends(parentJustify.block, parentJustify.block.justify.block);
      }
    }
  }

  /** The Highest PC covers the new lock and, at last, the newcomer's justify. */
  lemma HighestCovers(t: Tree, justify: PhaseCertificate, chainId: nat)
    requires SafePc(t.View(), justify, chainId) && CertificatesOk(t, Some(justify))
    requires PcToLock(t.View(), justify).Ok?
    ensures NewLock(t.View(), justify).view <= NewHighest(t.View(), justify).view
    ensures forall h | h in t.blocks && h.Digest? :: h.justify.view <= NewHighest(t.View(), justify).view
  {
  }

  lemma UpdateKeepsCertificates(t: Tree, justify: PhaseCertificate, chainId: nat)
    requires BlocksOk(t) && ChainOk(t) && SafePc(t.View(), justify, chainId) && CertificatesOk(t, Some(justify))
    requires PcToLock(t.View(), justify).Ok? && BlockToCommit(t.View(), justify).Ok?
    ensures CertificatesOk(UpdateTree(t, justify), None)
  {
    LockSurvives(t, justify, chainId);
    HighestCovers(t, justify, chainId);
  }

  lemma UpdateReachesInv(
      t: Tree, vs: ValidatorSet, app: Verdict, chainId: nat, newcomer: Option<CryptoHash>, justify: PhaseCertificate)
    requires MidInv(t, vs, app, newcomer, justify) && SafePc(t.View(), justify, chainId)
    requires PcToLock(t.View(), justify).Ok? && BlockToCommit(t.View(), justify).Ok?
    ensures StoreInv(UpdateTree(t, justify), vs, app)
  {
    var t' := UpdateTree(t, justify);
    UpdateKeepsCertificates(t, justify, chainId);
    if BlockToCommit(t.View(), justify).value.Some? {
      var target := BlockToCommit(t.View(), justify).value.value;
      TargetIsUncommitted(t, justify);
      if newcomer.Some? && Extends(target, newcomer.value) {
        ExtendsTransitive(justify.block, target, newcomer.value);
        ExtendsDepth(justify.block, newcomer.value);
      }
      OnlyLastUpdates(t, newcomer, target);
      CommitKeepsShape(t, target);
      CommitKeepsImmediacy(t, newcomer, target);
      CommitKeepsStatus(t, app, target);
      CommitFolds(t, vs, app, target);
      CopyInv(CommitTree(t, target), t', vs, app, newcomer);
    } else {
      CopyInv(t, t', vs, app, newcomer);
    }
    if newcomer.Some? {
      NewcomerBecomesImmediate(t, justify, chainId, newcomer.value);
    }
    assert Immediacy(t') by {
      forall h | h in t'.blocks ensures ImmediateAt(t', h) {
      }
    }
  }

  /** The lock after an update on a safe justify is the certificate below the certified block in the pipelined mode, and
      one of the certified block from Precommit on; the Highest PC is replaced by later certificates only. */
  lemma UpdateMoves(t: Tree, justify: PhaseCertificate, chainId: nat)
    requires BlocksOk(t) && SafePc(t.View(), justify, chainId)
    ensures PcToLock(t.View(), justify).Ok? && BlockToCommit(t.View(), justify).Ok?
    ensures UpdateTree(t, justify).lockedPc ==
      if IsGenesisPc(justify) || justify.phase.Prepare? then t.lockedPc
      else if justify.phase.Generic? then justify.block.justify
      else if justify.phase.Precommit? || t.lockedPc.block != justify.block then justify
      else t.lockedPc
    ensures UpdateTree(t, justify).highestPc == if justify.view > t.highestPc.view then justify else t.highestPc
  {
    UpdateNeverErrs(t, justify, chainId);
  }

  /** The update commits a block with pending validator set updates. */
  ghost predicate CommitsPending(t: Tree, justify: PhaseCertificate)
    requires PcToLock(t.View(), justify).Ok? && BlockToCommit(t.View(), justify).Ok?
  {
    exists h :: h in t.status && t.status[h].Pending? && IsCommitted(UpdateTree(t, justify), h)
  }

  /** A Decide justify is what decides an update, and a commit that updates the validator set is what opens one. */
  lemma DecidedExactlyWhen(t: Tree, justify: PhaseCertificate, chainId: nat)
    requires Shape(t) && SafePc(t.View(), justify, chainId)
    ensures PcToLock(t.View(), justify).Ok? && BlockToCommit(t.View(), justify).Ok?
    ensures UpdateTree(t, justify).updateDecided <==>
      justify.phase.Decide? || (t.updateDecided && !CommitsPending(t, justify))
  {
    UpdateNeverErrs(t, justify, chainId);
    if BlockToCommit(t.View(), justify).value.Some? {
      var target := BlockToCommit(t.View(), justify).value.value;
      TargetIsUncommitted(t, justify);
      PathFacts(t, target);
      var last := LastUpdating(t, UncommittedPath(t, target));
      if last.Some? {
        assert IsCommitted(UpdateTree(t, justify), last.value);
      }
      if CommitsPending(t, justify) {
        var h :| h in t.status && t.status[h].Pending? && IsCommitted(UpdateTree(t, justify), h);
        NewlyCommitted(t, target, h);
        PendingOnPath(t, UncommittedPath(t, target), h);
      }
    }
  }

  lemma {:induction false} PendingOnPath(t: Tree, path: seq<CryptoHash>, h: CryptoHash)
    requires h in path && h in t.status && t.status[h].Pending?
    ensures LastUpdating(t, path).Some?
  {
    var front := path[..|path| - 1];
    if path[|path| - 1] != h {
      assert path == front + [path[|path| - 1]];
      PendingOnPath(t, front, h);
    }
  }

  /** A certificate that was safe is still safe after the update on it: the new lock is at most one link below it. */
  lemma StaysSafe(t: Tree, app: Verdict, justify: PhaseCertificate, chainId: nat)
    requires Shape(t) && StatusOk(t, app) && SafePc(t.View(), justify, chainId)
    requires PcToLock(t.View(), justify).Ok? && BlockToCommit(t.View(), justify).Ok?
    requires StatusOk(UpdateTree(t, justify), app)
    ensures SafePc(UpdateTree(t, justify).View(), justify, chainId)
  {
    UpdateMoves(t, justify, chainId);
    if BlockToCommit(t.View(), justify).value.Some? {
      TargetIsUncommitted(t, justify);
      assert StatusAt(t, app, justify.block) && StatusAt(UpdateTree(t, justify), app, justify.block);
    }
  }

  /** Processing a certificate again has no effect: it is still safe, and the second update changes nothing. */
  lemma UpdateIsIdempotent(t: Tree, vs: ValidatorSet, app: Verdict, justify: PhaseCertificate, chainId: nat)
    requires StoreInv(t, vs, app) && SafePc(t.View(), justify, chainId)
    ensures PcToLock(t.View(), justify).Ok? && BlockToCommit(t.View(), justify).Ok?
    ensures
      var t' := UpdateTree(t, justify);
      && SafePc(t'.View(), justify, chainId)
      && PcToLock(t'.View(), justify).Ok? && BlockToCommit(t'.View(), justify).Ok?
      && UpdateTree(t', justify) == t'
  {
    UpdateNeverErrs(t, justify, chainId);
    var t' := UpdateTree(t, justify);
    UpdateReachesInv(t, vs, app, chainId, None, justify);
    StaysSafe(t, app, justify, chainId);
    forall b | CommitRule(justify, b) ensures IsCommitted(t', b) {
      RulesAlwaysCommit(t, justify, chainId, b);
    }
    UpdateNeverErrs(t', justify, chainId);
    NothingLeftToCommit(t', justify);
    UpdateMoves(t, justify, chainId);
    UpdateMoves(t', justify, chainId);
  }

  lemma NothingLeftToCommit(t: Tree, justify: PhaseCertificate)
    requires BlocksOk(t) && ChainOk(t) && BlockToCommit(t.View(), justify).Ok?
    requires forall b | CommitRule(justify, b) :: IsCommitted(t, b)
    ensures BlockToCommit(t.View(), justify).value.None?
  {
    if BlockToCommit(t.View(), justify).value.Some? {
      TargetIsUncommitted(t, justify);
      TargetMeetsRule(t.View(), justify);
    }
  }

  /** The certificates and the decided flag play no part in these invariants. */
  lemma CopyInv(t: Tree, t': Tree, vs: ValidatorSet, app: Verdict, newcomer: Option<CryptoHash>)
    requires Shape(t) && ImmediateBut(t, newcomer) && StatusOk(t, app) && FoldOk(t, vs, app)
    requires t' == t.(highestPc := t'.highestPc, lockedPc := t'.lockedPc, updateDecided := t'.updateDecided)
    ensures Shape(t') && ImmediateBut(t', newcomer) && StatusOk(t', app) && FoldOk(t', vs, app)
  {
    forall h | h in t'.blocks ensures BlockOk(t', h) && ListedOk(t', h) && StatusAt(t', app, h) {
      assert BlockOk(t, h) && ListedOk(t, h) && StatusAt(t, app, h);
    }
    forall p, c | p in t'.children && c in t'.children[p] ensures ChildOk(t', p, c) {
      assert ChildOk(t, p, c);
    }
    forall p | p in t'.children ensures OwnerOk(t', p) {
      assert OwnerOk(t, p);
    }
    forall h | h in t'.blocks && newcomer != Some(h) ensures ImmediateAt(t', h) {
      assert ImmediateAt(t, h);
    }
  }

  lemma StepKeepsStoreInv(t: Tree, vs: ValidatorSet, app: Verdict, chainId: nat, e: StoreEvent, t': Tree)
    requires StoreInv(t, vs, app) && StoreStep(t, app, chainId, e, t')
    ensures StoreInv(t', vs, app)
    ensures t'.highestPc.view >= t.highestPc.view
  {
    match e
    case InsertAndUpdate(block, appUpdates) =>
      InsertReachesMidInv(t, vs, app, chainId, block, appUpdates);
      var t1 := InsertBlock(t, block, appUpdates, app(block.hash));
      UpdateReachesInv(t1, vs, app, chainId, Some(block.hash), block.justify);
    case UpdateOn(pc) =>
      UpdateReachesInv(t, vs, app, chainId, None, pc);
  }

  ghost predicate IsStoreRun(vs: ValidatorSet, app: Verdict, chainId: nat, run: seq<Tree>) {
    && |run| > 0
    && (exists appState, previousVs, height, decided ::
          run[0] == InitialTree(appState, vs, previousVs, height, decided))
    && forall i | 0 <= i < |run| - 1 :: CanStep(run[i], app, chainId, run[i + 1])
  }

  ghost predicate CanStep(t: Tree, app: Verdict, chainId: nat, t': Tree) {
    exists e :: StoreStep(t, app, chainId, e, t')
  }

  /** In every run of a replica's store: the tree keeps its shape; every validator-set-updating block with a child
      is committed; the committed validator set is the fold of the committed updates in chain order; the locked
      block is in the tree or genesis; and the Highest PC is at least as high as the lock and every justify. */
  lemma {:induction false} StoreRunKeepsInv(vs: ValidatorSet, app: Verdict, chainId: nat, run: seq<Tree>, n: nat)
    requires IsStoreRun(vs, app, chainId, run) && n < |run|
    ensures StoreInv(run[n], vs, app)
  {
    if n > 0 {
      StoreRunKeepsInv(vs, app, chainId, run, n - 1);
      assert CanStep(run[n - 1], app, chainId, run[n - 1 + 1]);
      var e :| StoreStep(run[n - 1], app, chainId, e, run[n]);
      StepKeepsStoreInv(run[n - 1], vs, app, chainId, e, run[n]);
    }
  }

  /** A block that is inserted survives the update on its own justify, with all its data and its app-state
      updates pending, as the newest block; on top of the tip, hence uncommitted. */
  lemma InsertedSurvives(
      t: Tree, vs: ValidatorSet, app: Verdict, chainId: nat, block: Block, appUpdates: Option<AppStateUpdates>,
      t': Tree)
    requires StoreInv(t, vs, app) && StoreStep(t, app, chainId, InsertAndUpdate(block, appUpdates), t')
    ensures block.hash in t'.blocks && t'.blocks[block.hash] == block && t'.newest == Some(block.hash)
    ensures !IsCommitted(t', block.hash)
    ensures appUpdates.Some? ==> block.hash in t'.pendingApp && t'.pendingApp[block.hash] == appUpdates.value
    ensures app(block.hash).Some? ==> block.hash in t'.status && t'.status[block.hash] == Pending(app(block.hash).value)
  {
    var t1 := InsertBlock(t, block, appUpdates, app(block.hash));
    InsertReachesMidInv(t, vs, app, chainId, block, appUpdates);
    ChildSurvives(t1, block.hash);
  }

  /** An update on a block's own justify changes nothing that is stored for the block. */
  lemma ChildSurvives(t: Tree, h: CryptoHash)
    requires Shape(t) && h in t.blocks && h.Digest? && !IsCommitted(t, h)
    requires PcToLock(t.View(), h.justify).Ok? && BlockToCommit(t.View(), h.justify).Ok?
    ensures
      var t' := UpdateTree(t, h.justify);
      && h in t'.blocks && t'.blocks[h] == t.blocks[h] && t'.newest == t.newest && !IsCommitted(t', h)
      && (h in t.pendingApp ==> h in t'.pendingApp && t'.pendingApp[h] == t.pendingApp[h])
      && (h in t.status ==> h in t'.status && t'.status[h] == t.status[h])
  {
    if BlockToCommit(t.View(), h.justify).value.Some? {
      var target := BlockToCommit(t.View(), h.justify).value.value;
      TargetIsUncommitted(t, h.justify);
      NotBelowItself(h, target);
      ChildOutlives(t, h, target);
    }
  }

  lemma ChildOutlives(t: Tree, h: CryptoHash, target: CryptoHash)
    requires Shape(t) && h in t.blocks && target in t.blocks && !IsCommitted(t, target)
    requires Extends(h, target) && !Extends(target, h)
    ensures
      var t' := CommitTree(t, target);
      && h in t'.blocks && t'.blocks[h] == t.blocks[h] && t'.newest == t.newest && !IsCommitted(t', h)
      && (h in t.pendingApp ==> h in t'.pendingApp && t'.pendingApp[h] == t.pendingApp[h])
      && (h in t.status ==> h in t'.status && t'.status[h] == t.status[h])
  {
    PathFacts(t, target);
    assert h !in UncommittedPath(t, target);
  }

  /** No block extends one that is built on it. */
  lemma NotBelowItself(h: CryptoHash, a: CryptoHash)
    requires h.Digest? && Extends(h.justify.block, a)
    ensures Extends(h, a) && !Extends(a, h)
  {
    if Extends(a, h) {
      ExtendsTransitive(h.justify.block, a, h);
      ExtendsDepth(h.justify.block, h);
    }
  }
}
