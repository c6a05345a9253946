/** The predicates and decision rules of `block_tree/invariants.rs`, over the part of the block tree that
    they read. */
module SafetyRules {
  import opened Types

  datatype Error = BlockExpectedButNotFound(block: CryptoHash) | JustifyExpectedButNotFound(block: CryptoHash)
  datatype Result<+T> = Ok(value: T) | Err(error: Error)

  /** `blocks` are the hashes of the blocks in the tree, `updating` those stored with a pending or
      committed validator set update. */
  datatype TreeView = TreeView(
    blocks: set<CryptoHash>,
    updating: set<CryptoHash>,
    lockedPc: PhaseCertificate,
    highestPc: PhaseCertificate,
    committedHeight: Option<nat>)
  {
    predicate Contains(b: CryptoHash) {
      b in blocks && b.Digest?
    }

    function BlockJustify(b: CryptoHash): Result<PhaseCertificate> {
      if Contains(b) then Ok(b.justify) else Err(JustifyExpectedButNotFound(b))
    }
  }

  /** `locked_pc.block` is the certified block, its parent or its grandparent. */
  predicate ExtendsLockedPcBlock(v: TreeView, pc: PhaseCertificate) {
    var locked := v.lockedPc.block;
    || pc.block == locked
    || (v.Contains(pc.block) &&
        (|| pc.block.justify.block == locked
         || (v.Contains(pc.block.justify.block) && pc.block.justify.block.justify.block == locked)))
  }

  /** On a stored block with a stored parent, the lock check reaches back exactly two links. */
  lemma LockCheckReachesTwoBack(v: TreeView, pc: PhaseCertificate)
    requires v.Contains(pc.block) && (v.Contains(pc.block.justify.block) || pc.block.justify.block == Zero)
    ensures ExtendsLockedPcBlock(v, pc) <==>
      v.lockedPc.block in {Below(pc.block, 0), Below(pc.block, 1), Below(pc.block, 2)}
  {
    var parent := pc.block.justify.block;
    assert Below(pc.block, 1) == Below(parent, 0) == parent;
    assert Below(pc.block, 2) == Below(parent, 1);
    assert parent.Digest? ==> Below(parent, 1) == Below(parent.justify.block, 0);
  }

  predicate SafePc(v: TreeView, pc: PhaseCertificate, chainId: nat) {
    && (pc.chainId == chainId || IsGenesisPc(pc))
    && (v.Contains(pc.block) || IsGenesisPc(pc))
    && (pc.view > v.lockedPc.view || ExtendsLockedPcBlock(v, pc))
    && (pc.phase.Generic? <==> pc.block !in v.updating)
  }

  predicate SafeBlock(v: TreeView, block: Block, chainId: nat) {
    SafePc(v, block.justify, chainId) && IsBlockJustify(block.justify)
  }

  predicate SafeNudge(v: TreeView, nudge: Nudge, currentView: nat, chainId: nat) {
    && SafePc(v, nudge.justify, chainId)
    && IsNudgeJustify(nudge.justify)
    && nudge.chainId == chainId
    && (nudge.justify.phase.Commit? || nudge.justify.view + 1 == currentView)
  }

  function PcToLock(v: TreeView, justify: PhaseCertificate): Result<Option<PhaseCertificate>> {
    if IsGenesisPc(justify) then Ok(None)
    else
      match justify.phase
      case Generic =>
        (match v.BlockJustify(justify.block)
         case Err(e) => Err(e)
         case Ok(parentJustify) => Ok(if parentJustify != v.lockedPc then Some(parentJustify) else None))
      case Prepare => Ok(None)
      case Precommit => Ok(if justify != v.lockedPc then Some(justify) else None)
      case Commit => Ok(if v.lockedPc.block != justify.block then Some(justify) else None)
      case Decide => Ok(if v.lockedPc.block != justify.block then Some(justify) else None)
  }

  /** `block` is not committed yet, judged by its height. */
  predicate NotCommittedYet(v: TreeView, block: CryptoHash)
    requires v.Contains(block)
  {
    v.committedHeight.None? || block.height > v.committedHeight.value
  }

  function BlockToCommit(v: TreeView, justify: PhaseCertificate): Result<Option<CryptoHash>> {
    if IsGenesisPc(justify) then Ok(None)
    else
      match justify.phase
      case Generic =>
        if !v.Contains(justify.block) then Err(JustifyExpectedButNotFound(justify.block))
        else
          var parentJustify := justify.block.justify;
          if IsGenesisPc(parentJustify) then Ok(None)
          else if !v.Contains(parentJustify.block) then Err(JustifyExpectedButNotFound(parentJustify.block))
          else
            var grandparentJustify := parentJustify.block.justify;
            if IsGenesisPc(grandparentJustify) then Ok(None)
            else if !v.Contains(grandparentJustify.block) then Err(BlockExpectedButNotFound(grandparentJustify.block))
            else if && justify.view == parentJustify.view + 1
                    && parentJustify.view == grandparentJustify.view + 1
                    && NotCommittedYet(v, grandparentJustify.block)
            then Ok(Some(grandparentJustify.block))
            else Ok(None)
      case Prepare => Ok(None)
      case Precommit => Ok(None)
      case Commit => PhasedBlockToCommit(v, justify)
      case Decide => PhasedBlockToCommit(v, justify)
  }

  function PhasedBlockToCommit(v: TreeView, justify: PhaseCertificate): Result<Option<CryptoHash>> {
    if !v.Contains(justify.block) then Err(BlockExpectedButNotFound(justify.block))
    else if NotCommittedYet(v, justify.block) then Ok(Some(justify.block))
    else Ok(None)
  }

  function ReproposeBlock(v: TreeView, currentView: nat): Option<CryptoHash> {
    if (v.highestPc.phase.Prepare? || v.highestPc.phase.Precommit?) && currentView != v.highestPc.view + 1
    then Some(v.highestPc.block)
    else None
  }

  /** The Locked PC after an `update` on `justify`. */
  function NewLock(v: TreeView, justify: PhaseCertificate): PhaseCertificate
    requires PcToLock(v, justify).Ok?
  {
    match PcToLock(v, justify).value
    case None => v.lockedPc
    case Some(pc) => pc
  }

  /** The Highest PC after an `update` on `justify`. */
  function NewHighest(v: TreeView, justify: PhaseCertificate): PhaseCertificate {
    if justify.view > v.highestPc.view then justify else v.highestPc
  }

  /** Nothing guards the lock against moving to an older certificate.  Given a safe justify, an update
      lowers the view of the lock exactly when the certificate it would lock (the justify of the
      certified block in the pipelined mode, the certificate itself from Precommit on) is older than
      the lock and, for Commit and Decide, certifies another block. */
  lemma LockFallsExactlyWhen(v: TreeView, justify: PhaseCertificate, chainId: nat)
    requires SafePc(v, justify, chainId)
    ensures PcToLock(v, justify).Ok?
    ensures NewLock(v, justify).view < v.lockedPc.view <==>
      && !IsGenesisPc(justify)
      && match justify.phase
         case Generic => justify.block.justify.view < v.lockedPc.view
         case Prepare => false
         case Precommit => justify.view < v.lockedPc.view
         case _ => justify.view < v.lockedPc.view && justify.block != v.lockedPc.block
  {
  }
}
