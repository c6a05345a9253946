/** While a committed validator set update is undecided, nothing is built on the block that made it. */
module Decisions {
  import opened Types
  import opened Quorums
  import opened UpdateSets
  import opened SafetyRules
  import opened BlockStore
  import opened Commitment
  import opened StoreRuns
  import opened Verdicts

  ghost predicate NotAbove(h: CryptoHash, b: CryptoHash) {
    h.Digest? ==> h.justify.block != b
  }

  /** No stored block other than `newcomer` has the updating block as its parent while the update is undecided. */
  ghost predicate ChildlessBut(t: Tree, newcomer: Option<CryptoHash>) {
    t.updateHeight.Some? && t.updateHeight.value in t.atHeight && !t.updateDecided ==>
      forall h {:trigger NotAbove(h, t.atHeight[t.updateHeight.value])} | h in t.blocks && newcomer != Some(h) ::
        NotAbove(h, t.atHeight[t.updateHeight.value])
  }

  ghost predicate UndecidedIsChildless(t: Tree) {
    ChildlessBut(t, None)
  }

  lemma InsertKeepsChildless(t: Tree, block: Block, app: Option<AppStateUpdates>, vsu: Option<ValidatorSetUpdates>)
    requires UndecidedIsChildless(t)
    ensures ChildlessBut(InsertBlock(t, block, app, vsu), Some(block.hash))
  {
    var t' := InsertBlock(t, block, app, vsu);
    if t'.updateHeight.Some? && t'.updateHeight.value in t'.atHeight && !t'.updateDecided {
      forall h | h in t'.blocks && Some(block.hash) != Some(h) ensures NotAbove(h, t'.atHeight[t'.updateHeight.value]) {
        assert NotAbove(h, t.atHeight[t.updateHeight.value]);
      }
    }
  }

  /** A block that is about to be committed with its update has no child, except perhaps the newcomer. */
  lemma UpdatingCommitIsChildless(t: Tree, newcomer: Option<CryptoHash>, target: CryptoHash)
    requires Shape(t) && ImmediateBut(t, newcomer) && CommitsUpdate(t, target)
    ensures ChildlessBut(CommitTree(t, target), newcomer)
  {
    UpdatingCommit(t, target);
    TargetAtHeight(t, target);
    forall h | h in CommitTree(t, target).blocks && newcomer != Some(h) ensures NotAbove(h, target) {
      assert ImmediateAt(t, h);
    }
  }

  lemma OtherCommitKeepsChildless(t: Tree, newcomer: Option<CryptoHash>, target: CryptoHash)
    requires Shape(t) && UpdateHeightOk(t) && ChildlessBut(t, newcomer)
    requires target in t.blocks && !IsCommitted(t, target) && OnlyTargetUpdates(t, target) && target !in t.status
    ensures ChildlessBut(CommitTree(t, target), newcomer)
  {
    var t' := CommitTree(t, target);
    NobodyUpdates(t, UncommittedPath(t, target));
    if t.updateHeight.Some? && !t.updateDecided {
      EntryStays(t, target, t.updateHeight.value);
      forall h | h in t'.blocks && newcomer != Some(h) ensures NotAbove(h, t'.atHeight[t'.updateHeight.value]) {
        assert NotAbove(h, t.atHeight[t.updateHeight.value]);
      }
    }
  }

  lemma CommitKeepsChildless(t: Tree, app: Verdict, newcomer: Option<CryptoHash>, target: CryptoHash)
    requires Shape(t) && UpdateHeightOk(t) && StatusOk(t, app) && ImmediateBut(t, newcomer) && ChildlessBut(t, newcomer)
    requires CommitsOnlyTarget(t, target)
    ensures ChildlessBut(CommitTree(t, target), newcomer)
  {
    assert StatusAt(t, app, target);
    if target in t.status {
      UpdatingCommitIsChildless(t, newcomer, target);
    } else {
      OtherCommitKeepsChildless(t, newcomer, target);
    }
  }

  /** A commit marks no block that was not stored as updating. */
  lemma CommitAddsNoStatus(t: Tree, target: CryptoHash, h: CryptoHash)
    requires CommitsOnlyTarget(t, target) && h in CommitStatus(t, target)
    ensures h in t.status
  {
  }

  /** A newcomer on top of the updating block was justified by a Decide certificate, which decides the update. */
  lemma NewcomerDecides(t: Tree, justify: PhaseCertificate, chainId: nat, h: CryptoHash)
    requires SafePc(t.View(), justify, chainId) && IsBlockJustify(justify) && h.Digest? && h.justify == justify
    requires PcToLock(t.View(), justify).Ok? && BlockToCommit(t.View(), justify).Ok?
    requires UpdateHeightOk(UpdateTree(t, justify)) && UpdateTree(t, justify).updateHeight.Some?
    requires BlockToCommit(t.View(), justify).value.Some? ==>
      CommitsOnlyTarget(t, BlockToCommit(t.View(), justify).value.value)
    requires !UpdateTree(t, justify).updateDecided
    ensures NotAbove(h, UpdateTree(t, justify).atHeight[UpdateTree(t, justify).updateHeight.value])
  {
    var t' := UpdateTree(t, justify);
    var b := t'.atHeight[t'.updateHeight.value];
    if BlockToCommit(t.View(), justify).value.Some? {
      CommitAddsNoStatus(t, BlockToCommit(t.View(), justify).value.value, b);
    }
    assert b in t.status;
  }

  lemma UpdateKeepsChildless(
      t: Tree, vs: ValidatorSet, app: Verdict, chainId: nat, newcomer: Option<CryptoHash>, justify: PhaseCertificate)
    requires MidInv(t, vs, app, newcomer, justify) && UpdateHeightOk(t) && SafePc(t.View(), justify, chainId)
    requires PcToLock(t.View(), justify).Ok? && BlockToCommit(t.View(), justify).Ok?
    requires ChildlessBut(t, newcomer)
    ensures UndecidedIsChildless(UpdateTree(t, justify))
  {
    var t' := UpdateTree(t, justify);
    StepKeepsUpdateHeight(t, vs, app, chainId, newcomer, justify);
    var toCommit := BlockToCommit(t.View(), justify).value;
    if toCommit.Some? {
      CommitKeepsChildless(t, app, newcomer, toCommit.value);
    }
    if t'.updateHeight.Some? && !t'.updateDecided {
      if newcomer.Some? {
        NewcomerDecides(t, justify, chainId, newcomer.value);
      }
      ChildlessAfterAll(CommitIfNeeded(t, toCommit), t', newcomer);
    }
  }

  lemma ChildlessAfterAll(t: Tree, t': Tree, newcomer: Option<CryptoHash>)
    requires ChildlessBut(t, newcomer)
    requires t' == t.(highestPc := t'.highestPc, lockedPc := t'.lockedPc, updateDecided := t'.updateDecided)
    requires t.updateDecided ==> t'.updateDecided
    requires newcomer.Some? && t'.updateHeight.Some? && t'.updateHeight.value in t'.atHeight && !t'.updateDecided ==>
      NotAbove(newcomer.value, t'.atHeight[t'.updateHeight.value])
    ensures UndecidedIsChildless(t')
  {
    if t'.updateHeight.Some? && t'.updateHeight.value in t'.atHeight && !t'.updateDecided {
      var b := t'.atHeight[t'.updateHeight.value];
      forall h | h in t'.blocks ensures NotAbove(h, b) {
        if newcomer != Some(h) {
          assert NotAbove(h, t.atHeight[t.updateHeight.value]);
        }
      }
    }
  }

  lemma StoreStepKeepsChildless(t: Tree, vs: ValidatorSet, app: Verdict, chainId: nat, e: StoreEvent, t': Tree)
    requires StoreInv(t, vs, app) && UpdateHeightOk(t) && UndecidedIsChildless(t) && StoreStep(t, app, chainId, e, t')
    ensures UndecidedIsChildless(t')
  {
    match e
    case InsertAndUpdate(block, appUpdates) =>
      InsertReachesMidInv(t, vs, app, chainId, block, appUpdates);
      InsertKeepsUpdateHeight(t, block, appUpdates, app(block.hash));
      InsertKeepsChildless(t, block, appUpdates, app(block.hash));
      UpdateKeepsChildless(
        InsertBlock(t, block, appUpdates, app(block.hash)), vs, app, chainId, Some(block.hash), block.justify);
    case UpdateOn(pc) =>
      UpdateKeepsChildless(t, vs, app, chainId, None, pc);
  }

  lemma AnyStepKeepsChildless(t: Tree, vs: ValidatorSet, app: Verdict, chainId: nat, t': Tree)
    requires StoreInv(t, vs, app) && UpdateHeightOk(t) && UndecidedIsChildless(t) && CanStep(t, app, chainId, t')
    ensures UndecidedIsChildless(t')
  {
    var e :| StoreStep(t, app, chainId, e, t');
    StoreStepKeepsChildless(t, vs, app, chainId, e, t');
  }

  /** In every run that starts without a previous update: as long as the latest validator set update is undecided, no
      block in the tree extends the block that made it. */
  lemma {:induction false} RunKeepsChildless(vs: ValidatorSet, app: Verdict, chainId: nat, run: seq<Tree>, n: nat)
    requires IsStoreRun(vs, app, chainId, run) && n < |run| && run[0].updateHeight.None?
    ensures UndecidedIsChildless(run[n])
  {
    if n > 0 {
      RunKeepsChildless(vs, app, chainId, run, n - 1);
      RunKeepsUpdateHeight(vs, app, chainId, run, n - 1);
      StoreRunKeepsInv(vs, app, chainId, run, n - 1);
      assert CanStep(run[n - 1], app, chainId, run[n - 1 + 1]);
      AnyStepKeepsChildless(run[n - 1], vs, app, chainId, run[n]);
    }
  }

  /** Hence the updating block is the tip of the committed chain until the update is decided. */
  lemma UndecidedIsTip(vs: ValidatorSet, app: Verdict, chainId: nat, run: seq<Tree>, n: nat)
    requires IsStoreRun(vs, app, chainId, run) && n < |run| && run[0].updateHeight.None?
    requires run[n].updateHeight.Some? && !run[n].updateDecided
    ensures run[n].updateHeight.value in run[n].atHeight
    ensures run[n].highestCommitted == Some(run[n].atHeight[run[n].updateHeight.value])
  {
    var t := run[n];
    RunKeepsChildless(vs, app, chainId, run, n);
    RunKeepsUpdateHeight(vs, app, chainId, run, n);
    StoreRunKeepsInv(vs, app, chainId, run, n);
    var b, tip := t.atHeight[t.updateHeight.value], t.highestCommitted.value;
    if b != tip {
      ChildOnTheWay(t, tip, b);
    }
  }

  lemma {:induction false} ChildOnTheWay(t: Tree, h: CryptoHash, b: CryptoHash)
    requires BlocksOk(t) && h in t.blocks && Extends(h, b) && h != b
    ensures exists c :: c in t.blocks && c.Digest? && c.justify.block == b && !NotAbove(c, b)
    decreases h
  {
    assert BlockOk(t, h);
    if h.justify.block != b {
      ChildOnTheWay(t, h.justify.block, b);
    } else {
      assert !NotAbove(h, b);
    }
  }
}
