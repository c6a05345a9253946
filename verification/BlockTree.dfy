/** The read-and-write handle into the block tree: top-level updaters that fill a write batch from reads of the
    store before the batch, and then write it atomically. */
module BlockTree {
  import opened Types
  import opened Quorums
  import opened UpdateSets
  import opened ValidatorSets
  import opened SafetyRules
  import opened BlockStore
  import opened Commitment
  import opened StoreRuns
  import opened WriteBatches
  import opened CommitBatches
  import BranchSearch

  class BlockTreeSingleton {
    var store: Tree

    constructor (
        appState: map<Bytes, Bytes>, vs: ValidatorSet, previousVs: ValidatorSet, updateHeight: Option<nat>,
        updateDecided: bool)
      ensures store == InitialTree(appState, vs, previousVs, updateHeight, updateDecided)
      ensures forall app: Verdict :: StoreInv(store, vs, app)
    {
      store := InitialTree(appState, vs, previousVs, updateHeight, updateDecided);
    }

    method Write(wb: WriteBatch)
      modifies this
      ensures store == Written(old(store), old(wb.ops))
    {
      store := Written(store, wb.ops);
    }

    method Insert(block: Block, app: Option<AppStateUpdates>, vsu: Option<ValidatorSetUpdates>)
      modifies this
      ensures store == InsertBlock(old(store), block, app, vsu)
    {
      var wb := new WriteBatch();
      wb.ops := wb.ops.(blocks := wb.ops.blocks[block.hash := Some(block)]);
      wb.ops := wb.ops.(newest := Some(block.hash));
      if app.Some? {
        wb.ops := wb.ops.(pendingApp := wb.ops.pendingApp[block.hash := app]);
      }
      if vsu.Some? {
        wb.ops := wb.ops.(status := wb.ops.status[block.hash := Some(Pending(vsu.value))]);
      }
      var siblings := if block.justify.block in store.children then store.children[block.justify.block] else [];
      siblings := siblings + [block.hash];
      wb.ops := wb.ops.(children := wb.ops.children[block.justify.block := Some(siblings)]);
      InsertBatchWrites(store, block, app, vsu, wb.ops);
      Write(wb);
    }

    method BlocksInBranch(root: CryptoHash) returns (branch: seq<CryptoHash>)
      requires BlocksOk(store) && ChildrenOk(store) && root in store.blocks
      ensures forall h :: h in branch <==> h in Branch(store, root)
    {
      ghost var children := store.children;
      ChildrenAreRanked(store);
      branch := BranchSearch.BlocksInBranch(store.children, root, b => Rank(children, b));
      forall h ensures h in branch <==> h in Branch(store, root) {
        if BranchSearch.Descends(store.children, root, h) {
          var path :| BranchSearch.IsPath(store.children, path) && path[0] == root && path[|path| - 1] == h;
          DescendantExtends(store, path);
        }
        if h in Branch(store, root) {
          ExtensionDescends(store, root, h);
        }
      }
    }

    /** Deletes all data of the root and its descendants, and nothing else. */
    method DeleteBranch(wb: WriteBatch, root: CryptoHash)
      requires BlocksOk(store) && ChildrenOk(store) && root in store.blocks
      modifies wb
      ensures wb.ops == WithDeleted(old(wb.ops), store, Branch(store, root))
    {
      var branch := BlocksInBranch(root);
      ghost var done := {};
      DeleteNothing(wb.ops, store);
      for i := 0 to |branch|
        invariant done == set h | h in branch[..i]
        invariant wb.ops == WithDeleted(old(wb.ops), store, done)
      {
        var block := branch[i];
        DeleteOneMore(old(wb.ops), store, done, block);
        wb.ops := wb.ops.(children := wb.ops.children[block := None]);
        wb.ops := wb.ops.(pendingApp := wb.ops.pendingApp[block := None]);
        wb.ops := wb.ops.(status := wb.ops.status[block := None]);
        if block in store.blocks {
          wb.ops := wb.ops.(blocks := wb.ops.blocks[block := None]);
        }
        done := done + {block};
      }
      assert branch[..|branch|] == branch;
      assert done == Branch(store, root);
    }

    /** Deletes every branch that starts at a sibling, and makes `block` its parent's only child. */
    method DeleteSiblings(wb: WriteBatch, block: CryptoHash)
      requires BlocksOk(store) && ChildrenOk(store) && block in store.blocks
      modifies wb
      ensures block.Digest?
      ensures
        var d := WithDeleted(old(wb.ops), store, SiblingBranches(store, block));
        wb.ops == d.(children := d.children[block.justify.block := Some([block])])
    {
      assert ListedOk(store, block);
      var parent := block.justify.block;
      var siblings := store.children[parent];
      ghost var dead := {};
      DeleteNothing(wb.ops, store);
      for i := 0 to |siblings|
        invariant wb.ops == WithDeleted(old(wb.ops), store, dead)
        invariant forall h :: h in dead <==> h in store.blocks && AboveOneOf(siblings[..i], block, h)
      {
        var sibling := siblings[i];
        if sibling != block {
          assert ChildOk(store, parent, sibling);
          DeleteJoin(old(wb.ops), store, dead, Branch(store, sibling));
          DeleteBranch(wb, sibling);
          dead := dead + Branch(store, sibling);
        }
        assert siblings[..i + 1] == siblings[..i] + [sibling];
      }
      assert siblings[..|siblings|] == siblings;
      assert dead == SiblingBranches(store, block);
      wb.ops := wb.ops.(children := wb.ops.children[parent := Some([block])]);
    }

    /** The chain of blocks from `block` down to the lowest uncommitted one, oldest first. */
    method CollectUncommitted(block: CryptoHash) returns (path: seq<CryptoHash>)
      ensures path == UncommittedPath(store, block)
    {
      path := [];
      var next := Some(block);
      var minHeight := store.CommittedHeight();
      while next.Some? && !(minHeight.Some? && next.value.Digest? && next.value.height <= minHeight.value)
        invariant UncommittedPath(store, block) ==
          (if next.Some? then UncommittedPath(store, next.value) else []) + path
        decreases next.Some?, if next.Some? then next.value else Zero
      {
        var b := next.value;
        path := [b] + path;
        next := if b in store.blocks && b.Digest? && !IsGenesisPc(b.justify) then Some(b.justify.block) else None;
      }
    }

    /** Commits `block` and its uncommitted ancestors, oldest first, filling the batch from the store as it was.
        Returns the blocks with the validator set updates of each. */
    method Commit(wb: WriteBatch, block: CryptoHash)
        returns (committed: seq<(CryptoHash, Option<ValidatorSetUpdates>)>)
      requires Shape(store) && store.committedVs.Valid()
      requires block in store.blocks && !IsCommitted(store, block)
      requires OnlyCertificates(wb.ops)
      modifies wb
      ensures Written(store, wb.ops) == WithCertificates(CommitTree(store, block), store, old(wb.ops))
      ensures committed == UpdatesAlong(store, UncommittedPath(store, block))
    {
      PathFacts(store, block);
      committed := CommitAll(wb, block);
      CommitBatchWrites(old(wb.ops), store, block);
    }

    /** The commit loop. */
    method CommitAll(wb: WriteBatch, block: CryptoHash)
        returns (committed: seq<(CryptoHash, Option<ValidatorSetUpdates>)>)
      requires BlocksOk(store) && ChildrenOk(store) && store.committedVs.Valid()
      requires IsPathTo(store, block, UncommittedPath(store, block))
      modifies wb
      ensures AllDigests(UncommittedPath(store, block))
      ensures wb.ops == CommitBatch(old(wb.ops), store, block, UncommittedPath(store, block))
      ensures committed == UpdatesAlong(store, UncommittedPath(store, block))
    {
      var path := CollectUncommitted(block);
      committed := [];
      for i := 0 to |path|
        invariant AllDigests(path)
        invariant wb.ops == BatchUpTo(old(wb.ops), store, block, path, i)
        invariant committed == UpdatesAlong(store, path[..i])
      {
        BatchStep(old(wb.ops), store, block, path, i);
        UpdatesGrow(store, path, i);
        CommitOne(wb, block, path[i]);
        committed := committed + [(path[i], PendingUpdates(store, path[i]))];
      }
      assert path[..|path|] == path;
    }

    /** One round of the commit loop. */
    method CommitOne(wb: WriteBatch, block: CryptoHash, b: CryptoHash)
      requires BlocksOk(store) && ChildrenOk(store) && store.committedVs.Valid() && b in store.blocks
      modifies wb
      ensures b.Digest? && wb.ops == WithCommitted(old(wb.ops), store, block, b)
    {
      assert BlockOk(store, b);
      var height := store.blocks[b].height;
      wb.ops := wb.ops.(atHeight := wb.ops.atHeight[height := b]);
      DeleteSiblings(wb, b);
      if b in store.pendingApp {
        var updates := store.pendingApp[b];
        wb.ops := wb.ops.(appState := wb.ops.appState + Insertions(updates.inserts) + Removals(updates.deletes));
        wb.ops := wb.ops.(pendingApp := wb.ops.pendingApp[b := None]);
      }
      if b in store.status && store.status[b].Pending? {
        var vs := new MutableValidatorSet.From(store.committedVs);
        vs.ApplyUpdates(store.status[b].updates);
        wb.ops := wb.ops.(committedVs := Some(ValidatorSet(vs.validators, vs.powers)));
        wb.ops := wb.ops.(previousVs := Some(store.committedVs));
        wb.ops := wb.ops.(updateHeight := Some(height));
        wb.ops := wb.ops.(updateDecided := Some(false));
        wb.ops := wb.ops.(status := wb.ops.status[block := Some(Committed)]);
      }
      wb.ops := wb.ops.(highestCommitted := Some(b));
    }

    /** Updates the Highest PC, the Locked PC, the committed chain and the decided flag in one write, or changes
        nothing and reports a lookup error.  Returns the validator set updates that were committed. */
    method Update(justify: PhaseCertificate) returns (r: Result<Option<ValidatorSetUpdates>>)
      requires Shape(store) && store.committedVs.Valid()
      modifies this
      ensures r.Ok? <==> PcToLock(old(store).View(), justify).Ok? && BlockToCommit(old(store).View(), justify).Ok?
      ensures r.Err? ==> store == old(store)
      ensures r.Ok? ==> store == UpdateTree(old(store), justify)
      ensures r.Ok? ==> r.value == LastUpdates(old(store), BlockToCommit(old(store).View(), justify).value)
      ensures r.Ok? && r.value.Some? ==>
        store.committedVs == UpdateSets.ApplyUpdates(old(store.committedVs), r.value.value)
      ensures r.Ok? && r.value.None? ==> store.committedVs == old(store.committedVs)
    {
      var wb := new WriteBatch();
      var toCommit := SetCertificates(wb, justify);
      if toCommit.Err? {
        return Err(toCommit.error);
      }
      ghost var certificates := wb.ops;
      if toCommit.value.Some? {
        TargetIsUncommitted(store, justify);
      }
      var updates := CommitTarget(wb, toCommit.value);
      UpdateWritten(store, justify, certificates, wb.ops);
      if justify.phase.Decide? {
        wb.ops := wb.ops.(updateDecided := Some(true));
      }
      Write(wb);
      r := Ok(updates);
    }

    /** Schedules the new Highest PC and Locked PC, and finds the block to commit. */
    method SetCertificates(wb: WriteBatch, justify: PhaseCertificate) returns (r: Result<Option<CryptoHash>>)
      requires wb.ops == EMPTY_BATCH
      modifies wb
      ensures r.Ok? <==> PcToLock(store.View(), justify).Ok? && BlockToCommit(store.View(), justify).Ok?
      ensures r.Ok? ==> r == BlockToCommit(store.View(), justify)
      ensures r.Ok? ==> OnlyCertificates(wb.ops)
      ensures r.Ok? ==> OrElse(wb.ops.lockedPc, store.lockedPc) == NewLock(store.View(), justify)
      ensures r.Ok? ==> OrElse(wb.ops.highestPc, store.highestPc) == NewHighest(store.View(), justify)
    {
      if justify.view > store.highestPc.view {
        wb.ops := wb.ops.(highestPc := Some(justify));
      }
      var toLock := PcToLock(store.View(), justify);
      if toLock.Err? {
        return Err(toLock.error);
      }
      if toLock.value.Some? {
        wb.ops := wb.ops.(lockedPc := toLock.value);
      }
      r := BlockToCommit(store.View(), justify);
    }

    /** Schedules the commit, if there is a block to commit. */
    method CommitTarget(wb: WriteBatch, target: Option<CryptoHash>) returns (updates: Option<ValidatorSetUpdates>)
      requires Shape(store) && store.committedVs.Valid() && OnlyCertificates(wb.ops)
      requires target.Some? ==> target.value in store.blocks && !IsCommitted(store, target.value)
      modifies wb
      ensures Written(store, wb.ops) == WithCertificates(CommitIfNeeded(store, target), store, old(wb.ops))
      ensures updates == LastUpdates(store, target)
    {
      if target.None? {
        NothingWritten(store, wb.ops);
        return None;
      }
      var committed := Commit(wb, target.value);
      updates := LastIn(committed);
      LastInIsLast(store, UncommittedPath(store, target.value));
    }
  }

  predicate AboveOneOf(siblings: seq<CryptoHash>, block: CryptoHash, h: CryptoHash) {
    exists s | s in siblings && s != block :: Extends(h, s)
  }

  function PendingUpdates(t: Tree, b: CryptoHash): Option<ValidatorSetUpdates> {
    if b in t.status && t.status[b].Pending? then Some(t.status[b].updates) else None
  }

  /** The validator set updates that committing `target` applies: those of the last updating block. */
  function LastUpdates(t: Tree, target: Option<CryptoHash>): Option<ValidatorSetUpdates> {
    if target.None? then None
    else
      var last := LastUpdating(t, UncommittedPath(t, target.value));
      if last.Some? then Some(t.status[last.value].updates) else None
  }

  /** `rev().find_map` over the committed blocks. */
  function LastIn(committed: seq<(CryptoHash, Option<ValidatorSetUpdates>)>): Option<ValidatorSetUpdates> {
    if committed == [] then None
    else
      var last := committed[|committed| - 1].1;
      if last.Some? then last else LastIn(committed[..|committed| - 1])
  }

  /** The blocks of `path`, each with its validator set updates. */
  function UpdatesAlong(t: Tree, path: seq<CryptoHash>): seq<(CryptoHash, Option<ValidatorSetUpdates>)> {
    if path == [] then []
    else UpdatesAlong(t, path[..|path| - 1]) + [(path[|path| - 1], PendingUpdates(t, path[|path| - 1]))]
  }

  lemma UpdatesGrow(t: Tree, path: seq<CryptoHash>, n: nat)
    requires n < |path|
    ensures UpdatesAlong(t, path[..n + 1]) == UpdatesAlong(t, path[..n]) + [(path[n], PendingUpdates(t, path[n]))]
  {
    assert path[..n + 1][..n] == path[..n];
  }

  lemma {:induction false} LastInIsLast(t: Tree, path: seq<CryptoHash>)
    ensures LastIn(UpdatesAlong(t, path)) ==
      var last := LastUpdating(t, path);
      if last.Some? then Some(t.status[last.value].updates) else None
  {
    if path != [] {
      var front := path[..|path| - 1];
      LastInIsLast(t, front);
      var all := UpdatesAlong(t, path);
      assert all[..|all| - 1] == UpdatesAlong(t, front);
    }
  }

  /** `t` with the certificates that a batch sets on the tree `before`. */
  function WithCertificates(t: Tree, before: Tree, b: Batch): Tree {
    t.(lockedPc := OrElse(b.lockedPc, before.lockedPc), highestPc := OrElse(b.highestPc, before.highestPc))
  }

  lemma NothingWritten(t: Tree, b: Batch)
    requires OnlyCertificates(b)
    ensures Written(t, b) == WithCertificates(t, t, b)
  {
    OverwrittenByNothing(t.blocks);
    OverwrittenByNothing(t.children);
    OverwrittenByNothing(t.appState);
    OverwrittenByNothing(t.pendingApp);
    OverwrittenByNothing(t.status);
    assert t.atHeight + map[] == t.atHeight;
  }

  /** The decided flag completes the batch. */
  lemma UpdateWritten(t: Tree, justify: PhaseCertificate, certificates: Batch, b: Batch)
    requires PcToLock(t.View(), justify).Ok? && BlockToCommit(t.View(), justify).Ok?
    requires OrElse(certificates.lockedPc, t.lockedPc) == NewLock(t.View(), justify)
    requires OrElse(certificates.highestPc, t.highestPc) == NewHighest(t.View(), justify)
    requires Written(t, b) ==
      WithCertificates(CommitIfNeeded(t, BlockToCommit(t.View(), justify).value), t, certificates)
    ensures Written(t, if justify.phase.Decide? then b.(updateDecided := Some(true)) else b) == UpdateTree(t, justify)
  {
    if justify.phase.Decide? {
      DecidedWritten(t, b);
    }
  }

  lemma DecidedWritten(t: Tree, b: Batch)
    ensures Written(t, b.(updateDecided := Some(true))) == Written(t, b).(updateDecided := true)
  {
  }
}
