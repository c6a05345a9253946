/** The app state that an app sees while producing or validating a block whose ancestors are not committed. */
module Overlay {
  import opened Types
  import opened Quorums
  import opened UpdateSets
  import opened SafetyRules
  import opened BlockStore
  import opened Commitment

  datatype AppBlockTreeView = AppBlockTreeView(tree: Tree, pendingAncestors: seq<Option<AppStateUpdates>>)

  function Get<K, V>(m: map<K, V>, k: K): Option<V> {
    if k in m then Some(m[k]) else None
  }

  /** The pending updates of `block` and its uncommitted ancestors, newest first. */
  function PendingFrom(t: Tree, block: CryptoHash): seq<Option<AppStateUpdates>> {
    if t.CommittedHeight().Some? && block.Digest? && block.height <= t.CommittedHeight().value then []
    else
      [Get(t.pendingApp, block)] +
      if block !in t.blocks || !block.Digest? || IsGenesisPc(block.justify) then []
      else PendingFrom(t, block.justify.block)
  }

  function AppView(t: Tree, parent: Option<CryptoHash>): AppBlockTreeView {
    AppBlockTreeView(t, if parent.Some? then PendingFrom(t, parent.value) else [])
  }

  /** The first update set in the list that mentions `key`. */
  function LatestUpdate(pending: seq<Option<AppStateUpdates>>, key: Bytes): Option<AppStateUpdates> {
    if pending == [] then None
    else if pending[0].Some? && (key in pending[0].value.deletes || key in pending[0].value.inserts) then pending[0]
    else LatestUpdate(pending[1..], key)
  }

  function AppState(view: AppBlockTreeView, key: Bytes): Option<Bytes> {
    match LatestUpdate(view.pendingAncestors, key)
    case Some(updates) =>
      if key in updates.deletes then None
      else if key in updates.inserts then Some(updates.inserts[key])
      else Get(view.tree.appState, key)
    case None => Get(view.tree.appState, key)
  }

  function After(before: map<Bytes, Bytes>, updates: Option<AppStateUpdates>): map<Bytes, Bytes> {
    if updates.Some? then Applied(before, updates.value) else before
  }

  /** Putting one more update set in front of the list is applying it on top. */
  lemma OverlayOneMore(
      t: Tree, head: Option<AppStateUpdates>, rest: seq<Option<AppStateUpdates>>, before: map<Bytes, Bytes>, key: Bytes)
    requires AppState(AppBlockTreeView(t, rest), key) == Get(before, key)
    ensures AppState(AppBlockTreeView(t, [head] + rest), key) == Get(After(before, head), key)
  {
    assert ([head] + rest)[1..] == rest;
  }

  lemma PathUnfolds(t: Tree, below: seq<CryptoHash>, block: CryptoHash)
    ensures AppStateAlong(t, below + [block]) == After(AppStateAlong(t, below), Get(t.pendingApp, block))
  {
    assert (below + [block])[..|below|] == below;
  }

  lemma {:induction false} OverlayFollowsPath(t: Tree, block: CryptoHash, key: Bytes)
    ensures AppState(AppView(t, Some(block)), key) == Get(AppStateAlong(t, UncommittedPath(t, block)), key)
    decreases block
  {
    if UncommittedPath(t, block) != [] {
      var below, rest := [], [];
      if block in t.blocks && block.Digest? && !IsGenesisPc(block.justify) {
        OverlayFollowsPath(t, block.justify.block, key);
        below, rest := UncommittedPath(t, block.justify.block), PendingFrom(t, block.justify.block);
      }
      assert UncommittedPath(t, block) == below + [block];
      OverlayOneMore(t, Get(t.pendingApp, block), rest, AppStateAlong(t, below), key);
      PathUnfolds(t, below, block);
    }
  }

  /** The overlay shows exactly the app state that committing `parent` with its uncommitted ancestors would
      leave, for every key, also when an update set both inserts and deletes the key. */
  lemma OverlayEqualsCommit(t: Tree, parent: CryptoHash, key: Bytes)
    requires Shape(t) && parent in t.blocks
    ensures AppState(AppView(t, Some(parent)), key)
         == Get(if IsCommitted(t, parent) then t.appState else CommitTree(t, parent).appState, key)
  {
    OverlayFollowsPath(t, parent, key);
    if IsCommitted(t, parent) {
      AboveTipDescends(t, parent);
      assert BlockOk(t, t.highestCommitted.value);
      assert UncommittedPath(t, parent) == [];
    }
  }

  // ---------------------------------------------------------------------------------------------------
  // The overlay when blocks are inserted and committed

  /** Inserting a block does not change what its ancestors show. */
  lemma {:induction false} InsertKeepsPending(
      t: Tree, block: Block, app: Option<AppStateUpdates>, vsu: Option<ValidatorSetUpdates>, h: CryptoHash)
    requires Shape(t) && MayInsert(t, block) && block.hash !in t.blocks && h in t.blocks
    ensures PendingFrom(InsertBlock(t, block, app, vsu), h) == PendingFrom(t, h)
    decreases h
  {
    assert BlockOk(t, h);
    assert InsertBlock(t, block, app, vsu).CommittedHeight() == t.CommittedHeight();
    if !IsGenesisPc(h.justify) {
      InsertKeepsPending(t, block, app, vsu, h.justify.block);
    }
  }

  /** On top of an inserted block the app sees the block's own updates and, for all other keys, what it saw on
      top of the parent. */
  lemma OverlayOfInserted(
      t: Tree, block: Block, app: Option<AppStateUpdates>, vsu: Option<ValidatorSetUpdates>, key: Bytes)
    requires Shape(t) && MayInsert(t, block) && block.hash !in t.blocks
    ensures
      var parent := if IsGenesisPc(block.justify) then None else Some(block.justify.block);
      AppState(AppView(InsertBlock(t, block, app, vsu), Some(block.hash)), key) ==
        if app.Some? && key in app.value.deletes then None
        else if app.Some? && key in app.value.inserts then Some(app.value.inserts[key])
        else AppState(AppView(t, parent), key)
  {
    var t' := InsertBlock(t, block, app, vsu);
    var rest := if IsGenesisPc(block.justify) then [] else PendingFrom(t, block.justify.block);
    if !IsGenesisPc(block.justify) {
      InsertKeepsPending(t, block, app, vsu, block.justify.block);
    }
    InsertedIsUncommitted(t, block, app, vsu);
    assert Get(t'.pendingApp, block.hash) == app;
    assert PendingFrom(t', block.hash) == [app] + rest;
    assert ([app] + rest)[1..] == rest;
  }

  lemma InsertedIsUncommitted(
      t: Tree, block: Block, app: Option<AppStateUpdates>, vsu: Option<ValidatorSetUpdates>)
    requires Shape(t) && MayInsert(t, block) && block.hash !in t.blocks
    ensures
      var t' := InsertBlock(t, block, app, vsu);
      t'.CommittedHeight().Some? ==> block.height > t'.CommittedHeight().value
    ensures block.hash !in t.pendingApp
  {
    if t.highestCommitted.Some? {
      assert BlockOk(t, t.highestCommitted.value);
      AncestorsStored(t, block.justify.block, t.highestCommitted.value);
    }
  }

  /** What the app state along two paths has in common carries over to one block more. */
  lemma OneBlockMore(t: Tree, t': Tree, h: CryptoHash)
    requires h in t.blocks && h in t'.blocks && h.Digest? && !IsGenesisPc(h.justify)
    requires t.CommittedHeight().Some? ==> t.CommittedHeight().value < h.height
    requires t'.CommittedHeight().Some? ==> t'.CommittedHeight().value < h.height
    requires Get(t'.pendingApp, h) == Get(t.pendingApp, h)
    requires AppStateAlong(t', UncommittedPath(t', h.justify.block)) ==
      AppStateAlong(t, UncommittedPath(t, h.justify.block))
    ensures AppStateAlong(t', UncommittedPath(t', h)) == AppStateAlong(t, UncommittedPath(t, h))
  {
    PathUnfolds(t, UncommittedPath(t, h.justify.block), h);
    PathUnfolds(t', UncommittedPath(t', h.justify.block), h);
  }

  lemma TargetIsTip(t: Tree, target: CryptoHash)
    requires Shape(t) && target in t.blocks && !IsCommitted(t, target)
    ensures target.Digest? && target in CommitTree(t, target).blocks
    ensures CommitTree(t, target).CommittedHeight() == Some(target.height)
    ensures UncommittedPath(CommitTree(t, target), target) == []
  {
    assert BlockOk(t, target);
  }

  /** A descendant of the committed block is above the new tip, and its parent is the tip or above it. */
  lemma AboveNewTip(t: Tree, target: CryptoHash, h: CryptoHash)
    requires Shape(t) && target in t.blocks && target.Digest? && h in t.blocks && Extends(h, target) && h != target
    ensures h.Digest? && !IsGenesisPc(h.justify) && h.height > target.height && h in CommitTree(t, target).blocks
    ensures h.justify.block in t.blocks && Extends(h.justify.block, target)
  {
    AncestorsStored(t, h, target);
    assert BlockOk(t, h);
    assert Extends(h.justify.block, target);
  }

  /** Above the committed block the path loses exactly what was committed. */
  lemma {:induction false} CommitKeepsAppState(t: Tree, target: CryptoHash, h: CryptoHash)
    requires Shape(t) && target in t.blocks && !IsCommitted(t, target) && h in t.blocks && Extends(h, target)
    ensures
      var t' := CommitTree(t, target);
      AppStateAlong(t', UncommittedPath(t', h)) == AppStateAlong(t, UncommittedPath(t, h))
    decreases h
  {
    TargetIsTip(t, target);
    if h != target {
      AboveNewTip(t, target, h);
      CommitKeepsAppState(t, target, h.justify.block);
      TipIsLower(t, target, h);
      StillPending(t, target, h);
      OneBlockMore(t, CommitTree(t, target), h);
    }
  }

  lemma TipIsLower(t: Tree, target: CryptoHash, h: CryptoHash)
    requires Shape(t) && target in t.blocks && !IsCommitted(t, target) && h in t.blocks && Extends(h, target)
    ensures h.Digest? && (t.CommittedHeight().Some? ==> t.CommittedHeight().value < h.height)
  {
    AncestorsStored(t, h, target);
    if t.highestCommitted.Some? {
      assert BlockOk(t, t.highestCommitted.value);
      AboveTipDescends(t, target);
    }
  }

  /** Descendants of the committed block keep their pending updates. */
  lemma StillPending(t: Tree, target: CryptoHash, h: CryptoHash)
    requires Shape(t) && target in t.blocks && !IsCommitted(t, target)
    requires h in t.blocks && Extends(h, target) && h != target
    ensures Get(CommitTree(t, target).pendingApp, h) == Get(t.pendingApp, h)
  {
    PathFacts(t, target);
    if h in UncommittedPath(t, target) {
      ExtendsAntisymmetric(h, target);
    }
  }

  /** A commit does not change what the app sees on top of any block that descends from the committed one. */
  lemma OverlaySurvivesCommit(t: Tree, target: CryptoHash, h: CryptoHash, key: Bytes)
    requires Shape(t) && target in t.blocks && !IsCommitted(t, target) && h in t.blocks && Extends(h, target)
    ensures AppState(AppView(CommitTree(t, target), Some(h)), key) == AppState(AppView(t, Some(h)), key)
  {
    CommitKeepsAppState(t, target, h);
    OverlayFollowsPath(t, h, key);
    OverlayFollowsPath(CommitTree(t, target), h, key);
  }
}
