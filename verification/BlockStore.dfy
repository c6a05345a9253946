/** The block tree as a key-value store: its shape, and the tree that `insert` produces. */
module BlockStore {
  import opened Types
  import opened Quorums
  import opened UpdateSets
  import opened SafetyRules

  /** A block without an entry has no validator set updates. */
  datatype UpdatesStatus = Pending(updates: ValidatorSetUpdates) | Committed

  datatype Tree = Tree(
    blocks: map<CryptoHash, Block>,
    atHeight: map<nat, CryptoHash>,
    children: map<CryptoHash, seq<CryptoHash>>,
    appState: map<Bytes, Bytes>,
    pendingApp: map<CryptoHash, AppStateUpdates>,
    status: map<CryptoHash, UpdatesStatus>,
    committedVs: ValidatorSet,
    previousVs: ValidatorSet,
    updateHeight: Option<nat>,
    updateDecided: bool,
    lockedPc: PhaseCertificate,
    highestPc: PhaseCertificate,
    highestCommitted: Option<CryptoHash>,
    newest: Option<CryptoHash>)
  {
    function CommittedHeight(): Option<nat> {
      if highestCommitted.Some? && highestCommitted.value in blocks
      then Some(blocks[highestCommitted.value].height)
      else None
    }

    /** What the safety rules read. */
    function View(): TreeView {
      TreeView(blocks.Keys, status.Keys, lockedPc, highestPc, CommittedHeight())
    }
  }

  /** The store right after `initialize`. */
  function InitialTree(
      appState: map<Bytes, Bytes>, vs: ValidatorSet, previousVs: ValidatorSet, updateHeight: Option<nat>,
      updateDecided: bool): Tree
  {
    Tree(
      map[], map[], map[], appState, map[], map[], vs, previousVs, updateHeight, updateDecided,
      GENESIS_PC, GENESIS_PC, None, None)
  }

  ghost predicate Comparable(a: CryptoHash, b: CryptoHash) {
    Extends(a, b) || Extends(b, a)
  }

  ghost predicate IsCommitted(t: Tree, h: CryptoHash) {
    t.highestCommitted.Some? && Extends(t.highestCommitted.value, h)
  }

  // ---------------------------------------------------------------------------------------------------
  // Shape

  /** A block is stored under its hash, and sits one above its parent, or at height 0 on genesis. */
  ghost predicate BlockOk(t: Tree, h: CryptoHash)
    requires h in t.blocks
  {
    && h.Digest?
    && t.blocks[h] == Block(h.height, h, h.justify, h.dataHash, t.blocks[h].data)
    && if IsGenesisPc(h.justify) then h.height == 0
       else h.justify.block in t.blocks && h.justify.block.Digest? && h.height == h.justify.block.height + 1
  }

  ghost predicate BlocksOk(t: Tree) {
    forall h {:trigger BlockOk(t, h)} | h in t.blocks :: BlockOk(t, h)
  }

  ghost predicate ChildOk(t: Tree, p: CryptoHash, c: CryptoHash) {
    c in t.blocks && c.Digest? && c.justify.block == p
  }

  ghost predicate ListedOk(t: Tree, h: CryptoHash) {
    h.Digest? && h.justify.block in t.children && h in t.children[h.justify.block]
  }

  ghost predicate OwnerOk(t: Tree, p: CryptoHash) {
    p == Zero || p in t.blocks
  }

  /** Children lists hold exactly the blocks that justify-link to their owner, perhaps repeatedly. */
  ghost predicate ChildrenOk(t: Tree) {
    && (forall p, c {:trigger ChildOk(t, p, c)} | p in t.children && c in t.children[p] :: ChildOk(t, p, c))
    && (forall h {:trigger ListedOk(t, h)} | h in t.blocks :: ListedOk(t, h))
    && (forall p {:trigger OwnerOk(t, p)} | p in t.children :: OwnerOk(t, p))
  }

  /** Block-at-height entries are the chain down from the committed tip, and every block is on that chain
      or above the tip. */
  ghost predicate ChainOk(t: Tree) {
    match t.highestCommitted
    case None => t.atHeight == map[]
    case Some(tip) =>
      && tip in t.blocks && tip.Digest?
      && (forall i: nat :: i in t.atHeight <==> i <= tip.height)
      && (forall i | i in t.atHeight ::
            && t.atHeight[i] in t.blocks && t.atHeight[i].Digest? && t.atHeight[i].height == i
            && Extends(tip, t.atHeight[i]))
      && (forall h | h in t.blocks :: Comparable(h, tip))
  }

  /** Only uncommitted blocks in the tree have pending updates. */
  ghost predicate PendingOk(t: Tree) {
    && (forall h | h in t.pendingApp :: h in t.blocks && !IsCommitted(t, h))
    && (forall h | h in t.status :: h in t.blocks && (t.status[h].Pending? ==> !IsCommitted(t, h)))
  }

  ghost predicate Shape(t: Tree) {
    BlocksOk(t) && ChildrenOk(t) && ChainOk(t) && PendingOk(t)
  }

  /** Ancestors of a stored block are stored and strictly lower. */
  lemma {:induction false} AncestorsStored(t: Tree, h: CryptoHash, a: CryptoHash)
    requires BlocksOk(t) && h in t.blocks && Extends(h, a)
    ensures h.Digest?
    ensures a == Zero || (a in t.blocks && a.Digest? && a.height <= h.height && (a.height == h.height ==> a == h))
    decreases h
  {
    assert BlockOk(t, h);
    if h != a && !IsGenesisPc(h.justify) {
      AncestorsStored(t, h.justify.block, a);
    }
  }

  lemma {:induction false} ZeroIsAncestor(t: Tree, h: CryptoHash)
    requires BlocksOk(t) && h in t.blocks
    ensures Extends(h, Zero)
    decreases h
  {
    assert BlockOk(t, h);
    if !IsGenesisPc(h.justify) {
      ZeroIsAncestor(t, h.justify.block);
    }
  }

  /** Two ancestors at one height are the same block. */
  lemma SameHeightSameBlock(t: Tree, h: CryptoHash, a: CryptoHash, b: CryptoHash)
    requires BlocksOk(t) && h in t.blocks && Extends(h, a) && Extends(h, b)
    requires a.Digest? && b.Digest? && a.height == b.height
    ensures a == b
  {
    AncestorsStored(t, h, a);
    AncestorsStored(t, h, b);
    AncestorsAreOneBranch(h, a, b);
    if Extends(a, b) {
      AncestorsStored(t, a, b);
    } else {
      AncestorsStored(t, b, a);
    }
  }

  /** A stored block above the tip descends from it; one at or below it is committed. */
  lemma AboveTipDescends(t: Tree, h: CryptoHash)
    requires BlocksOk(t) && ChainOk(t) && h in t.blocks && t.highestCommitted.Some?
    ensures h.Digest? && (h.height > t.highestCommitted.value.height <==> !IsCommitted(t, h))
    ensures !IsCommitted(t, h) ==> Extends(h, t.highestCommitted.value)
  {
    var tip := t.highestCommitted.value;
    assert BlockOk(t, h);
    assert Comparable(h, tip);
    if Extends(tip, h) {
      AncestorsStored(t, tip, h);
    } else {
      AncestorsStored(t, h, tip);
    }
  }

  // ---------------------------------------------------------------------------------------------------
  // Insert

  function InsertBlock(t: Tree, block: Block, app: Option<AppStateUpdates>, vsu: Option<ValidatorSetUpdates>): Tree {
    var parent := block.justify.block;
    var siblings := if parent in t.children then t.children[parent] else [];
    t.(blocks := t.blocks[block.hash := block],
       newest := Some(block.hash),
       pendingApp := if app.Some? then t.pendingApp[block.hash := app.value] else t.pendingApp,
       status := if vsu.Some? then t.status[block.hash := Pending(vsu.value)] else t.status,
       children := t.children[parent := siblings + [block.hash]])
  }

  /** What callers of `insert` must ensure for the tree to keep its shape.  The height, and that the
      block is not committed, are not checked by the code that receives blocks. */
  ghost predicate MayInsert(t: Tree, block: Block) {
    && block.hash == Digest(block.height, block.justify, block.dataHash)
    && !IsCommitted(t, block.hash)
    && if IsGenesisPc(block.justify) then block.height == 0 && t.highestCommitted.None?
       else
         && block.justify.block in t.blocks && block.justify.block.Digest?
         && block.height == block.justify.block.height + 1
         && (t.highestCommitted.Some? ==> Extends(block.justify.block, t.highestCommitted.value))
  }

  /** The part of it that no check of a proposal covers: the height fits the parent's, the parent is the
      committed tip or above it, and the block is not committed. */
  ghost predicate FitsOnTop(t: Tree, block: Block) {
    && !IsCommitted(t, block.hash)
    && if IsGenesisPc(block.justify) then block.height == 0 && t.highestCommitted.None?
       else
         && (block.justify.block.Digest? ==> block.height == block.justify.block.height + 1)
         && (t.highestCommitted.Some? ==> Extends(block.justify.block, t.highestCommitted.value))
  }

  lemma InsertKeepsBlocks(t: Tree, block: Block, app: Option<AppStateUpdates>, vsu: Option<ValidatorSetUpdates>)
    requires BlocksOk(t) && MayInsert(t, block)
    ensures BlocksOk(InsertBlock(t, block, app, vsu))
  {
    var t' := InsertBlock(t, block, app, vsu);
    forall h | h in t'.blocks ensures BlockOk(t', h) {
      if h != block.hash {
        assert BlockOk(t, h);
      }
    }
  }

  lemma InsertKeepsChildren(t: Tree, block: Block, app: Option<AppStateUpdates>, vsu: Option<ValidatorSetUpdates>)
    requires ChildrenOk(t) && OwnerOk(t, block.justify.block)
    requires block.hash == Digest(block.height, block.justify, block.dataHash)
    ensures ChildrenOk(InsertBlock(t, block, app, vsu))
  {
    var t' := InsertBlock(t, block, app, vsu);
    var parent := block.justify.block;
    forall p, c | p in t'.children && c in t'.children[p] ensures ChildOk(t', p, c) {
      if p != parent || c != block.hash {
        assert ChildOk(t, p, c);
      }
    }
    forall h | h in t'.blocks ensures ListedOk(t', h) {
      if h == block.hash {
        assert t'.children[parent][|t'.children[parent]| - 1] == h;
      } else {
        assert ListedOk(t, h);
      }
    }
    forall p | p in t'.children ensures OwnerOk(t', p) {
      if p != parent {
        assert OwnerOk(t, p);
      }
    }
  }

  lemma InsertKeepsChain(t: Tree, block: Block, app: Option<AppStateUpdates>, vsu: Option<ValidatorSetUpdates>)
    requires ChainOk(t) && PendingOk(t) && MayInsert(t, block)
    ensures ChainOk(InsertBlock(t, block, app, vsu)) && PendingOk(InsertBlock(t, block, app, vsu))
  {
    if t.highestCommitted.Some? {
      assert Extends(block.hash, t.highestCommitted.value);
    }
  }

  lemma InsertKeepsShape(t: Tree, block: Block, app: Option<AppStateUpdates>, vsu: Option<ValidatorSetUpdates>)
    requires Shape(t) && MayInsert(t, block)
    ensures Shape(InsertBlock(t, block, app, vsu))
  {
    InsertKeepsBlocks(t, block, app, vsu);
    InsertKeepsChildren(t, block, app, vsu);
    InsertKeepsChain(t, block, app, vsu);
  }

  /** Inserting a committed block again only renews its data and its parent's list. */
  lemma ReinsertKeepsShape(t: Tree, block: Block)
    requires Shape(t) && block.hash == Digest(block.height, block.justify, block.dataHash) && IsCommitted(t, block.hash)
    ensures Shape(InsertBlock(t, block, None, None))
  {
    var t' := InsertBlock(t, block, None, None);
    AncestorsStored(t, t.highestCommitted.value, block.hash);
    assert BlockOk(t, block.hash);
    InsertKeepsChildren(t, block, None, None);
    assert t'.blocks.Keys == t.blocks.Keys;
    forall h | h in t'.blocks ensures BlockOk(t', h) {
      assert BlockOk(t, h);
    }
  }

  /** `insert` keeps the shape of the tree if and only if the block fits on top of it, or is committed already and comes
      without updates.  Nothing in `insert` or its callers checks this. */
  lemma InsertKeepsShapeExactlyWhen(
      t: Tree, block: Block, app: Option<AppStateUpdates>, vsu: Option<ValidatorSetUpdates>)
    requires Shape(t) && block.hash == Digest(block.height, block.justify, block.dataHash)
    ensures Shape(InsertBlock(t, block, app, vsu)) <==>
      if IsCommitted(t, block.hash) then app.None? && vsu.None? else MayInsert(t, block)
  {
    var t' := InsertBlock(t, block, app, vsu);
    if IsCommitted(t, block.hash) {
      ReinsertKeepsShape(t, block);
      assert IsCommitted(t', block.hash);
      assert app.Some? ==> block.hash in t'.pendingApp;
      assert vsu.Some? ==> block.hash in t'.status && t'.status[block.hash].Pending?;
    } else {
      if MayInsert(t, block) {
        InsertKeepsShape(t, block, app, vsu);
      }
      if Shape(t') {
        ShapeMeansMayInsert(t, block, app, vsu);
      }
    }
  }

  lemma ShapeMeansMayInsert(t: Tree, block: Block, app: Option<AppStateUpdates>, vsu: Option<ValidatorSetUpdates>)
    requires Shape(t) && block.hash == Digest(block.height, block.justify, block.dataHash)
    requires !IsCommitted(t, block.hash) && Shape(InsertBlock(t, block, app, vsu))
    ensures MayInsert(t, block)
  {
    var t' := InsertBlock(t, block, app, vsu);
    assert BlockOk(t', block.hash);
    assert block.justify.block != block.hash;
    if t.highestCommitted.Some? {
      var tip := t.highestCommitted.value;
      assert block.hash in t'.blocks && Comparable(block.hash, tip);
      assert Extends(block.justify.block, tip);
    }
  }
}
