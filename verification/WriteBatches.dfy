/** Write batches over the block tree, and the batch that a commit fills. */
module WriteBatches {
  import opened Types
  import opened Quorums
  import opened UpdateSets
  import opened SafetyRules
  import opened BlockStore
  import opened Commitment
  import opened StoreRuns
  import BranchSearch

  // ---------------------------------------------------------------------------------------------------
  // Write batches

  /** Per key, the last operation wins: `Some` sets the key and `None` deletes it. */
  datatype Batch = Batch(
    blocks: map<CryptoHash, Option<Block>>,
    atHeight: map<nat, CryptoHash>,
    children: map<CryptoHash, Option<seq<CryptoHash>>>,
    appState: map<Bytes, Option<Bytes>>,
    pendingApp: map<CryptoHash, Option<AppStateUpdates>>,
    status: map<CryptoHash, Option<UpdatesStatus>>,
    committedVs: Option<ValidatorSet>,
    previousVs: Option<ValidatorSet>,
    updateHeight: Option<nat>,
    updateDecided: Option<bool>,
    lockedPc: Option<PhaseCertificate>,
    highestPc: Option<PhaseCertificate>,
    highestCommitted: Option<CryptoHash>,
    newest: Option<CryptoHash>)

  const EMPTY_BATCH := Batch(map[], map[], map[], map[], map[], map[], None, None, None, None, None, None, None, None)

  function Overwritten<K, V>(m: map<K, V>, ops: map<K, Option<V>>): map<K, V> {
    map k | k in m.Keys + ops.Keys && (k in ops ==> ops[k].Some?) :: if k in ops then ops[k].value else m[k]
  }

  function OrElse<T>(o: Option<T>, default: T): T {
    if o.Some? then o.value else default
  }

  function Written(t: Tree, b: Batch): Tree {
    Tree(
      Overwritten(t.blocks, b.blocks),
      t.atHeight + b.atHeight,
      Overwritten(t.children, b.children),
      Overwritten(t.appState, b.appState),
      Overwritten(t.pendingApp, b.pendingApp),
      Overwritten(t.status, b.status),
      OrElse(b.committedVs, t.committedVs),
      OrElse(b.previousVs, t.previousVs),
      if b.updateHeight.Some? then b.updateHeight else t.updateHeight,
      OrElse(b.updateDecided, t.updateDecided),
      OrElse(b.lockedPc, t.lockedPc),
      OrElse(b.highestPc, t.highestPc),
      if b.highestCommitted.Some? then b.highestCommitted else t.highestCommitted,
      if b.newest.Some? then b.newest else t.newest)
  }

  function Deletions<V>(keys: set<CryptoHash>): map<CryptoHash, Option<V>> {
    map h | h in keys :: None
  }

  /** All data of the blocks in `dead` scheduled for deletion. */
  function WithDeleted(b: Batch, t: Tree, dead: set<CryptoHash>): Batch {
    b.(children := b.children + Deletions(dead),
       pendingApp := b.pendingApp + Deletions(dead),
       status := b.status + Deletions(dead),
       blocks := b.blocks + Deletions(dead * t.blocks.Keys))
  }

  lemma OverwrittenByNothing<K, V>(m: map<K, V>)
    ensures Overwritten(m, map[]) == m
  {
  }

  lemma OverwrittenBySet<K, V>(m: map<K, V>, k: K, v: V)
    ensures Overwritten(m, map[k := Some(v)]) == m[k := v]
  {
  }

  lemma DeletionsGrow<V>(m: map<CryptoHash, Option<V>>, dead: set<CryptoHash>, block: CryptoHash)
    ensures m + Deletions(dead + {block}) == (m + Deletions(dead))[block := None]
  {
  }

  /** `delete_branch` on one block. */
  function WithOneDeleted(b: Batch, t: Tree, block: CryptoHash): Batch {
    var d := b.(
      children := b.children[block := None],
      pendingApp := b.pendingApp[block := None],
      status := b.status[block := None]);
    if block in t.blocks then d.(blocks := d.blocks[block := None]) else d
  }

  lemma DeleteOneMore(b: Batch, t: Tree, dead: set<CryptoHash>, block: CryptoHash)
    ensures WithDeleted(b, t, dead + {block}) == WithOneDeleted(WithDeleted(b, t, dead), t, block)
  {
    DeletionsGrow(b.children, dead, block);
    DeletionsGrow(b.pendingApp, dead, block);
    DeletionsGrow(b.status, dead, block);
    if block in t.blocks {
      DeletionsGrow(b.blocks, dead * t.blocks.Keys, block);
      assert (dead + {block}) * t.blocks.Keys == dead * t.blocks.Keys + {block};
    } else {
      assert (dead + {block}) * t.blocks.Keys == dead * t.blocks.Keys;
    }
  }

  lemma DeleteNothing(b: Batch, t: Tree)
    ensures WithDeleted(b, t, {}) == b
  {
    assert {} * t.blocks.Keys == {};
    NoDeletions(b.children);
    NoDeletions(b.pendingApp);
    NoDeletions(b.status);
    NoDeletions(b.blocks);
  }

  lemma NoDeletions<V>(m: map<CryptoHash, Option<V>>)
    ensures m + Deletions({}) == m
  {
  }

  lemma DeletionsJoin<V>(m: map<CryptoHash, Option<V>>, s: set<CryptoHash>, t: set<CryptoHash>)
    ensures m + Deletions(s) + Deletions(t) == m + Deletions(s + t)
  {
  }

  lemma DeleteJoin(b: Batch, t: Tree, dead: set<CryptoHash>, more: set<CryptoHash>)
    ensures WithDeleted(WithDeleted(b, t, dead), t, more) == WithDeleted(b, t, dead + more)
  {
    DeletionsJoin(b.children, dead, more);
    DeletionsJoin(b.pendingApp, dead, more);
    DeletionsJoin(b.status, dead, more);
    JoinInStore(b.blocks, t.blocks.Keys, dead, more);
  }

  lemma JoinInStore(
      m: map<CryptoHash, Option<Block>>, stored: set<CryptoHash>, dead: set<CryptoHash>, more: set<CryptoHash>)
    ensures m + Deletions(dead * stored) + Deletions(more * stored) == m + Deletions((dead + more) * stored)
  {
    DeletionsJoin(m, dead * stored, more * stored);
    assert (dead + more) * stored == dead * stored + more * stored;
  }

  class WriteBatch {
    var ops: Batch

    constructor ()
      ensures ops == EMPTY_BATCH
    {
      ops := EMPTY_BATCH;
    }
  }

  // ---------------------------------------------------------------------------------------------------
  // Branches of a well-shaped tree

  ghost function Rank(children: map<CryptoHash, seq<CryptoHash>>, b: CryptoHash): nat {
    |set k | k in children && Extends(k, b)|
  }

  lemma ChildrenAreRanked(t: Tree)
    requires ChildrenOk(t)
    ensures BranchSearch.Ranked(t.children, b => Rank(t.children, b))
  {
    forall p, c | p in t.children && c in t.children[p] ensures Rank(t.children, c) < Rank(t.children, p) {
      assert ChildOk(t, p, c);
      var below := set k | k in t.children && Extends(k, c);
      var above := set k | k in t.children && Extends(k, p);
      forall k | k in below ensures k in above {
        ExtendsTransitive(k, c, p);
      }
      if p in below {
        ExtendsDepth(p, c);
      }
      assert below <= above - {p};
      StrictlyFewer(below, above, p);
    }
  }

  lemma StrictlyFewer(below: set<CryptoHash>, above: set<CryptoHash>, p: CryptoHash)
    requires below <= above - {p} && p in above
    ensures |below| < |above|
  {
    SubsetIsSmaller(below, above - {p});
  }

  lemma {:induction false} SubsetIsSmaller(s: set<CryptoHash>, t: set<CryptoHash>)
    requires s <= t
    ensures |s| <= |t|
  {
    if s != {} {
      var x :| x in s;
      SubsetIsSmaller(s - {x}, t - {x});
    }
  }

  ghost function Branch(t: Tree, root: CryptoHash): set<CryptoHash> {
    set h | h in t.blocks && Extends(h, root)
  }

  lemma {:induction false} DescendantExtends(t: Tree, path: seq<CryptoHash>)
    requires ChildrenOk(t) && BranchSearch.IsPath(t.children, path) && path[0] in t.blocks
    ensures path[|path| - 1] in t.blocks && Extends(path[|path| - 1], path[0])
    decreases |path|
  {
    if |path| > 1 {
      var n := |path| - 2;
      var front := path[..|path| - 1];
      forall i | 0 <= i < |front| - 1 ensures front[i + 1] in BranchSearch.Kids(t.children, front[i]) {
        assert path[i + 1] in BranchSearch.Kids(t.children, path[i]);
      }
      DescendantExtends(t, front);
      assert path[n + 1] in BranchSearch.Kids(t.children, path[n]);
      assert ChildOk(t, path[n], path[n + 1]);
      assert Extends(path[n + 1], path[n]);
      ExtendsTransitive(path[n + 1], path[n], path[0]);
    }
  }

  lemma {:induction false} ExtensionDescends(t: Tree, root: CryptoHash, h: CryptoHash)
    requires BlocksOk(t) && ChildrenOk(t) && root in t.blocks && h in t.blocks && Extends(h, root)
    ensures BranchSearch.Descends(t.children, root, h)
    decreases h
  {
    if h == root {
      BranchSearch.DescendsSelf(t.children, root);
    } else {
      assert BlockOk(t, h) && ListedOk(t, h);
      AncestorsStored(t, h, root);
      assert BlockOk(t, root);
      ExtensionDescends(t, root, h.justify.block);
      BranchSearch.DescendsStep(t.children, root, h.justify.block, h);
    }
  }

  /** The blocks of the branches that start at siblings of `b`. */
  ghost function SiblingBranches(t: Tree, b: CryptoHash): set<CryptoHash> {
    if !b.Digest? then {}
    else set h | h in t.blocks && InSiblingBranch(t, b, h)
  }

  ghost predicate InSiblingBranch(t: Tree, b: CryptoHash, h: CryptoHash)
    requires b.Digest?
  {
    exists s | s in BranchSearch.Kids(t.children, b.justify.block) && s != b :: Extends(h, s)
  }

  lemma InsertBatchWrites(
      t: Tree, block: Block, app: Option<AppStateUpdates>, vsu: Option<ValidatorSetUpdates>, b: Batch)
    requires
      var parent := block.justify.block;
      var siblings := if parent in t.children then t.children[parent] else [];
      b == EMPTY_BATCH.(
        blocks := map[block.hash := Some(block)],
        newest := Some(block.hash),
        pendingApp := if app.Some? then map[block.hash := app] else map[],
        status := if vsu.Some? then map[block.hash := Some(Pending(vsu.value))] else map[],
        children := map[parent := Some(siblings + [block.hash])])
    ensures Written(t, b) == InsertBlock(t, block, app, vsu)
  {
    OverwrittenBySet(t.blocks, block.hash, block);
    OverwrittenByNothing(t.appState);
    OverwrittenByNothing(t.pendingApp);
    OverwrittenByNothing(t.status);
    if app.Some? {
      OverwrittenBySet(t.pendingApp, block.hash, app.value);
    }
    if vsu.Some? {
      OverwrittenBySet(t.status, block.hash, Pending(vsu.value));
    }
    var parent := block.justify.block;
    var siblings := if parent in t.children then t.children[parent] else [];
    OverwrittenBySet(t.children, parent, siblings + [block.hash]);
    assert t.atHeight + map[] == t.atHeight;
  }

  // ---------------------------------------------------------------------------------------------------
  // The batch that a commit fills

  function Insertions(m: map<Bytes, Bytes>): map<Bytes, Option<Bytes>> {
    map k | k in m :: Some(m[k])
  }

  function Removals(keys: set<Bytes>): map<Bytes, Option<Bytes>> {
    map k | k in keys :: None
  }

  /** The batch after one more block is committed on the way to `target`. */
  ghost function WithCommitted(b: Batch, t: Tree, target: CryptoHash, h: CryptoHash): Batch
    requires h.Digest?
  {
    var b1 := b.(atHeight := b.atHeight[h.height := h]);
    var b2 := WithDeleted(b1, t, SiblingBranches(t, h));
    var b3 := b2.(children := b2.children[h.justify.block := Some([h])]);
    var b4 :=
      if h in t.pendingApp then
        b3.(appState := b3.appState + Insertions(t.pendingApp[h].inserts) + Removals(t.pendingApp[h].deletes),
            pendingApp := b3.pendingApp[h := None])
      else b3;
    var b5 :=
      if h in t.status && t.status[h].Pending? then
        b4.(committedVs := Some(ApplyUpdates(t.committedVs, t.status[h].updates)),
            previousVs := Some(t.committedVs),
            updateHeight := Some(h.height),
            updateDecided := Some(false),
            status := b4.status[target := Some(Committed)])
      else b4;
    b5.(highestCommitted := Some(h))
  }

  ghost predicate AllDigests(path: seq<CryptoHash>) {
    forall i | 0 <= i < |path| :: path[i].Digest?
  }

  ghost function CommitBatch(b: Batch, t: Tree, target: CryptoHash, path: seq<CryptoHash>): Batch
    requires AllDigests(path)
  {
    if path == [] then b
    else WithCommitted(CommitBatch(b, t, target, path[..|path| - 1]), t, target, path[|path| - 1])
  }

  /** Stored blocks that are off the branch of the last block of `path`. */
  ghost function Dead(t: Tree, path: seq<CryptoHash>): set<CryptoHash> {
    if path == [] then {} else set h | h in t.blocks && !Comparable(h, path[|path| - 1])
  }

  /** Committing one block more kills exactly the branches of its siblings. */
  lemma DeadGrows(t: Tree, target: CryptoHash, path: seq<CryptoHash>, n: nat)
    requires Shape(t) && IsPathTo(t, target, path) && n < |path|
    ensures Dead(t, path[..n + 1]) == Dead(t, path[..n]) + SiblingBranches(t, path[n])
  {
    forall h | h in t.blocks
      ensures h in Dead(t, path[..n + 1]) <==> h in Dead(t, path[..n]) || h in SiblingBranches(t, path[n])
    {
      DeadOrNot(t, target, path, n, h);
    }
  }

  lemma DeadOrNot(t: Tree, target: CryptoHash, path: seq<CryptoHash>, n: nat, h: CryptoHash)
    requires Shape(t) && IsPathTo(t, target, path) && n < |path| && h in t.blocks
    ensures !Comparable(h, path[n]) <==> h in Dead(t, path[..n]) || InSiblingBranch(t, path[n], h)
  {
    var b, parent := path[n], path[n].justify.block;
    if InSiblingBranch(t, b, h) {
      var s :| s in BranchSearch.Kids(t.children, parent) && s != b && Extends(h, s);
      assert ChildOk(t, parent, s);
      BranchesOfSiblings(t, b, s, h);
    }
    if n > 0 {
      assert parent == path[n - 1];
      if !Comparable(h, parent) && Comparable(h, b) {
        ComparableParent(b, h);
      }
    } else {
      ComparableToBase(t, h);
    }
    assert Extends(parent, h) ==> Extends(b, h);
    if Comparable(h, parent) && !Comparable(h, b) {
      var s := BranchingPoint(t, h, parent);
      assert ListedOk(t, s);
      assert InSiblingBranch(t, b, h);
    }
  }

  /** A block above a sibling is neither above nor below. */
  lemma BranchesOfSiblings(t: Tree, b: CryptoHash, s: CryptoHash, h: CryptoHash)
    requires BlocksOk(t) && b in t.blocks && s in t.blocks && h in t.blocks
    requires b.Digest? && s.Digest? && s.justify.block == b.justify.block && s != b && Extends(h, s)
    ensures !Comparable(h, b)
  {
    assert BlockOk(t, b) && BlockOk(t, s);
    if Extends(h, b) {
      SameHeightSameBlock(t, h, b, s);
    } else if Extends(b, h) {
      ExtendsTransitive(b, h, s);
      SameHeightSameBlock(t, b, b, s);
    }
  }

  lemma ComparableToBase(t: Tree, h: CryptoHash)
    requires Shape(t) && h in t.blocks
    ensures Comparable(h, Base(t))
  {
    ZeroIsAncestor(t, h);
  }

  /** The child of `a` on the way down from `h`. */
  lemma {:induction false} BranchingPoint(t: Tree, h: CryptoHash, a: CryptoHash) returns (s: CryptoHash)
    requires BlocksOk(t) && h in t.blocks && Extends(h, a) && h != a
    ensures s in t.blocks && s.Digest? && s.justify.block == a && Extends(h, s)
    decreases h
  {
    assert BlockOk(t, h);
    if h.justify.block == a {
      s := h;
    } else {
      s := BranchingPoint(t, h.justify.block, a);
    }
  }
}
