/** The tree that a commit leaves behind, and what every commit keeps. */
module Commitment {
  import opened Types
  import opened Quorums
  import opened UpdateSets
  import opened SafetyRules
  import opened BlockStore

  /** `block` and its uncommitted ancestors, oldest first. */
  function UncommittedPath(t: Tree, block: CryptoHash): seq<CryptoHash> {
    if t.CommittedHeight().Some? && block.Digest? && block.height <= t.CommittedHeight().value then []
    else if block in t.blocks && block.Digest? && !IsGenesisPc(block.justify)
    then UncommittedPath(t, block.justify.block) + [block]
    else [block]
  }

  /** The hash that the lowest uncommitted block of a branch links to. */
  function Base(t: Tree): CryptoHash {
    if t.highestCommitted.Some? then t.highestCommitted.value else Zero
  }

  function BaseHeight(t: Tree): nat {
    if t.highestCommitted.Some? && t.highestCommitted.value.Digest? then t.highestCommitted.value.height + 1 else 0
  }

  ghost predicate IsPathTo(t: Tree, target: CryptoHash, path: seq<CryptoHash>) {
    && path != [] && path[|path| - 1] == target
    && (forall i | 0 <= i < |path| ::
          path[i] in t.blocks && path[i].Digest? && Extends(target, path[i]) && !IsCommitted(t, path[i]))
    && (forall i | 0 < i < |path| :: path[i].justify.block == path[i - 1] && path[i].height == path[i - 1].height + 1)
    && path[0].justify.block == Base(t)
    && path[0].height == BaseHeight(t)
  }

  lemma PathGrows(t: Tree, parent: CryptoHash, below: seq<CryptoHash>, target: CryptoHash)
    requires IsPathTo(t, parent, below)
    requires target in t.blocks && target.Digest? && !IsCommitted(t, target)
    requires target.justify.block == parent && target.height == parent.height + 1
    ensures IsPathTo(t, target, below + [target])
  {
    var path := below + [target];
    forall i | 0 <= i < |path|
      ensures path[i] in t.blocks && path[i].Digest? && Extends(target, path[i]) && !IsCommitted(t, path[i])
    {
      assert i < |below| ==> path[i] == below[i] && Extends(parent, below[i]);
    }
  }

  /** Where an uncommitted block with a committed parent sits. */
  lemma ParentIsTip(t: Tree, target: CryptoHash)
    requires Shape(t) && target in t.blocks && !IsCommitted(t, target)
    requires target.Digest? && !IsGenesisPc(target.justify) && IsCommitted(t, target.justify.block)
    ensures t.highestCommitted == Some(target.justify.block)
  {
    var parent := target.justify.block;
    AboveTipDescends(t, target);
    AncestorsStored(t, t.highestCommitted.value, parent);
    assert Extends(parent, t.highestCommitted.value);
    ExtendsAntisymmetric(parent, t.highestCommitted.value);
  }

  lemma GenesisBlockNeedsNoTip(t: Tree, c: CryptoHash)
    requires Shape(t) && c in t.blocks && c.Digest? && IsGenesisPc(c.justify) && !IsCommitted(t, c)
    ensures t.highestCommitted.None?
  {
    if t.highestCommitted.Some? {
      AboveTipDescends(t, c);
      assert BlockOk(t, c);
      assert t.highestCommitted.value != c;
      assert Extends(Zero, t.highestCommitted.value);
    }
  }

  /** The path starts right above the committed tip and climbs to `target` one height at a time. */
  lemma {:induction false} PathFacts(t: Tree, target: CryptoHash)
    requires Shape(t) && target in t.blocks && !IsCommitted(t, target)
    ensures IsPathTo(t, target, UncommittedPath(t, target))
    decreases target
  {
    assert BlockOk(t, target);
    if t.highestCommitted.Some? {
      AboveTipDescends(t, target);
    }
    if IsGenesisPc(target.justify) {
      GenesisBlockNeedsNoTip(t, target);
      assert UncommittedPath(t, target) == [target];
    } else if IsCommitted(t, target.justify.block) {
      ParentIsTip(t, target);
      assert BlockOk(t, target.justify.block);
      assert UncommittedPath(t, target) == [] + [target];
    } else {
      PathFacts(t, target.justify.block);
      PathGrows(t, target.justify.block, UncommittedPath(t, target.justify.block), target);
    }
  }

  /** Every ancestor of the target is on the path or was committed before. */
  lemma {:induction false} PathCovers(t: Tree, target: CryptoHash, a: CryptoHash)
    requires Shape(t) && target in t.blocks && !IsCommitted(t, target)
    requires Extends(target, a) && a.Digest? && !IsCommitted(t, a)
    ensures a in UncommittedPath(t, target)
    decreases target
  {
    PathFacts(t, target);
    assert BlockOk(t, target);
    if a != target {
      var parent := target.justify.block;
      if IsCommitted(t, parent) {
        ExtendsTransitive(t.highestCommitted.value, parent, a);
      } else {
        PathCovers(t, parent, a);
      }
    }
  }

  /** Path elements descend from those before them. */
  lemma {:induction false} PathIsOrdered(t: Tree, target: CryptoHash, path: seq<CryptoHash>, i: nat, j: nat)
    requires IsPathTo(t, target, path) && i <= j < |path|
    ensures Extends(path[j], path[i]) && path[j].height == path[i].height + (j - i)
    decreases j
  {
    if i < j {
      PathIsOrdered(t, target, path, i, j - 1);
    }
  }

  // ---------------------------------------------------------------------------------------------------
  // The committed tree, in closed form

  function Heights(path: seq<CryptoHash>): map<nat, CryptoHash> {
    if path == [] then map[]
    else
      var b := path[|path| - 1];
      Heights(path[..|path| - 1])[(if b.Digest? then b.height else 0) := b]
  }

  function Links(path: seq<CryptoHash>): map<CryptoHash, seq<CryptoHash>> {
    if path == [] then map[]
    else
      var b := path[|path| - 1];
      if b.Digest? then Links(path[..|path| - 1])[b.justify.block := [b]] else Links(path[..|path| - 1])
  }

  /** The app state after applying the pending updates along `path`, oldest first. */
  function AppStateAlong(t: Tree, path: seq<CryptoHash>): map<Bytes, Bytes> {
    if path == [] then t.appState
    else
      var b := path[|path| - 1];
      var before := AppStateAlong(t, path[..|path| - 1]);
      if b in t.pendingApp then Applied(before, t.pendingApp[b]) else before
  }

  /** The last block of `path` with pending validator set updates. */
  function LastUpdating(t: Tree, path: seq<CryptoHash>): (r: Option<CryptoHash>)
    ensures r.Some? ==> r.value in path && r.value in t.status && t.status[r.value].Pending?
  {
    if path == [] then None
    else
      var b := path[|path| - 1];
      if b in t.status && t.status[b].Pending? then Some(b) else LastUpdating(t, path[..|path| - 1])
  }

  /** The target, rather than the updating block itself, is marked as committed. */
  ghost function CommitStatus(t: Tree, target: CryptoHash): map<CryptoHash, UpdatesStatus> {
    var kept := map h | h in t.status && Comparable(h, target) :: t.status[h];
    if LastUpdating(t, UncommittedPath(t, target)).Some? then kept[target := Committed] else kept
  }

  ghost function CommitBlocks(t: Tree, target: CryptoHash): map<CryptoHash, Block> {
    map h | h in t.blocks && Comparable(h, target) :: t.blocks[h]
  }

  ghost function CommitChildren(t: Tree, target: CryptoHash): map<CryptoHash, seq<CryptoHash>> {
    (map p | p in t.children && Comparable(p, target) :: t.children[p]) + Links(UncommittedPath(t, target))
  }

  ghost function CommitPendingApp(t: Tree, target: CryptoHash): map<CryptoHash, AppStateUpdates> {
    map h | h in t.pendingApp && Comparable(h, target) && h !in UncommittedPath(t, target) :: t.pendingApp[h]
  }

  ghost function CommitTree(t: Tree, target: CryptoHash): Tree {
    var path := UncommittedPath(t, target);
    var t1 := t.(
      blocks := CommitBlocks(t, target),
      atHeight := t.atHeight + Heights(path),
      children := CommitChildren(t, target),
      appState := AppStateAlong(t, path),
      pendingApp := CommitPendingApp(t, target),
      status := CommitStatus(t, target),
      highestCommitted := Some(target));
    match LastUpdating(t, path)
    case None => t1
    case Some(b) =>
      t1.(committedVs := ApplyUpdates(t.committedVs, t.status[b].updates),
          previousVs := t.committedVs,
          updateHeight := Some(if b.Digest? then b.height else 0),
          updateDecided := false)
  }

  /** Only the target may carry pending validator set updates. */
  ghost predicate OnlyTargetUpdates(t: Tree, target: CryptoHash) {
    forall h | h in UncommittedPath(t, target) && h != target :: h !in t.status
  }

  /** The blocks of `path` sit at consecutive heights from `base` on. */
  ghost predicate Consecutive(path: seq<CryptoHash>, base: nat) {
    forall i | 0 <= i < |path| :: path[i].Digest? && path[i].height == base + i
  }

  lemma {:induction false} HeightsOf(path: seq<CryptoHash>, base: nat)
    requires Consecutive(path, base)
    ensures forall i: nat :: i in Heights(path) <==> base <= i < base + |path|
    ensures forall i: nat | i in Heights(path) :: Heights(path)[i] == path[i - base]
  {
    if path != [] {
      var below := path[..|path| - 1];
      HeightsOf(below, base);
      assert Heights(path) == Heights(below)[base + |below| := path[|path| - 1]];
    }
  }

  /** Distinct blocks of `path` have distinct parents. */
  ghost predicate DistinctParents(path: seq<CryptoHash>) {
    && (forall i | 0 <= i < |path| :: path[i].Digest?)
    && (forall i, j | 0 <= i < j < |path| :: path[i].justify.block != path[j].justify.block)
  }

  lemma {:induction false} LinksOf(path: seq<CryptoHash>)
    requires DistinctParents(path)
    ensures forall p | p in Links(path) :: exists i :: 0 <= i < |path| && path[i].justify.block == p
    ensures forall i | 0 <= i < |path| ::
      path[i].justify.block in Links(path) && Links(path)[path[i].justify.block] == [path[i]]
  {
    if path != [] {
      var n := |path| - 1;
      var below := path[..n];
      LinksOf(below);
      assert Links(path) == Links(below)[path[n].justify.block := [path[n]]];
      forall i | 0 <= i < |path|
        ensures path[i].justify.block in Links(path) && Links(path)[path[i].justify.block] == [path[i]]
      {
        assert i < n ==> below[i] == path[i];
      }
      forall p | p in Links(path) ensures exists i :: 0 <= i < |path| && path[i].justify.block == p {
        if p != path[n].justify.block {
          var i :| 0 <= i < |below| && below[i].justify.block == p;
          assert path[i].justify.block == p;
        }
      }
    }
  }

  lemma PathIsConsecutive(t: Tree, target: CryptoHash, path: seq<CryptoHash>)
    requires IsPathTo(t, target, path)
    ensures Consecutive(path, BaseHeight(t)) && DistinctParents(path)
  {
    forall i | 0 <= i < |path| ensures path[i].Digest? && path[i].height == BaseHeight(t) + i {
      PathIsOrdered(t, target, path, 0, i);
    }
    forall i, j | 0 <= i < j < |path| ensures path[i].justify.block != path[j].justify.block {
      PathIsOrdered(t, target, path, i, j - 1);
      ExtendsDepth(path[j - 1], path[i]);
    }
  }

  lemma ComparableParent(h: CryptoHash, target: CryptoHash)
    requires h.Digest? && Comparable(h, target)
    ensures Comparable(h.justify.block, target)
  {
    if Extends(target, h) {
      assert Extends(h, h.justify.block);
      ExtendsTransitive(target, h, h.justify.block);
    }
  }

  lemma CommitKeepsBlocks(t: Tree, target: CryptoHash)
    requires BlocksOk(t)
    ensures BlocksOk(CommitTree(t, target))
  {
    var t' := CommitTree(t, target);
    forall h | h in t'.blocks ensures BlockOk(t', h) {
      assert BlockOk(t, h);
      ComparableParent(h, target);
    }
  }

  /** Whoever survives among the children of a path element's parent is that path element. */
  lemma SurvivingSibling(t: Tree, target: CryptoHash, path: seq<CryptoHash>, i: nat, h: CryptoHash)
    requires BlocksOk(t) && target in t.blocks && IsPathTo(t, target, path)
    requires i < |path| && h in t.blocks && h.Digest? && h.justify.block == path[i].justify.block
    ensures Comparable(h, target) <==> h == path[i]
  {
    var b := path[i];
    assert BlockOk(t, h) && BlockOk(t, b);
    PathIsOrdered(t, target, path, i, |path| - 1);
    if Extends(target, h) {
      SameHeightSameBlock(t, target, h, b);
    } else if Extends(h, target) {
      AncestorsStored(t, h, target);
    }
  }

  /** A strict ancestor of the target that is the parent of an uncommitted block is the parent of a path element. */
  lemma UncommittedParent(t: Tree, target: CryptoHash, p: CryptoHash, c: CryptoHash) returns (i: nat)
    requires Shape(t) && target in t.blocks && !IsCommitted(t, target)
    requires c in t.blocks && c.Digest? && c.justify.block == p && !IsCommitted(t, c)
    requires Extends(target, p) && p != target
    ensures i < |UncommittedPath(t, target)| && UncommittedPath(t, target)[i].Digest?
    ensures UncommittedPath(t, target)[i].justify.block == p
  {
    var path := UncommittedPath(t, target);
    PathFacts(t, target);
    assert BlockOk(t, c);
    if IsGenesisPc(c.justify) {
      GenesisBlockNeedsNoTip(t, c);
      i := 0;
    } else if IsCommitted(t, p) {
      ParentIsTip(t, c);
      i := 0;
    } else {
      PathCovers(t, target, p);
      var j :| 0 <= j < |path| && path[j] == p;
      i := j + 1;
      assert path[i].justify.block == path[i - 1];
    }
  }

  /** A child of a surviving block that is not replaced by a link survives. */
  lemma SurvivingChild(t: Tree, target: CryptoHash, p: CryptoHash, c: CryptoHash)
    requires Shape(t) && target in t.blocks && !IsCommitted(t, target)
    requires c in t.blocks && c.Digest? && c.justify.block == p && Comparable(p, target)
    requires forall i | 0 <= i < |UncommittedPath(t, target)| ::
      UncommittedPath(t, target)[i].Digest? && UncommittedPath(t, target)[i].justify.block != p
    ensures Comparable(c, target)
  {
    if Extends(p, target) {
      assert Extends(c, target);
    } else if !IsCommitted(t, c) {
      var _ := UncommittedParent(t, target, p, c);
    } else {
      TipBelowTarget(t, target);
      ExtendsTransitive(target, t.highestCommitted.value, c);
    }
  }

  lemma TipBelowTarget(t: Tree, target: CryptoHash)
    requires BlocksOk(t) && ChainOk(t) && target in t.blocks && !IsCommitted(t, target)
    ensures t.highestCommitted.Some? ==> Extends(target, t.highestCommitted.value)
  {
    if t.highestCommitted.Some? {
      AboveTipDescends(t, target);
    }
  }

  /** The links of the path are the only entries that a commit replaces in the surviving children lists. */
  lemma CommittedChildren(t: Tree, target: CryptoHash, p: CryptoHash) returns (i: nat)
    requires Shape(t) && target in t.blocks && !IsCommitted(t, target)
    ensures IsPathTo(t, target, UncommittedPath(t, target)) && i <= |UncommittedPath(t, target)|
    ensures
      var path := UncommittedPath(t, target);
      var after := CommitChildren(t, target);
      if i < |path| then path[i].justify.block == p && p in after && after[p] == [path[i]]
      else
        && (forall j | 0 <= j < |path| :: path[j].justify.block != p)
        && (p in after <==> p in t.children && Comparable(p, target))
        && (p in after ==> after[p] == t.children[p])
  {
    var path := UncommittedPath(t, target);
    PathFacts(t, target);
    PathIsConsecutive(t, target, path);
    LinksOf(path);
    if p in Links(path) {
      i :| 0 <= i < |path| && path[i].justify.block == p;
    } else {
      i := |path|;
    }
  }

  lemma CommitKeepsChild(t: Tree, target: CryptoHash, p: CryptoHash, c: CryptoHash)
    requires Shape(t) && target in t.blocks && !IsCommitted(t, target)
    requires p in CommitChildren(t, target) && c in CommitChildren(t, target)[p]
    ensures ChildOk(CommitTree(t, target), p, c)
  {
    var i := CommittedChildren(t, target, p);
    if i == |UncommittedPath(t, target)| {
      assert ChildOk(t, p, c);
      SurvivingChild(t, target, p, c);
    }
  }

  lemma CommitKeepsListed(t: Tree, target: CryptoHash, h: CryptoHash)
    requires Shape(t) && target in t.blocks && !IsCommitted(t, target) && h in CommitBlocks(t, target)
    ensures ListedOk(CommitTree(t, target), h)
  {
    assert ListedOk(t, h);
    ComparableParent(h, target);
    var i := CommittedChildren(t, target, h.justify.block);
    if i < |UncommittedPath(t, target)| {
      SurvivingSibling(t, target, UncommittedPath(t, target), i, h);
    }
  }

  lemma CommitKeepsOwner(t: Tree, target: CryptoHash, p: CryptoHash)
    requires Shape(t) && target in t.blocks && !IsCommitted(t, target) && p in CommitChildren(t, target)
    ensures OwnerOk(CommitTree(t, target), p)
  {
    var i := CommittedChildren(t, target, p);
    if i < |UncommittedPath(t, target)| {
      var b := UncommittedPath(t, target)[i];
      ComparableParent(b, target);
      assert BlockOk(t, b);
    } else {
      assert OwnerOk(t, p);
    }
  }

  lemma CommitKeepsChildren(t: Tree, target: CryptoHash)
    requires Shape(t) && target in t.blocks && !IsCommitted(t, target)
    ensures ChildrenOk(CommitTree(t, target))
  {
    var t' := CommitTree(t, target);
    forall p, c | p in t'.children && c in t'.children[p] ensures ChildOk(t', p, c) {
      CommitKeepsChild(t, target, p, c);
    }
    forall h | h in t'.blocks ensures ListedOk(t', h) {
      CommitKeepsListed(t, target, h);
    }
    forall p | p in t'.children ensures OwnerOk(t', p) {
      CommitKeepsOwner(t, target, p);
    }
  }

  lemma HeightsBelowBase(t: Tree)
    requires ChainOk(t)
    ensures forall i: nat :: i in t.atHeight <==> i < BaseHeight(t)
  {
  }

  /** `after` is `before` with `path` stacked on top of it. */
  ghost predicate Stacked(before: map<nat, CryptoHash>, base: nat, path: seq<CryptoHash>, after: map<nat, CryptoHash>) {
    && (forall i: nat :: i in before <==> i < base)
    && (forall i: nat :: i in after <==> i < base + |path|)
    && (forall i: nat | i < base :: after[i] == before[i])
    && (forall i: nat | i < |path| :: after[base + i] == path[i])
  }

  /** Old block-at-height entries are unchanged, and the new ones are exactly the path, at consecutive heights. */
  lemma CommitGrowsChain(t: Tree, target: CryptoHash)
    requires Shape(t) && target in t.blocks && !IsCommitted(t, target)
    ensures Stacked(t.atHeight, BaseHeight(t), UncommittedPath(t, target), CommitTree(t, target).atHeight)
  {
    PathFacts(t, target);
    HeightsBelowBase(t);
    StackHeights(t, target, UncommittedPath(t, target));
  }

  lemma StackHeights(t: Tree, target: CryptoHash, path: seq<CryptoHash>)
    requires IsPathTo(t, target, path)
    requires forall i: nat :: i in t.atHeight <==> i < BaseHeight(t)
    ensures Stacked(t.atHeight, BaseHeight(t), path, t.atHeight + Heights(path))
  {
    PathIsConsecutive(t, target, path);
    StackConsecutive(t.atHeight, BaseHeight(t), path);
  }

  lemma StackConsecutive(before: map<nat, CryptoHash>, base: nat, path: seq<CryptoHash>)
    requires Consecutive(path, base) && forall i: nat :: i in before <==> i < base
    ensures Stacked(before, base, path, before + Heights(path))
  {
    HeightsOf(path, base);
  }

  lemma CommittedEntry(t: Tree, target: CryptoHash, after: map<nat, CryptoHash>, i: nat)
    requires BlocksOk(t) && ChainOk(t) && target in t.blocks && !IsCommitted(t, target)
    requires IsPathTo(t, target, UncommittedPath(t, target))
    requires Stacked(t.atHeight, BaseHeight(t), UncommittedPath(t, target), after) && i in after
    ensures after[i] in t.blocks && after[i].Digest? && after[i].height == i && Extends(target, after[i])
  {
    if i < BaseHeight(t) {
      TipBelowTarget(t, target);
      assert i in t.atHeight;
      ExtendsTransitive(target, t.highestCommitted.value, t.atHeight[i]);
    } else {
      var k := i - BaseHeight(t);
      assert after[BaseHeight(t) + k] == UncommittedPath(t, target)[k];
      PathIsOrdered(t, target, UncommittedPath(t, target), 0, k);
    }
  }

  lemma CommitKeepsChain(t: Tree, target: CryptoHash)
    requires Shape(t) && target in t.blocks && !IsCommitted(t, target)
    ensures ChainOk(CommitTree(t, target))
  {
    var after := CommitTree(t, target).atHeight;
    PathFacts(t, target);
    CommitGrowsChain(t, target);
    PathIsOrdered(t, target, UncommittedPath(t, target), 0, |UncommittedPath(t, target)| - 1);
    forall i: nat | i in after
      ensures after[i] in t.blocks && after[i].Digest? && after[i].height == i && Extends(target, after[i])
    {
      CommittedEntry(t, target, after, i);
    }
  }

  /** Everything that is committed after the commit and was not before is on the path. */
  lemma NewlyCommitted(t: Tree, target: CryptoHash, h: CryptoHash)
    requires Shape(t) && target in t.blocks && !IsCommitted(t, target)
    requires h in t.blocks && Extends(target, h) && !IsCommitted(t, h)
    ensures h in UncommittedPath(t, target)
  {
    assert BlockOk(t, h);
    PathCovers(t, target, h);
  }

  lemma TargetMarked(t: Tree, target: CryptoHash)
    requires Shape(t) && target in t.blocks && !IsCommitted(t, target)
    requires target in t.status && t.status[target].Pending?
    ensures LastUpdating(t, UncommittedPath(t, target)).Some?
  {
    PathFacts(t, target);
  }

  lemma CommitKeepsPendingApp(t: Tree, target: CryptoHash, h: CryptoHash)
    requires Shape(t) && target in t.blocks && !IsCommitted(t, target)
    requires h in CommitPendingApp(t, target)
    ensures h in t.blocks && Comparable(h, target) && !Extends(target, h)
  {
    assert h in t.pendingApp && h !in UncommittedPath(t, target);
    if Extends(target, h) {
      NewlyCommitted(t, target, h);
    }
  }

  lemma CommitKeepsPendingStatus(t: Tree, target: CryptoHash, h: CryptoHash)
    requires Shape(t) && target in t.blocks && !IsCommitted(t, target) && OnlyTargetUpdates(t, target)
    requires h in CommitStatus(t, target)
    ensures h in t.blocks && Comparable(h, target)
    ensures CommitStatus(t, target)[h].Pending? ==> !Extends(target, h)
  {
    if h in t.status && t.status[h].Pending? && Extends(target, h) {
      NewlyCommitted(t, target, h);
      assert h == target;
      TargetMarked(t, target);
    }
  }

  lemma CommitKeepsPending(t: Tree, target: CryptoHash)
    requires Shape(t) && target in t.blocks && !IsCommitted(t, target) && OnlyTargetUpdates(t, target)
    ensures PendingOk(CommitTree(t, target))
  {
    var t' := CommitTree(t, target);
    forall h | h in t'.pendingApp ensures h in t'.blocks && !IsCommitted(t', h) {
      CommitKeepsPendingApp(t, target, h);
    }
    forall h | h in t'.status ensures h in t'.blocks && (t'.status[h].Pending? ==> !IsCommitted(t', h)) {
      CommitKeepsPendingStatus(t, target, h);
    }
  }

  /** A commit keeps the shape of the tree: what survives is the committed chain, now up to `target`, and the
      descendants of `target`. */
  lemma CommitKeepsShape(t: Tree, target: CryptoHash)
    requires Shape(t) && target in t.blocks && !IsCommitted(t, target) && OnlyTargetUpdates(t, target)
    ensures Shape(CommitTree(t, target))
    ensures forall h ::
      h in CommitTree(t, target).blocks <==> h in t.blocks && (Extends(h, target) || Extends(target, h))
  {
    CommitKeepsBlocks(t, target);
    CommitKeepsChildren(t, target);
    CommitKeepsChain(t, target);
    CommitKeepsPending(t, target);
  }
}
