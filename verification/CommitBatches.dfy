/** Writing the batch that a commit fills produces the committed tree, key family by key family. */
module CommitBatches {
  import opened Types
  import opened Quorums
  import opened UpdateSets
  import opened SafetyRules
  import opened BlockStore
  import opened Commitment
  import opened WriteBatches

  /** A batch in which only certificates have been set. */
  ghost predicate OnlyCertificates(b: Batch) {
    b == EMPTY_BATCH.(lockedPc := b.lockedPc, highestPc := b.highestPc)
  }

  lemma OverwrittenThenDeleted<V>(m: map<CryptoHash, V>, ops: map<CryptoHash, Option<V>>, dead: set<CryptoHash>)
    ensures Overwritten(m, ops + Deletions(dead)) == Overwritten(m, ops) - dead
  {
  }

  /** Per key, the last operation in a batch decides, whatever the batch held before. */
  lemma LastOperationWins<K, V>(m: map<K, V>, ops: map<K, Option<V>>, k: K, op: Option<V>)
    ensures Overwritten(m, ops[k := op]) ==
      if op.Some? then Overwritten(m, ops)[k := op.value] else Overwritten(m, ops) - {k}
  {
  }

  lemma OverwrittenThenInserted(m: map<Bytes, Bytes>, ops: map<Bytes, Option<Bytes>>, inserts: map<Bytes, Bytes>)
    ensures Overwritten(m, ops + Insertions(inserts)) == Overwritten(m, ops) + inserts
  {
  }

  lemma OverwrittenThenRemoved(m: map<Bytes, Bytes>, ops: map<Bytes, Option<Bytes>>, deletes: set<Bytes>)
    ensures Overwritten(m, ops + Removals(deletes)) == Overwritten(m, ops) - deletes
  {
  }

  lemma OverwrittenThenUpdated(m: map<Bytes, Bytes>, ops: map<Bytes, Option<Bytes>>, u: AppStateUpdates)
    ensures Overwritten(m, ops + Insertions(u.inserts) + Removals(u.deletes)) == Applied(Overwritten(m, ops), u)
  {
    OverwrittenThenInserted(m, ops, u.inserts);
    OverwrittenThenRemoved(m, ops + Insertions(u.inserts), u.deletes);
  }

  ghost function BatchUpTo(b: Batch, t: Tree, target: CryptoHash, path: seq<CryptoHash>, n: nat): Batch
    requires AllDigests(path) && n <= |path|
  {
    CommitBatch(b, t, target, path[..n])
  }

  lemma BatchStep(b: Batch, t: Tree, target: CryptoHash, path: seq<CryptoHash>, n: nat)
    requires AllDigests(path) && n < |path|
    ensures BatchUpTo(b, t, target, path, n + 1) == WithCommitted(BatchUpTo(b, t, target, path, n), t, target, path[n])
  {
    assert path[..n + 1][..n] == path[..n];
  }

  /** The step, key family by key family. */
  lemma StepFamilies(b: Batch, t: Tree, target: CryptoHash, path: seq<CryptoHash>, n: nat)
    requires AllDigests(path) && n < |path|
    ensures
      var before := BatchUpTo(b, t, target, path, n);
      var after := BatchUpTo(b, t, target, path, n + 1);
      var h := path[n];
      var dead := SiblingBranches(t, h);
      && after.blocks == before.blocks + Deletions(dead * t.blocks.Keys)
      && after.children == (before.children + Deletions(dead))[h.justify.block := Some([h])]
      && after.pendingApp == (if h in t.pendingApp then (before.pendingApp + Deletions(dead))[h := None]
                              else before.pendingApp + Deletions(dead))
      && after.status ==
        (if h in t.status && t.status[h].Pending? then (before.status + Deletions(dead))[target := Some(Committed)]
                          else before.status + Deletions(dead))
  {
    BatchStep(b, t, target, path, n);
  }

  lemma StepScalars(b: Batch, t: Tree, target: CryptoHash, h: CryptoHash)
    requires h.Digest?
    ensures
      var after := WithCommitted(b, t, target, h);
      && after.atHeight == b.atHeight[h.height := h] && after.highestCommitted == Some(h)
      && after.lockedPc == b.lockedPc && after.highestPc == b.highestPc && after.newest == b.newest
  {
  }

  lemma StepValidatorSets(b: Batch, t: Tree, target: CryptoHash, h: CryptoHash)
    requires h.Digest?
    ensures
      var after := WithCommitted(b, t, target, h);
      if h in t.status && t.status[h].Pending? then
        && after.committedVs == Some(ApplyUpdates(t.committedVs, t.status[h].updates))
        && after.previousVs == Some(t.committedVs)
        && after.updateHeight == Some(h.height) && after.updateDecided == Some(false)
      else
        && after.committedVs == b.committedVs && after.previousVs == b.previousVs
        && after.updateHeight == b.updateHeight && after.updateDecided == b.updateDecided
  {
  }

  lemma StepAppState(b: Batch, t: Tree, target: CryptoHash, path: seq<CryptoHash>, n: nat)
    requires AllDigests(path) && n < |path|
    ensures
      var before := BatchUpTo(b, t, target, path, n).appState;
      BatchUpTo(b, t, target, path, n + 1).appState ==
        if path[n] in t.pendingApp
        then before + Insertions(t.pendingApp[path[n]].inserts) + Removals(t.pendingApp[path[n]].deletes)
        else before
  {
    BatchStep(b, t, target, path, n);
  }

  lemma {:induction false} BatchBlocks(b: Batch, t: Tree, target: CryptoHash, path: seq<CryptoHash>, n: nat)
    requires OnlyCertificates(b) && Shape(t) && IsPathTo(t, target, path) && AllDigests(path) && n <= |path|
    ensures Overwritten(t.blocks, BatchUpTo(b, t, target, path, n).blocks) == t.blocks - Dead(t, path[..n])
  {
    if n == 0 {
      OverwrittenByNothing(t.blocks);
    } else {
      BatchBlocks(b, t, target, path, n - 1);
      StepFamilies(b, t, target, path, n - 1);
      DeadGrows(t, target, path, n - 1);
      var dead := SiblingBranches(t, path[n - 1]);
      assert dead * t.blocks.Keys == dead;
      OverwrittenThenDeleted(t.blocks, BatchUpTo(b, t, target, path, n - 1).blocks, dead);
      JoinDeletions(t.blocks, Dead(t, path[..n - 1]), dead);
    }
  }

  lemma JoinDeletions<V>(m: map<CryptoHash, V>, dead: set<CryptoHash>, more: set<CryptoHash>)
    ensures m - dead - more == m - (dead + more)
  {
  }

  lemma StepHeights(b: Batch, t: Tree, target: CryptoHash, path: seq<CryptoHash>, n: nat)
    requires AllDigests(path) && n < |path|
    ensures
      var before := BatchUpTo(b, t, target, path, n);
      var after := BatchUpTo(b, t, target, path, n + 1);
      after.atHeight == before.atHeight[path[n].height := path[n]] && after.highestCommitted == Some(path[n])
  {
    BatchStep(b, t, target, path, n);
    StepScalars(BatchUpTo(b, t, target, path, n), t, target, path[n]);
  }

  lemma StepCertificates(b: Batch, t: Tree, target: CryptoHash, path: seq<CryptoHash>, n: nat)
    requires AllDigests(path) && n < |path|
    ensures
      var before := BatchUpTo(b, t, target, path, n);
      var after := BatchUpTo(b, t, target, path, n + 1);
      after.lockedPc == before.lockedPc && after.highestPc == before.highestPc && after.newest == before.newest
  {
    BatchStep(b, t, target, path, n);
    StepScalars(BatchUpTo(b, t, target, path, n), t, target, path[n]);
  }

  lemma {:induction false} BatchHeights(b: Batch, t: Tree, target: CryptoHash, path: seq<CryptoHash>, n: nat)
    requires OnlyCertificates(b) && AllDigests(path) && n <= |path|
    ensures BatchUpTo(b, t, target, path, n).atHeight == Heights(path[..n])
    ensures BatchUpTo(b, t, target, path, n).highestCommitted == if n == 0 then None else Some(path[n - 1])
  {
    if n > 0 {
      BatchHeights(b, t, target, path, n - 1);
      StepHeights(b, t, target, path, n - 1);
      HeightsGrow(path, n - 1);
    }
  }

  lemma {:induction false} BatchCertificates(b: Batch, t: Tree, target: CryptoHash, path: seq<CryptoHash>, n: nat)
    requires OnlyCertificates(b) && AllDigests(path) && n <= |path|
    ensures BatchUpTo(b, t, target, path, n).lockedPc == b.lockedPc
    ensures BatchUpTo(b, t, target, path, n).highestPc == b.highestPc
    ensures BatchUpTo(b, t, target, path, n).newest == None
  {
    if n > 0 {
      BatchCertificates(b, t, target, path, n - 1);
      StepCertificates(b, t, target, path, n - 1);
    }
  }

  lemma HeightsGrow(path: seq<CryptoHash>, n: nat)
    requires n < |path| && path[n].Digest?
    ensures Heights(path[..n + 1]) == Heights(path[..n])[path[n].height := path[n]]
  {
    assert path[..n + 1][..n] == path[..n];
  }

  /** No path element's parent is in a branch that dies with a later path element. */
  lemma LinksStayAlive(t: Tree, target: CryptoHash, path: seq<CryptoHash>, n: nat)
    requires Shape(t) && IsPathTo(t, target, path) && n < |path|
    ensures Links(path[..n]).Keys !! SiblingBranches(t, path[n])
  {
    PathIsConsecutive(t, target, path);
    assert DistinctParents(path[..n]);
    LinksOf(path[..n]);
    DeadGrows(t, target, path, n);
    forall p | p in Links(path[..n]) ensures p !in SiblingBranches(t, path[n]) {
      var i :| 0 <= i < |path[..n]| && path[..n][i].justify.block == p;
      PathIsOrdered(t, target, path, i, n);
      assert Extends(path[i], p);
      ExtendsTransitive(path[n], path[i], p);
      assert p !in Dead(t, path[..n + 1]);
    }
  }

  lemma {:induction false} BatchChildren(b: Batch, t: Tree, target: CryptoHash, path: seq<CryptoHash>, n: nat)
    requires OnlyCertificates(b) && Shape(t) && IsPathTo(t, target, path) && AllDigests(path) && n <= |path|
    ensures Overwritten(t.children, BatchUpTo(b, t, target, path, n).children)
         == (t.children - Dead(t, path[..n])) + Links(path[..n])
  {
    if n == 0 {
      OverwrittenByNothing(t.children);
    } else {
      var m := n - 1;
      BatchChildren(b, t, target, path, m);
      StepFamilies(b, t, target, path, m);
      DeadGrows(t, target, path, m);
      LinksStayAlive(t, target, path, m);
      var ops := BatchUpTo(b, t, target, path, m).children;
      var dead := SiblingBranches(t, path[m]);
      OverwrittenThenDeleted(t.children, ops, dead);
      LastOperationWins(t.children, ops + Deletions(dead), path[m].justify.block, Some([path[m]]));
      assert path[..n][..m] == path[..m];
      JoinChildren(t.children, Dead(t, path[..m]), dead, Links(path[..m]), path[m].justify.block, [path[m]]);
    }
  }

  lemma JoinChildren(
      m: map<CryptoHash, seq<CryptoHash>>, dead: set<CryptoHash>, more: set<CryptoHash>,
      links: map<CryptoHash, seq<CryptoHash>>, k: CryptoHash, v: seq<CryptoHash>)
    requires links.Keys !! more
    ensures (((m - dead) + links) - more)[k := v] == (m - (dead + more)) + links[k := v]
  {
  }

  ghost function Elements(path: seq<CryptoHash>): set<CryptoHash> {
    set h | h in path
  }

  lemma ElementsGrow(path: seq<CryptoHash>, n: nat)
    requires n < |path|
    ensures Elements(path[..n + 1]) == Elements(path[..n]) + {path[n]}
  {
    assert path[..n + 1] == path[..n] + [path[n]];
  }

  lemma {:induction false} BatchPendingApp(b: Batch, t: Tree, target: CryptoHash, path: seq<CryptoHash>, n: nat)
    requires OnlyCertificates(b) && Shape(t) && IsPathTo(t, target, path) && AllDigests(path) && n <= |path|
    ensures Overwritten(t.pendingApp, BatchUpTo(b, t, target, path, n).pendingApp)
         == t.pendingApp - Dead(t, path[..n]) - Elements(path[..n])
  {
    if n == 0 {
      OverwrittenByNothing(t.pendingApp);
    } else {
      var m := n - 1;
      BatchPendingApp(b, t, target, path, m);
      StepFamilies(b, t, target, path, m);
      DeadGrows(t, target, path, m);
      var ops := BatchUpTo(b, t, target, path, m).pendingApp;
      var dead := SiblingBranches(t, path[m]);
      OverwrittenThenDeleted(t.pendingApp, ops, dead);
      LastOperationWins(t.pendingApp, ops + Deletions(dead), path[m], None);
      ElementsGrow(path, m);
      JoinPending(t.pendingApp, Dead(t, path[..m]), dead, Elements(path[..m]), path[m]);
    }
  }

  lemma JoinPending(
      m: map<CryptoHash, AppStateUpdates>, dead: set<CryptoHash>, more: set<CryptoHash>, done: set<CryptoHash>,
      k: CryptoHash)
    ensures (m - dead - done - more) - {k} == m - (dead + more) - (done + {k})
    ensures k !in m ==> m - dead - done - more == m - (dead + more) - (done + {k})
  {
  }

  function Mark(updating: bool, target: CryptoHash): map<CryptoHash, UpdatesStatus> {
    if updating then map[target := Committed] else map[]
  }

  lemma LastUpdatingGrows(t: Tree, path: seq<CryptoHash>, n: nat)
    requires n < |path|
    ensures LastUpdating(t, path[..n + 1]) ==
      if path[n] in t.status && t.status[path[n]].Pending? then Some(path[n]) else LastUpdating(t, path[..n])
  {
    assert path[..n + 1][..n] == path[..n];
  }

  lemma {:induction false} BatchStatus(b: Batch, t: Tree, target: CryptoHash, path: seq<CryptoHash>, n: nat)
    requires OnlyCertificates(b) && Shape(t) && IsPathTo(t, target, path) && AllDigests(path) && n <= |path|
    ensures Overwritten(t.status, BatchUpTo(b, t, target, path, n).status)
         == (t.status - Dead(t, path[..n])) + Mark(LastUpdating(t, path[..n]).Some?, target)
  {
    if n == 0 {
      OverwrittenByNothing(t.status);
    } else {
      var m := n - 1;
      BatchStatus(b, t, target, path, m);
      StepFamilies(b, t, target, path, m);
      DeadGrows(t, target, path, m);
      var ops := BatchUpTo(b, t, target, path, m).status;
      var dead := SiblingBranches(t, path[m]);
      OverwrittenThenDeleted(t.status, ops, dead);
      LastOperationWins(t.status, ops + Deletions(dead), target, Some(Committed));
      LastUpdatingGrows(t, path, m);
      TargetStaysAlive(t, target, path, m);
      JoinStatus(t.status, Dead(t, path[..m]), dead, LastUpdating(t, path[..m]).Some?, target);
    }
  }

  lemma TargetStaysAlive(t: Tree, target: CryptoHash, path: seq<CryptoHash>, n: nat)
    requires Shape(t) && IsPathTo(t, target, path) && n < |path|
    ensures target !in SiblingBranches(t, path[n])
  {
    DeadGrows(t, target, path, n);
    PathIsOrdered(t, target, path, n, |path| - 1);
    assert target !in Dead(t, path[..n + 1]);
  }

  lemma JoinStatus(
      m: map<CryptoHash, UpdatesStatus>, dead: set<CryptoHash>, more: set<CryptoHash>, updating: bool,
      target: CryptoHash)
    requires target !in more
    ensures ((m - dead) + Mark(updating, target)) - more == (m - (dead + more)) + Mark(updating, target)
    ensures (((m - dead) + Mark(updating, target)) - more)[target := Committed]
         == (m - (dead + more)) + Mark(true, target)
  {
  }

  lemma {:induction false} BatchAppState(b: Batch, t: Tree, target: CryptoHash, path: seq<CryptoHash>, n: nat)
    requires OnlyCertificates(b) && AllDigests(path) && n <= |path|
    ensures Overwritten(t.appState, BatchUpTo(b, t, target, path, n).appState) == AppStateAlong(t, path[..n])
  {
    if n == 0 {
      OverwrittenByNothing(t.appState);
    } else {
      var m := n - 1;
      BatchAppState(b, t, target, path, m);
      StepAppState(b, t, target, path, m);
      assert path[..n][..m] == path[..m];
      if path[m] in t.pendingApp {
        OverwrittenThenUpdated(t.appState, BatchUpTo(b, t, target, path, m).appState, t.pendingApp[path[m]]);
      }
    }
  }

  /** What a batch schedules for the validator set variables when `last` is the last updating block. */
  ghost predicate SchedulesSets(t: Tree, last: Option<CryptoHash>, a: Batch) {
    match last
    case None => a.committedVs == None && a.previousVs == None && a.updateHeight == None && a.updateDecided == None
    case Some(h) => h.Digest? && h in t.status && t.status[h].Pending? && SchedulesUpdate(t, h, a)
  }

  ghost predicate SchedulesUpdate(t: Tree, h: CryptoHash, a: Batch)
    requires h.Digest? && h in t.status && t.status[h].Pending?
  {
    && a.committedVs == Some(ApplyUpdates(t.committedVs, t.status[h].updates))
    && a.previousVs == Some(t.committedVs)
    && a.updateHeight == Some(h.height)
    && a.updateDecided == Some(false)
  }

  lemma StepSchedulesSets(b: Batch, t: Tree, target: CryptoHash, h: CryptoHash, last: Option<CryptoHash>)
    requires h.Digest? && SchedulesSets(t, last, b)
    ensures SchedulesSets(
      t, if h in t.status && t.status[h].Pending? then Some(h) else last, WithCommitted(b, t, target, h))
  {
    StepValidatorSets(b, t, target, h);
  }

  lemma {:induction false} BatchValidatorSets(b: Batch, t: Tree, target: CryptoHash, path: seq<CryptoHash>, n: nat)
    requires OnlyCertificates(b) && AllDigests(path) && n <= |path|
    ensures SchedulesSets(t, LastUpdating(t, path[..n]), BatchUpTo(b, t, target, path, n))
  {
    if n > 0 {
      var m := n - 1;
      BatchValidatorSets(b, t, target, path, m);
      BatchStep(b, t, target, path, m);
      NextSchedulesSets(BatchUpTo(b, t, target, path, m), t, target, path, m, BatchUpTo(b, t, target, path, n));
    }
  }

  lemma NextSchedulesSets(before: Batch, t: Tree, target: CryptoHash, path: seq<CryptoHash>, n: nat, after: Batch)
    requires n < |path| && path[n].Digest? && after == WithCommitted(before, t, target, path[n])
    requires SchedulesSets(t, LastUpdating(t, path[..n]), before)
    ensures SchedulesSets(t, LastUpdating(t, path[..n + 1]), after)
  {
    StepSchedulesSets(before, t, target, path[n], LastUpdating(t, path[..n]));
    LastUpdatingGrows(t, path, n);
  }

  /** The whole batch, written, is the committed tree with the certificates of the batch. */
  lemma CommitBatchWrites(b: Batch, t: Tree, target: CryptoHash)
    requires OnlyCertificates(b) && Shape(t) && target in t.blocks && !IsCommitted(t, target)
    requires AllDigests(UncommittedPath(t, target))
    ensures Written(t, CommitBatch(b, t, target, UncommittedPath(t, target)))
         == CommitTree(t, target).(
              lockedPc := OrElse(b.lockedPc, t.lockedPc), highestPc := OrElse(b.highestPc, t.highestPc))
  {
    var path := UncommittedPath(t, target);
    var n := |path|;
    PathFacts(t, target);
    assert path[..n] == path;
    BatchBlocks(b, t, target, path, n);
    BatchHeights(b, t, target, path, n);
    BatchCertificates(b, t, target, path, n);
    BatchChildren(b, t, target, path, n);
    BatchPendingApp(b, t, target, path, n);
    BatchStatus(b, t, target, path, n);
    BatchAppState(b, t, target, path, n);
    BatchValidatorSets(b, t, target, path, n);
    DropsAll(t, target);
    SurvivorsAreComparable(t, target, Dead(t, path));
  }

  /** `dead` is what a commit of `target` drops, as far as the keys of `m` are concerned. */
  ghost predicate DropsFrom<V>(m: map<CryptoHash, V>, dead: set<CryptoHash>, target: CryptoHash) {
    forall k | k in m :: k in dead <==> !Comparable(k, target)
  }

  lemma DropsAll(t: Tree, target: CryptoHash)
    requires Shape(t) && target in t.blocks && !IsCommitted(t, target)
    ensures
      var dead := Dead(t, UncommittedPath(t, target));
      DropsFrom(t.blocks, dead, target) && DropsFrom(t.children, dead, target) &&
      DropsFrom(t.pendingApp, dead, target) && DropsFrom(t.status, dead, target)
  {
    PathEnds(t, target);
    ZeroIsAncestor(t, target);
    forall p | p in t.children ensures p in Dead(t, UncommittedPath(t, target)) <==> !Comparable(p, target) {
      assert OwnerOk(t, p);
    }
  }

  /** `Dead` along the whole path are the stored blocks that the commit drops. */
  lemma SurvivorsAreComparable(t: Tree, target: CryptoHash, dead: set<CryptoHash>)
    requires DropsFrom(t.blocks, dead, target) && DropsFrom(t.children, dead, target)
    requires DropsFrom(t.pendingApp, dead, target) && DropsFrom(t.status, dead, target)
    ensures t.blocks - dead == CommitBlocks(t, target)
    ensures (t.children - dead) + Links(UncommittedPath(t, target)) == CommitChildren(t, target)
    ensures t.pendingApp - dead - Elements(UncommittedPath(t, target)) == CommitPendingApp(t, target)
    ensures (t.status - dead) + Mark(LastUpdating(t, UncommittedPath(t, target)).Some?, target) ==
      CommitStatus(t, target)
  {
    KeepComparable(t.blocks, dead, target);
    KeepComparable(t.children, dead, target);
    KeepComparable(t.pendingApp, dead, target);
    KeepComparable(t.status, dead, target);
    DropElements(t, target, dead);
    MarkTarget(map h | h in t.status && Comparable(h, target) :: t.status[h], target);
  }

  lemma MarkTarget(m: map<CryptoHash, UpdatesStatus>, target: CryptoHash)
    ensures m + Mark(true, target) == m[target := Committed] && m + Mark(false, target) == m
  {
  }

  lemma PathEnds(t: Tree, target: CryptoHash)
    requires Shape(t) && target in t.blocks && !IsCommitted(t, target)
    ensures UncommittedPath(t, target) != [] && UncommittedPath(t, target)[|UncommittedPath(t, target)| - 1] == target
  {
    PathFacts(t, target);
  }

  lemma KeepComparable<V>(m: map<CryptoHash, V>, dead: set<CryptoHash>, target: CryptoHash)
    requires DropsFrom(m, dead, target)
    ensures m - dead == map k | k in m && Comparable(k, target) :: m[k]
  {
  }

  lemma DropElements(t: Tree, target: CryptoHash, dead: set<CryptoHash>)
    requires t.pendingApp - dead == map k | k in t.pendingApp && Comparable(k, target) :: t.pendingApp[k]
    ensures t.pendingApp - dead - Elements(UncommittedPath(t, target)) == CommitPendingApp(t, target)
  {
  }
}
