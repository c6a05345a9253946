/** The concrete block tree does what the protocol machine allows, so the machine's theorems are about it. */
module Refinement {
  import opened Types
  import opened Quorums
  import opened UpdateSets
  import opened SafetyRules
  import opened BlockStore
  import opened Commitment
  import opened StoreRuns
  import Protocol

  ghost function AsReplica(t: Tree, view: nat, voted: Option<nat>): Protocol.Replica {
    Protocol.Replica(t.View(), view, voted, set h | h in t.blocks && IsCommitted(t, h))
  }

  lemma InsertRefines(t: Tree, block: Block, app: Option<AppStateUpdates>, vsu: Option<ValidatorSetUpdates>)
    requires BlocksOk(t) && ChainOk(t) && MayInsert(t, block)
    ensures InsertBlock(t, block, app, vsu).View() == Protocol.Insert(t.View(), block.hash, vsu.Some?)
    ensures AsReplica(InsertBlock(t, block, app, vsu), 0, None).committed == AsReplica(t, 0, None).committed
  {
    var t' := InsertBlock(t, block, app, vsu);
    assert t'.blocks.Keys == t.blocks.Keys + {block.hash};
    assert t'.status.Keys == if vsu.Some? then t.status.Keys + {block.hash} else t.status.Keys;
  }

  lemma CommitRefines(t: Tree, target: CryptoHash, h: CryptoHash)
    requires BlocksOk(t) && ChainOk(t) && target in t.blocks && !IsCommitted(t, target)
    requires h in t.blocks && IsCommitted(t, h)
    ensures h in CommitBlocks(t, target) && Extends(target, h)
  {
    TipBelowTarget(t, target);
    ExtendsTransitive(target, t.highestCommitted.value, h);
  }

  /** `update` on a well-shaped tree, pruning and all, is an update step of the protocol machine. */
  lemma UpdateRefines(t: Tree, justify: PhaseCertificate, view: nat, voted: Option<nat>)
    requires Shape(t) && PcToLock(t.View(), justify).Ok? && BlockToCommit(t.View(), justify).Ok?
    requires BlockToCommit(t.View(), justify).value.Some? ==>
      OnlyTargetUpdates(t, BlockToCommit(t.View(), justify).value.value)
    ensures Protocol.Update(AsReplica(t, view, voted), justify, AsReplica(UpdateTree(t, justify), view, voted))
  {
    var r, r' := AsReplica(t, view, voted), AsReplica(UpdateTree(t, justify), view, voted);
    var toCommit := BlockToCommit(t.View(), justify).value;
    if toCommit.Some? {
      var target := toCommit.value;
      TargetIsUncommitted(t, justify);
      forall h | h in r.committed ensures h in r'.committed {
        CommitRefines(t, target, h);
      }
      StatusKeysKept(t, target);
    }
  }

  lemma StatusKeysKept(t: Tree, target: CryptoHash)
    requires Shape(t) && target in t.blocks && !IsCommitted(t, target) && OnlyTargetUpdates(t, target)
    ensures CommitStatus(t, target).Keys == set h | h in t.status && Comparable(h, target)
  {
  }
}
