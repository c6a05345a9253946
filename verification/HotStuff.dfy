/** The HotStuff participant as an object: its handlers, proved to do what `Handlers` says. */
module HotStuff {
  import opened Types
  import opened Quorums
  import opened UpdateSets
  import opened SafetyRules
  import opened BlockStore
  import opened StoreRuns
  import opened Verdicts
  import opened Collecting
  import opened Pacing
  import opened Handlers
  import opened BlockTree
  import opened Proposer
  import BlockData
  import Leader
  import Protocol
  import Refinement

  /** `select_leader` does not panic on the active validator sets. */
  ghost predicate LeadersExist(vss: ValidatorSetState) {
    Leader.Modulus(vss.committed) != 0 && (!vss.updateDecided ==> Leader.Modulus(vss.previous) != 0)
  }

  method ComputeIsProposer(key: VerifyingKey, view: nat, vss: ValidatorSetState) returns (r: bool)
    requires vss.Valid() && LeadersExist(vss)
    ensures r <==> IsProposer(key, view, vss)
  {
    var leader := Leader.SelectLeader(view, vss.committed);
    r := leader.value == key;
    if !r && !vss.updateDecided {
      leader := Leader.SelectLeader(view, vss.previous);
      r := leader.value == key;
    }
  }

  method FindRecipient(vss: ValidatorSetState, phase: Phase, view: nat) returns (r: Option<VerifyingKey>)
    requires vss.Valid()
    ensures r == VoteRecipient(vss, phase, view)
  {
    r := Leader.SelectLeader(view + 1, if vss.updateDecided || phase.Decide? then vss.committed else vss.previous);
  }

  lemma SafeAfterInserting(
      t: Tree, block: Block, app: Option<AppStateUpdates>, vsu: Option<ValidatorSetUpdates>, chainId: nat)
    requires Shape(t) && SafeBlock(t.View(), block, chainId) && MayInsert(t, block)
    ensures SafePc(InsertBlock(t, block, app, vsu).View(), block.justify, chainId)
  {
    Refinement.InsertRefines(t, block, app, vsu);
    SafeAfterInsert(t.View(), block, vsu.Some?, chainId);
  }

  datatype NewView = NewView(recipient: VerifyingKey, chainId: nat, view: nat, highestPc: PhaseCertificate)

  /** The leaders of the next view in the active sets. */
  function NewViewsFor(chainId: nat, view: nat, highestPc: PhaseCertificate, vss: ValidatorSetState): seq<NewView> {
    var first, second := LeaderOf(view + 1, vss.committed), LeaderOf(view + 1, vss.previous);
    (if first.Some? then [NewView(first.value, chainId, view, highestPc)] else [])
    + if !vss.updateDecided && second.Some? then [NewView(second.value, chainId, view, highestPc)] else []
  }

  /** On leaving a view, the Highest PC goes to exactly the proposers of the next view, once per active set. */
  lemma NewViewsReachNextProposers(
      chainId: nat, view: nat, highestPc: PhaseCertificate, vss: ValidatorSetState, k: VerifyingKey)
    requires LeadersExist(vss)
    ensures
      var sent := NewViewsFor(chainId, view, highestPc, vss);
      && (NewView(k, chainId, view, highestPc) in sent <==> IsProposer(k, view + 1, vss))
      && |sent| == (if vss.updateDecided then 1 else 2)
      && forall i | 0 <= i < |sent| :: sent[i] == NewView(sent[i].recipient, chainId, view, highestPc)
  {
  }

  class HotStuff {
    const chainId: nat
    const key: VerifyingKey
    /** The validator set that the store started with, and the app's verdicts. */
    ghost const initialVs: ValidatorSet
    ghost const app: Verdict

    var view: nat
    var status: ProposalStatus
    var collectors: PhasePair
    /** The block tree's highest view voted and highest view entered. */
    var voted: Option<nat>
    var entered: nat
    /** The votes sent so far, and to whom. */
    var votesSent: seq<PhaseVote>
    var recipients: seq<Option<VerifyingKey>>
    var newViewsSent: seq<NewView>
    var broadcasts: seq<Broadcast>

    ghost function Value(tree: BlockTreeSingleton): Handler
      reads this, tree
    {
      Handler(tree.store, view, status, voted)
    }

    ghost predicate StoreValid(tree: BlockTreeSingleton)
      reads this, tree
    {
      StoreOk(tree.store, initialVs, app)
    }

    /** The store is one that runs reach, and the collectors are sound and collect for the current view. */
    ghost predicate Valid(tree: BlockTreeSingleton)
      reads this, tree
    {
      StoreValid(tree) && PhasePairOk(collectors) && IsFor(collectors, chainId, view)
    }

    /** A new participant collects for exactly the active sets, and listens to every leader. */
    constructor (
        chainId: nat, key: VerifyingKey, view: nat, voted: Option<nat>, tree: BlockTreeSingleton,
        ghost vs: ValidatorSet, ghost app: Verdict)
      requires StoreOk(tree.store, vs, app)
      ensures Valid(tree) && Matches(collectors, StateOf(tree.store))
      ensures forall leader :: Accepts(status, leader)
      ensures this.chainId == chainId && this.key == key && this.initialVs == vs && this.app == app
      ensures Value(tree) == Handler(tree.store, view, status, voted)
      ensures votesSent == [] && recipients == [] && newViewsSent == [] && broadcasts == []
    {
      this.chainId, this.key, this.view, this.voted, this.entered := chainId, key, view, voted, view;
      this.initialVs, this.app := vs, app;
      status, collectors := WaitingForProposal, NewPhasePair(chainId, view, StateOf(tree.store));
      votesSent, recipients, newViewsSent, broadcasts := [], [], [], [];
      NewPhasePairMatches(chainId, view, StateOf(tree.store));
    }

    /** Sends the NewView of the old view to the next leaders, moves to the new view with fresh collectors for
        exactly the active sets, listens to every leader again, and, as a proposer, broadcasts what
        `EnterViewBroadcast` says. */
    method EnterView(newView: nat, tree: BlockTreeSingleton, dataHash: nat, data: seq<Bytes>) returns (refused: bool)
      requires StoreValid(tree) && LeadersExist(StateOf(tree.store))
      modifies this
      ensures Valid(tree) && Matches(collectors, StateOf(tree.store))
      ensures view == entered == newView && voted == old(voted)
      ensures votesSent == old(votesSent) && recipients == old(recipients)
      ensures forall leader :: Accepts(status, leader)
      ensures newViewsSent ==
        old(newViewsSent) + NewViewsFor(chainId, old(view), tree.store.highestPc, StateOf(tree.store))
      ensures
        var broadcast := EnterViewBroadcast(tree.store.View(), newView, chainId, dataHash, data);
        var proposes := IsProposer(key, newView, StateOf(tree.store));
        && (refused <==> proposes && broadcast.Refused?)
        && broadcasts == old(broadcasts) + (if proposes && !refused then [broadcast] else [])
        && (HasHighest(tree.store.View()) ==> !refused && IsCalledFor(tree.store.highestPc, newView, broadcast))
    {
      BroadcastIsCalledFor(tree.store.View(), newView, chainId, dataHash, data);
      var vss := StateOf(tree.store);
      SendNewViews(vss, tree.store.highestPc);
      view, entered, status := newView, newView, WaitingForProposal;
      collectors := NewPhasePair(chainId, newView, vss);
      NewPhasePairMatches(chainId, newView, vss);
      refused := false;
      var proposes := ComputeIsProposer(key, newView, vss);
      if proposes {
        refused := Propose(tree, dataHash, data);
      }
    }

    method SendNewViews(vss: ValidatorSetState, highestPc: PhaseCertificate)
      requires vss.Valid() && LeadersExist(vss)
      modifies this`newViewsSent
      ensures newViewsSent == old(newViewsSent) + NewViewsFor(chainId, view, highestPc, vss)
    {
      var leader := Leader.SelectLeader(view + 1, vss.committed);
      newViewsSent := newViewsSent + [NewView(leader.value, chainId, view, highestPc)];
      if !vss.updateDecided {
        leader := Leader.SelectLeader(view + 1, vss.previous);
        newViewsSent := newViewsSent + [NewView(leader.value, chainId, view, highestPc)];
      }
    }

    /** Re-proposes, proposes or nudges.  A block that is read back for a re-proposal has lost its data. */
    method Propose(tree: BlockTreeSingleton, dataHash: nat, data: seq<Bytes>) returns (refused: bool)
      requires StoreValid(tree)
      modifies this`broadcasts
      ensures
        var broadcast := EnterViewBroadcast(tree.store.View(), view, chainId, dataHash, data);
        && (refused <==> broadcast.Refused?)
        && broadcasts == old(broadcasts) + if refused then [] else [broadcast]
    {
      refused := false;
      var highest := tree.store.highestPc;
      if (highest.phase.Prepare? || highest.phase.Precommit?) && view != highest.view + 1 {
        if highest.block in tree.store.blocks && highest.block.Digest? {
          assert BlockOk(tree.store, highest.block);
          var stored := tree.store.blocks[highest.block];
          var read := BlockData.RoundTrip(stored.data);
          broadcasts := broadcasts + [Reproposal(stored.(data := read.data))];
        } else {
          refused := true;
        }
        return;
      }
      match highest.phase {
        case Generic =>
          refused := ProposeOn(highest, tree, dataHash, data);
        case Decide =>
          refused := ProposeOn(highest, tree, dataHash, data);
        case _ =>
          broadcasts := broadcasts + [SendNudge(Nudge(chainId, view, highest))];
      }
    }

    /** Proposes a new block on top of the Highest PC. */
    method ProposeOn(
        highest: PhaseCertificate, tree: BlockTreeSingleton, dataHash: nat, data: seq<Bytes>) returns (refused: bool)
      requires IsBlockJustify(highest)
      modifies this`broadcasts
      ensures refused <==> !IsGenesisPc(highest) && !tree.store.View().Contains(highest.block)
      ensures refused ==> broadcasts == old(broadcasts)
      ensures !refused ==>
        var height := if IsGenesisPc(highest) then 0 else highest.block.height + 1;
        broadcasts == old(broadcasts) +
          [Proposal(Block(height, Digest(height, highest, dataHash), highest, dataHash, data))]
    {
      var height := 0;
      if !IsGenesisPc(highest) {
        if highest.block !in tree.store.blocks || !highest.block.Digest? {
          return true;
        }
        height := highest.block.height + 1;
      }
      broadcasts := broadcasts + [Proposal(Block(height, Digest(height, highest, dataHash), highest, dataHash, data))];
      refused := false;
    }

    /** Proposals and nudges are dropped unless they come from a proposer of the view that has not proposed yet. */
    method Admits(origin: VerifyingKey, tree: BlockTreeSingleton) returns (ok: bool)
      requires StateOf(tree.store).Valid() && LeadersExist(StateOf(tree.store))
      ensures ok <==> IsProposer(origin, view, StateOf(tree.store)) && Accepts(status, origin)
    {
      ok := ComputeIsProposer(origin, view, StateOf(tree.store));
      if ok {
        if status == OneLeaderProposed(origin) || status.AllLeadersProposed? {
          ok := false;
        }
      }
    }

    /** A vote sent since goes to the next leader in the set whose votes count. */
    ghost predicate SentTo(
        tree: BlockTreeSingleton, votesBefore: seq<PhaseVote>, before: seq<Option<VerifyingKey>>, phase: Phase)
      reads this, tree
    {
      recipients == before + if votesSent == votesBefore then [] else [VoteRecipient(StateOf(tree.store), phase, view)]
    }

    /** The collectors after a handler: brought up to date if the tree was updated. */
    ghost predicate CollectorsAfter(tree: BlockTreeSingleton, before: PhasePair, updated: bool)
      reads this, tree
    {
      if !updated then collectors == before
      else
        && collectors == PhasePairUpdated(before, StateOf(tree.store))
        && Covers(collectors, StateOf(tree.store))
    }

    method OnReceiveProposal(
        block: Block, origin: VerifyingKey, tree: BlockTreeSingleton, response: AppResponse, salt: nat)
      requires Valid(tree)
      requires AcceptsBlock(chainId, tree.store, block) ==> FitsOnTop(tree.store, block)
      requires response.Valid? ==> response.vsu == app(block.hash)
      modifies this, tree
      ensures Valid(tree)
      ensures Value(tree) == OnProposal(chainId, key, old(Value(tree)), block, origin, response, salt).0
      ensures votesSent ==
        old(votesSent) + OnProposal(chainId, key, old(Value(tree)), block, origin, response, salt).1
      ensures SentTo(
        tree, old(votesSent), old(recipients), if response.Valid? && response.vsu.Some? then Prepare else Generic)
      ensures CollectorsAfter(tree, old(collectors), AcceptsBlock(chainId, old(tree.store), block) && response.Valid?)
      ensures !Accepts(status, origin) && view == old(view) && entered == old(entered)
      ensures newViewsSent == old(newViewsSent) && broadcasts == old(broadcasts)
    {
      OneProposalPerLeader(status, origin);
      if !BlockIsCorrect(tree.store, block) || !SafeBlock(tree.store.View(), block, chainId) || response.Invalid? {
        status := Noted(status, origin);
        return;
      }
      AcceptedMayBeInserted(chainId, tree.store, block);
      ProposalThenVote(chainId, key, Value(tree), block, origin, response.app, response.vsu, salt);
      AcceptProposal(block, origin, tree, response.app, response.vsu, salt);
    }

    method AcceptProposal(
        block: Block, origin: VerifyingKey, tree: BlockTreeSingleton, appUpdates: Option<AppStateUpdates>,
        vsu: Option<ValidatorSetUpdates>, salt: nat)
      requires Valid(tree) && vsu == app(block.hash)
      requires SafeBlock(tree.store.View(), block, chainId) && MayInsert(tree.store, block)
      modifies this`collectors, this`voted, this`votesSent, this`recipients, this`status, tree
      ensures Valid(tree) && CollectorsAfter(tree, old(collectors), true)
      ensures SentTo(tree, old(votesSent), old(recipients), if vsu.Some? then Prepare else Generic)
      ensures
        var proposed := Proposed(old(Value(tree)), block, origin, appUpdates, vsu);
        var phase := if vsu.Some? then Prepare else Generic;
        && Value(tree) == Vote(chainId, key, proposed, block.justify, block.hash, phase, salt).0
        && votesSent == old(votesSent) + Vote(chainId, key, proposed, block.justify, block.hash, phase, salt).1
    {
      InsertThenUpdate(block, tree, appUpdates, vsu);
      VoteAndNote(tree, block.justify, block.hash, if vsu.Some? then Prepare else Generic, origin, salt);
    }

    method OnReceiveNudge(nudge: Nudge, origin: VerifyingKey, tree: BlockTreeSingleton, salt: nat)
      requires Valid(tree)
      modifies this, tree
      ensures Valid(tree)
      ensures Value(tree) == OnNudge(chainId, key, old(Value(tree)), nudge, origin, salt).0
      ensures votesSent == old(votesSent) + OnNudge(chainId, key, old(Value(tree)), nudge, origin, salt).1
      ensures SentTo(tree, old(votesSent), old(recipients), Protocol.NextPhase(nudge.justify.phase))
      ensures CollectorsAfter(tree, old(collectors), AcceptsNudge(chainId, old(tree.store), nudge, view))
      ensures !Accepts(status, origin) && view == old(view) && entered == old(entered)
      ensures newViewsSent == old(newViewsSent) && broadcasts == old(broadcasts)
    {
      OneProposalPerLeader(status, origin);
      if !IsCorrect(tree.store, nudge.justify) || !SafeNudge(tree.store.View(), nudge, view, chainId) {
        status := Noted(status, origin);
        return;
      }
      NudgeThenVote(chainId, key, Value(tree), nudge, origin, salt);
      AcceptNudge(nudge.justify, origin, tree, salt);
    }

    method AcceptNudge(justify: PhaseCertificate, origin: VerifyingKey, tree: BlockTreeSingleton, salt: nat)
      requires Valid(tree) && SafePc(tree.store.View(), justify, chainId)
      modifies this`collectors, this`voted, this`votesSent, this`recipients, this`status, tree
      ensures Valid(tree) && CollectorsAfter(tree, old(collectors), true)
      ensures SentTo(tree, old(votesSent), old(recipients), Protocol.NextPhase(justify.phase))
      ensures
        var nudged := Nudged(old(Value(tree)), justify, origin);
        var phase := Protocol.NextPhase(justify.phase);
        && Value(tree) == Vote(chainId, key, nudged, justify, justify.block, phase, salt).0
        && votesSent == old(votesSent) + Vote(chainId, key, nudged, justify, justify.block, phase, salt).1
    {
      UpdateOn(justify, tree);
      VoteAndNote(tree, justify, justify.block, Protocol.NextPhase(justify.phase), origin, salt);
    }

    method InsertThenUpdate(
        block: Block, tree: BlockTreeSingleton, appUpdates: Option<AppStateUpdates>, vsu: Option<ValidatorSetUpdates>)
      requires Valid(tree) && vsu == app(block.hash)
      requires SafeBlock(tree.store.View(), block, chainId) && MayInsert(tree.store, block)
      modifies this`collectors, tree
      ensures Valid(tree) && CollectorsAfter(tree, old(collectors), true)
      ensures tree.store == UpdatedOn(InsertBlock(old(tree.store), block, appUpdates, vsu), block.justify)
    {
      InsertKeepsShape(tree.store, block, appUpdates, vsu);
      SafeAfterInserting(tree.store, block, appUpdates, vsu, chainId);
      InsertKeepsStore(tree.store, initialVs, app, chainId, block, appUpdates);
      tree.Insert(block, appUpdates, vsu);
      UpdateTreeAndCollectors(block.justify, tree);
    }

    method UpdateOn(pc: PhaseCertificate, tree: BlockTreeSingleton)
      requires Valid(tree) && SafePc(tree.store.View(), pc, chainId)
      modifies this`collectors, tree
      ensures Valid(tree) && CollectorsAfter(tree, old(collectors), true)
      ensures tree.store == UpdatedOn(old(tree.store), pc)
    {
      UpdateKeepsStore(tree.store, initialVs, app, chainId, pc);
      UpdateTreeAndCollectors(pc, tree);
    }

    /** Updates the tree on a safe certificate, which never fails, and then the collectors. */
    method UpdateTreeAndCollectors(pc: PhaseCertificate, tree: BlockTreeSingleton)
      requires Shape(tree.store) && tree.store.committedVs.Valid() && SafePc(tree.store.View(), pc, chainId)
      requires StateOf(UpdatedOn(tree.store, pc)).Valid() && PhasePairOk(collectors) && IsFor(collectors, chainId, view)
      modifies this`collectors, tree
      ensures tree.store == UpdatedOn(old(tree.store), pc)
      ensures PhasePairOk(collectors) && IsFor(collectors, chainId, view)
      ensures CollectorsAfter(tree, old(collectors), true)
    {
      UpdateNeverErrs(tree.store, pc, chainId);
      var r := tree.Update(pc);
      assert r.Ok?;
      UpdatedPhasePairIsOk(collectors, StateOf(tree.store));
      collectors := PhasePairUpdated(collectors, StateOf(tree.store));
    }

    /** Votes, and stops listening to the leader. */
    method VoteAndNote(
        tree: BlockTreeSingleton, justify: PhaseCertificate, block: CryptoHash, phase: Phase, origin: VerifyingKey,
        salt: nat)
      requires StateOf(tree.store).Valid()
      modifies this`voted, this`votesSent, this`recipients, this`status
      ensures SentTo(tree, old(votesSent), old(recipients), phase)
      ensures
        var noted := old(Value(tree)).(status := Noted(old(status), origin));
        && Value(tree) == Vote(chainId, key, noted, justify, block, phase, salt).0
        && votesSent == old(votesSent) + Vote(chainId, key, noted, justify, block, phase, salt).1
    {
      CastVote(tree, justify, block, phase, salt);
      status := Noted(status, origin);
    }

    /** Votes, if allowed to and not yet in this view or a later one: at most once, correctly signed for the current
        view, and then never again in this view. */
    method CastVote(tree: BlockTreeSingleton, justify: PhaseCertificate, block: CryptoHash, phase: Phase, salt: nat)
      requires StateOf(tree.store).Valid()
      modifies this`voted, this`votesSent, this`recipients
      ensures SentTo(tree, old(votesSent), old(recipients), phase)
      ensures
        var (h, votes) := Vote(chainId, key, old(Value(tree)), justify, block, phase, salt);
        Value(tree) == h && votesSent == old(votesSent) + votes
      ensures old(votesSent) <= votesSent && |votesSent| <= |old(votesSent)| + 1
      ensures votesSent == old(votesSent) ==> voted == old(voted)
      ensures votesSent != old(votesSent) ==>
        var vote := votesSent[|votesSent| - 1];
        && PhaseVoteIsCorrect(key, vote) && (vote.view, vote.block, vote.phase) == (view, block, phase)
        && (old(voted).None? || old(voted).value < view) && voted == Some(view)
        && !MayVote(key, Value(tree), justify)
    {
      if IsPhaseVoter(key, StateOf(tree.store), justify) && (voted.None? || voted.value < view) {
        var recipient := FindRecipient(StateOf(tree.store), phase, view);
        votesSent := votesSent + [NewPhaseVote(chainId, key, view, block, phase, salt)];
        recipients := recipients + [recipient];
        voted := Some(view);
      }
    }

    method OnReceivePhaseVote(vote: PhaseVote, signer: VerifyingKey, tree: BlockTreeSingleton)
      requires Valid(tree)
      modifies this, tree
      ensures Valid(tree)
      ensures Value(tree) == OnVote(chainId, old(Value(tree)), old(collectors), signer, vote)
      ensures
        var (pair, pc) := PhasePairCollected(old(collectors), signer, vote);
        if !PhaseVoteIsCorrect(signer, vote) then collectors == old(collectors)
        else CollectorsAfter(tree, pair, pc.Some? && AcceptsPc(chainId, old(tree.store), pc.value))
      ensures view == old(view) && entered == old(entered)
      ensures votesSent == old(votesSent) && recipients == old(recipients)
      ensures newViewsSent == old(newViewsSent) && broadcasts == old(broadcasts)
    {
      if PhaseVoteIsCorrect(signer, vote) {
        PhasePairIsSound(collectors, signer, vote);
        var (pair, pc) := PhasePairCollected(collectors, signer, vote);
        collectors := pair;
        if pc.Some? {
          OnCorrectCertificate(pc.value, tree);
        }
      }
    }

    method OnReceiveNewView(highestPc: PhaseCertificate, tree: BlockTreeSingleton)
      requires Valid(tree)
      modifies this`collectors, tree
      ensures Valid(tree)
      ensures Value(tree) == OnCertificate(chainId, old(Value(tree)), highestPc)
      ensures CollectorsAfter(tree, old(collectors), AcceptsPc(chainId, old(tree.store), highestPc))
    {
      OnCorrectCertificate(highestPc, tree);
    }

    method OnCorrectCertificate(pc: PhaseCertificate, tree: BlockTreeSingleton)
      requires Valid(tree)
      modifies this`collectors, tree
      ensures Valid(tree)
      ensures Value(tree) == OnCertificate(chainId, old(Value(tree)), pc)
      ensures CollectorsAfter(tree, old(collectors), AcceptsPc(chainId, old(tree.store), pc))
    {
      if !IsCorrect(tree.store, pc) || !SafePc(tree.store.View(), pc, chainId) {
        return;
      }
      UpdateOn(pc, tree);
    }
  }
}
