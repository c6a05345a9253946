/** Who votes, and whose votes count: the set that a replica must be in to vote, and the leader that it sends
    the vote to, are those of the set against which `is_correct` will check the certificate that the vote goes
    into. */
module Electorate {
  import opened Types
  import opened Quorums
  import opened SafetyRules
  import opened BlockStore
  import opened Commitment
  import opened StoreRuns
  import opened Verdicts
  import opened Decisions
  import opened Collecting
  import opened Pacing
  import opened Handlers
  import Leader

  /** Without a previous update there is nothing to decide. */
  ghost predicate DecidedUnlessUpdated(t: Tree) {
    t.updateHeight.None? ==> t.updateDecided
  }

  lemma {:induction false} RunKeepsDecided(vs: ValidatorSet, app: Verdict, chainId: nat, run: seq<Tree>, n: nat)
    requires IsStoreRun(vs, app, chainId, run) && n < |run| && DecidedUnlessUpdated(run[0])
    ensures DecidedUnlessUpdated(run[n])
  {
    if n > 0 {
      RunKeepsDecided(vs, app, chainId, run, n - 1);
      assert CanStep(run[n - 1], app, chainId, run[n - 1 + 1]);
      var e :| StoreStep(run[n - 1], app, chainId, e, run[n]);
    }
  }

  /** While an update is undecided, no stored block is higher than the updating block. */
  lemma NothingAboveUndecided(t: Tree, h: CryptoHash)
    requires Shape(t) && UpdateHeightOk(t) && UndecidedIsChildless(t)
    requires t.updateHeight.Some? && !t.updateDecided && h in t.blocks
    ensures t.blocks[h].height <= t.updateHeight.value
  {
    var b, tip := t.atHeight[t.updateHeight.value], t.highestCommitted.value;
    assert BlockOk(t, h);
    AboveTipDescends(t, h);
    if h.height > t.updateHeight.value {
      if IsCommitted(t, h) {
        AncestorsAreOneBranch(tip, h, b);
        if Extends(b, h) {
          AncestorsStored(t, b, h);
        }
      } else {
        ExtendsTransitive(h, tip, b);
      }
      ChildOnTheWay(t, h, b);
    }
  }

  /** A vote that comes too late for its set: for a block below the latest update once that update is decided,
      or to decide an earlier update; or for the updating block itself, in an earlier phase than Decide once
      the update is decided. */
  predicate ComesTooLate(t: Tree, pc: PhaseCertificate) {
    && t.updateHeight.Some? && pc.block in t.blocks
    && var height, update := t.blocks[pc.block].height, t.updateHeight.value;
       if pc.phase.Decide? then height < update
       else (height < update && t.updateDecided) || (height == update && (t.updateDecided || pc.phase.Generic?))
  }

  /** Votes for a stored block count.  Unless the vote comes too late, the certificate `pc` that it goes into is checked
      against the very set that makes a replica a voter, and the vote goes to the next leader of that set.  A vote that
      comes too late is cast by the committed set, and rejected or checked against the previous one. */
  lemma VotersAreCheckedAgainst(
      t: Tree, pc: PhaseCertificate, justify: PhaseCertificate, k: VerifyingKey)
    requires Shape(t) && UpdateHeightOk(t) && UndecidedIsChildless(t) && DecidedUnlessUpdated(t)
    requires pc.block in t.blocks && (pc.phase.Decide? <==> justify.phase.Commit?)
    ensures
      var checked := SetToCheck(t, pc);
      if !ComesTooLate(t, pc) then
        && checked.Some?
        && (IsPhaseVoter(k, StateOf(t), justify) <==> checked.value.Contains(k))
        && VoteRecipient(StateOf(t), pc.phase, pc.view) == LeaderOf(pc.view + 1, checked.value)
      else
        && (checked.None? || checked == Some(t.previousVs))
        && (checked.Some? ==> (IsPhaseVoter(k, StateOf(t), justify) <==> t.committedVs.Contains(k)))
  {
    if t.updateHeight.Some? {
      if !t.updateDecided {
        NothingAboveUndecided(t, pc.block);
      }
      AtUpdateHeight(t, pc.block);
    }
  }

  /** The stored block at the update height is the one that made the update. */
  lemma AtUpdateHeight(t: Tree, h: CryptoHash)
    requires Shape(t) && UpdateHeightOk(t) && t.updateHeight.Some? && h in t.blocks
    ensures t.blocks[h].height == t.updateHeight.value ==> h in t.status && t.status[h].Committed?
  {
    var b, tip := t.atHeight[t.updateHeight.value], t.highestCommitted.value;
    assert BlockOk(t, h);
    if h.height == t.updateHeight.value {
      AboveTipDescends(t, h);
      SameHeightSameBlock(t, tip, h, b);
    }
  }

  /** The same in every run of the store that starts without a previous update. */
  lemma RunVotersAreCheckedAgainst(
      vs: ValidatorSet, app: Verdict, chainId: nat, run: seq<Tree>, n: nat, pc: PhaseCertificate,
      justify: PhaseCertificate, k: VerifyingKey)
    requires IsStoreRun(vs, app, chainId, run) && n < |run| && run[0].updateHeight.None? && run[0].updateDecided
    requires pc.block in run[n].blocks && (pc.phase.Decide? <==> justify.phase.Commit?) && !ComesTooLate(run[n], pc)
    ensures SetToCheck(run[n], pc).Some?
    ensures IsPhaseVoter(k, StateOf(run[n]), justify) <==> SetToCheck(run[n], pc).value.Contains(k)
    ensures VoteRecipient(StateOf(run[n]), pc.phase, pc.view) == LeaderOf(pc.view + 1, SetToCheck(run[n], pc).value)
  {
    StoreRunKeepsInv(vs, app, chainId, run, n);
    RunKeepsUpdateHeight(vs, app, chainId, run, n);
    RunKeepsChildless(vs, app, chainId, run, n);
    RunKeepsDecided(vs, app, chainId, run, n);
    VotersAreCheckedAgainst(run[n], pc, justify, k);
  }

  /** The active validators are those whose votes a pair of collectors for the active sets can count. */
  lemma ValidatorsAreCollected<V>(pair: CollectorPair<V>, vss: ValidatorSetState, k: VerifyingKey)
    requires vss.Valid() && Matches(pair, vss)
    ensures IsValidator(k, vss) <==>
      k in pair.cvs.vs.validators || (pair.pvs.Some? && k in pair.pvs.value.vs.validators)
  {
  }

  lemma {:induction false} RoundMembers(vs: ValidatorSet, threshold: nat, n: nat, k: VerifyingKey)
    requires n <= |vs.validators| && k in Leader.Round(vs, threshold, n)
    ensures k in vs.validators
  {
    if n > 0 && k in Leader.Round(vs, threshold, n - 1) {
      RoundMembers(vs, threshold, n - 1, k);
    }
  }

  lemma {:induction false} ScheduledMembers(vs: ValidatorSet, t: nat, k: VerifyingKey)
    requires k in Leader.Rounds(vs, t)
    ensures k in vs.validators
  {
    if k in Leader.Rounds(vs, t - 1) {
      ScheduledMembers(vs, t - 1, k);
    } else {
      RoundMembers(vs, t, |vs.validators|, k);
    }
  }

  /** Votes go to a proposer of the next view, and proposers are active validators. */
  lemma VotesGoToNextProposer(vss: ValidatorSetState, phase: Phase, view: nat, k: VerifyingKey)
    requires vss.Valid()
    ensures VoteRecipient(vss, phase, view) == Some(k) ==> IsProposer(k, view + 1, vss)
    ensures IsProposer(k, view, vss) ==> IsValidator(k, vss)
  {
    if LeaderOf(view, vss.committed) == Some(k) {
      LeaderIsMember(view, vss.committed, k);
    } else if LeaderOf(view, vss.previous) == Some(k) {
      LeaderIsMember(view, vss.previous, k);
    }
  }

  lemma LeaderIsMember(view: nat, vs: ValidatorSet, k: VerifyingKey)
    requires vs.Valid() && LeaderOf(view, vs) == Some(k)
    ensures vs.Contains(k)
  {
    Leader.ScheduleLength(vs);
    ScheduledMembers(vs, Leader.MaxPower(vs, |vs.validators|), k);
  }

  /** In particular, votes on an uncommitted block never come too late. */
  lemma UncommittedIsInTime(t: Tree, pc: PhaseCertificate)
    requires Shape(t) && UpdateHeightOk(t) && pc.block in t.blocks && !IsCommitted(t, pc.block)
    ensures !ComesTooLate(t, pc)
  {
    if t.updateHeight.Some? {
      PreviousUpdateIsLower(t, pc.block);
      assert BlockOk(t, pc.block);
    }
  }
}
