/** The signature check of certificates, and the collectors as objects, each proved to do what `Collecting` says. */
module Collectors {
  import opened Types
  import opened Quorums
  import opened Collecting
  import opened ValidatorSets

  /** `is_correctly_signed`: a malformed or wrong signature rejects at once; otherwise the powers are tallied in
      order. */
  method IsCorrectlySigned(vs: ValidatorSet, message: Message, signatures: seq<Option<Signature>>) returns (ok: bool)
    requires vs.Valid()
    ensures ok <==> SignedByQuorum(vs, message, signatures)
  {
    if |signatures| != |vs.validators| {
      return false;
    }
    var total := 0;
    for i := 0 to |signatures|
      invariant total == PowerUpTo(vs, Signers(vs, signatures), i)
      invariant forall j | 0 <= j < i && signatures[j].Some? :: Verifies(vs.validators[j], message, signatures[j].value)
    {
      SignerAt(vs, signatures, i);
      if signatures[i].Some? {
        if !Verifies(vs.validators[i], message, signatures[i].value) {
          return false;
        }
        total := total + vs.Power(vs.validators[i]);
      }
    }
    ok := total >= Quorum(vs);
  }

  method FindPosition(vs: ValidatorSet, key: VerifyingKey) returns (pos: Option<nat>)
    requires vs.Valid()
    ensures pos == PositionOf(vs, key)
  {
    var found, p := BinarySearch(vs.validators, key);
    pos := if found then Some(p) else None;
  }

  class PhaseVoteCollector {
    const chainId: nat
    const view: nat
    const vs: ValidatorSet
    var tallies: map<Ballot, Tally>

    ghost function Value(): PhaseCollector
      reads this
    {
      Collector(chainId, view, vs, tallies)
    }

    constructor (chainId: nat, view: nat, vs: ValidatorSet)
      ensures Value() == NewPhaseCollector(chainId, view, vs)
    {
      this.chainId, this.view, this.vs, tallies := chainId, view, vs, map[];
    }

    method Collect(signer: VerifyingKey, vote: PhaseVote) returns (pc: Option<PhaseCertificate>)
      requires PhaseOk(Value()) && PhaseVoteIsCorrect(signer, vote)
      modifies this
      ensures (Value(), pc) == PhaseCollected(old(Value()), signer, vote)
      ensures PhaseOk(Value())
      ensures pc.Some? ==> PcCorrectlySigned(pc.value, vs)
    {
      ghost var after := PhaseCollected(Value(), signer, vote);
      PhaseCollectorIsSound(Value(), signer, vote);
      if chainId != vote.chainId || view != vote.view {
        return None;
      }
      var position := FindPosition(vs, signer);
      if position.None? {
        return None;
      }
      var pos, ballot := position.value, (vote.block, vote.phase);
      var tally := if ballot in tallies then tallies[ballot] else EmptyTally(vs);
      TallyForOk(Value(), ballot);
      if tally.signatures[pos].None? {
        var counted := Tally(tally.signatures[pos := Some(vote.signature)], tally.power + vs.Power(signer));
        if counted.power >= Quorum(vs) {
          tallies := tallies - {ballot};
          assert Value() == after.0;
          return Some(PhaseCertificate(chainId, view, vote.block, vote.phase, counted.signatures));
        }
        tallies := tallies[ballot := counted];
        assert Value() == after.0;
      }
      pc := None;
    }
  }

  class TimeoutVoteCollector {
    const chainId: nat
    const view: nat
    const vs: ValidatorSet
    var signatures: seq<Option<Signature>>
    var power: nat

    ghost function Value(): TimeoutCollector
      reads this
    {
      Collector(chainId, view, vs, Tally(signatures, power))
    }

    constructor (chainId: nat, view: nat, vs: ValidatorSet)
      ensures Value() == NewTimeoutCollector(chainId, view, vs)
    {
      this.chainId, this.view, this.vs := chainId, view, vs;
      signatures, power := seq(|vs.validators|, _ => None), 0;
    }

    constructor Clone(other: TimeoutVoteCollector)
      ensures Value() == other.Value()
    {
      chainId, view, vs := other.chainId, other.view, other.vs;
      signatures, power := other.signatures, other.power;
    }

    method Collect(signer: VerifyingKey, vote: TimeoutVote) returns (tc: Option<TimeoutCertificate>)
      requires TimeoutOk(Value()) && TimeoutVoteIsCorrect(signer, vote)
      modifies this
      ensures (Value(), tc) == TimeoutCollected(old(Value()), signer, vote)
      ensures TimeoutOk(Value())
      ensures tc.Some? ==> TcCorrectlySigned(tc.value, vs)
    {
      TimeoutCollectorStep(Value(), signer, vote);
      if chainId != vote.chainId || view != vote.view {
        return None;
      }
      var position := FindPosition(vs, signer);
      if position.None? {
        return None;
      }
      var pos := position.value;
      if signatures[pos].None? {
        signatures := signatures[pos := Some(vote.signature)];
        power := power + vs.Power(signer);
        if power >= Quorum(vs) {
          return Some(TimeoutCertificate(chainId, view, signatures));
        }
      }
      tc := None;
    }
  }

  class ActiveCollectorPair {
    var cvs: TimeoutVoteCollector
    var pvs: TimeoutVoteCollector?

    ghost function Value(): TimeoutPair
      reads this, cvs, pvs
    {
      CollectorPair(cvs.Value(), if pvs == null then None else Some(pvs.Value()))
    }

    ghost predicate Valid()
      reads this, cvs, pvs
    {
      cvs != pvs && TimeoutPairOk(Value())
    }

    constructor (chainId: nat, view: nat, vss: ValidatorSetState)
      requires vss.Valid()
      ensures Valid() && fresh(cvs) && (pvs != null ==> fresh(pvs))
      ensures Value() == NewTimeoutPair(chainId, view, vss) && Matches(Value(), vss)
    {
      cvs := new TimeoutVoteCollector(chainId, view, vss.committed);
      if vss.updateDecided {
        pvs := null;
      } else {
        pvs := new TimeoutVoteCollector(chainId, view, vss.previous);
      }
      new;
      NewPairMatches(chainId, view, vss);
    }

    method Collect(signer: VerifyingKey, vote: TimeoutVote) returns (tc: Option<TimeoutCertificate>)
      requires Valid() && TimeoutVoteIsCorrect(signer, vote)
      modifies cvs, pvs
      ensures Valid()
      ensures (Value(), tc) == TimeoutPairCollected(old(Value()), signer, vote)
    {
      tc := cvs.Collect(signer, vote);
      if tc.None? && pvs != null {
        tc := pvs.Collect(signer, vote);
      }
    }

    method UpdateValidatorSets(vss: ValidatorSetState) returns (updated: bool)
      requires Valid() && vss.Valid()
      modifies this
      ensures Valid()
      ensures (Value(), updated) == TimeoutPairUpdated(old(Value()), vss)
      ensures cvs == old(cvs) || fresh(cvs)
      ensures pvs == null || pvs == old(pvs) || fresh(pvs)
    {
      UpdatedTimeoutPairIsOk(Value(), vss);
      updated := false;
      if vss.committed != cvs.vs {
        cvs := new TimeoutVoteCollector(cvs.chainId, cvs.view, vss.committed);
        updated := true;
      }
      if vss.updateDecided && pvs != null {
        pvs := null;
        updated := true;
      } else if pvs == null || vss.previous != pvs.vs {
        if vss.previous == cvs.vs {
          pvs := new TimeoutVoteCollector.Clone(cvs);
        } else {
          pvs := new TimeoutVoteCollector(cvs.chainId, cvs.view, vss.previous);
        }
        updated := true;
      }
    }
  }
}
