/** Combining votes into certificates: what a collector does with each vote, as functions on its state, and
    when a certificate comes out. */
module Collecting {
  import opened Types
  import opened Quorums

  datatype PhaseVote = PhaseVote(chainId: nat, view: nat, block: CryptoHash, phase: Phase, signature: Signature)
  datatype TimeoutVote = TimeoutVote(
    chainId: nat, view: nat, signature: Signature, highestTc: Option<TimeoutCertificate>)

  predicate PhaseVoteIsCorrect(signer: VerifyingKey, vote: PhaseVote) {
    Verifies(signer, PhaseMessage(vote.chainId, vote.view, vote.block, vote.phase), vote.signature)
  }

  predicate TimeoutVoteIsCorrect(signer: VerifyingKey, vote: TimeoutVote) {
    Verifies(signer, TimeoutMessage(vote.chainId, vote.view), vote.signature)
  }

  function PositionOf(vs: ValidatorSet, key: VerifyingKey): (r: Option<nat>)
    requires vs.Valid()
    ensures r.Some? <==> key in vs.validators
    ensures r.Some? ==> r.value < |vs.validators| && vs.validators[r.value] == key
  {
    if key in vs.validators then
      var i :| 0 <= i < |vs.validators| && vs.validators[i] == key;
      Some(i)
    else None
  }

  // ---------------------------------------------------------------------------------------------------
  // One signature set and its running power

  datatype Tally = Tally(signatures: seq<Option<Signature>>, power: nat)

  function EmptyTally(vs: ValidatorSet): Tally {
    Tally(seq(|vs.validators|, _ => None), 0)
  }

  function Counted(vs: ValidatorSet, tally: Tally, pos: nat, signature: Signature): Tally
    requires pos < |tally.signatures| == |vs.validators|
  {
    Tally(tally.signatures[pos := Some(signature)], tally.power + vs.Power(vs.validators[pos]))
  }

  /** The signatures are over `message` by the validators at their positions, and the running power is the sum of
      the powers at the filled positions. */
  ghost predicate TallyOk(vs: ValidatorSet, message: Message, tally: Tally) {
    && |tally.signatures| == |vs.validators|
    && (forall i | 0 <= i < |tally.signatures| && tally.signatures[i].Some? ::
          Verifies(vs.validators[i], message, tally.signatures[i].value))
    && tally.power == PowerOf(vs, Signers(vs, tally.signatures))
  }

  lemma EmptyTallyOk(vs: ValidatorSet, message: Message)
    ensures TallyOk(vs, message, EmptyTally(vs)) && Signers(vs, EmptyTally(vs).signatures) == {}
  {
    PowerOfNobody(vs, |vs.validators|);
    assert Signers(vs, EmptyTally(vs).signatures) == {};
  }

  lemma SignerAt(vs: ValidatorSet, signatures: seq<Option<Signature>>, pos: nat)
    requires vs.Valid() && pos < |signatures| == |vs.validators|
    ensures vs.validators[pos] in Signers(vs, signatures) <==> signatures[pos].Some?
  {
  }

  /** Counting a signature at an empty position adds its validator to the signers and its power to the sum. */
  lemma CountedOk(vs: ValidatorSet, message: Message, tally: Tally, pos: nat, signature: Signature)
    requires vs.Valid() && TallyOk(vs, message, tally)
    requires pos < |vs.validators| && tally.signatures[pos].None? && Verifies(vs.validators[pos], message, signature)
    ensures TallyOk(vs, message, Counted(vs, tally, pos, signature))
    ensures Signers(vs, Counted(vs, tally, pos, signature).signatures)
         == Signers(vs, tally.signatures) + {vs.validators[pos]}
  {
    var before, after := tally.signatures, Counted(vs, tally, pos, signature).signatures;
    SignerAt(vs, before, pos);
    PowerAddMember(vs, Signers(vs, before), pos, |vs.validators|);
    forall k ensures k in Signers(vs, after) <==> k in Signers(vs, before) + {vs.validators[pos]} {
      if k in Signers(vs, before) {
        var i :| 0 <= i < |before| && before[i].Some? && vs.validators[i] == k;
        assert after[i].Some?;
      }
      assert after[pos].Some?;
    }
    assert Signers(vs, after) == Signers(vs, before) + {vs.validators[pos]};
  }

  /** A collector for one chain, view and validator set. */
  datatype Collector<V> = Collector(chainId: nat, view: nat, vs: ValidatorSet, votes: V)

  // ---------------------------------------------------------------------------------------------------
  // Phase votes

  type Ballot = (CryptoHash, Phase)

  /** Per ballot, the votes collected so far. */
  type PhaseCollector = Collector<map<Ballot, Tally>>

  function MessageFor(c: PhaseCollector, ballot: Ballot): Message {
    PhaseMessage(c.chainId, c.view, ballot.0, ballot.1)
  }

  function TallyFor(c: PhaseCollector, ballot: Ballot): Tally {
    if ballot in c.votes then c.votes[ballot] else EmptyTally(c.vs)
  }

  /** Every signature set is sound and short of a quorum. */
  ghost predicate PhaseOk(c: PhaseCollector) {
    && c.vs.Valid()
    && forall b | b in c.votes ::
         TallyOk(c.vs, MessageFor(c, b), c.votes[b]) && c.votes[b].power < Quorum(c.vs)
  }

  function NewPhaseCollector(chainId: nat, view: nat, vs: ValidatorSet): PhaseCollector {
    Collector(chainId, view, vs, map[])
  }

  /** A ballot's signature set is dropped once it has become a certificate. */
  function PhaseCollected(
      c: PhaseCollector, signer: VerifyingKey, vote: PhaseVote): (r: (PhaseCollector, Option<PhaseCertificate>))
    requires PhaseOk(c)
  {
    if c.chainId != vote.chainId || c.view != vote.view || PositionOf(c.vs, signer).None? then (c, None)
    else
      var pos := PositionOf(c.vs, signer).value;
      var ballot := (vote.block, vote.phase);
      var tally := TallyFor(c, ballot);
      if tally.signatures[pos].Some? then (c, None)
      else
        var counted := Counted(c.vs, tally, pos, vote.signature);
        if counted.power >= Quorum(c.vs)
        then (c.(votes := c.votes - {ballot}),
              Some(PhaseCertificate(c.chainId, c.view, vote.block, vote.phase, counted.signatures)))
        else (c.(votes := c.votes[ballot := counted]), None)
  }

  lemma TallyForOk(c: PhaseCollector, ballot: Ballot)
    requires PhaseOk(c)
    ensures TallyOk(c.vs, MessageFor(c, ballot), TallyFor(c, ballot)) && TallyFor(c, ballot).power < Quorum(c.vs)
  {
    EmptyTallyOk(c.vs, MessageFor(c, ballot));
  }

  /** Soundness: correct votes keep the collector valid, and every certificate it emits is correctly signed. */
  lemma PhaseCollectorIsSound(c: PhaseCollector, signer: VerifyingKey, vote: PhaseVote)
    requires PhaseOk(c) && PhaseVoteIsCorrect(signer, vote)
    ensures
      var (c', pc) := PhaseCollected(c, signer, vote);
      && PhaseOk(c') && c'.vs == c.vs && c'.chainId == c.chainId && c'.view == c.view
      && (pc.Some? ==> PcCorrectlySigned(pc.value, c.vs) && pc.value.chainId == c.chainId && pc.value.view == c.view)
  {
    var ballot := (vote.block, vote.phase);
    TallyForOk(c, ballot);
    if c.chainId == vote.chainId && c.view == vote.view && signer in c.vs.validators {
      var pos := PositionOf(c.vs, signer).value;
      if TallyFor(c, ballot).signatures[pos].None? {
        var counted := Counted(c.vs, TallyFor(c, ballot), pos, vote.signature);
        CountedOk(c.vs, MessageFor(c, ballot), TallyFor(c, ballot), pos, vote.signature);
        if counted.power < Quorum(c.vs) {
          ReplacedTallyIsValid(c, ballot, counted);
        } else {
          DroppedTallyIsValid(c, ballot);
        }
      }
    }
  }

  lemma ReplacedTallyIsValid(c: PhaseCollector, ballot: Ballot, tally: Tally)
    requires PhaseOk(c) && TallyOk(c.vs, MessageFor(c, ballot), tally) && tally.power < Quorum(c.vs)
    ensures PhaseOk(c.(votes := c.votes[ballot := tally]))
  {
  }

  lemma DroppedTallyIsValid(c: PhaseCollector, ballot: Ballot)
    requires PhaseOk(c)
    ensures PhaseOk(c.(votes := c.votes - {ballot}))
  {
  }

  type Arrivals = seq<(VerifyingKey, PhaseVote)>

  ghost predicate AllCorrect(votes: Arrivals) {
    forall i | 0 <= i < |votes| :: PhaseVoteIsCorrect(votes[i].0, votes[i].1)
  }

  predicate Supports(c: PhaseCollector, ballot: Ballot, signer: VerifyingKey, vote: PhaseVote) {
    signer in c.vs.validators && vote.chainId == c.chainId && vote.view == c.view && (vote.block, vote.phase) == ballot
  }

  /** The validators that voted for `ballot`, in whatever order and however often. */
  function Voters(c: PhaseCollector, votes: Arrivals, ballot: Ballot): set<VerifyingKey> {
    set i | 0 <= i < |votes| && Supports(c, ballot, votes[i].0, votes[i].1) :: votes[i].0
  }

  ghost function AfterVotes(c: PhaseCollector, votes: Arrivals): (r: PhaseCollector)
    requires PhaseOk(c) && AllCorrect(votes)
    ensures PhaseOk(r) && r.vs == c.vs && r.chainId == c.chainId && r.view == c.view
  {
    if votes == [] then c
    else
      var n := |votes| - 1;
      PhaseCollectorIsSound(AfterVotes(c, votes[..n]), votes[n].0, votes[n].1);
      PhaseCollected(AfterVotes(c, votes[..n]), votes[n].0, votes[n].1).0
  }

  /** What the collector returns for the `n`-th vote. */
  ghost function Emitted(c: PhaseCollector, votes: Arrivals, n: nat): Option<PhaseCertificate>
    requires PhaseOk(c) && AllCorrect(votes) && n < |votes|
  {
    PhaseCollected(AfterVotes(c, votes[..n]), votes[n].0, votes[n].1).1
  }

  ghost predicate EmitsFor(c: PhaseCollector, votes: Arrivals, n: nat, ballot: Ballot)
    requires PhaseOk(c) && AllCorrect(votes) && n < |votes|
  {
    Emitted(c, votes, n).Some? && (Emitted(c, votes, n).value.block, Emitted(c, votes, n).value.phase) == ballot
  }

  lemma VotersGrow(c: PhaseCollector, votes: Arrivals, n: nat, ballot: Ballot)
    requires n < |votes|
    ensures Voters(c, votes[..n + 1], ballot) ==
      Voters(c, votes[..n], ballot) + if Supports(c, ballot, votes[n].0, votes[n].1) then {votes[n].0} else {}
  {
    var before, after := votes[..n], votes[..n + 1];
    forall k | k in Voters(c, before, ballot) ensures k in Voters(c, after, ballot) {
      var i :| 0 <= i < |before| && Supports(c, ballot, before[i].0, before[i].1) && before[i].0 == k;
      assert after[i] == before[i];
    }
    assert after[n] == votes[n];
    forall k | k in Voters(c, after, ballot)
      ensures k in Voters(c, before, ballot) || (k == votes[n].0 && Supports(c, ballot, votes[n].0, votes[n].1))
    {
      var i :| 0 <= i < |after| && Supports(c, ballot, after[i].0, after[i].1) && after[i].0 == k;
      if i < n {
        assert before[i] == after[i];
      }
    }
  }

  lemma VotersMonotone(c: PhaseCollector, votes: Arrivals, n: nat, ballot: Ballot)
    requires n <= |votes|
    ensures PowerOf(c.vs, Voters(c, votes[..n], ballot)) <= PowerOf(c.vs, Voters(c, votes, ballot))
  {
    forall k | k in Voters(c, votes[..n], ballot) ensures k in Voters(c, votes, ballot) {
      var i :| 0 <= i < n && Supports(c, ballot, votes[..n][i].0, votes[..n][i].1) && votes[..n][i].0 == k;
      assert votes[i] == votes[..n][i];
    }
    PowerMonotone(c.vs, Voters(c, votes[..n], ballot), Voters(c, votes, ballot), |c.vs.validators|);
  }

  /** What one vote does to one ballot's signers. */
  lemma BallotStep(c: PhaseCollector, signer: VerifyingKey, vote: PhaseVote, ballot: Ballot)
    requires PhaseOk(c) && PhaseVoteIsCorrect(signer, vote)
    ensures
      var (c', pc) := PhaseCollected(c, signer, vote);
      var emits := pc.Some? && (pc.value.block, pc.value.phase) == ballot;
      && |TallyFor(c, ballot).signatures| == |TallyFor(c', ballot).signatures| == |c.vs.validators|
      && var before := Signers(c.vs, TallyFor(c, ballot).signatures);
         var after := before + if Supports(c, ballot, signer, vote) then {signer} else {};
         && (emits <==> PowerOf(c.vs, after) >= Quorum(c.vs))
         && (emits ==> |pc.value.signatures| == |c.vs.validators| && Signers(c.vs, pc.value.signatures) == after)
         && (!emits ==> Signers(c.vs, TallyFor(c', ballot).signatures) == after)
         && (emits ==> ballot !in c'.votes)
  {
    var (c', pc) := PhaseCollected(c, signer, vote);
    TallyForOk(c, ballot);
    var tally := TallyFor(c, ballot);
    var before := Signers(c.vs, tally.signatures);
    if Supports(c, ballot, signer, vote) {
      var pos := PositionOf(c.vs, signer).value;
      SignerAt(c.vs, tally.signatures, pos);
      if tally.signatures[pos].None? {
        CountedOk(c.vs, MessageFor(c, ballot), tally, pos, vote.signature);
        EmptyTallyOk(c.vs, MessageFor(c, ballot));
      } else {
        assert before + {signer} == before;
      }
    } else {
      assert before + {} == before;
      assert TallyFor(c', ballot) == tally;
    }
  }

  /** Until its voters reach a quorum, a ballot's signers are exactly its voters. */
  lemma {:induction false} SignersAreVoters(c: PhaseCollector, votes: Arrivals, ballot: Ballot)
    requires PhaseOk(c) && ballot !in c.votes && AllCorrect(votes)
    requires PowerOf(c.vs, Voters(c, votes, ballot)) < Quorum(c.vs)
    ensures |TallyFor(AfterVotes(c, votes), ballot).signatures| == |c.vs.validators|
    ensures Signers(c.vs, TallyFor(AfterVotes(c, votes), ballot).signatures) == Voters(c, votes, ballot)
    decreases |votes|
  {
    if votes == [] {
      EmptyTallyOk(c.vs, MessageFor(c, ballot));
    } else {
      var n := |votes| - 1;
      VotersMonotone(c, votes, n, ballot);
      SignersAreVoters(c, votes[..n], ballot);
      VotersGrow(c, votes, n, ballot);
      assert votes[..n + 1] == votes;
      BallotStep(AfterVotes(c, votes[..n]), votes[n].0, votes[n].1, ballot);
    }
  }

  /** Completeness: as long as a ballot's voters have not reached a quorum, the next vote yields a certificate for it
      exactly when it takes them there, and that certificate holds all of their signatures. */
  lemma CertificateAtFirstCrossing(c: PhaseCollector, votes: Arrivals, n: nat, ballot: Ballot)
    requires PhaseOk(c) && ballot !in c.votes && AllCorrect(votes) && n < |votes|
    requires PowerOf(c.vs, Voters(c, votes[..n], ballot)) < Quorum(c.vs)
    ensures EmitsFor(c, votes, n, ballot) <==> PowerOf(c.vs, Voters(c, votes[..n + 1], ballot)) >= Quorum(c.vs)
    ensures EmitsFor(c, votes, n, ballot) ==>
      && PcCorrectlySigned(Emitted(c, votes, n).value, c.vs)
      && Signers(c.vs, Emitted(c, votes, n).value.signatures) == Voters(c, votes[..n + 1], ballot)
  {
    SignersAreVoters(c, votes[..n], ballot);
    VotersGrow(c, votes, n, ballot);
    BallotStep(AfterVotes(c, votes[..n]), votes[n].0, votes[n].1, ballot);
    PhaseCollectorIsSound(AfterVotes(c, votes[..n]), votes[n].0, votes[n].1);
  }

  ghost predicate EmitsSometime(c: PhaseCollector, votes: Arrivals, ballot: Ballot)
    requires PhaseOk(c) && AllCorrect(votes)
  {
    exists n: nat :: n < |votes| && EmitsFor(c, votes, n, ballot)
  }

  /** Some vote yields a certificate for a ballot if and only if its voters hold a quorum. */
  lemma {:induction false} CertificateIffQuorum(c: PhaseCollector, votes: Arrivals, ballot: Ballot)
    requires PhaseOk(c) && ballot !in c.votes && AllCorrect(votes)
    ensures EmitsSometime(c, votes, ballot) <==> PowerOf(c.vs, Voters(c, votes, ballot)) >= Quorum(c.vs)
    decreases |votes|
  {
    if votes == [] {
      PowerOfNobody(c.vs, |c.vs.validators|);
      assert Voters(c, votes, ballot) == {};
    } else {
      var n := |votes| - 1;
      var before := votes[..n];
      CertificateIffQuorum(c, before, ballot);
      VotersMonotone(c, votes, n, ballot);
      assert votes[..n + 1] == votes;
      EmitsOneMore(c, votes, n, ballot);
      if !EmitsSometime(c, before, ballot) {
        CertificateAtFirstCrossing(c, votes, n, ballot);
      }
    }
  }

  /** A certificate uses its votes up: after it, the next one for the same ballot takes a quorum of votes of its own. */
  lemma NextCertificateNeedsQuorum(c: PhaseCollector, votes: Arrivals, later: Arrivals, ballot: Ballot)
    requires PhaseOk(c) && AllCorrect(votes) && AllCorrect(later)
    requires votes != [] && EmitsFor(c, votes, |votes| - 1, ballot)
    ensures EmitsSometime(AfterVotes(c, votes), later, ballot) <==>
      PowerOf(c.vs, Voters(c, later, ballot)) >= Quorum(c.vs)
  {
    var n, c' := |votes| - 1, AfterVotes(c, votes);
    BallotStep(AfterVotes(c, votes[..n]), votes[n].0, votes[n].1, ballot);
    assert Voters(c', later, ballot) == Voters(c, later, ballot);
    CertificateIffQuorum(c', later, ballot);
  }

  lemma EmitsOneMore(c: PhaseCollector, votes: Arrivals, n: nat, ballot: Ballot)
    requires PhaseOk(c) && AllCorrect(votes) && n + 1 == |votes|
    ensures EmitsSometime(c, votes, ballot) <==> EmitsSometime(c, votes[..n], ballot) || EmitsFor(c, votes, n, ballot)
  {
    var before := votes[..n];
    forall m: nat | m < n ensures EmitsFor(c, before, m, ballot) <==> EmitsFor(c, votes, m, ballot) {
      assert before[..m] == votes[..m];
    }
    if EmitsSometime(c, before, ballot) {
      var m: nat :| m < n && EmitsFor(c, before, m, ballot);
      assert EmitsFor(c, votes, m, ballot);
    }
  }

  /** The order in which votes arrive does not decide whether a certificate forms. */
  lemma ArrivalOrderIsIrrelevant(c: PhaseCollector, votes: Arrivals, shuffled: Arrivals, ballot: Ballot)
    requires PhaseOk(c) && ballot !in c.votes && AllCorrect(votes)
    requires multiset(votes) == multiset(shuffled)
    ensures AllCorrect(shuffled)
    ensures EmitsSometime(c, votes, ballot) <==> EmitsSometime(c, shuffled, ballot)
  {
    assert forall v :: v in votes <==> v in multiset(votes);
    assert forall v :: v in shuffled <==> v in multiset(shuffled);
    forall i | 0 <= i < |shuffled| ensures PhaseVoteIsCorrect(shuffled[i].0, shuffled[i].1) {
      assert shuffled[i] in votes;
    }
    SameVoters(c, votes, shuffled, ballot);
    SameVoters(c, shuffled, votes, ballot);
    assert Voters(c, votes, ballot) == Voters(c, shuffled, ballot);
    CertificateIffQuorum(c, votes, ballot);
    CertificateIffQuorum(c, shuffled, ballot);
  }

  lemma SameVoters(c: PhaseCollector, votes: Arrivals, others: Arrivals, ballot: Ballot)
    requires forall v | v in votes :: v in others
    ensures Voters(c, votes, ballot) <= Voters(c, others, ballot)
  {
    forall k | k in Voters(c, votes, ballot) ensures k in Voters(c, others, ballot) {
      var i :| 0 <= i < |votes| && Supports(c, ballot, votes[i].0, votes[i].1) && votes[i].0 == k;
      assert votes[i] in others;
      var j :| 0 <= j < |others| && others[j] == votes[i];
    }
  }

  // ---------------------------------------------------------------------------------------------------
  // Timeout votes

  type TimeoutCollector = Collector<Tally>

  ghost predicate TimeoutOk(c: TimeoutCollector) {
    c.vs.Valid() && TallyOk(c.vs, TimeoutMessage(c.chainId, c.view), c.votes)
  }

  function NewTimeoutCollector(chainId: nat, view: nat, vs: ValidatorSet): TimeoutCollector {
    Collector(chainId, view, vs, EmptyTally(vs))
  }

  /** The signature set is kept, so every new signer after the quorum yields a larger certificate. */
  function TimeoutCollected(c: TimeoutCollector, signer: VerifyingKey, vote: TimeoutVote):
      (r: (TimeoutCollector, Option<TimeoutCertificate>))
    requires TimeoutOk(c)
  {
    if c.chainId != vote.chainId || c.view != vote.view || PositionOf(c.vs, signer).None? then (c, None)
    else
      var pos := PositionOf(c.vs, signer).value;
      if c.votes.signatures[pos].Some? then (c, None)
      else
        var counted := Counted(c.vs, c.votes, pos, vote.signature);
        (c.(votes := counted),
         if counted.power < Quorum(c.vs) then None
         else Some(TimeoutCertificate(c.chainId, c.view, counted.signatures)))
  }

  predicate IsNewTimeout(c: TimeoutCollector, signer: VerifyingKey, vote: TimeoutVote)
    requires |c.votes.signatures| == |c.vs.validators|
  {
    && signer in c.vs.validators && vote.chainId == c.chainId && vote.view == c.view
    && signer !in Signers(c.vs, c.votes.signatures)
  }

  lemma NewTimeoutCollectorIsValid(chainId: nat, view: nat, vs: ValidatorSet)
    requires vs.Valid()
    ensures TimeoutOk(NewTimeoutCollector(chainId, view, vs))
    ensures Signers(vs, NewTimeoutCollector(chainId, view, vs).votes.signatures) == {}
  {
    EmptyTallyOk(vs, TimeoutMessage(chainId, view));
  }

  /** The vote is the one that takes the signers to a quorum or beyond. */
  ghost predicate Completes(c: TimeoutCollector, signer: VerifyingKey, vote: TimeoutVote)
    requires |c.votes.signatures| == |c.vs.validators|
  {
    && IsNewTimeout(c, signer, vote)
    && PowerOf(c.vs, Signers(c.vs, c.votes.signatures) + {signer}) >= Quorum(c.vs)
  }

  /** The signers with the vote, if it is new. */
  ghost function SignersWith(c: TimeoutCollector, signer: VerifyingKey, vote: TimeoutVote): set<VerifyingKey>
    requires |c.votes.signatures| == |c.vs.validators|
  {
    Signers(c.vs, c.votes.signatures) + if IsNewTimeout(c, signer, vote) then {signer} else {}
  }

  /** Soundness and completeness of one call: the signers grow by exactly the new voter, and a certificate comes out
      exactly when a new voter leaves the signers with a quorum; it is then correctly signed by all of them. */
  lemma TimeoutCollectorStep(c: TimeoutCollector, signer: VerifyingKey, vote: TimeoutVote)
    requires TimeoutOk(c) && TimeoutVoteIsCorrect(signer, vote)
    ensures
      var (c', tc) := TimeoutCollected(c, signer, vote);
      && TimeoutOk(c') && c'.vs == c.vs && c'.chainId == c.chainId && c'.view == c.view
      && Signers(c.vs, c'.votes.signatures) == SignersWith(c, signer, vote)
      && (tc.Some? <==> Completes(c, signer, vote))
      && (tc.Some? ==>
            && TcCorrectlySigned(tc.value, c.vs)
            && tc.value == TimeoutCertificate(c.chainId, c.view, c'.votes.signatures))
  {
    if c.chainId == vote.chainId && c.view == vote.view && signer in c.vs.validators {
      var pos := PositionOf(c.vs, signer).value;
      SignerAt(c.vs, c.votes.signatures, pos);
      if c.votes.signatures[pos].None? {
        CountedOk(c.vs, TimeoutMessage(c.chainId, c.view), c.votes, pos, vote.signature);
      }
    }
  }

  // ---------------------------------------------------------------------------------------------------
  // The pair of collectors for the active validator sets

  datatype ValidatorSetState = ValidatorSetState(
    committed: ValidatorSet, previous: ValidatorSet, updateHeight: Option<nat>, updateDecided: bool)
  {
    ghost predicate Valid() {
      committed.Valid() && previous.Valid()
    }
  }

  datatype CollectorPair<V> = CollectorPair(cvs: Collector<V>, pvs: Option<Collector<V>>)

  /** The pair collects for exactly the active validator sets: the committed one, and the previous one until the update
      is decided. */
  ghost predicate Matches<V>(pair: CollectorPair<V>, vss: ValidatorSetState) {
    && pair.cvs.vs == vss.committed
    && (pair.pvs.None? <==> vss.updateDecided)
    && (pair.pvs.Some? ==> pair.pvs.value.vs == vss.previous)
  }

  /** The pair collects for all active validator sets, and for no set but the committed and the previous one. */
  ghost predicate Covers<V>(pair: CollectorPair<V>, vss: ValidatorSetState) {
    && pair.cvs.vs == vss.committed
    && (!vss.updateDecided ==> pair.pvs.Some?)
    && (pair.pvs.Some? ==> pair.pvs.value.vs == vss.previous)
  }

  /** Both collectors are for this chain and view. */
  ghost predicate IsFor<V>(pair: CollectorPair<V>, chainId: nat, view: nat) {
    && pair.cvs.chainId == chainId && pair.cvs.view == view
    && (pair.pvs.Some? ==> pair.pvs.value.chainId == chainId && pair.pvs.value.view == view)
  }

  /** A new pair; `cvsVotes` and `pvsVotes` are the empty votes of collectors for the two sets. */
  function NewPair<V>(chainId: nat, view: nat, vss: ValidatorSetState, cvsVotes: V, pvsVotes: V): CollectorPair<V> {
    CollectorPair(
      Collector(chainId, view, vss.committed, cvsVotes),
      if vss.updateDecided then None else Some(Collector(chainId, view, vss.previous, pvsVotes)))
  }

  /** `collect`: the PVS collector gets the vote only if the CVS collector yields no certificate. */
  function PairCollected<V, T>(
      pair: CollectorPair<V>, cvsResult: (Collector<V>, Option<T>), pvsResult: Option<(Collector<V>, Option<T>)>):
      (CollectorPair<V>, Option<T>)
  {
    if cvsResult.1.Some? || pvsResult.None? then (pair.(cvs := cvsResult.0), cvsResult.1)
    else (CollectorPair(cvsResult.0, Some(pvsResult.value.0)), pvsResult.value.1)
  }

  /** `update_validator_sets`.  The comparison with the CVS collector's set happens after that collector has been
      replaced. */
  function PairUpdated<V>(
      pair: CollectorPair<V>, vss: ValidatorSetState, cvsVotes: V, pvsVotes: V): (CollectorPair<V>, bool) {
    var replaceCvs := vss.committed != pair.cvs.vs;
    var cvs := if replaceCvs then pair.cvs.(vs := vss.committed, votes := cvsVotes) else pair.cvs;
    if vss.updateDecided && pair.pvs.Some? then (CollectorPair(cvs, None), true)
    else if pair.pvs.None? || vss.previous != pair.pvs.value.vs then
      var pvs := if vss.previous == cvs.vs then cvs else cvs.(vs := vss.previous, votes := pvsVotes);
      (CollectorPair(cvs, Some(pvs)), true)
    else (CollectorPair(cvs, pair.pvs), replaceCvs)
  }

  /** After `update_validator_sets` the pair matches the latest state, if and only if the update is undecided
      or the pair still had a PVS collector.  In any case it covers the state, and the answer says whether the
      pair has changed. */
  lemma UpdatedPairMatchesExactlyWhen<V>(pair: CollectorPair<V>, vss: ValidatorSetState, cvsVotes: V, pvsVotes: V)
    ensures
      var pair' := PairUpdated(pair, vss, cvsVotes, pvsVotes).0;
      && (Matches(pair', vss) <==> !vss.updateDecided || pair.pvs.Some?)
      && Covers(pair', vss)
      && (PairUpdated(pair, vss, cvsVotes, pvsVotes).1 <==> pair' != pair)
      && pair'.cvs.chainId == pair.cvs.chainId && pair'.cvs.view == pair.cvs.view
      && (IsFor(pair, pair.cvs.chainId, pair.cvs.view) ==> IsFor(pair', pair.cvs.chainId, pair.cvs.view))
  {
  }

  /** A pair that matches an undecided state is left alone; one that matches a decided state is not, although nothing
      has changed: it gains a PVS collector, which the next call removes again. */
  lemma UpdateOfMatchingPair<V>(pair: CollectorPair<V>, vss: ValidatorSetState, cvsVotes: V, pvsVotes: V)
    requires Matches(pair, vss)
    ensures !vss.updateDecided ==> PairUpdated(pair, vss, cvsVotes, pvsVotes) == (pair, false)
    ensures vss.updateDecided ==>
      var (pair', updated) := PairUpdated(pair, vss, cvsVotes, pvsVotes);
      && pair' != pair && updated
      && PairUpdated(pair', vss, cvsVotes, pvsVotes) == (pair, true)
  {
  }

  /** Votes survive an update in every collector whose set stays active.  A collector for a new set starts empty, except
      that a new PVS collector for the committed set starts with the votes of the CVS collector. */
  lemma VotesOfActiveSetsSurvive<V>(pair: CollectorPair<V>, vss: ValidatorSetState, cvsVotes: V, pvsVotes: V)
    ensures
      var pair' := PairUpdated(pair, vss, cvsVotes, pvsVotes).0;
      && pair'.cvs.votes == (if pair.cvs.vs == vss.committed then pair.cvs.votes else cvsVotes)
      && (pair'.pvs.Some? ==>
            pair'.pvs.value.votes ==
              if pair.pvs.Some? && pair.pvs.value.vs == vss.previous then pair.pvs.value.votes
              else if vss.previous == vss.committed then pair'.cvs.votes
              else pvsVotes)
  {
  }

  /** When the committed set is replaced and becomes the previous set, the votes collected for it are dropped: the PVS
      collector starts empty. */
  lemma VotesForReplacedSetAreDropped<V>(pair: CollectorPair<V>, vss: ValidatorSetState, cvsVotes: V, pvsVotes: V)
    requires !vss.updateDecided && pair.pvs.None?
    requires vss.previous == pair.cvs.vs && vss.committed != vss.previous
    ensures PairUpdated(pair, vss, cvsVotes, pvsVotes).0.pvs == Some(pair.cvs.(votes := pvsVotes))
  {
  }

  // ---------------------------------------------------------------------------------------------------
  // Pairs of timeout vote collectors

  type TimeoutPair = CollectorPair<Tally>

  ghost predicate TimeoutPairOk(pair: TimeoutPair) {
    && TimeoutOk(pair.cvs) && (pair.pvs.Some? ==> TimeoutOk(pair.pvs.value))
    && IsFor(pair, pair.cvs.chainId, pair.cvs.view)
  }

  function NewTimeoutPair(chainId: nat, view: nat, vss: ValidatorSetState): TimeoutPair {
    NewPair(chainId, view, vss, EmptyTally(vss.committed), EmptyTally(vss.previous))
  }

  function TimeoutPairUpdated(pair: TimeoutPair, vss: ValidatorSetState): (TimeoutPair, bool) {
    PairUpdated(pair, vss, EmptyTally(vss.committed), EmptyTally(vss.previous))
  }

  function TimeoutPairCollected(pair: TimeoutPair, signer: VerifyingKey, vote: TimeoutVote):
      (TimeoutPair, Option<TimeoutCertificate>)
    requires TimeoutPairOk(pair)
  {
    PairCollected(
      pair, TimeoutCollected(pair.cvs, signer, vote),
      if pair.pvs.Some? then Some(TimeoutCollected(pair.pvs.value, signer, vote)) else None)
  }

  /** The vote completes a certificate of one of the sets. */
  ghost predicate CompletesPair(pair: TimeoutPair, signer: VerifyingKey, vote: TimeoutVote)
    requires TimeoutPairOk(pair)
  {
    Completes(pair.cvs, signer, vote) || (pair.pvs.Some? && Completes(pair.pvs.value, signer, vote))
  }

  /** Both pairs collect for the same sets, chain and view. */
  ghost predicate SameSets<V>(pair: CollectorPair<V>, pair': CollectorPair<V>) {
    && pair'.cvs == pair.cvs.(votes := pair'.cvs.votes)
    && (pair'.pvs.Some? <==> pair.pvs.Some?)
    && (pair.pvs.Some? ==> pair'.pvs.value == pair.pvs.value.(votes := pair'.pvs.value.votes))
  }

  /** Collecting keeps the pair valid, and a certificate for its view comes out exactly when the vote completes
      one.  The pair remembers the vote: the signers of the CVS collector grow by exactly the new voter and,
      unless the vote completes a certificate there, so do those of the PVS collector. */
  lemma TimeoutPairStep(pair: TimeoutPair, signer: VerifyingKey, vote: TimeoutVote)
    requires TimeoutPairOk(pair) && TimeoutVoteIsCorrect(signer, vote)
    ensures
      var (pair', tc) := TimeoutPairCollected(pair, signer, vote);
      && TimeoutPairOk(pair') && SameSets(pair, pair')
      && (tc.Some? <==> CompletesPair(pair, signer, vote))
      && (tc.Some? ==> tc.value.view == pair.cvs.view)
      && Signers(pair.cvs.vs, pair'.cvs.votes.signatures) == SignersWith(pair.cvs, signer, vote)
      && (pair.pvs.Some? ==>
            var pvs := pair.pvs.value;
            Signers(pvs.vs, pair'.pvs.value.votes.signatures) ==
              if Completes(pair.cvs, signer, vote) then Signers(pvs.vs, pvs.votes.signatures)
              else SignersWith(pvs, signer, vote))
  {
    TimeoutCollectorStep(pair.cvs, signer, vote);
    if pair.pvs.Some? {
      TimeoutCollectorStep(pair.pvs.value, signer, vote);
    }
  }

  /** A certificate that a matching pair emits is one that `TimeoutCertificate::is_correct` accepts, and collecting
      keeps the pair matched. */
  lemma PairIsSound(pair: TimeoutPair, vss: ValidatorSetState, signer: VerifyingKey, vote: TimeoutVote)
    requires TimeoutPairOk(pair) && Matches(pair, vss) && TimeoutVoteIsCorrect(signer, vote)
    ensures
      var (pair', tc) := TimeoutPairCollected(pair, signer, vote);
      && TimeoutPairOk(pair') && Matches(pair', vss) && IsFor(pair', pair.cvs.chainId, pair.cvs.view)
      && (tc.Some? ==>
            && tc.value.view == pair.cvs.view
            && (|| TcCorrectlySigned(tc.value, vss.committed)
                || (!vss.updateDecided && TcCorrectlySigned(tc.value, vss.previous))))
  {
    TimeoutCollectorStep(pair.cvs, signer, vote);
    if pair.pvs.Some? {
      TimeoutCollectorStep(pair.pvs.value, signer, vote);
    }
  }

  lemma NewPairMatches(chainId: nat, view: nat, vss: ValidatorSetState)
    requires vss.Valid()
    ensures TimeoutPairOk(NewTimeoutPair(chainId, view, vss)) && Matches(NewTimeoutPair(chainId, view, vss), vss)
    ensures IsFor(NewTimeoutPair(chainId, view, vss), chainId, view)
  {
    NewTimeoutCollectorIsValid(chainId, view, vss.committed);
    NewTimeoutCollectorIsValid(chainId, view, vss.previous);
  }

  lemma UpdatedTimeoutPairIsOk(pair: TimeoutPair, vss: ValidatorSetState)
    requires TimeoutPairOk(pair) && vss.Valid()
    ensures TimeoutPairOk(TimeoutPairUpdated(pair, vss).0)
  {
    NewTimeoutCollectorIsValid(pair.cvs.chainId, pair.cvs.view, vss.committed);
    NewTimeoutCollectorIsValid(pair.cvs.chainId, pair.cvs.view, vss.previous);
  }

  // ---------------------------------------------------------------------------------------------------
  // Pairs of phase vote collectors

  type PhasePair = CollectorPair<map<Ballot, Tally>>

  ghost predicate PhasePairOk(pair: PhasePair) {
    && PhaseOk(pair.cvs) && (pair.pvs.Some? ==> PhaseOk(pair.pvs.value))
    && IsFor(pair, pair.cvs.chainId, pair.cvs.view)
  }

  function NewPhasePair(chainId: nat, view: nat, vss: ValidatorSetState): PhasePair {
    NewPair(chainId, view, vss, map[], map[])
  }

  function PhasePairUpdated(pair: PhasePair, vss: ValidatorSetState): PhasePair {
    PairUpdated(pair, vss, map[], map[]).0
  }

  function PhasePairCollected(
      pair: PhasePair, signer: VerifyingKey, vote: PhaseVote): (PhasePair, Option<PhaseCertificate>)
    requires PhasePairOk(pair)
  {
    PairCollected(
      pair, PhaseCollected(pair.cvs, signer, vote),
      if pair.pvs.Some? then Some(PhaseCollected(pair.pvs.value, signer, vote)) else None)
  }

  lemma NewPhasePairMatches(chainId: nat, view: nat, vss: ValidatorSetState)
    requires vss.Valid()
    ensures PhasePairOk(NewPhasePair(chainId, view, vss)) && Matches(NewPhasePair(chainId, view, vss), vss)
    ensures IsFor(NewPhasePair(chainId, view, vss), chainId, view)
  {
  }

  /** `update_validator_sets` keeps the pair valid and brings it to cover the latest state. */
  lemma UpdatedPhasePairIsOk(pair: PhasePair, vss: ValidatorSetState)
    requires PhasePairOk(pair) && vss.Valid()
    ensures PhasePairOk(PhasePairUpdated(pair, vss)) && Covers(PhasePairUpdated(pair, vss), vss)
    ensures IsFor(PhasePairUpdated(pair, vss), pair.cvs.chainId, pair.cvs.view)
    ensures Matches(PhasePairUpdated(pair, vss), vss) <==> !vss.updateDecided || pair.pvs.Some?
  {
    UpdatedPairMatchesExactlyWhen(pair, vss, map[], map[]);
  }

  /** The signers of a ballot with the vote, if it is for the ballot. */
  ghost function BallotSignersWith(
      c: PhaseCollector, signer: VerifyingKey, vote: PhaseVote, ballot: Ballot): set<VerifyingKey>
    requires PhaseOk(c)
  {
    TallyForOk(c, ballot);
    Signers(c.vs, TallyFor(c, ballot).signatures) + if Supports(c, ballot, signer, vote) then {signer} else {}
  }

  ghost predicate CompletesBallot(c: PhaseCollector, signer: VerifyingKey, vote: PhaseVote, ballot: Ballot)
    requires PhaseOk(c)
  {
    PowerOf(c.vs, BallotSignersWith(c, signer, vote, ballot)) >= Quorum(c.vs)
  }

  ghost predicate Holds(c: PhaseCollector, ballot: Ballot, signers: set<VerifyingKey>) {
    && |TallyFor(c, ballot).signatures| == |c.vs.validators|
    && Signers(c.vs, TallyFor(c, ballot).signatures) == signers
  }

  /** What one vote does to one ballot in both collectors: a certificate for it comes out exactly when the vote
      takes its signers to the quorum of one of the sets; otherwise both collectors remember the vote. */
  lemma PhasePairStep(pair: PhasePair, signer: VerifyingKey, vote: PhaseVote, ballot: Ballot)
    requires PhasePairOk(pair) && PhaseVoteIsCorrect(signer, vote)
    ensures
      var (pair', pc) := PhasePairCollected(pair, signer, vote);
      var emits := pc.Some? && (pc.value.block, pc.value.phase) == ballot;
      && (emits <==>
            || CompletesBallot(pair.cvs, signer, vote, ballot)
            || (pair.pvs.Some? && CompletesBallot(pair.pvs.value, signer, vote, ballot)))
      && (!emits ==>
            && Holds(pair'.cvs, ballot, BallotSignersWith(pair.cvs, signer, vote, ballot))
            && (pair.pvs.Some? ==>
                  && pair'.pvs.Some?
                  && Holds(pair'.pvs.value, ballot, BallotSignersWith(pair.pvs.value, signer, vote, ballot))))
  {
    PhaseCollectorIsSound(pair.cvs, signer, vote);
    BallotStep(pair.cvs, signer, vote, ballot);
    if pair.pvs.Some? {
      var pvs := pair.pvs.value;
      PhaseCollectorIsSound(pvs, signer, vote);
      BallotStep(pvs, signer, vote, ballot);
      TallyForOk(pvs, ballot);
      if PhaseCollected(pair.cvs, signer, vote).1.Some? && ballot != (vote.block, vote.phase) {
        BallotStep(pair.cvs, signer, vote, ballot);
        assert BallotSignersWith(pvs, signer, vote, ballot) == Signers(pvs.vs, TallyFor(pvs, ballot).signatures);
        BelowQuorum(pvs, ballot);
      }
    }
  }

  lemma BelowQuorum(c: PhaseCollector, ballot: Ballot)
    requires PhaseOk(c)
    ensures |TallyFor(c, ballot).signatures| == |c.vs.validators|
    ensures PowerOf(c.vs, Signers(c.vs, TallyFor(c, ballot).signatures)) < Quorum(c.vs)
  {
    TallyForOk(c, ballot);
  }

  /** Correct votes keep the pair valid, and what it emits is correctly signed for one of its two sets. */
  lemma PhasePairIsSound(pair: PhasePair, signer: VerifyingKey, vote: PhaseVote)
    requires PhasePairOk(pair) && PhaseVoteIsCorrect(signer, vote)
    ensures
      var (pair', pc) := PhasePairCollected(pair, signer, vote);
      && PhasePairOk(pair') && IsFor(pair', pair.cvs.chainId, pair.cvs.view) && SameSets(pair, pair')
      && (pc.Some? ==>
            || PcCorrectlySigned(pc.value, pair.cvs.vs)
            || (pair.pvs.Some? && PcCorrectlySigned(pc.value, pair.pvs.value.vs)))
  {
    PhaseCollectorIsSound(pair.cvs, signer, vote);
    if pair.pvs.Some? {
      PhaseCollectorIsSound(pair.pvs.value, signer, vote);
    }
  }
}
