/** What a pair of collectors emits over any sequence of votes. */
module PairRuns {
  import opened Types
  import opened Quorums
  import opened Collecting

  // ---------------------------------------------------------------------------------------------------
  // Phase votes

  ghost predicate NothingCollected(pair: PhasePair) {
    pair.cvs.votes == map[] && (pair.pvs.Some? ==> pair.pvs.value.votes == map[])
  }

  ghost function PairAfter(pair: PhasePair, votes: Arrivals): (r: PhasePair)
    requires PhasePairOk(pair) && AllCorrect(votes)
    ensures PhasePairOk(r) && SameSets(pair, r)
  {
    if votes == [] then pair
    else
      var n := |votes| - 1;
      PhasePairIsSound(PairAfter(pair, votes[..n]), votes[n].0, votes[n].1);
      PhasePairCollected(PairAfter(pair, votes[..n]), votes[n].0, votes[n].1).0
  }

  /** The `n`-th vote yields a certificate for `ballot`. */
  ghost predicate PairEmitsFor(pair: PhasePair, votes: Arrivals, n: nat, ballot: Ballot)
    requires PhasePairOk(pair) && AllCorrect(votes) && n < |votes|
  {
    var pc := PhasePairCollected(PairAfter(pair, votes[..n]), votes[n].0, votes[n].1).1;
    pc.Some? && (pc.value.block, pc.value.phase) == ballot
  }

  ghost predicate PairEmitsSometime(pair: PhasePair, votes: Arrivals, ballot: Ballot)
    requires PhasePairOk(pair) && AllCorrect(votes)
  {
    exists n: nat :: n < |votes| && PairEmitsFor(pair, votes, n, ballot)
  }

  lemma PairEmitsOneMore(pair: PhasePair, votes: Arrivals, n: nat, ballot: Ballot)
    requires PhasePairOk(pair) && AllCorrect(votes) && n + 1 == |votes|
    ensures PairEmitsSometime(pair, votes, ballot) <==>
      PairEmitsSometime(pair, votes[..n], ballot) || PairEmitsFor(pair, votes, n, ballot)
  {
    var before := votes[..n];
    forall m: nat | m < n ensures PairEmitsFor(pair, before, m, ballot) <==> PairEmitsFor(pair, votes, m, ballot) {
      assert before[..m] == votes[..m];
    }
    if PairEmitsSometime(pair, before, ballot) {
      var m: nat :| m < n && PairEmitsFor(pair, before, m, ballot);
      assert PairEmitsFor(pair, votes, m, ballot);
    }
  }

  ghost predicate VotersReachQuorum(c: PhaseCollector, votes: Arrivals, ballot: Ballot) {
    PowerOf(c.vs, Voters(c, votes, ballot)) >= Quorum(c.vs)
  }

  ghost predicate VotersReachOne(pair: PhasePair, votes: Arrivals, ballot: Ballot) {
    || VotersReachQuorum(pair.cvs, votes, ballot)
    || (pair.pvs.Some? && VotersReachQuorum(pair.pvs.value, votes, ballot))
  }

  /** Both collectors hold the signatures of exactly the ballot's voters. */
  ghost predicate HoldsVoters(pair: PhasePair, now: PhasePair, votes: Arrivals, ballot: Ballot) {
    && Holds(now.cvs, ballot, Voters(pair.cvs, votes, ballot))
    && (pair.pvs.Some? ==>
          now.pvs.Some? && Holds(now.pvs.value, ballot, Voters(pair.pvs.value, votes, ballot)))
  }

  lemma NobodyVoted(c: PhaseCollector, ballot: Ballot)
    requires PhaseOk(c) && c.votes == map[]
    ensures Voters(c, [], ballot) == {} && Holds(c, ballot, {}) && !VotersReachQuorum(c, [], ballot)
  {
    EmptyTallyOk(c.vs, MessageFor(c, ballot));
    PowerOfNobody(c.vs, |c.vs.validators|);
    assert Voters(c, [], ballot) == {};
  }

  /** One more vote, as one of the collectors sees it. */
  lemma OneMoreVote(c: PhaseCollector, now: PhaseCollector, votes: Arrivals, n: nat, ballot: Ballot)
    requires PhaseOk(c) && PhaseOk(now) && now == c.(votes := now.votes) && n + 1 == |votes|
    requires Holds(now, ballot, Voters(c, votes[..n], ballot))
    ensures BallotSignersWith(now, votes[n].0, votes[n].1, ballot) == Voters(c, votes, ballot)
  {
    VotersGrow(c, votes, n, ballot);
    assert votes[..n + 1] == votes;
  }

  /** Over any arrivals, some vote yields a certificate for a ballot if and only if its voters hold a quorum of
      one of the pair's sets; until then both collectors hold the signatures of all voters. */
  lemma {:induction false} PairCertificateIffQuorum(pair: PhasePair, votes: Arrivals, ballot: Ballot)
    requires PhasePairOk(pair) && NothingCollected(pair) && AllCorrect(votes)
    ensures PairEmitsSometime(pair, votes, ballot) <==> VotersReachOne(pair, votes, ballot)
    ensures !PairEmitsSometime(pair, votes, ballot) ==> HoldsVoters(pair, PairAfter(pair, votes), votes, ballot)
    decreases |votes|
  {
    if votes == [] {
      NobodyVoted(pair.cvs, ballot);
      if pair.pvs.Some? {
        NobodyVoted(pair.pvs.value, ballot);
      }
    } else {
      var n := |votes| - 1;
      var now := PairAfter(pair, votes[..n]);
      PairCertificateIffQuorum(pair, votes[..n], ballot);
      PairEmitsOneMore(pair, votes, n, ballot);
      VotersMonotone(pair.cvs, votes, n, ballot);
      if pair.pvs.Some? {
        VotersMonotone(pair.pvs.value, votes, n, ballot);
      }
      if !PairEmitsSometime(pair, votes[..n], ballot) {
        OneMoreVote(pair.cvs, now.cvs, votes, n, ballot);
        if pair.pvs.Some? {
          OneMoreVote(pair.pvs.value, now.pvs.value, votes, n, ballot);
        }
        PhasePairStep(now, votes[n].0, votes[n].1, ballot);
      }
    }
  }

  // ---------------------------------------------------------------------------------------------------
  // Timeout votes

  type TimeoutArrivals = seq<(VerifyingKey, TimeoutVote)>

  ghost predicate AllTimeoutsCorrect(votes: TimeoutArrivals) {
    forall i | 0 <= i < |votes| :: TimeoutVoteIsCorrect(votes[i].0, votes[i].1)
  }

  predicate IsTimeoutFor(c: TimeoutCollector, signer: VerifyingKey, vote: TimeoutVote) {
    signer in c.vs.validators && vote.chainId == c.chainId && vote.view == c.view
  }

  /** The validators that voted to time out the collector's view. */
  function TimeoutVoters(c: TimeoutCollector, votes: TimeoutArrivals): set<VerifyingKey> {
    set i | 0 <= i < |votes| && IsTimeoutFor(c, votes[i].0, votes[i].1) :: votes[i].0
  }

  lemma TimeoutVotersGrow(c: TimeoutCollector, votes: TimeoutArrivals, n: nat)
    requires n + 1 == |votes|
    ensures TimeoutVoters(c, votes) ==
      TimeoutVoters(c, votes[..n]) + if IsTimeoutFor(c, votes[n].0, votes[n].1) then {votes[n].0} else {}
  {
    forall k | k in TimeoutVoters(c, votes[..n]) ensures k in TimeoutVoters(c, votes) {
      var i :| 0 <= i < n && IsTimeoutFor(c, votes[..n][i].0, votes[..n][i].1) && votes[..n][i].0 == k;
      assert votes[i] == votes[..n][i];
    }
    forall k | k in TimeoutVoters(c, votes)
      ensures k in TimeoutVoters(c, votes[..n]) || (k == votes[n].0 && IsTimeoutFor(c, votes[n].0, votes[n].1))
    {
      var i :| 0 <= i < |votes| && IsTimeoutFor(c, votes[i].0, votes[i].1) && votes[i].0 == k;
      assert i < n ==> votes[..n][i] == votes[i];
    }
  }

  ghost function TimeoutPairAfter(pair: TimeoutPair, votes: TimeoutArrivals): (r: TimeoutPair)
    requires TimeoutPairOk(pair) && AllTimeoutsCorrect(votes)
    ensures TimeoutPairOk(r) && SameSets(pair, r)
  {
    if votes == [] then pair
    else
      var n := |votes| - 1;
      TimeoutPairStep(TimeoutPairAfter(pair, votes[..n]), votes[n].0, votes[n].1);
      TimeoutPairCollected(TimeoutPairAfter(pair, votes[..n]), votes[n].0, votes[n].1).0
  }

  ghost predicate TimesOutAt(pair: TimeoutPair, votes: TimeoutArrivals, n: nat)
    requires TimeoutPairOk(pair) && AllTimeoutsCorrect(votes) && n < |votes|
  {
    TimeoutPairCollected(TimeoutPairAfter(pair, votes[..n]), votes[n].0, votes[n].1).1.Some?
  }

  ghost predicate TimesOut(pair: TimeoutPair, votes: TimeoutArrivals)
    requires TimeoutPairOk(pair) && AllTimeoutsCorrect(votes)
  {
    exists n: nat :: n < |votes| && TimesOutAt(pair, votes, n)
  }

  lemma TimesOutOneMore(pair: TimeoutPair, votes: TimeoutArrivals, n: nat)
    requires TimeoutPairOk(pair) && AllTimeoutsCorrect(votes) && n + 1 == |votes|
    ensures TimesOut(pair, votes) <==> TimesOut(pair, votes[..n]) || TimesOutAt(pair, votes, n)
  {
    var before := votes[..n];
    forall m: nat | m < n ensures TimesOutAt(pair, before, m) <==> TimesOutAt(pair, votes, m) {
      assert before[..m] == votes[..m];
    }
    if TimesOut(pair, before) {
      var m: nat :| m < n && TimesOutAt(pair, before, m);
      assert TimesOutAt(pair, votes, m);
    }
  }

  ghost predicate TimeoutsReachQuorum(c: TimeoutCollector, votes: TimeoutArrivals) {
    PowerOf(c.vs, TimeoutVoters(c, votes)) >= Quorum(c.vs)
  }

  ghost predicate TimeoutsReachOne(pair: TimeoutPair, votes: TimeoutArrivals) {
    TimeoutsReachQuorum(pair.cvs, votes) || (pair.pvs.Some? && TimeoutsReachQuorum(pair.pvs.value, votes))
  }

  ghost predicate HasSigners(c: TimeoutCollector, signers: set<VerifyingKey>) {
    |c.votes.signatures| == |c.vs.validators| && Signers(c.vs, c.votes.signatures) == signers
  }

  ghost predicate HasTimeoutVoters(pair: TimeoutPair, now: TimeoutPair, votes: TimeoutArrivals) {
    && HasSigners(now.cvs, TimeoutVoters(pair.cvs, votes))
    && (pair.pvs.Some? ==> now.pvs.Some? && HasSigners(now.pvs.value, TimeoutVoters(pair.pvs.value, votes)))
  }

  lemma NobodyTimedOut(c: TimeoutCollector)
    ensures TimeoutVoters(c, []) == {} && !TimeoutsReachQuorum(c, [])
  {
    PowerOfNobody(c.vs, |c.vs.validators|);
    assert TimeoutVoters(c, []) == {};
  }

  /** One more timeout vote, as one of the collectors sees it. */
  lemma OneMoreTimeout(c: TimeoutCollector, now: TimeoutCollector, votes: TimeoutArrivals, n: nat)
    requires now == c.(votes := now.votes) && n + 1 == |votes| && HasSigners(now, TimeoutVoters(c, votes[..n]))
    ensures SignersWith(now, votes[n].0, votes[n].1) == TimeoutVoters(c, votes)
    ensures !TimeoutsReachQuorum(c, votes[..n]) ==>
      (Completes(now, votes[n].0, votes[n].1) <==> TimeoutsReachQuorum(c, votes))
    ensures TimeoutsReachQuorum(c, votes[..n]) ==> TimeoutsReachQuorum(c, votes)
  {
    TimeoutVotersGrow(c, votes, n);
    PowerMonotone(c.vs, TimeoutVoters(c, votes[..n]), TimeoutVoters(c, votes), |c.vs.validators|);
    if !IsNewTimeout(now, votes[n].0, votes[n].1) {
      assert TimeoutVoters(c, votes) == TimeoutVoters(c, votes[..n]);
    }
  }

  lemma QuorumStays(c: TimeoutCollector, votes: TimeoutArrivals, n: nat)
    requires n + 1 == |votes| && TimeoutsReachQuorum(c, votes[..n])
    ensures TimeoutsReachQuorum(c, votes)
  {
    TimeoutVotersGrow(c, votes, n);
    PowerMonotone(c.vs, TimeoutVoters(c, votes[..n]), TimeoutVoters(c, votes), |c.vs.validators|);
  }

  /** Over any arrivals, some timeout vote yields a certificate if and only if the voters hold a quorum of one of the
      pair's sets; until then both collectors hold the signatures of all voters. */
  lemma {:induction false} TimeoutCertificateIffQuorum(pair: TimeoutPair, votes: TimeoutArrivals)
    requires TimeoutPairOk(pair) && HasTimeoutVoters(pair, pair, []) && AllTimeoutsCorrect(votes)
    ensures TimesOut(pair, votes) <==> TimeoutsReachOne(pair, votes)
    ensures !TimesOut(pair, votes) ==> HasTimeoutVoters(pair, TimeoutPairAfter(pair, votes), votes)
    decreases |votes|
  {
    if votes == [] {
      NobodyTimedOut(pair.cvs);
      if pair.pvs.Some? {
        NobodyTimedOut(pair.pvs.value);
      }
    } else {
      var n := |votes| - 1;
      var now := TimeoutPairAfter(pair, votes[..n]);
      TimeoutCertificateIffQuorum(pair, votes[..n]);
      TimesOutOneMore(pair, votes, n);
      if TimesOut(pair, votes[..n]) {
        if TimeoutsReachQuorum(pair.cvs, votes[..n]) {
          QuorumStays(pair.cvs, votes, n);
        } else {
          QuorumStays(pair.pvs.value, votes, n);
        }
      } else {
        OneMoreTimeout(pair.cvs, now.cvs, votes, n);
        if pair.pvs.Some? {
          OneMoreTimeout(pair.pvs.value, now.pvs.value, votes, n);
        }
        TimeoutPairStep(now, votes[n].0, votes[n].1);
      }
    }
  }

  /** A new pair has collected nothing, so the two theorems apply to the pair of every view. */
  lemma NewPairsAreEmpty(chainId: nat, view: nat, vss: ValidatorSetState)
    requires vss.Valid()
    ensures PhasePairOk(NewPhasePair(chainId, view, vss)) && NothingCollected(NewPhasePair(chainId, view, vss))
    ensures TimeoutPairOk(NewTimeoutPair(chainId, view, vss))
    ensures HasTimeoutVoters(NewTimeoutPair(chainId, view, vss), NewTimeoutPair(chainId, view, vss), [])
  {
    NewPairMatches(chainId, view, vss);
    NewPhasePairMatches(chainId, view, vss);
    NewTimeoutCollectorIsValid(chainId, view, vss.committed);
    NewTimeoutCollectorIsValid(chainId, view, vss.previous);
    NobodyTimedOut(NewTimeoutCollector(chainId, view, vss.committed));
    NobodyTimedOut(NewTimeoutCollector(chainId, view, vss.previous));
  }
}
