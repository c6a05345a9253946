/** Replicas that are locked on a Precommit certificate and have missed the view after it are stuck: the block cannot be
    re-proposed to them, nothing else passes their lock check, and the lock does not move. */
module Stalls {
  import opened Types
  import opened Quorums
  import opened SafetyRules
  import opened VoteLog
  import opened Protocol
  import opened Proposer

  /** Every quorum needs one of `keys`. */
  ghost predicate Blocking(vs: ValidatorSet, keys: set<VerifyingKey>) {
    PowerOf(vs, keys) + Quorum(vs) > TotalPower(vs)
  }

  lemma QuorumMeets(vs: ValidatorSet, keys: set<VerifyingKey>, s: set<VerifyingKey>) returns (k: VerifyingKey)
    requires Blocking(vs, keys) && PowerOf(vs, s) >= Quorum(vs)
    ensures k in s && k in keys
  {
    var n := |vs.validators|;
    if k' :| k' in s && k' in keys {
      return k';
    }
    PowerInclusionExclusion(vs, s, keys, n);
    PowerMonotone(vs, s + keys, Members(vs), n);
    assert s * keys == {};
    PowerOfNobody(vs, n);
    assert false;
  }

  /** A replica in `keys` is locked on a Precommit certificate of `b` in view `v`, and past the view after it. */
  ghost predicate IsStuck(r: Replica, b: CryptoHash, v: nat) {
    && r.tree.lockedPc.phase.Precommit? && r.tree.lockedPc.block == b && r.tree.lockedPc.view == v
    && r.view > v + 1
  }

  /** It has not voted after view `v`, nor for a Precommit of `b` in another view. */
  ghost predicate HasStopped(log: Log, keys: set<VerifyingKey>, b: CryptoHash, v: nat) {
    forall i | 0 <= i < |log| && log[i].voter in keys ::
      log[i].view <= v && (log[i].phase.Precommit? && log[i].block == b ==> log[i].view == v)
  }

  ghost predicate StuckAt(s: State, k: VerifyingKey, b: CryptoHash, v: nat) {
    k in s.replicas && IsStuck(s.replicas[k], b, v)
  }

  ghost predicate Stuck(s: State, keys: set<VerifyingKey>, b: CryptoHash, v: nat) {
    && (forall k {:trigger StuckAt(s, k, b, v)} | k in keys :: StuckAt(s, k, b, v))
    && HasStopped(s.log, keys, b, v)
  }

  /** Whatever is certified was voted for by one of the stuck replicas. */
  lemma CertificatesAreOld(
      c: Config, log: Log, keys: set<VerifyingKey>, b: CryptoHash, v: nat, pc: PhaseCertificate)
    requires keys <= c.honest && Blocking(c.vs, keys) && HasStopped(log, keys, b, v) && Available(c, log, pc)
    ensures pc.view <= v && (pc.phase.Precommit? && pc.block == b ==> pc.view == v)
  {
    var k := QuorumMeets(c.vs, keys, Signers(c.vs, pc.signatures));
    var i := VoteOf(c, log, pc, k);
  }

  ghost predicate Setting(c: Config, log: Log, keys: set<VerifyingKey>, b: CryptoHash, v: nat) {
    && GoodConfig(c) && GoodLog(c, log) && keys <= c.honest && Blocking(c.vs, keys) && HasStopped(log, keys, b, v)
    && b.Digest? && c.updates(b)
  }

  /** The block itself has Prepare and Precommit certificates at most. */
  lemma OnlyEarlyPhases(c: Config, log: Log, keys: set<VerifyingKey>, b: CryptoHash, v: nat, pc: PhaseCertificate)
    requires Setting(c, log, keys, b, v) && Available(c, log, pc) && pc.block == b
    ensures pc.phase.Prepare? || pc.phase.Precommit?
  {
    PhaseFitsBlock(c, log, pc);
    if pc.phase.Commit? || pc.phase.Decide? {
      var commit := pc;
      if pc.phase.Decide? {
        commit := DecideFollowsCommit(c, log, pc);
      }
      var precommit := PreviousPhase(c, log, commit);
      CertificatesAreOld(c, log, keys, b, v, precommit);
      CertificatesAreOld(c, log, keys, b, v, commit);
    }
  }

  /** Nothing on top of the block has a certificate. */
  lemma NothingOnTop(c: Config, log: Log, keys: set<VerifyingKey>, b: CryptoHash, v: nat, pc: PhaseCertificate)
    requires Setting(c, log, keys, b, v) && Available(c, log, pc) && pc.block.Digest?
    ensures pc.block.justify.block != b
    ensures pc.block.justify.block.Digest? ==> pc.block.justify.block.justify.block != b
  {
    var justify := pc.block.justify;
    CertifiedAfterJustify(c, log, pc);
    if !IsGenesisPc(justify) {
      if justify.block == b {
        OnlyEarlyPhases(c, log, keys, b, v, justify);
      }
      CertifiedAfterJustify(c, log, justify);
      var below := justify.block.justify;
      if !IsGenesisPc(below) && below.block == b {
        OnlyEarlyPhases(c, log, keys, b, v, below);
      }
    }
  }

  /** The only certificates that pass a stuck replica's lock check are old Prepare and Precommit certificates of `b`. */
  lemma OnlyOldOnesPass(
      c: Config, log: Log, keys: set<VerifyingKey>, b: CryptoHash, v: nat, r: Replica, pc: PhaseCertificate)
    requires Setting(c, log, keys, b, v) && AvailableOrGenesis(c, log, pc)
    requires IsStuck(r, b, v) && SafePc(r.tree, pc, c.chainId)
    ensures pc.block == b && pc.view <= v && (pc.phase.Prepare? || (pc.phase.Precommit? && pc.view == v))
  {
    if !IsGenesisPc(pc) {
      CertificatesAreOld(c, log, keys, b, v, pc);
      if pc.block == b {
        OnlyEarlyPhases(c, log, keys, b, v, pc);
      } else {
        NothingOnTop(c, log, keys, b, v, pc);
      }
    }
  }

  /** A stuck replica casts no vote, and its lock stays a Precommit certificate of the same block and view. */
  lemma StuckReplicaStays(
      c: Config, log: Log, keys: set<VerifyingKey>, b: CryptoHash, v: nat, k: VerifyingKey, r: Replica, e: Event,
      r': Replica, casts: Log)
    requires Setting(c, log, keys, b, v) && IsStuck(r, b, v) && ReplicaStep(c, log, k, r, e, r', casts)
    requires r'.view > v + 1
    ensures casts == [] && IsStuck(r', b, v)
  {
    match e
    case EnterView(_) =>
    case ReceiveProposal(block, _) => OnlyOldOnesPass(c, log, keys, b, v, r, block.justify);
    case ReceiveNudge(nudge, _) => OnlyOldOnesPass(c, log, keys, b, v, r, nudge.justify);
    case ReceiveCertificate(pc) => OnlyOldOnesPass(c, log, keys, b, v, r, pc);
  }

  /** The block that a stuck replica is locked on updates the validator set. */
  lemma StuckSetting(c: Config, s: State, keys: set<VerifyingKey>, b: CryptoHash, v: nat, k: VerifyingKey)
    requires GoodConfig(c) && Inv(c, s) && keys <= c.honest && Blocking(c.vs, keys) && Stuck(s, keys, b, v) && k in keys
    ensures Setting(c, s.log, keys, b, v)
  {
    assert StuckAt(s, k, b, v) && ReplicaInv(c, s.log, k, s.replicas[k]);
    PhaseFitsBlock(c, s.log, s.replicas[k].tree.lockedPc);
    CertifiedAfterJustify(c, s.log, s.replicas[k].tree.lockedPc);
  }

  lemma OthersVote(log: Log, casts: Log, keys: set<VerifyingKey>, b: CryptoHash, v: nat)
    requires HasStopped(log, keys, b, v) && forall i | 0 <= i < |casts| :: casts[i].voter !in keys
    ensures HasStopped(log + casts, keys, b, v)
  {
  }

  /** Their views do not go back to where they could still vote. */
  ghost predicate ViewsStay(s: State, keys: set<VerifyingKey>, v: nat) {
    forall k {:trigger ViewStays(s, k, v)} | k in keys :: ViewStays(s, k, v)
  }

  ghost predicate ViewStays(s: State, k: VerifyingKey, v: nat) {
    k in s.replicas ==> s.replicas[k].view > v + 1
  }

  lemma StepStaysStuck(c: Config, s: State, s': State, keys: set<VerifyingKey>, b: CryptoHash, v: nat)
    requires GoodConfig(c) && Inv(c, s) && Next(c, s, s')
    requires keys <= c.honest && Blocking(c.vs, keys) && Stuck(s, keys, b, v) && ViewsStay(s', keys, v)
    ensures Stuck(s', keys, b, v)
  {
    var k, e, casts :| k in s.replicas && k in s'.replicas &&
      ReplicaStep(c, s.log, k, s.replicas[k], e, s'.replicas[k], casts) &&
      s'.log == s.log + casts && s'.replicas == s.replicas[k := s'.replicas[k]];
    if k in keys {
      assert StuckAt(s, k, b, v) && ViewStays(s', k, v);
      StuckSetting(c, s, keys, b, v, k);
      StuckReplicaStays(c, s.log, keys, b, v, k, s.replicas[k], e, s'.replicas[k], casts);
      assert s'.log == s.log;
    } else {
      VoteIsGood(c, s.log, k, s.replicas[k], e, s'.replicas[k], casts);
      OthersVote(s.log, casts, keys, b, v);
    }
    forall h | h in keys ensures StuckAt(s', h, b, v) {
      assert StuckAt(s, h, b, v);
    }
  }

  lemma {:induction false} StaysStuck(
      c: Config, run: seq<State>, m: nat, n: nat, keys: set<VerifyingKey>, b: CryptoHash, v: nat)
    requires GoodConfig(c) && IsRun(c, run) && m <= n < |run|
    requires keys <= c.honest && Blocking(c.vs, keys) && Stuck(run[m], keys, b, v)
    requires forall i | m <= i <= n :: ViewsStay(run[i], keys, v)
    ensures Stuck(run[n], keys, b, v)
    decreases n
  {
    if m < n {
      StaysStuck(c, run, m, n - 1, keys, b, v);
      assert ViewsStay(run[n], keys, v);
      NextStaysStuck(c, run, n - 1, keys, b, v);
    }
  }

  lemma NextStaysStuck(c: Config, run: seq<State>, n: nat, keys: set<VerifyingKey>, b: CryptoHash, v: nat)
    requires GoodConfig(c) && IsRun(c, run) && n + 1 < |run|
    requires keys <= c.honest && Blocking(c.vs, keys) && Stuck(run[n], keys, b, v) && ViewsStay(run[n + 1], keys, v)
    ensures Stuck(run[n + 1], keys, b, v)
  {
    RunKeepsInv(c, run, n);
    assert Next(c, run[n], run[n + 1]);
    StepStaysStuck(c, run[n], run[n + 1], keys, b, v);
  }

  /** Stuck forever: once honest replicas without which there is no quorum are locked on a Precommit certificate of
      view `v`, have not voted since and are past view `v + 1`, then in every continuation in which their views do
      not go back, they stay locked as they are, and no certificate of a view above `v` ever becomes available. */
  lemma StuckForever(
      c: Config, run: seq<State>, m: nat, n: nat, keys: set<VerifyingKey>, b: CryptoHash, v: nat, pc: PhaseCertificate)
    requires GoodConfig(c) && IsRun(c, run) && m <= n < |run|
    requires keys <= c.honest && Blocking(c.vs, keys) && Stuck(run[m], keys, b, v)
    requires forall i | m <= i <= n :: ViewsStay(run[i], keys, v)
    ensures Stuck(run[n], keys, b, v)
    ensures Available(c, run[n].log, pc) ==> pc.view <= v
  {
    StaysStuck(c, run, m, n, keys, b, v);
    if Available(c, run[n].log, pc) {
      CertificatesAreOld(c, run[n].log, keys, b, v, pc);
    }
  }
}
