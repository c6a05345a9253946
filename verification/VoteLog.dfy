/** What the votes of honest validators imply about certificates.

    `log` lists every phase vote cast by an honest validator, in the order in which they were cast, each
    with the justify and the locks that the voter's checks saw.  A certificate is available in a prefix
    of the log once every honest signature in it belongs to a vote in that prefix, so induction over
    prefixes is induction over the order in which certificates become available. */
module VoteLog {
  import opened Types
  import opened Quorums

  /** `updates` is the app's verdict on which blocks update the validator set. */
  datatype Config = Config(chainId: nat, vs: ValidatorSet, honest: set<VerifyingKey>, updates: CryptoHash -> bool)

  /** `before` is the lock that the safety check ran against; `after` is the lock at the moment of voting. */
  datatype Cast = Cast(
    voter: VerifyingKey,
    view: nat,
    block: CryptoHash,
    phase: Phase,
    justify: PhaseCertificate,
    before: PhaseCertificate,
    after: PhaseCertificate)

  type Log = seq<Cast>

  function SignedBy(c: Config, cast: Cast): Message {
    PhaseMessage(c.chainId, cast.view, cast.block, cast.phase)
  }

  ghost predicate GoodConfig(c: Config) {
    c.vs.Valid() && ByzantineBound(c.vs, c.honest)
  }

  /** Unforgeability: an honest validator's signature exists only over a message it voted for. */
  ghost predicate HasSigned(c: Config, log: Log, k: VerifyingKey, m: Message) {
    exists i :: 0 <= i < |log| && log[i].voter == k && SignedBy(c, log[i]) == m
  }

  ghost predicate Unforged(c: Config, log: Log, signatures: seq<Option<Signature>>) {
    forall i | 0 <= i < |signatures| && signatures[i].Some? && signatures[i].value.Signed? ::
      signatures[i].value.signer in c.honest ==>
        HasSigned(c, log, signatures[i].value.signer, signatures[i].value.message)
  }

  /** A certificate that can exist once `log` has been cast. */
  ghost predicate Available(c: Config, log: Log, pc: PhaseCertificate) {
    PcCorrectlySigned(pc, c.vs) && Unforged(c, log, pc.signatures)
  }

  ghost predicate AvailableOrGenesis(c: Config, log: Log, pc: PhaseCertificate) {
    IsGenesisPc(pc) || Available(c, log, pc)
  }

  /** The justify is what the vote's phase calls for, and a block is first voted on in the Generic phase or, if it
      updates the validator set, in the Prepare phase. */
  ghost predicate PhaseRule(c: Config, cast: Cast) {
    match cast.phase
    case Generic =>
      && cast.block.Digest? && cast.block.justify == cast.justify && IsBlockJustify(cast.justify)
      && !c.updates(cast.block)
    case Prepare =>
      && cast.block.Digest? && cast.block.justify == cast.justify && IsBlockJustify(cast.justify)
      && c.updates(cast.block)
    case Precommit =>
      cast.justify.phase.Prepare? && cast.justify.block == cast.block && cast.justify.view + 1 == cast.view
    case Commit =>
      cast.justify.phase.Precommit? && cast.justify.block == cast.block && cast.justify.view + 1 == cast.view
    case Decide => cast.justify.phase.Commit? && cast.justify.block == cast.block
  }

  /** The lock check that the voter ran, with `locked_pc.block` at most two links below the justify. */
  ghost predicate LockRule(cast: Cast) {
    || cast.justify.view > cast.before.view
    || Extends(cast.justify.block, cast.before.block)
  }

  /** The lock that `pc_to_lock` leaves behind, for the two kinds of justify that always determine it. */
  ghost predicate RelockRule(cast: Cast) {
    && (cast.justify.phase.Generic? && !IsGenesisPc(cast.justify) ==>
          cast.justify.block.Digest? && cast.after == cast.justify.block.justify)
    && (cast.justify.phase.Precommit? ==> cast.after == cast.justify)
  }

  /** What the voting rules guarantee about a vote cast after the votes in `prefix`. */
  ghost predicate GoodCast(c: Config, prefix: Log, cast: Cast) {
    && cast.voter in c.honest
    && cast.view >= 1
    && AvailableOrGenesis(c, prefix, cast.justify)
    && AvailableOrGenesis(c, prefix, cast.before)
    && AvailableOrGenesis(c, prefix, cast.after)
    && PhaseRule(c, cast) && LockRule(cast) && RelockRule(cast)
    && (forall j | 0 <= j < |prefix| && prefix[j].voter == cast.voter :: prefix[j].view < cast.view)
  }

  ghost predicate GoodLog(c: Config, log: Log) {
    forall i | 0 <= i < |log| :: GoodCast(c, log[..i], log[i])
  }

  /** Hypothesis on runs: no honest validator replaced its lock by a certificate of a lower view
      between two of its votes. */
  ghost predicate LocksNeverFall(log: Log) {
    forall j, i | 0 <= j < i < |log| && log[j].voter == log[i].voter :: log[j].after.view <= log[i].before.view
  }

  lemma AvailableMonotone(c: Config, log: Log, i: nat, pc: PhaseCertificate)
    requires i <= |log| && Available(c, log[..i], pc)
    ensures Available(c, log, pc)
  {
    forall p | 0 <= p < |pc.signatures| && pc.signatures[p].Some? && pc.signatures[p].value.Signed? &&
               pc.signatures[p].value.signer in c.honest
      ensures HasSigned(c, log, pc.signatures[p].value.signer, pc.signatures[p].value.message)
    {
      var k :| 0 <= k < |log[..i]| && log[..i][k].voter == pc.signatures[p].value.signer &&
               SignedBy(c, log[..i][k]) == pc.signatures[p].value.message;
      assert log[k] == log[..i][k];
    }
  }

  /** The vote behind an honest signature in an available certificate. */
  lemma VoteOf(c: Config, log: Log, pc: PhaseCertificate, k: VerifyingKey) returns (i: nat)
    requires Available(c, log, pc) && k in c.honest && k in Signers(c.vs, pc.signatures)
    ensures i < |log| && log[i].voter == k && SignedBy(c, log[i]) == CertifiedMessage(pc)
  {
    var p :| 0 <= p < |pc.signatures| && pc.signatures[p].Some? && c.vs.validators[p] == k;
    assert Verifies(k, CertifiedMessage(pc), pc.signatures[p].value);
    assert HasSigned(c, log, k, CertifiedMessage(pc));
    i :| 0 <= i < |log| && log[i].voter == k && SignedBy(c, log[i]) == CertifiedMessage(pc);
  }

  /** Some honest validator voted for everything that is certified. */
  lemma HonestVote(c: Config, log: Log, pc: PhaseCertificate) returns (i: nat)
    requires GoodConfig(c) && Available(c, log, pc)
    ensures i < |log| && SignedBy(c, log[i]) == CertifiedMessage(pc)
  {
    var k := QuorumHasHonest(c.vs, c.honest, Signers(c.vs, pc.signatures));
    i := VoteOf(c, log, pc, k);
  }

  /** Some honest validator voted for both of two certificates. */
  lemma CommonVoter(
      c: Config, log: Log, p: PhaseCertificate, m: nat, q: PhaseCertificate, n: nat) returns (i: nat, j: nat)
    requires GoodConfig(c) && m <= |log| && n <= |log|
    requires Available(c, log[..m], p) && Available(c, log[..n], q)
    ensures i < m && j < n && log[i].voter == log[j].voter
    ensures SignedBy(c, log[i]) == CertifiedMessage(p) && SignedBy(c, log[j]) == CertifiedMessage(q)
  {
    var k := QuorumsIntersect(c.vs, c.honest, Signers(c.vs, p.signatures), Signers(c.vs, q.signatures));
    i := VoteOf(c, log[..m], p, k);
    j := VoteOf(c, log[..n], q, k);
  }

  /** An honest validator's votes have strictly increasing views, so a view identifies its vote. */
  lemma VotesInViewOrder(c: Config, log: Log, i: nat, j: nat)
    requires GoodLog(c, log) && i < |log| && j < |log| && log[i].voter == log[j].voter
    ensures log[i].view < log[j].view <==> i < j
    ensures log[i].view == log[j].view <==> i == j
  {
    if i < j {
      assert GoodCast(c, log[..j], log[j]);
      assert log[..j][i] == log[i];
    } else if j < i {
      assert GoodCast(c, log[..i], log[i]);
      assert log[..i][j] == log[j];
    }
  }

  /** Whatever is certified carries this chain's id and a view in which honest replicas vote. */
  lemma CertifiedViewIsPositive(c: Config, log: Log, pc: PhaseCertificate)
    requires GoodConfig(c) && GoodLog(c, log) && Available(c, log, pc)
    ensures pc.view >= 1 && pc.chainId == c.chainId
  {
    var i := HonestVote(c, log, pc);
    assert GoodCast(c, log[..i], log[i]);
  }

  /** Certificate uniqueness: one view certifies one block in one phase. */
  lemma CertificateUniqueness(c: Config, log: Log, p: PhaseCertificate, q: PhaseCertificate)
    requires GoodConfig(c) && GoodLog(c, log)
    requires Available(c, log, p) && Available(c, log, q)
    requires p.view == q.view
    ensures p.block == q.block && p.phase == q.phase
  {
    assert log[..|log|] == log;
    var i, j := CommonVoter(c, log, p, |log|, q, |log|);
    VotesInViewOrder(c, log, i, j);
  }

  /** The first honest vote for what `pc` certifies. */
  lemma FirstVote(c: Config, log: Log, pc: PhaseCertificate) returns (i: nat)
    requires GoodConfig(c) && Available(c, log, pc)
    ensures i < |log| && SignedBy(c, log[i]) == CertifiedMessage(pc)
    ensures forall m | 0 <= m < i :: SignedBy(c, log[m]) != CertifiedMessage(pc)
  {
    i := HonestVote(c, log, pc);
    while exists m :: 0 <= m < i && SignedBy(c, log[m]) == CertifiedMessage(pc)
      invariant i < |log| && SignedBy(c, log[i]) == CertifiedMessage(pc)
      decreases i
    {
      var m :| 0 <= m < i && SignedBy(c, log[m]) == CertifiedMessage(pc);
      i := m;
    }
  }

  /** The justify that the first voter saw was certified in a strictly earlier view, although no check
      compares the two views. */
  lemma JustifyIsEarlier(c: Config, log: Log, pc: PhaseCertificate) returns (i: nat)
    requires GoodConfig(c) && GoodLog(c, log) && Available(c, log, pc)
    ensures i < |log| && SignedBy(c, log[i]) == CertifiedMessage(pc) && GoodCast(c, log[..i], log[i])
    ensures log[i].justify.view < pc.view
    ensures AvailableOrGenesis(c, log, log[i].justify)
  {
    i := FirstVote(c, log, pc);
    assert GoodCast(c, log[..i], log[i]);
    var justify := log[i].justify;
    if !IsGenesisPc(justify) {
      AvailableMonotone(c, log, i, justify);
      assert log[..|log|] == log;
      var e, j := CommonVoter(c, log, justify, i, pc, |log|);
      VotesInViewOrder(c, log, e, j);
    }
  }

  /** Causality: a block certified by Generic or Prepare votes has a justify of a strictly lower view. */
  lemma Causality(c: Config, log: Log, pc: PhaseCertificate)
    requires GoodConfig(c) && GoodLog(c, log) && Available(c, log, pc)
    requires pc.phase.Generic? || pc.phase.Prepare?
    ensures pc.block.Digest? && pc.block.justify.view < pc.view
    ensures AvailableOrGenesis(c, log, pc.block.justify) && IsBlockJustify(pc.block.justify)
  {
    var _ := JustifyIsEarlier(c, log, pc);
  }

  /** A Precommit or Commit certificate has a certificate of the phase before it, for the same block, in
      the view before it. */
  lemma PreviousPhase(c: Config, log: Log, pc: PhaseCertificate) returns (q: PhaseCertificate)
    requires GoodConfig(c) && GoodLog(c, log) && Available(c, log, pc)
    requires pc.phase.Precommit? || pc.phase.Commit?
    ensures Available(c, log, q) && q.block == pc.block && q.view + 1 == pc.view
    ensures q.phase == if pc.phase.Precommit? then Prepare else Precommit
  {
    var i := HonestVote(c, log, pc);
    assert GoodCast(c, log[..i], log[i]);
    q := log[i].justify;
    AvailableMonotone(c, log, i, q);
  }

  /** Only blocks that do not update the validator set get Generic certificates, and only blocks that do get any
      other. */
  lemma {:induction false} PhaseFitsBlock(c: Config, log: Log, pc: PhaseCertificate)
    requires GoodConfig(c) && GoodLog(c, log) && Available(c, log, pc)
    ensures pc.phase.Generic? <==> !c.updates(pc.block)
    decreases match pc.phase case Generic => 0 case Prepare => 0 case Precommit => 1 case Commit => 2 case Decide => 3
  {
    var i := HonestVote(c, log, pc);
    assert GoodCast(c, log[..i], log[i]);
    if !pc.phase.Generic? && !pc.phase.Prepare? {
      AvailableMonotone(c, log, i, log[i].justify);
      PhaseFitsBlock(c, log, log[i].justify);
    }
  }

  /** Phased chain: behind every Commit certificate stand a Precommit and a Prepare certificate for the
      same block in the two preceding views, and every honest signer was locked on a Precommit
      certificate of that block when it signed. */
  lemma PhasedChain(
      c: Config, log: Log, pc: PhaseCertificate) returns (precommit: PhaseCertificate, prepare: PhaseCertificate)
    requires GoodConfig(c) && GoodLog(c, log) && Available(c, log, pc) && pc.phase.Commit?
    ensures Available(c, log, precommit) && precommit.phase.Precommit? && precommit.block == pc.block
    ensures Available(c, log, prepare) && prepare.phase.Prepare? && prepare.block == pc.block
    ensures precommit.view + 1 == pc.view && prepare.view + 2 == pc.view
    ensures forall m | 0 <= m < |log| && SignedBy(c, log[m]) == CertifiedMessage(pc) ::
      log[m].after.phase.Precommit? && log[m].after.block == pc.block && log[m].after.view + 1 == pc.view
  {
    precommit := PreviousPhase(c, log, pc);
    prepare := PreviousPhase(c, log, precommit);
    forall m | 0 <= m < |log| && SignedBy(c, log[m]) == CertifiedMessage(pc)
      ensures log[m].after.phase.Precommit? && log[m].after.block == pc.block && log[m].after.view + 1 == pc.view
    {
      assert GoodCast(c, log[..m], log[m]);
    }
  }

  /** Behind every Decide certificate stands a Commit certificate for the same block from a strictly
      earlier view. */
  lemma DecideFollowsCommit(c: Config, log: Log, pc: PhaseCertificate) returns (commit: PhaseCertificate)
    requires GoodConfig(c) && GoodLog(c, log) && Available(c, log, pc) && pc.phase.Decide?
    ensures Available(c, log, commit) && commit.phase.Commit? && commit.block == pc.block
    ensures commit.view < pc.view
  {
    var i := JustifyIsEarlier(c, log, pc);
    commit := log[i].justify;
  }

  /** `block` is safe to commit: it is certified in view `v`; whatever is certified in views `v` to
      `lockers.view` extends it; and every honest signer of `lockers` was, when it signed, locked on a
      certificate of view at least `v`. */
  ghost predicate Anchored(c: Config, log: Log, block: CryptoHash, cert: PhaseCertificate, lockers: PhaseCertificate) {
    && Available(c, log, cert) && cert.block == block && cert.view >= 1
    && Available(c, log, lockers)
    && (forall pc | Available(c, log, pc) && cert.view <= pc.view <= lockers.view :: Extends(pc.block, block))
    && (forall m | 0 <= m < |log| && SignedBy(c, log[m]) == CertifiedMessage(lockers) :: log[m].after.view >= cert.view)
  }

  /** The heart of agreement: every certificate that becomes available, in whatever order, with a view at
      least that of the anchor's certificate extends the anchored block. */
  lemma {:induction false} CertificatesExtendAnchor(
      c: Config, log: Log, block: CryptoHash, cert: PhaseCertificate, lockers: PhaseCertificate, pc: PhaseCertificate,
      n: nat)
    requires GoodConfig(c) && GoodLog(c, log) && LocksNeverFall(log)
    requires Anchored(c, log, block, cert, lockers)
    requires n <= |log| && Available(c, log[..n], pc) && pc.view >= cert.view
    ensures Extends(pc.block, block)
    decreases n
  {
    AvailableMonotone(c, log, n, pc);
    if pc.view > lockers.view {
      assert log[..|log|] == log;
      var i, j := CommonVoter(c, log, pc, n, lockers, |log|);
      VotesInViewOrder(c, log, j, i);
      var cast := log[i];
      assert GoodCast(c, log[..i], cast);
      assert log[j].after.view <= cast.before.view;
      CertificatesExtendAnchor(c, log, block, cert, lockers, cast.before, i);
      if cast.justify.view > cast.before.view {
        CertificatesExtendAnchor(c, log, block, cert, lockers, cast.justify, i);
      } else {
        ExtendsTransitive(cast.justify.block, cast.before.block, block);
      }
      assert Extends(cast.block, cast.justify.block);
      ExtendsTransitive(cast.block, cast.justify.block, block);
    }
  }

  /** The pipelined commit rule: three certificates in consecutive views, each justifying the block that
      the next one certifies. */
  ghost predicate ThreeChain(c: Config, log: Log, block: CryptoHash, pc3: PhaseCertificate) {
    && Available(c, log, pc3) && pc3.phase.Generic? && pc3.block.Digest?
    && !IsGenesisPc(pc3.block.justify) && pc3.block.justify.block.Digest?
    && !IsGenesisPc(pc3.block.justify.block.justify)
    && pc3.block.justify.block.justify.block == block
    && pc3.view == pc3.block.justify.view + 1
    && pc3.block.justify.view == pc3.block.justify.block.justify.view + 1
  }

  /** The phased commit rule: a Commit or a Decide certificate for the block itself. */
  ghost predicate PhasedCommit(c: Config, log: Log, block: CryptoHash, pc: PhaseCertificate) {
    Available(c, log, pc) && (pc.phase.Commit? || pc.phase.Decide?) && pc.block == block
  }

  /** The middle certificate of a three-chain is never a Decide certificate: that would need at least
      five views between it and the justify of its block. */
  lemma MiddleIsGeneric(c: Config, log: Log, block: CryptoHash, pc3: PhaseCertificate)
    requires GoodConfig(c) && GoodLog(c, log) && ThreeChain(c, log, block, pc3)
    ensures pc3.block.justify.phase.Generic? && Available(c, log, pc3.block.justify)
    ensures Available(c, log, pc3.block.justify.block.justify) && pc3.block.justify.block.justify.view >= 1
  {
    Causality(c, log, pc3);
    var pc2 := pc3.block.justify;
    if pc2.phase.Decide? {
      var commit := DecideFollowsCommit(c, log, pc2);
      var _, prepare := PhasedChain(c, log, commit);
      Causality(c, log, prepare);
      assert false;
    }
    Causality(c, log, pc2);
    CertifiedViewIsPositive(c, log, pc2.block.justify);
  }

  lemma ThreeChainAnchors(c: Config, log: Log, block: CryptoHash, pc3: PhaseCertificate)
    requires GoodConfig(c) && GoodLog(c, log) && ThreeChain(c, log, block, pc3)
    ensures Anchored(c, log, block, pc3.block.justify.block.justify, pc3)
  {
    MiddleIsGeneric(c, log, block, pc3);
    var pc2 := pc3.block.justify;
    var pc1 := pc2.block.justify;
    forall pc | Available(c, log, pc) && pc1.view <= pc.view <= pc3.view ensures Extends(pc.block, block) {
      if pc.view == pc1.view {
        CertificateUniqueness(c, log, pc, pc1);
      } else if pc.view == pc2.view {
        CertificateUniqueness(c, log, pc, pc2);
      } else {
        CertificateUniqueness(c, log, pc, pc3);
        assert Extends(pc2.block, block);
      }
    }
    forall m | 0 <= m < |log| && SignedBy(c, log[m]) == CertifiedMessage(pc3) ensures log[m].after.view >= pc1.view {
      assert GoodCast(c, log[..m], log[m]);
    }
  }

  lemma CommitAnchors(
      c: Config, log: Log, block: CryptoHash, pc: PhaseCertificate) returns (precommit: PhaseCertificate)
    requires GoodConfig(c) && GoodLog(c, log) && PhasedCommit(c, log, block, pc) && pc.phase.Commit?
    ensures Anchored(c, log, block, precommit, pc)
  {
    var prepare;
    precommit, prepare := PhasedChain(c, log, pc);
    forall q | Available(c, log, q) && precommit.view <= q.view <= pc.view ensures Extends(q.block, block) {
      if q.view == pc.view {
        CertificateUniqueness(c, log, q, pc);
      } else {
        CertificateUniqueness(c, log, q, precommit);
      }
    }
    CertifiedViewIsPositive(c, log, precommit);
  }

  ghost predicate Committable(c: Config, log: Log, block: CryptoHash) {
    exists pc :: ThreeChain(c, log, block, pc) || PhasedCommit(c, log, block, pc)
  }

  /** Everything that either commit rule accepts is anchored. */
  lemma CommittableIsAnchored(
      c: Config, log: Log, block: CryptoHash) returns (cert: PhaseCertificate, lockers: PhaseCertificate)
    requires GoodConfig(c) && GoodLog(c, log) && Committable(c, log, block)
    ensures Anchored(c, log, block, cert, lockers)
  {
    lockers :| ThreeChain(c, log, block, lockers) || PhasedCommit(c, log, block, lockers);
    if ThreeChain(c, log, block, lockers) {
      ThreeChainAnchors(c, log, block, lockers);
      cert := lockers.block.justify.block.justify;
    } else {
      if lockers.phase.Decide? {
        lockers := DecideFollowsCommit(c, log, lockers);
      }
      cert := CommitAnchors(c, log, block, lockers);
    }
  }

  /** Agreement over votes: any two blocks that any of the commit rules accepts lie on one branch. */
  lemma CommittableBlocksAreOneBranch(c: Config, log: Log, a: CryptoHash, b: CryptoHash)
    requires GoodConfig(c) && GoodLog(c, log) && LocksNeverFall(log)
    requires Committable(c, log, a) && Committable(c, log, b)
    ensures Extends(a, b) || Extends(b, a)
  {
    var certA, lockersA := CommittableIsAnchored(c, log, a);
    var certB, lockersB := CommittableIsAnchored(c, log, b);
    assert log[..|log|] == log;
    if certA.view <= certB.view {
      CertificatesExtendAnchor(c, log, a, certA, lockersA, certB, |log|);
    } else {
      CertificatesExtendAnchor(c, log, b, certB, lockersB, certA, |log|);
    }
  }
}
