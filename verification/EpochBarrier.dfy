/** View synchronization across replicas: no honest replica leaves an epoch before honest replicas with enough power
    have reached its last view.

    Each honest replica runs the pacemaker; which messages arrive where and when, what the clocks say and what
    Byzantine validators sign is arbitrary.  Honest phase votes are for any view that the voter has been in. */
module EpochBarrier {
  import opened Types
  import opened Quorums
  import opened Collecting
  import opened BlockStore
  import opened Verdicts
  import opened Pacing

  datatype Network = Network(
    chainId: nat, vs: ValidatorSet, honest: set<VerifyingKey>, epochLength: nat, maxViewTime: VerifyingKey -> nat)
  {
    ghost predicate Valid() {
      vs.Valid() && ByzantineBound(vs, honest) && epochLength > 0
    }

    function ConfigOf(k: VerifyingKey): Config {
      Config(chainId, k, epochLength, maxViewTime(k))
    }
  }

  /** `been` are the views that the replica has been in. */
  datatype Node = Node(pace: Pace, been: set<nat>)

  /** `signed` are the messages that honest validators have signed. */
  datatype Global = Global(nodes: map<VerifyingKey, Node>, signed: set<(VerifyingKey, Message)>)

  datatype NodeEvent = PaceIn(e: PaceEvent) | PhaseVoteIn(view: nat, block: CryptoHash, phase: Phase)

  /** An honest validator's signature exists only over a message that it signed. */
  ghost predicate Genuine(net: Network, g: Global, signatures: seq<Option<Signature>>) {
    forall i | 0 <= i < |signatures| && signatures[i].Some? && signatures[i].value.Signed? &&
      signatures[i].value.signer in net.honest ::
      (signatures[i].value.signer, signatures[i].value.message) in g.signed
  }

  /** The validator set has never been updated. */
  ghost predicate FixedSet(net: Network, t: Tree) {
    t.committedVs == net.vs && t.previousVs == net.vs && t.updateHeight.None?
  }

  function SignaturesOf(certificate: ProgressCertificate): seq<Option<Signature>> {
    match certificate
    case ByTimeout(tc) => tc.signatures
    case ByPhase(pc) => pc.signatures
  }

  ghost predicate CanArrive(net: Network, g: Global, e: PaceEvent) {
    match e
    case TickEvent(_, _, _, _) => true
    case TimeoutVoteEvent(vote, _, _, _) => vote.highestTc.Some? ==> Genuine(net, g, vote.highestTc.value.signatures)
    case AdvanceViewEvent(certificate, _, _, _) => Genuine(net, g, SignaturesOf(certificate))
  }

  /** The timeout votes among the messages that a step sends. */
  function TimeoutsSigned(k: VerifyingKey, sent: seq<Outgoing>): set<(VerifyingKey, Message)> {
    set i | 0 <= i < |sent| && sent[i].BroadcastTimeoutVote? ::
      (k, TimeoutMessage(sent[i].vote.chainId, sent[i].vote.view))
  }

  /** A step of replica `k` that returns without an error. */
  ghost predicate NodeStep(net: Network, g: Global, k: VerifyingKey, n: Node, e: NodeEvent, g': Global) {
    match e
    case PhaseVoteIn(view, block, phase) =>
      && view in n.been
      && g' == g.(signed := g.signed + {(k, PhaseMessage(net.chainId, view, block, phase))})
    case PaceIn(pe) =>
      && PaceInv(net.ConfigOf(k), n.pace) && MayHappen(n.pace, pe) && FixedSet(net, pe.tree) && CanArrive(net, g, pe)
      && var o := Respond(net.ConfigOf(k), n.pace, pe);
         && o.error.None?
         && g' == Global(g.nodes[k := Node(o.pace, n.been + {o.pace.view})], g.signed + TimeoutsSigned(k, o.sent))
  }

  ghost predicate NetStep(net: Network, g: Global, g': Global) {
    exists k, e | k in g.nodes :: NodeStep(net, g, k, g.nodes[k], e, g')
  }

  /** Every honest replica starts, without a history, in view 0. */
  ghost predicate StartsFresh(net: Network, k: VerifyingKey, n: Node)
    requires net.Valid()
  {
    exists vss: ValidatorSetState, now :: vss.Valid() && n == Node(Start(net.ConfigOf(k), 0, vss, None, now), {0})
  }

  ghost predicate IsNetRun(net: Network, run: seq<Global>) {
    && net.Valid() && |run| > 0
    && run[0].nodes.Keys == net.honest && run[0].signed == {}
    && (forall k | k in run[0].nodes :: StartsFresh(net, k, run[0].nodes[k]))
    && forall i | 0 <= i < |run| - 1 :: NetStep(net, run[i], run[i + 1])
  }

  // ---------------------------------------------------------------------------------------------------
  // What every step keeps

  ghost predicate NodeOk(net: Network, k: VerifyingKey, n: Node) {
    PaceInv(net.ConfigOf(k), n.pace) && n.pace.view in n.been
  }

  /** Honest replicas sign only for views that they have been in. */
  ghost predicate SignedWhereBeen(g: Global) {
    forall k, m | (k, m) in g.signed :: k in g.nodes && m.view in g.nodes[k].been
  }

  function BeenIn(g: Global, view: nat): set<VerifyingKey> {
    set k | k in g.nodes && view in g.nodes[k].been
  }

  ghost predicate SomeoneBeyond(g: Global, view: nat) {
    exists k, v :: k in g.nodes && v in g.nodes[k].been && v > view
  }

  /** Honest replicas holding at least the quorum minus the Byzantine power have been in `view`. */
  ghost predicate Backed(net: Network, g: Global, view: nat) {
    PowerOf(net.vs, BeenIn(g, view)) + PowerOf(net.vs, Members(net.vs) - net.honest) >= Quorum(net.vs)
  }

  ghost predicate BarrierAt(net: Network, g: Global, view: nat) {
    SomeoneBeyond(g, view) ==> Backed(net, g, view)
  }

  ghost predicate NetInv(net: Network, g: Global)
    requires net.Valid()
  {
    && g.nodes.Keys == net.honest
    && (forall k | k in g.nodes :: NodeOk(net, k, g.nodes[k]))
    && SignedWhereBeen(g)
    && (forall view | view > 0 && IsEpochChangeView(view, net.epochLength) :: BarrierAt(net, g, view))
  }

  /** Being somewhere is never undone. */
  lemma BackedStays(net: Network, g: Global, g': Global, view: nat)
    requires Backed(net, g, view) && forall k | k in g.nodes :: k in g'.nodes && g.nodes[k].been <= g'.nodes[k].been
    ensures Backed(net, g', view)
  {
    PowerMonotone(net.vs, BeenIn(g, view), BeenIn(g', view), |net.vs.validators|);
  }

  /** The honest signers of a genuine quorum have been in the view that they signed for. */
  lemma SignersHaveBeen(net: Network, g: Global, message: Message, signatures: seq<Option<Signature>>, k: VerifyingKey)
    requires SignedByQuorum(net.vs, message, signatures) && Genuine(net, g, signatures) && SignedWhereBeen(g)
    requires k in Signers(net.vs, signatures) && k in net.honest
    ensures k in BeenIn(g, message.view)
  {
    var i :| 0 <= i < |signatures| && signatures[i].Some? && net.vs.validators[i] == k;
    assert Verifies(k, message, signatures[i].value);
    assert (k, message) in g.signed;
  }

  /** A genuine certificate for a view at or beyond an epoch's end implies that the end is backed. */
  lemma CertificateCrosses(net: Network, g: Global, message: Message, signatures: seq<Option<Signature>>, view: nat)
    requires net.Valid() && SignedWhereBeen(g) && BarrierAt(net, g, view)
    requires SignedByQuorum(net.vs, message, signatures) && Genuine(net, g, signatures)
    requires message.view >= view
    ensures Backed(net, g, view)
  {
    var signers := Signers(net.vs, signatures);
    if message.view == view {
      forall k | k in signers * net.honest ensures k in BeenIn(g, view) {
        SignersHaveBeen(net, g, message, signatures, k);
      }
      HonestShareOfQuorum(net.vs, net.honest, signers);
      PowerMonotone(net.vs, signers * net.honest, BeenIn(g, view), |net.vs.validators|);
    } else {
      var k := QuorumHasHonest(net.vs, net.honest, signers);
      SignersHaveBeen(net, g, message, signatures, k);
      assert SomeoneBeyond(g, view);
    }
  }

  /** How a pacemaker step can leave the views up to `view` behind. */
  lemma StepCrosses(net: Network, g: Global, k: VerifyingKey, e: PaceEvent, view: nat)
    requires net.Valid() && k in g.nodes && NodeOk(net, k, g.nodes[k]) && SignedWhereBeen(g)
    requires MayHappen(g.nodes[k].pace, e) && FixedSet(net, e.tree) && CanArrive(net, g, e)
    requires view > 0 && IsEpochChangeView(view, net.epochLength) && BarrierAt(net, g, view)
    requires Respond(net.ConfigOf(k), g.nodes[k].pace, e).pace.view > view
    ensures Backed(net, g, view)
  {
    var c, p := net.ConfigOf(k), g.nodes[k].pace;
    if p.view > view {
      assert SomeoneBeyond(g, view);
    } else {
      match e
      case TickEvent(t, now, later, salt) =>
        TickIsGood(c, p, t, now, later, salt);
      case TimeoutVoteEvent(vote, origin, t, now) =>
        TimeoutVoteIsGood(c, p, vote, origin, t, now);
        var tc := FallbackOf(vote, t).value;
        CertificateCrosses(net, g, TimedOutMessage(tc), tc.signatures, view);
      case AdvanceViewEvent(certificate, origin, t, now) =>
        AdvanceViewIsGood(c, p, certificate, origin, t, now);
        ProgressCrosses(net, g, certificate, t, view);
    }
  }

  lemma ProgressCrosses(net: Network, g: Global, certificate: ProgressCertificate, t: Tree, view: nat)
    requires net.Valid() && SignedWhereBeen(g) && BarrierAt(net, g, view)
    requires FixedSet(net, t) && Genuine(net, g, SignaturesOf(certificate))
    requires ProgressIsValid(net.ConfigOf(0), certificate, t) && certificate.View() >= view > 0
    ensures Backed(net, g, view)
  {
    match certificate
    case ByTimeout(tc) => CertificateCrosses(net, g, TimedOutMessage(tc), tc.signatures, view);
    case ByPhase(pc) => CertificateCrosses(net, g, CertifiedMessage(pc), pc.signatures, view);
  }

  lemma SignedWhereBeenStays(g: Global, g': Global, k: VerifyingKey, n': Node, sent: seq<Outgoing>)
    requires SignedWhereBeen(g) && k in g.nodes && g.nodes[k].been <= n'.been
    requires forall i | 0 <= i < |sent| && sent[i].BroadcastTimeoutVote? :: sent[i].vote.view in n'.been
    requires g' == Global(g.nodes[k := n'], g.signed + TimeoutsSigned(k, sent))
    ensures SignedWhereBeen(g')
  {
  }

  lemma BarrierStays(net: Network, g: Global, g': Global, k: VerifyingKey, n': Node, view: nat)
    requires BarrierAt(net, g, view) && k in g.nodes && g'.nodes == g.nodes[k := n']
    requires n'.been == g.nodes[k].been + {n'.pace.view}
    requires n'.pace.view > view ==> Backed(net, g, view)
    ensures BarrierAt(net, g', view)
  {
    if SomeoneBeyond(g', view) {
      if n'.pace.view <= view {
        var h, v :| h in g'.nodes && v in g'.nodes[h].been && v > view;
        assert v in g.nodes[h].been;
        assert SomeoneBeyond(g, view);
      }
      BackedStays(net, g, g', view);
    }
  }

  /** Moving one replica keeps the invariant if the epoch ends that it passes are backed. */
  lemma MoveKeepsInv(net: Network, g: Global, k: VerifyingKey, n': Node, sent: seq<Outgoing>, g': Global)
    requires net.Valid() && NetInv(net, g) && k in g.nodes
    requires NodeOk(net, k, n') && n'.been == g.nodes[k].been + {n'.pace.view}
    requires forall i | 0 <= i < |sent| && sent[i].BroadcastTimeoutVote? :: sent[i].vote.view in n'.been
    requires forall view | 0 < view < n'.pace.view && IsEpochChangeView(view, net.epochLength) :: Backed(net, g, view)
    requires g' == Global(g.nodes[k := n'], g.signed + TimeoutsSigned(k, sent))
    ensures NetInv(net, g')
  {
    SignedWhereBeenStays(g, g', k, n', sent);
    forall view | view > 0 && IsEpochChangeView(view, net.epochLength) ensures BarrierAt(net, g', view) {
      assert BarrierAt(net, g, view);
      BarrierStays(net, g, g', k, n', view);
    }
  }

  lemma StepIsBacked(net: Network, g: Global, k: VerifyingKey, pe: PaceEvent, next: nat)
    requires net.Valid() && NetInv(net, g) && k in g.nodes && NodeOk(net, k, g.nodes[k])
    requires MayHappen(g.nodes[k].pace, pe) && FixedSet(net, pe.tree) && CanArrive(net, g, pe)
    requires next == Respond(net.ConfigOf(k), g.nodes[k].pace, pe).pace.view
    ensures forall view | 0 < view < next && IsEpochChangeView(view, net.epochLength) :: Backed(net, g, view)
  {
    forall view | 0 < view < next && IsEpochChangeView(view, net.epochLength) ensures Backed(net, g, view) {
      assert BarrierAt(net, g, view);
      StepCrosses(net, g, k, pe, view);
    }
  }

  lemma PaceStepKeepsInv(net: Network, g: Global, k: VerifyingKey, pe: PaceEvent, g': Global)
    requires net.Valid() && NetInv(net, g) && k in g.nodes && NodeStep(net, g, k, g.nodes[k], PaceIn(pe), g')
    ensures NetInv(net, g')
  {
    var c, n := net.ConfigOf(k), g.nodes[k];
    var o := Respond(c, n.pace, pe);
    RespondIsGood(c, n.pace, pe);
    StepIsBacked(net, g, k, pe, o.pace.view);
    MoveKeepsInv(net, g, k, Node(o.pace, n.been + {o.pace.view}), o.sent, g');
  }

  lemma StepKeepsNetInv(net: Network, g: Global, g': Global)
    requires net.Valid() && NetInv(net, g) && NetStep(net, g, g')
    ensures NetInv(net, g')
  {
    var k, e :| k in g.nodes && NodeStep(net, g, k, g.nodes[k], e, g');
    match e
    case PaceIn(pe) => PaceStepKeepsInv(net, g, k, pe, g');
    case PhaseVoteIn(_, _, _) =>
      forall view | view > 0 && IsEpochChangeView(view, net.epochLength) ensures BarrierAt(net, g', view) {
        assert BarrierAt(net, g, view);
        if SomeoneBeyond(g', view) {
          assert SomeoneBeyond(g, view);
          BackedStays(net, g, g', view);
        }
      }
  }

  lemma FreshStartIsOk(net: Network, run: seq<Global>)
    requires IsNetRun(net, run)
    ensures NetInv(net, run[0])
  {
    forall k | k in run[0].nodes ensures NodeOk(net, k, run[0].nodes[k]) && run[0].nodes[k].been == {0} {
      assert StartsFresh(net, k, run[0].nodes[k]);
      var vss: ValidatorSetState, now :|
        vss.Valid() && run[0].nodes[k] == Node(Start(net.ConfigOf(k), 0, vss, None, now), {0});
      StartKeepsInv(net.ConfigOf(k), 0, vss, None, now);
    }
  }

  lemma {:induction false} RunKeepsNetInv(net: Network, run: seq<Global>, n: nat)
    requires IsNetRun(net, run) && n < |run|
    ensures NetInv(net, run[n])
  {
    if n == 0 {
      FreshStartIsOk(net, run);
    } else {
      RunKeepsNetInv(net, run, n - 1);
      assert NetStep(net, run[n - 1], run[n - 1 + 1]);
      StepKeepsNetInv(net, run[n - 1], run[n]);
    }
  }

  /** Epoch barrier: in every run, for every k >= 1, when any honest replica is in a view above k * N, honest replicas
      holding at least the quorum minus the Byzantine power have been in view k * N. */
  lemma EpochBarrier(net: Network, run: seq<Global>, n: nat, h: VerifyingKey, k: nat)
    requires IsNetRun(net, run) && n < |run| && k >= 1
    requires h in run[n].nodes && run[n].nodes[h].pace.view > k * net.epochLength
    ensures PowerOf(net.vs, BeenIn(run[n], k * net.epochLength)) >=
      Quorum(net.vs) - PowerOf(net.vs, Members(net.vs) - net.honest)
    ensures BeenIn(run[n], k * net.epochLength) <= net.honest
  {
    var end := k * net.epochLength;
    RunKeepsNetInv(net, run, n);
    MultipleHasNoRemainder(k, net.epochLength);
    ProductIsPositive(k, net.epochLength);
    assert NodeOk(net, h, run[n].nodes[h]);
    assert SomeoneBeyond(run[n], end);
    assert BarrierAt(net, run[n], end);
  }
}
