/** The pacemaker's steps as functions on its state, and what every step keeps. */
module Pacing {
  import opened Types
  import opened Quorums
  import opened Collecting
  import opened BlockStore
  import opened Verdicts

  /** An epoch has at least one view.  `maxViewTime` is in nanoseconds. */
  datatype Config = Config(chainId: nat, key: VerifyingKey, epochLength: nat, maxViewTime: nat)
  {
    predicate Valid() {
      epochLength > 0
    }
  }

  datatype ProgressCertificate = ByTimeout(tc: TimeoutCertificate) | ByPhase(pc: PhaseCertificate)
  {
    function View(): nat {
      match this
      case ByTimeout(tc) => tc.view
      case ByPhase(pc) => pc.view
    }
  }

  datatype Outgoing = BroadcastTimeoutVote(vote: TimeoutVote) | BroadcastAdvanceView(certificate: ProgressCertificate)

  datatype Error = NonIncreasingView(current: nat, next: nat) | NoViewTimeout(view: nat) | ExtendNonEpochView(view: nat)

  /** The pacemaker's fields, and the Highest TC, which the block tree stores for it. */
  datatype Pace = Pace(
    view: nat,
    deadline: nat,
    timeouts: map<nat, nat>,
    lastAdvance: Option<nat>,
    collectors: TimeoutPair,
    highestTc: Option<TimeoutCertificate>)

  /** What a step leaves behind: a failing step keeps the changes made before the failure. */
  datatype Outcome = Outcome(pace: Pace, sent: seq<Outgoing>, error: Option<Error>)

  function StateOf(t: Tree): ValidatorSetState {
    ValidatorSetState(t.committedVs, t.previousVs, t.updateHeight, t.updateDecided)
  }

  predicate IsValidator(key: VerifyingKey, vss: ValidatorSetState) {
    vss.committed.Contains(key) || (!vss.updateDecided && vss.previous.Contains(key))
  }

  // ---------------------------------------------------------------------------------------------------
  // Epochs

  /** `div_ceil`. */
  function Epoch(view: nat, n: nat): nat
    requires n > 0
  {
    (view + n - 1) / n
  }

  predicate IsEpochChangeView(view: nat, n: nat)
    requires n > 0
  {
    view % n == 0
  }

  /** The last view of the epoch of `view`. */
  function EpochEnd(view: nat, n: nat): nat
    requires n > 0
  {
    Epoch(view, n) * n
  }

  lemma ProductOrder(a: int, b: int, n: int)
    requires n > 0 && a * n < b * n + n
    ensures a <= b
  {
    assert (a - b - 1) * n == a * n - b * n - n;
    if a > b {
      ProductIsNatural(a - b - 1, n);
    }
  }

  lemma ProductIsNatural(a: nat, n: nat)
    ensures a * n >= 0
  {
  }

  /** The epoch of a view is determined by the multiple of the epoch length at or right above it. */
  lemma EpochIs(view: nat, n: nat, e: nat)
    requires n > 0 && view <= e * n < view + n
    ensures Epoch(view, n) == e
  {
    var d := Epoch(view, n);
    assert d * n + (view + n - 1) % n == view + n - 1;
    ProductOrder(d, e, n);
    ProductOrder(e, d, n);
  }

  lemma EpochBounds(view: nat, n: nat)
    requires n > 0
    ensures view <= EpochEnd(view, n) < view + n
    ensures IsEpochChangeView(view, n) <==> EpochEnd(view, n) == view
  {
    var d := Epoch(view, n);
    assert d * n + (view + n - 1) % n == view + n - 1;
    if IsEpochChangeView(view, n) {
      assert (view / n) * n == view;
      EpochIs(view, n, view / n);
    } else if EpochEnd(view, n) == view {
      MultipleHasNoRemainder(d, n);
    }
  }

  lemma EpochIsMonotone(v: nat, w: nat, n: nat)
    requires n > 0 && v <= w
    ensures Epoch(v, n) <= Epoch(w, n)
  {
    EpochBounds(v, n);
    EpochBounds(w, n);
    ProductOrder(Epoch(v, n), Epoch(w, n), n);
  }

  lemma MultipleHasNoRemainder(d: nat, n: nat)
    requires n > 0
    ensures (d * n) % n == 0
  {
    var q, r := (d * n) / n, (d * n) % n;
    assert q * n + r == d * n;
    ProductOrder(q, d, n);
    ProductOrder(d, q, n);
  }

  /** Views strictly inside an epoch and the next view share the epoch. */
  lemma NextViewSameEpoch(view: nat, n: nat)
    requires n > 0 && !IsEpochChangeView(view, n)
    ensures Epoch(view + 1, n) == Epoch(view, n)
  {
    EpochBounds(view, n);
    EpochIs(view + 1, n, Epoch(view, n));
  }

  // ---------------------------------------------------------------------------------------------------
  // Timeouts

  const NANOS_PER_SECOND: nat := 1_000_000_000

  /** Deadlines count whole seconds of the configured view time. */
  function Deadline(c: Config, start: nat, view: nat, now: nat): nat
    requires start <= view
  {
    now + c.maxViewTime / NANOS_PER_SECOND * (view - start + 1) * NANOS_PER_SECOND
  }

  /** The views of an epoch get later and later deadlines if and only if a view lasts at least a second; with a shorter
      view time they all expire at once. */
  lemma DeadlinesIncreaseExactlyWhen(c: Config, start: nat, v: nat, w: nat, now: nat)
    requires start <= v < w
    ensures Deadline(c, start, v, now) < Deadline(c, start, w, now) <==> c.maxViewTime >= NANOS_PER_SECOND
    ensures c.maxViewTime < NANOS_PER_SECOND ==> Deadline(c, start, v, now) == Deadline(c, start, w, now) == now
  {
    var seconds := c.maxViewTime / NANOS_PER_SECOND;
    assert seconds * (w - start + 1) == seconds * (v - start + 1) + seconds * (w - v);
    if seconds > 0 {
      ProductIsPositive(seconds, w - v);
    }
  }

  /** The configured view time, cut to whole seconds. */
  function WholeSeconds(c: Config): nat {
    c.maxViewTime - c.maxViewTime % NANOS_PER_SECOND
  }

  /** The first view of an epoch gets one view time, and each view after it one more. */
  lemma DeadlinesAreEvenlySpaced(c: Config, start: nat, view: nat, now: nat)
    requires start <= view
    ensures Deadline(c, start, start, now) == now + WholeSeconds(c)
    ensures Deadline(c, start, view + 1, now) == Deadline(c, start, view, now) + WholeSeconds(c)
  {
    var seconds := c.maxViewTime / NANOS_PER_SECOND;
    assert seconds * (view + 1 - start + 1) == seconds * (view - start + 1) + seconds;
    assert seconds * (start - start + 1) == seconds;
  }

  lemma ProductIsPositive(k: nat, n: nat)
    requires k > 0 && n > 0
    ensures k * n > 0
  {
  }

  function EpochTimeouts(c: Config, start: nat, now: nat): map<nat, nat>
    requires c.Valid()
  {
    map v: nat | start <= v <= EpochEnd(start, c.epochLength) :: Deadline(c, start, v, now)
  }

  /** `update_timeouts`: the entries of expired views go, and the new epoch's entries come. */
  function UpdatedTimeouts(c: Config, timeouts: map<nat, nat>, start: nat, now: nat): map<nat, nat>
    requires c.Valid()
  {
    (map v: nat | v in timeouts && v >= start :: timeouts[v]) + EpochTimeouts(c, start, now)
  }

  // ---------------------------------------------------------------------------------------------------
  // Steps

  function Start(
      c: Config, view: nat, vss: ValidatorSetState, highestTc: Option<TimeoutCertificate>, now: nat): (p: Pace)
    requires c.Valid()
    ensures p.view == view && p.lastAdvance.None?
  {
    Pace(view, Deadline(c, view, view, now), EpochTimeouts(c, view, now), None, NewTimeoutPair(c.chainId, view, vss),
      highestTc)
  }

  function UpdateView(c: Config, p: Pace, next: nat, vss: ValidatorSetState, now: nat): Outcome
    requires c.Valid()
  {
    if next <= p.view then Outcome(p, [], Some(NonIncreasingView(p.view, next)))
    else
      var timeouts :=
        if Epoch(p.view, c.epochLength) != Epoch(next, c.epochLength) then UpdatedTimeouts(c, p.timeouts, next, now)
        else p.timeouts;
      if next !in timeouts then Outcome(p.(timeouts := timeouts), [], Some(NoViewTimeout(next)))
      else Outcome(p.(view := next, deadline := timeouts[next], timeouts := timeouts,
                      collectors := NewTimeoutPair(c.chainId, next, vss)), [], None)
  }

  function ExtendView(c: Config, p: Pace, now: nat): Outcome
    requires c.Valid()
  {
    if !IsEpochChangeView(p.view, c.epochLength) then Outcome(p, [], Some(ExtendNonEpochView(p.view)))
    else Outcome(p.(timeouts := p.timeouts[p.view := now + c.maxViewTime], deadline := now + c.maxViewTime), [], None)
  }

  /** The salt stands for the randomness of the signature. */
  function NewTimeoutVote(c: Config, p: Pace, salt: nat): TimeoutVote {
    TimeoutVote(c.chainId, p.view, Signed(c.key, TimeoutMessage(c.chainId, p.view), salt), p.highestTc)
  }

  predicate HasNotAdvanced(p: Pace) {
    p.lastAdvance.None? || p.lastAdvance.value < p.view
  }

  /** `now` is the time of the deadline check, `later` the time read when timeouts are set. */
  function Tick(c: Config, p: Pace, t: Tree, now: nat, later: nat, salt: nat): Outcome
    requires c.Valid()
  {
    var vss := StateOf(t);
    if now > p.deadline then
      if IsEpochChangeView(p.view, c.epochLength) then
        var sent := if IsValidator(c.key, vss) then [BroadcastTimeoutVote(NewTimeoutVote(c, p, salt))] else [];
        ExtendView(c, p, later).(sent := sent)
      else UpdateView(c, p, p.view + 1, vss, later)
    else
      var p1 := p.(collectors := TimeoutPairUpdated(p.collectors, vss).0);
      if t.highestPc.view >= p.view && !IsGenesisPc(t.highestPc) && IsValidator(c.key, vss) && HasNotAdvanced(p)
      then Outcome(p1.(lastAdvance := Some(p.view)), [BroadcastAdvanceView(ByPhase(t.highestPc))], None)
      else Outcome(p1, [], None)
  }

  predicate IsHigher(tc: TimeoutCertificate, highest: Option<TimeoutCertificate>) {
    highest.None? || tc.view > highest.value.view
  }

  /** In the code, `&&` binds before `||`: a replica that has advanced in an earlier view need not be a validator. */
  predicate MayAdvanceOnCollectedTc(c: Config, p: Pace, vss: ValidatorSetState) {
    (IsValidator(c.key, vss) && p.lastAdvance.None?) || (p.lastAdvance.Some? && p.lastAdvance.value < p.view)
  }

  predicate CountsTimeoutVote(c: Config, vote: TimeoutVote, origin: VerifyingKey, t: Tree)
    requires c.Valid()
  {
    && IsValidator(origin, StateOf(t))
    && TimeoutVoteIsCorrect(origin, vote)
    && IsEpochChangeView(vote.view, c.epochLength)
  }

  /** The vote's own certificate is not required to be for an epoch-change view. */
  function FallbackOf(vote: TimeoutVote, t: Tree): Option<TimeoutCertificate> {
    if vote.highestTc.Some? && TcIsCorrect(t, vote.highestTc.value) then vote.highestTc else None
  }

  predicate IsNews(fallback: Option<TimeoutCertificate>, p: Pace) {
    fallback.Some? && IsHigher(fallback.value, p.highestTc)
  }

  /** A newly collected certificate is stored and broadcast; the view changes only when an AdvanceView comes back. */
  function OnCollectedTc(c: Config, p: Pace, tc: TimeoutCertificate, vss: ValidatorSetState): Outcome {
    if !IsHigher(tc, p.highestTc) then Outcome(p, [], None)
    else if MayAdvanceOnCollectedTc(c, p, vss)
    then Outcome(p.(highestTc := Some(tc), lastAdvance := Some(p.view)), [BroadcastAdvanceView(ByTimeout(tc))], None)
    else Outcome(p.(highestTc := Some(tc)), [], None)
  }

  function AfterCollecting(
      c: Config, p: Pace, collected: Option<TimeoutCertificate>, fallback: Option<TimeoutCertificate>,
      vss: ValidatorSetState, now: nat): Outcome
    requires c.Valid()
  {
    if collected.Some? then OnCollectedTc(c, p, collected.value, vss)
    else if IsNews(fallback, p) then UpdateView(c, p.(highestTc := fallback), fallback.value.view + 1, vss, now)
    else Outcome(p, [], None)
  }

  function CountVote(
      c: Config, p: Pace, vote: TimeoutVote, origin: VerifyingKey, fallback: Option<TimeoutCertificate>,
      vss: ValidatorSetState, now: nat): Outcome
    requires c.Valid() && TimeoutPairOk(p.collectors)
  {
    var (collectors, collected) := TimeoutPairCollected(p.collectors, origin, vote);
    AfterCollecting(c, p.(collectors := collectors), collected, fallback, vss, now)
  }

  function OnTimeoutVote(c: Config, p: Pace, vote: TimeoutVote, origin: VerifyingKey, t: Tree, now: nat): Outcome
    requires c.Valid() && TimeoutPairOk(p.collectors)
  {
    if !CountsTimeoutVote(c, vote, origin, t) then Outcome(p, [], None)
    else CountVote(c, p, vote, origin, FallbackOf(vote, t), StateOf(t), now)
  }

  predicate ProgressIsValid(c: Config, certificate: ProgressCertificate, t: Tree)
    requires c.Valid()
  {
    match certificate
    case ByPhase(pc) => IsCorrect(t, pc)
    case ByTimeout(tc) => TcIsCorrect(t, tc) && IsEpochChangeView(tc.view, c.epochLength)
  }

  predicate Rebroadcasts(c: Config, p: Pace, vss: ValidatorSetState) {
    IsValidator(c.key, vss) && HasNotAdvanced(p)
  }

  /** The state right before the move to the view after the certificate's. */
  function BeforeMove(c: Config, p: Pace, certificate: ProgressCertificate, vss: ValidatorSetState): Pace {
    p.(highestTc :=
         if certificate.ByTimeout? && IsHigher(certificate.tc, p.highestTc) then Some(certificate.tc) else p.highestTc,
       lastAdvance := if Rebroadcasts(c, p, vss) then Some(p.view) else p.lastAdvance)
  }

  function OnAdvanceView(
      c: Config, p: Pace, certificate: ProgressCertificate, origin: VerifyingKey, t: Tree, now: nat): Outcome
    requires c.Valid()
  {
    var vss := StateOf(t);
    if !IsValidator(origin, vss) || !ProgressIsValid(c, certificate, t) then Outcome(p, [], None)
    else AdvanceOn(c, p, certificate, vss, now)
  }

  function AdvanceOn(c: Config, p: Pace, certificate: ProgressCertificate, vss: ValidatorSetState, now: nat): Outcome
    requires c.Valid()
  {
    UpdateView(c, BeforeMove(c, p, certificate, vss), certificate.View() + 1, vss, now)
      .(sent := if Rebroadcasts(c, p, vss) then [BroadcastAdvanceView(certificate)] else [])
  }

  // ---------------------------------------------------------------------------------------------------
  // What every step keeps

  ghost predicate HasTimeout(timeouts: map<nat, nat>, view: nat) {
    view in timeouts
  }

  /** The timeout table covers every view from `view` to the end of its epoch. */
  ghost predicate Covered(c: Config, view: nat, timeouts: map<nat, nat>)
    requires c.Valid()
  {
    forall v {:trigger HasTimeout(timeouts, v)} | view <= v <= EpochEnd(view, c.epochLength) :: HasTimeout(timeouts, v)
  }

  ghost predicate TimeoutsOk(c: Config, view: nat, timeouts: map<nat, nat>, deadline: nat) {
    c.Valid() && Covered(c, view, timeouts) && view in timeouts && deadline == timeouts[view]
  }

  ghost predicate CollectorsOk(c: Config, view: nat, pair: TimeoutPair) {
    TimeoutPairOk(pair) && pair.cvs.view == view && pair.cvs.chainId == c.chainId
  }

  ghost predicate AdvanceOk(view: nat, lastAdvance: Option<nat>) {
    lastAdvance.Some? ==> lastAdvance.value <= view
  }

  ghost predicate PaceInv(c: Config, p: Pace) {
    TimeoutsOk(c, p.view, p.timeouts, p.deadline) && CollectorsOk(c, p.view, p.collectors) &&
      AdvanceOk(p.view, p.lastAdvance)
  }

  /** Timeouts for a later view, whether or not it starts a new epoch. */
  lemma LaterViewIsCovered(c: Config, view: nat, timeouts: map<nat, nat>, next: nat, now: nat)
    requires c.Valid() && Covered(c, view, timeouts) && next > view
    ensures
      var timeouts' :=
        if Epoch(view, c.epochLength) != Epoch(next, c.epochLength) then UpdatedTimeouts(c, timeouts, next, now)
        else timeouts;
      Covered(c, next, timeouts') && next in timeouts'
  {
    EpochBounds(next, c.epochLength);
    assert Epoch(view, c.epochLength) == Epoch(next, c.epochLength) ==> HasTimeout(timeouts, next);
  }

  lemma StartKeepsInv(c: Config, view: nat, vss: ValidatorSetState, highestTc: Option<TimeoutCertificate>, now: nat)
    requires c.Valid() && vss.Valid()
    ensures PaceInv(c, Start(c, view, vss, highestTc, now))
    ensures forall v | view <= v <= EpochEnd(view, c.epochLength) ::
      v in Start(c, view, vss, highestTc, now).timeouts &&
      Start(c, view, vss, highestTc, now).timeouts[v] == now + (v - view + 1) * WholeSeconds(c)
  {
    EpochBounds(view, c.epochLength);
    NewPairMatches(c.chainId, view, vss);
    forall v | view <= v <= EpochEnd(view, c.epochLength)
      ensures EpochTimeouts(c, view, now)[v] == now + (v - view + 1) * WholeSeconds(c)
    {
      DeadlineIs(c, view, v, now);
    }
  }

  /** Moving to a later view always finds its timeout. */
  lemma UpdateViewKeepsInv(c: Config, p: Pace, next: nat, vss: ValidatorSetState, now: nat)
    requires PaceInv(c, p) && vss.Valid()
    ensures
      var o := UpdateView(c, p, next, vss, now);
      && PaceInv(c, o.pace) && o.sent == [] && o.pace.lastAdvance == p.lastAdvance && o.pace.highestTc == p.highestTc
      && if next > p.view
         then o.error.None? && o.pace.view == next && o.pace.collectors == NewTimeoutPair(c.chainId, next, vss)
         else o.error == Some(NonIncreasingView(p.view, next)) && o.pace == p
  {
    if next > p.view {
      LaterViewIsCovered(c, p.view, p.timeouts, next, now);
      NewPairMatches(c.chainId, next, vss);
    }
  }

  /** What a step sends.  An AdvanceView goes out at most once per step, with a certificate of the current view
      or a later one, and only if none has gone out in the current view; then the view is recorded.  A
      TimeoutVote goes out only for the current view, which is an epoch-change view, and carries the Highest
      TC. */
  ghost predicate GoodSending(c: Config, p: Pace, o: Outcome)
    requires c.Valid()
  {
    if o.sent == [] then o.pace.lastAdvance == p.lastAdvance
    else
      && |o.sent| == 1
      && match o.sent[0]
         case BroadcastAdvanceView(certificate) =>
           p.lastAdvance != Some(p.view) && o.pace.lastAdvance == Some(p.view) && certificate.View() >= p.view
         case BroadcastTimeoutVote(vote) =>
           && vote.highestTc == p.highestTc
           && o.pace.lastAdvance == p.lastAdvance
           && IsEpochChangeView(p.view, c.epochLength) && o.pace.view == p.view
           && TimeoutVoteIsCorrect(c.key, vote) && vote.view == p.view && vote.chainId == c.chainId
  }

  ghost predicate HighestTcHolds(p: Pace, p': Pace) {
    p.highestTc.Some? ==> p'.highestTc.Some? && p'.highestTc.value.view >= p.highestTc.value.view
  }

  /** When a tick speaks: with a TimeoutVote in an expired epoch-change view, after which the view lasts another full
      view time; with the Highest PC, in an AdvanceView, in a live view that the Highest PC has caught up with.  A tick
      leaves exactly the expired views that are not epoch-change views, and in a live view brings the collectors up to
      date. */
  lemma TickSpeaksExactlyWhen(c: Config, p: Pace, t: Tree, now: nat, later: nat, salt: nat)
    requires PaceInv(c, p) && StateOf(t).Valid()
    ensures
      var o := Tick(c, p, t, now, later, salt);
      var expired, epochChange := now > p.deadline, IsEpochChangeView(p.view, c.epochLength);
      var validator := IsValidator(c.key, StateOf(t));
      && (o.sent != [] && o.sent[0].BroadcastTimeoutVote? <==> expired && epochChange && validator)
      && (o.sent != [] && o.sent[0].BroadcastAdvanceView? <==>
            && !expired && validator && p.lastAdvance != Some(p.view)
            && t.highestPc.view >= p.view && !IsGenesisPc(t.highestPc))
      && (o.sent != [] && o.sent[0].BroadcastAdvanceView? ==> o.sent == [BroadcastAdvanceView(ByPhase(t.highestPc))])
      && (expired && epochChange ==> o.pace.deadline == later + c.maxViewTime)
      && (!expired ==> o.pace.deadline == p.deadline && Covers(o.pace.collectors, StateOf(t)))
      && (o.pace.view == p.view + 1 <==> expired && !epochChange)
  {
    if now > p.deadline && !IsEpochChangeView(p.view, c.epochLength) {
      UpdateViewKeepsInv(c, p, p.view + 1, StateOf(t), later);
    }
    UpdatedPairMatchesExactlyWhen(
      p.collectors, StateOf(t), EmptyTally(t.committedVs), EmptyTally(t.previousVs));
  }

  /** What a step guarantees: the invariant, the rules for sending, and that neither the view nor the Highest TC
      goes back. The only possible failure is an attempt to move to a view that is not later. */
  ghost predicate GoodOutcome(c: Config, p: Pace, o: Outcome)
    requires c.Valid()
  {
    && PaceInv(c, o.pace) && o.pace.view >= p.view && HighestTcHolds(p, o.pace) && GoodSending(c, p, o)
    && (o.error.Some? ==> o.error.value.NonIncreasingView?)
  }

  /** A tick never fails, and moves the view only to the next one, within the epoch. */
  lemma TickIsGood(c: Config, p: Pace, t: Tree, now: nat, later: nat, salt: nat)
    requires PaceInv(c, p) && StateOf(t).Valid()
    ensures
      var o := Tick(c, p, t, now, later, salt);
      && GoodOutcome(c, p, o) && o.error.None?
      && Epoch(o.pace.view, c.epochLength) == Epoch(p.view, c.epochLength)
      && (o.pace.view == p.view || (o.pace.view == p.view + 1 && !IsEpochChangeView(p.view, c.epochLength)))
  {
    if now > p.deadline {
      if IsEpochChangeView(p.view, c.epochLength) {
        ExtendViewIsGood(c, p, later);
      } else {
        UpdateViewKeepsInv(c, p, p.view + 1, StateOf(t), later);
        NextViewSameEpoch(p.view, c.epochLength);
      }
    } else {
      UpdatedTimeoutPairIsOk(p.collectors, StateOf(t));
    }
  }

  /** Extending an epoch-change view never fails. */
  lemma ExtendViewIsGood(c: Config, p: Pace, now: nat)
    requires PaceInv(c, p) && IsEpochChangeView(p.view, c.epochLength)
    ensures
      var o := ExtendView(c, p, now);
      && PaceInv(c, o.pace) && o.error.None? && o.pace.deadline == now + c.maxViewTime
      && o.pace == p.(timeouts := o.pace.timeouts, deadline := o.pace.deadline)
  {
    var timeouts := ExtendView(c, p, now).pace.timeouts;
    forall v | p.view <= v <= EpochEnd(p.view, c.epochLength) ensures HasTimeout(timeouts, v) {
      assert HasTimeout(p.timeouts, v);
    }
  }

  lemma AfterCollectingIsGood(
      c: Config, p: Pace, collected: Option<TimeoutCertificate>, fallback: Option<TimeoutCertificate>,
      vss: ValidatorSetState, now: nat)
    requires PaceInv(c, p) && vss.Valid() && (collected.Some? ==> collected.value.view == p.view)
    ensures
      var o := AfterCollecting(c, p, collected, fallback, vss, now);
      && GoodOutcome(c, p, o)
      && (o.pace.view != p.view ==> IsNews(fallback, p) && o.pace.view == fallback.value.view + 1)
      && (o.error.Some? <==> collected.None? && IsNews(fallback, p) && fallback.value.view < p.view)
      && (collected.Some? ==> o.pace.highestTc.Some? && o.pace.highestTc.value.view >= collected.value.view)
      && (o.sent != [] <==>
            collected.Some? && IsHigher(collected.value, p.highestTc) && MayAdvanceOnCollectedTc(c, p, vss))
      && (o.sent != [] ==> o.sent == [BroadcastAdvanceView(ByTimeout(collected.value))])
  {
    if collected.Some? {
      CollectedTcIsGood(c, p, collected.value, vss);
    } else if IsNews(fallback, p) {
      UpdateViewKeepsInv(c, p.(highestTc := fallback), fallback.value.view + 1, vss, now);
    }
  }

  /** A timeout vote moves the view only by its fallback certificate.  It fails exactly when no certificate is
      collected and the fallback certificate is news but its view lies before the current one.  While the view stays,
      every correct vote of a validator for an epoch-change view is collected; any other vote changes nothing. */
  lemma TimeoutVoteIsGood(c: Config, p: Pace, vote: TimeoutVote, origin: VerifyingKey, t: Tree, now: nat)
    requires PaceInv(c, p) && StateOf(t).Valid()
    ensures
      var o := OnTimeoutVote(c, p, vote, origin, t, now);
      var fallback := FallbackOf(vote, t);
      && GoodOutcome(c, p, o)
      && (o.pace.view != p.view ==> IsNews(fallback, p) && o.pace.view == fallback.value.view + 1)
      && (o.error.Some? <==>
            && CountsTimeoutVote(c, vote, origin, t) && !CompletesPair(p.collectors, origin, vote)
            && IsNews(fallback, p) && fallback.value.view < p.view)
      && (if IsValidator(origin, StateOf(t)) && TimeoutVoteIsCorrect(origin, vote) && vote.view % c.epochLength == 0
          then o.pace.view != p.view || o.pace.collectors == TimeoutPairCollected(p.collectors, origin, vote).0
          else o == Outcome(p, [], None))
  {
    if CountsTimeoutVote(c, vote, origin, t) {
      TimeoutPairStep(p.collectors, origin, vote);
      var (collectors, collected) := TimeoutPairCollected(p.collectors, origin, vote);
      AfterCollectingIsGood(c, p.(collectors := collectors), collected, FallbackOf(vote, t), StateOf(t), now);
    }
  }

  lemma CollectedTcIsGood(c: Config, p: Pace, tc: TimeoutCertificate, vss: ValidatorSetState)
    requires PaceInv(c, p) && tc.view == p.view
    ensures GoodOutcome(c, p, OnCollectedTc(c, p, tc, vss))
    ensures OnCollectedTc(c, p, tc, vss).error.None? && OnCollectedTc(c, p, tc, vss).pace.view == p.view
  {
  }

  /** A certificate for the current view or a later one never fails, and moves the view right past its own. */
  lemma AdvanceViewIsGood(c: Config, p: Pace, certificate: ProgressCertificate, origin: VerifyingKey, t: Tree, now: nat)
    requires PaceInv(c, p) && StateOf(t).Valid() && certificate.View() >= p.view
    ensures
      var o := OnAdvanceView(c, p, certificate, origin, t, now);
      && GoodOutcome(c, p, o) && o.error.None?
      && (o.pace.view != p.view <==> IsValidator(origin, StateOf(t)) && ProgressIsValid(c, certificate, t))
      && o.sent ==
           (if o.pace.view != p.view && IsValidator(c.key, StateOf(t)) && p.lastAdvance != Some(p.view)
            then [BroadcastAdvanceView(certificate)] else [])
      && (o.pace.view != p.view && certificate.ByTimeout? ==>
            o.pace.highestTc.Some? && o.pace.highestTc.value.view >= certificate.tc.view)
      && (o.pace.view != p.view ==> o.pace.view == certificate.View() + 1)
      && (certificate.ByTimeout? && certificate.tc.view % c.epochLength != 0 ==> o == Outcome(p, [], None))
      && (!IsValidator(origin, StateOf(t)) ==> o == Outcome(p, [], None))
  {
    AdvanceOnIsGood(c, p, certificate, StateOf(t), now);
  }

  lemma AdvanceOnIsGood(c: Config, p: Pace, certificate: ProgressCertificate, vss: ValidatorSetState, now: nat)
    requires PaceInv(c, p) && vss.Valid() && certificate.View() >= p.view
    ensures GoodOutcome(c, p, AdvanceOn(c, p, certificate, vss, now))
    ensures AdvanceOn(c, p, certificate, vss, now).error.None?
    ensures AdvanceOn(c, p, certificate, vss, now).pace.view == certificate.View() + 1
    ensures AdvanceOn(c, p, certificate, vss, now).pace.collectors ==
      NewTimeoutPair(c.chainId, certificate.View() + 1, vss)
    ensures AdvanceOn(c, p, certificate, vss, now).pace.lastAdvance == BeforeMove(c, p, certificate, vss).lastAdvance
    ensures AdvanceOn(c, p, certificate, vss, now).pace.highestTc == BeforeMove(c, p, certificate, vss).highestTc
    ensures AdvanceOn(c, p, certificate, vss, now).sent ==
      if Rebroadcasts(c, p, vss) then [BroadcastAdvanceView(certificate)] else []
    ensures certificate.ByTimeout? ==>
      var highest := AdvanceOn(c, p, certificate, vss, now).pace.highestTc;
      highest.Some? && highest.value.view >= certificate.tc.view
  {
    UpdateViewKeepsInv(c, BeforeMove(c, p, certificate, vss), certificate.View() + 1, vss, now);
  }

  /** A vote of a validator that completes no certificate brings a lagging replica forward: a correct fallback
      certificate of the current view or a later one, if it is news, is stored as the Highest TC, and the view
      after it is entered with new collectors.  Messages of others change nothing. */
  lemma FallbackCatchesUp(c: Config, p: Pace, vote: TimeoutVote, origin: VerifyingKey, t: Tree, now: nat)
    requires PaceInv(c, p) && StateOf(t).Valid()
    requires vote.view % c.epochLength == 0 && TimeoutVoteIsCorrect(origin, vote)
    requires vote.highestTc.Some? && vote.highestTc.value.view >= p.view
    ensures
      var o, tc := OnTimeoutVote(c, p, vote, origin, t, now), vote.highestTc.value;
      if !IsValidator(origin, StateOf(t)) then o == Outcome(p, [], None)
      else if !CompletesPair(p.collectors, origin, vote) && TcIsCorrect(t, tc)
              && (p.highestTc.None? || tc.view > p.highestTc.value.view)
      then o.error.None? && o.pace.view == tc.view + 1 && o.pace.highestTc == Some(tc)
           && Matches(o.pace.collectors, StateOf(t)) && o.sent == []
      else o.pace.view == p.view && o.error.None?
  {
    if IsValidator(origin, StateOf(t)) {
      TimeoutPairStep(p.collectors, origin, vote);
      var (collectors, collected) := TimeoutPairCollected(p.collectors, origin, vote);
      var fallback := FallbackOf(vote, t);
      var p1 := p.(collectors := collectors);
      AfterCollectingIsGood(c, p1, collected, fallback, StateOf(t), now);
      if collected.None? && IsNews(fallback, p1) {
        UpdateViewKeepsInv(c, p1.(highestTc := fallback), fallback.value.view + 1, StateOf(t), now);
        NewPairMatches(c.chainId, fallback.value.view + 1, StateOf(t));
      } else if collected.Some? {
        CollectedTcIsGood(c, p1, collected.value, StateOf(t));
      }
    }
  }

  /** Entering a new epoch starts its clock: view by view, one more view time from now.  Within an epoch the clock runs
      on. */
  lemma EpochStartsClock(c: Config, p: Pace, next: nat, vss: ValidatorSetState, now: nat, view: nat)
    requires PaceInv(c, p) && vss.Valid() && next > p.view && next <= view <= EpochEnd(next, c.epochLength)
    ensures
      var o := UpdateView(c, p, next, vss, now);
      && view in o.pace.timeouts
      && if Epoch(next, c.epochLength) == Epoch(p.view, c.epochLength) then o.pace.timeouts == p.timeouts
         else o.pace.timeouts[view] == now + (view - next + 1) * WholeSeconds(c)
  {
    LaterViewIsCovered(c, p.view, p.timeouts, next, now);
    var o := UpdateView(c, p, next, vss, now);
    assert HasTimeout(o.pace.timeouts, view);
    if Epoch(next, c.epochLength) != Epoch(p.view, c.epochLength) {
      assert o.pace.timeouts[view] == Deadline(c, next, view, now);
      DeadlineIs(c, next, view, now);
    }
  }

  lemma {:induction false} DeadlineIs(c: Config, start: nat, view: nat, now: nat)
    requires start <= view
    ensures Deadline(c, start, view, now) == now + (view - start + 1) * WholeSeconds(c)
    decreases view
  {
    if start < view {
      DeadlineIs(c, start, view - 1, now);
      DeadlinesAreEvenlySpaced(c, start, view - 1, now);
      assert (view - start + 1) * WholeSeconds(c) == (view - start) * WholeSeconds(c) + WholeSeconds(c);
    } else {
      DeadlinesAreEvenlySpaced(c, start, view, now);
    }
  }

  // ---------------------------------------------------------------------------------------------------
  // Runs of one pacemaker

  datatype PaceEvent =
    | TickEvent(tree: Tree, now: nat, later: nat, salt: nat)
    | TimeoutVoteEvent(vote: TimeoutVote, origin: VerifyingKey, tree: Tree, now: nat)
    | AdvanceViewEvent(certificate: ProgressCertificate, origin: VerifyingKey, tree: Tree, now: nat)

  /** Received messages are for the current view or a later one, as the message buffer ensures. */
  ghost predicate MayHappen(p: Pace, e: PaceEvent) {
    && StateOf(e.tree).Valid()
    && (e.TimeoutVoteEvent? ==> e.vote.view >= p.view)
    && (e.AdvanceViewEvent? ==> e.certificate.View() >= p.view)
  }

  ghost function Respond(c: Config, p: Pace, e: PaceEvent): Outcome
    requires PaceInv(c, p)
  {
    match e
    case TickEvent(t, now, later, salt) => Tick(c, p, t, now, later, salt)
    case TimeoutVoteEvent(vote, origin, t, now) => OnTimeoutVote(c, p, vote, origin, t, now)
    case AdvanceViewEvent(certificate, origin, t, now) => OnAdvanceView(c, p, certificate, origin, t, now)
  }

  lemma RespondIsGood(c: Config, p: Pace, e: PaceEvent)
    requires PaceInv(c, p) && MayHappen(p, e)
    ensures GoodOutcome(c, p, Respond(c, p, e))
  {
    match e
    case TickEvent(t, now, later, salt) => TickIsGood(c, p, t, now, later, salt);
    case TimeoutVoteEvent(vote, origin, t, now) => TimeoutVoteIsGood(c, p, vote, origin, t, now);
    case AdvanceViewEvent(certificate, origin, t, now) => AdvanceViewIsGood(c, p, certificate, origin, t, now);
  }

  /** What the sender of an AdvanceView has checked, or can rely on: its Highest PC is correct, its collectors match the
      active sets, and, when it answers a timeout vote, it is still a validator. */
  ghost predicate SoundSender(c: Config, p: Pace, e: PaceEvent) {
    match e
    case TickEvent(t, _, _, _) => IsCorrect(t, t.highestPc)
    case TimeoutVoteEvent(_, _, t, _) => Matches(p.collectors, StateOf(t)) && IsValidator(c.key, StateOf(t))
    case AdvanceViewEvent(_, _, _, _) => true
  }

  /** Every AdvanceView moves the peers that it should: one that is not past the certificate, and has the same
      tree, enters the view right after the certificate when it receives it. */
  lemma AdvanceViewMovesPeers(c: Config, p: Pace, e: PaceEvent, peer: Config, q: Pace, now: nat)
    requires PaceInv(c, p) && MayHappen(p, e) && SoundSender(c, p, e)
    requires PaceInv(peer, q) && peer.chainId == c.chainId && peer.epochLength == c.epochLength
    requires Respond(c, p, e).sent != [] && Respond(c, p, e).sent[0].BroadcastAdvanceView?
    requires q.view <= Respond(c, p, e).sent[0].certificate.View()
    ensures
      var certificate := Respond(c, p, e).sent[0].certificate;
      var o := OnAdvanceView(peer, q, certificate, c.key, e.tree, now);
      certificate.View() >= p.view && o.error.None? && o.pace.view == certificate.View() + 1
  {
    SentIsValid(c, p, e);
    RespondIsGood(c, p, e);
    AdvanceViewIsGood(peer, q, Respond(c, p, e).sent[0].certificate, c.key, e.tree, now);
  }

  /** What a sound sender puts into an AdvanceView is valid for everyone with the same tree. */
  lemma SentIsValid(c: Config, p: Pace, e: PaceEvent)
    requires PaceInv(c, p) && MayHappen(p, e) && SoundSender(c, p, e)
    requires Respond(c, p, e).sent != [] && Respond(c, p, e).sent[0].BroadcastAdvanceView?
    ensures ProgressIsValid(c, Respond(c, p, e).sent[0].certificate, e.tree) && IsValidator(c.key, StateOf(e.tree))
  {
    match e
    case TickEvent(t, now, later, salt) => TickSpeaksExactlyWhen(c, p, t, now, later, salt);
    case TimeoutVoteEvent(vote, origin, t, now) => SentTcIsValid(c, p, vote, origin, t, now);
    case AdvanceViewEvent(received, origin, t, now) => AdvanceViewIsGood(c, p, received, origin, t, now);
  }

  /** A timeout certificate that a replica sends on collecting it is for the current view, an epoch-change view, and
      correct. */
  lemma SentTcIsValid(c: Config, p: Pace, vote: TimeoutVote, origin: VerifyingKey, t: Tree, now: nat)
    requires PaceInv(c, p) && StateOf(t).Valid() && Matches(p.collectors, StateOf(t))
    requires OnTimeoutVote(c, p, vote, origin, t, now).sent != []
    ensures
      var sent := OnTimeoutVote(c, p, vote, origin, t, now).sent;
      && sent[0].BroadcastAdvanceView? && sent[0].certificate.ByTimeout?
      && sent[0].certificate.tc.view == p.view && IsEpochChangeView(p.view, c.epochLength)
      && TcIsCorrect(t, sent[0].certificate.tc)
  {
    TimeoutPairStep(p.collectors, origin, vote);
    PairIsSound(p.collectors, StateOf(t), origin, vote);
    var (collectors, collected) := TimeoutPairCollected(p.collectors, origin, vote);
    AfterCollectingIsGood(c, p.(collectors := collectors), collected, FallbackOf(vote, t), StateOf(t), now);
  }

  ghost predicate PaceStep(c: Config, p: Pace, e: PaceEvent, p': Pace) {
    PaceInv(c, p) ==> MayHappen(p, e) && p' == Respond(c, p, e).pace
  }

  /** `run[i + 1]` is what event `i` makes of `run[i]`. */
  ghost predicate IsPaceRun(c: Config, run: seq<Pace>, events: seq<PaceEvent>) {
    && c.Valid() && |run| == |events| + 1
    && (exists view, vss: ValidatorSetState, tc, now :: vss.Valid() && run[0] == Start(c, view, vss, tc, now))
    && forall i | 0 <= i < |events| :: PaceStep(c, run[i], events[i], run[i + 1])
  }

  /** In every run, the timeout table covers the rest of the epoch. */
  lemma {:induction false} RunKeepsPaceInv(c: Config, run: seq<Pace>, events: seq<PaceEvent>, n: nat)
    requires IsPaceRun(c, run, events) && n < |run|
    ensures PaceInv(c, run[n])
  {
    if n == 0 {
      var view, vss: ValidatorSetState, tc, now :| vss.Valid() && run[0] == Start(c, view, vss, tc, now);
      StartKeepsInv(c, view, vss, tc, now);
    } else {
      RunKeepsPaceInv(c, run, events, n - 1);
      assert PaceStep(c, run[n - 1], events[n - 1], run[n - 1 + 1]);
      RespondIsGood(c, run[n - 1], events[n - 1]);
    }
  }

  /** The timeout table holds views of the current epoch only. */
  ghost predicate HoldsOneEpoch(c: Config, p: Pace)
    requires c.Valid()
  {
    forall v | v in p.timeouts :: Epoch(v, c.epochLength) == Epoch(p.view, c.epochLength)
  }

  lemma UpdateViewHoldsOneEpoch(c: Config, p: Pace, next: nat, vss: ValidatorSetState, now: nat)
    requires PaceInv(c, p) && vss.Valid() && HoldsOneEpoch(c, p) && next > p.view
    ensures HoldsOneEpoch(c, UpdateView(c, p, next, vss, now).pace)
  {
    UpdateViewKeepsInv(c, p, next, vss, now);
    var o := UpdateView(c, p, next, vss, now);
    forall v | v in o.pace.timeouts ensures Epoch(v, c.epochLength) == Epoch(next, c.epochLength) {
      if Epoch(p.view, c.epochLength) != Epoch(next, c.epochLength) {
        if v in EpochTimeouts(c, next, now) {
          EpochBounds(next, c.epochLength);
          EpochIs(v, c.epochLength, Epoch(next, c.epochLength));
        } else {
          EpochIsMonotone(p.view, next, c.epochLength);
          EpochIsMonotone(next, v, c.epochLength);
        }
      }
    }
  }

  lemma TickHoldsOneEpoch(c: Config, p: Pace, t: Tree, now: nat, later: nat, salt: nat)
    requires PaceInv(c, p) && StateOf(t).Valid() && HoldsOneEpoch(c, p)
    ensures HoldsOneEpoch(c, Tick(c, p, t, now, later, salt).pace)
  {
    if now > p.deadline && !IsEpochChangeView(p.view, c.epochLength) {
      UpdateViewHoldsOneEpoch(c, p, p.view + 1, StateOf(t), later);
    }
  }

  lemma CollectingHoldsOneEpoch(
      c: Config, p: Pace, collected: Option<TimeoutCertificate>, fallback: Option<TimeoutCertificate>,
      vss: ValidatorSetState, now: nat)
    requires PaceInv(c, p) && vss.Valid() && HoldsOneEpoch(c, p)
    ensures HoldsOneEpoch(c, AfterCollecting(c, p, collected, fallback, vss, now).pace)
  {
    if IsNews(fallback, p) && fallback.value.view + 1 > p.view {
      UpdateViewHoldsOneEpoch(c, p.(highestTc := fallback), fallback.value.view + 1, vss, now);
    }
  }

  lemma AdvanceHoldsOneEpoch(c: Config, p: Pace, certificate: ProgressCertificate, vss: ValidatorSetState, now: nat)
    requires PaceInv(c, p) && vss.Valid() && HoldsOneEpoch(c, p) && certificate.View() >= p.view
    ensures HoldsOneEpoch(c, AdvanceOn(c, p, certificate, vss, now).pace)
  {
    UpdateViewHoldsOneEpoch(c, BeforeMove(c, p, certificate, vss), certificate.View() + 1, vss, now);
  }

  lemma StepHoldsOneEpoch(c: Config, p: Pace, e: PaceEvent)
    requires PaceInv(c, p) && MayHappen(p, e) && HoldsOneEpoch(c, p)
    ensures HoldsOneEpoch(c, Respond(c, p, e).pace)
  {
    match e
    case TickEvent(t, now, later, salt) => TickHoldsOneEpoch(c, p, t, now, later, salt);
    case TimeoutVoteEvent(vote, origin, t, now) =>
      if CountsTimeoutVote(c, vote, origin, t) {
        TimeoutPairStep(p.collectors, origin, vote);
        var (collectors, collected) := TimeoutPairCollected(p.collectors, origin, vote);
        CollectingHoldsOneEpoch(c, p.(collectors := collectors), collected, FallbackOf(vote, t), StateOf(t), now);
      }
    case AdvanceViewEvent(certificate, origin, t, now) => AdvanceHoldsOneEpoch(c, p, certificate, StateOf(t), now);
  }

  /** In every run, timeouts of past epochs are dropped: the table never holds more views than an epoch has. */
  lemma {:induction false} TableHoldsOneEpoch(c: Config, run: seq<Pace>, events: seq<PaceEvent>, n: nat)
    requires IsPaceRun(c, run, events) && n < |run|
    ensures HoldsOneEpoch(c, run[n])
  {
    if n == 0 {
      var view, vss: ValidatorSetState, tc, now :| vss.Valid() && run[0] == Start(c, view, vss, tc, now);
      EpochBounds(view, c.epochLength);
      forall v | v in run[0].timeouts ensures Epoch(v, c.epochLength) == Epoch(view, c.epochLength) {
        EpochIs(v, c.epochLength, Epoch(view, c.epochLength));
      }
    } else {
      TableHoldsOneEpoch(c, run, events, n - 1);
      RunKeepsPaceInv(c, run, events, n - 1);
      assert PaceStep(c, run[n - 1], events[n - 1], run[n - 1 + 1]);
      StepHoldsOneEpoch(c, run[n - 1], events[n - 1]);
    }
  }

  /** Timeout coverage: no step of any run fails to find a timeout, or tries to extend an ordinary view. */
  lemma TimeoutsNeverMissing(c: Config, run: seq<Pace>, events: seq<PaceEvent>, n: nat)
    requires IsPaceRun(c, run, events) && n < |events|
    ensures PaceInv(c, run[n])
    ensures Respond(c, run[n], events[n]).error.Some? ==>
      Respond(c, run[n], events[n]).error.value.NonIncreasingView? && events[n].TimeoutVoteEvent?
  {
    RunKeepsPaceInv(c, run, events, n);
    assert PaceStep(c, run[n], events[n], run[n + 1]);
    RespondIsGood(c, run[n], events[n]);
    match events[n]
    case TickEvent(t, now, later, salt) => TickIsGood(c, run[n], t, now, later, salt);
    case AdvanceViewEvent(certificate, origin, t, now) => AdvanceViewIsGood(c, run[n], certificate, origin, t, now);
    case TimeoutVoteEvent(_, _, _, _) =>
  }

  ghost predicate Advances(c: Config, p: Pace, e: PaceEvent) {
    PaceInv(c, p) && exists i :: 0 <= i < |Respond(c, p, e).sent| && Respond(c, p, e).sent[i].BroadcastAdvanceView?
  }

  /** Views and recorded broadcasts never go back. */
  lemma {:induction false} PaceIsMonotone(c: Config, run: seq<Pace>, events: seq<PaceEvent>, m: nat, n: nat)
    requires IsPaceRun(c, run, events) && m <= n < |run|
    ensures run[m].view <= run[n].view
    ensures run[m].lastAdvance.Some? ==>
      run[n].lastAdvance.Some? && run[m].lastAdvance.value <= run[n].lastAdvance.value
    decreases n
  {
    if m < n {
      PaceIsMonotone(c, run, events, m, n - 1);
      RunKeepsPaceInv(c, run, events, n - 1);
      assert PaceStep(c, run[n - 1], events[n - 1], run[n - 1 + 1]);
      RespondIsGood(c, run[n - 1], events[n - 1]);
    }
  }

  lemma AdvanceIsRecorded(c: Config, p: Pace, e: PaceEvent)
    requires MayHappen(p, e) && Advances(c, p, e)
    ensures p.lastAdvance != Some(p.view) && Respond(c, p, e).pace.lastAdvance == Some(p.view)
  {
    RespondIsGood(c, p, e);
  }

  /** In every run, the views of a replica's AdvanceView broadcasts strictly increase, whichever site sends them. */
  lemma AdvancesStrictlyIncrease(c: Config, run: seq<Pace>, events: seq<PaceEvent>, m: nat, n: nat)
    requires IsPaceRun(c, run, events) && m < n < |events|
    requires Advances(c, run[m], events[m]) && Advances(c, run[n], events[n])
    ensures run[m].view < run[n].view
  {
    assert PaceStep(c, run[m], events[m], run[m + 1]);
    assert PaceStep(c, run[n], events[n], run[n + 1]);
    AdvanceIsRecorded(c, run[m], events[m]);
    AdvanceIsRecorded(c, run[n], events[n]);
    PaceIsMonotone(c, run, events, m + 1, n);
  }

  /** Ticks alone never cross an epoch. */
  lemma {:induction false} TicksStayInEpoch(c: Config, run: seq<Pace>, events: seq<PaceEvent>, m: nat, n: nat)
    requires IsPaceRun(c, run, events) && m <= n < |run|
    requires forall i | m <= i < n :: events[i].TickEvent?
    ensures Epoch(run[n].view, c.epochLength) == Epoch(run[m].view, c.epochLength)
    decreases n
  {
    if m < n {
      TicksStayInEpoch(c, run, events, m, n - 1);
      RunKeepsPaceInv(c, run, events, n - 1);
      assert PaceStep(c, run[n - 1], events[n - 1], run[n - 1 + 1]);
      var e := events[n - 1];
      TickIsGood(c, run[n - 1], e.tree, e.now, e.later, e.salt);
    }
  }

  /** A replica answers a timeout vote with an AdvanceView, which carries the certificate that the vote
      completes, if and only if that certificate is news and the replica has not broadcast an AdvanceView in
      the current view; a replica outside the active validator sets must in addition have broadcast one before.
      */
  lemma AnswersExactlyWhen(c: Config, p: Pace, vote: TimeoutVote, origin: VerifyingKey, t: Tree, now: nat)
    requires PaceInv(c, p) && StateOf(t).Valid()
    ensures
      var o := OnTimeoutVote(c, p, vote, origin, t, now);
      && (o.sent != [] <==>
            && IsValidator(origin, StateOf(t)) && TimeoutVoteIsCorrect(origin, vote) && vote.view % c.epochLength == 0
            && CompletesPair(p.collectors, origin, vote)
            && (p.highestTc.None? || p.highestTc.value.view < p.view)
            && p.lastAdvance != Some(p.view) && (IsValidator(c.key, StateOf(t)) || p.lastAdvance.Some?))
      && (o.sent != [] ==>
            && o.pace.highestTc.Some? && o.pace.highestTc.value.view == p.view
            && o.sent == [BroadcastAdvanceView(ByTimeout(o.pace.highestTc.value))])
  {
    if CountsTimeoutVote(c, vote, origin, t) {
      TimeoutPairStep(p.collectors, origin, vote);
      var (collectors, collected) := TimeoutPairCollected(p.collectors, origin, vote);
      AfterCollectingIsGood(c, p.(collectors := collectors), collected, FallbackOf(vote, t), StateOf(t), now);
    }
  }

  /** A replica outside the active validator sets answers a timeout vote with an AdvanceView if and only if the vote
      counts, completes a certificate that is news, and the replica broadcast an AdvanceView in an earlier view. */
  lemma OutsiderAdvancesExactlyWhen(c: Config, p: Pace, vote: TimeoutVote, origin: VerifyingKey, t: Tree, now: nat)
    requires PaceInv(c, p) && StateOf(t).Valid() && !IsValidator(c.key, StateOf(t))
    ensures OnTimeoutVote(c, p, vote, origin, t, now).sent != [] <==>
      && CountsTimeoutVote(c, vote, origin, t) && CompletesPair(p.collectors, origin, vote)
      && (p.highestTc.None? || p.highestTc.value.view < p.view)
      && p.lastAdvance.Some? && p.lastAdvance.value < p.view
  {
    AnswersExactlyWhen(c, p, vote, origin, t, now);
  }
}
