/** The pacemaker as an object, proved to do what `Pacing` says. */
module Pacemaker {
  import opened Types
  import opened Quorums
  import opened Collecting
  import opened BlockStore
  import opened Verdicts
  import Pacing

  /** The timeouts of the views from `start` up to `bound`, exclusively. */
  ghost function TimeoutsUpTo(c: Pacing.Config, start: nat, bound: nat, now: nat): map<nat, nat> {
    map v: nat | start <= v < bound :: Pacing.Deadline(c, start, v, now)
  }

  lemma OneMoreTimeout(c: Pacing.Config, start: nat, view: nat, now: nat)
    requires start <= view
    ensures TimeoutsUpTo(c, start, view + 1, now) ==
      TimeoutsUpTo(c, start, view, now)[view := Pacing.Deadline(c, start, view, now)]
  {
  }

  /** The loop that fills in the timeouts of the rest of an epoch. */
  method FillTimeouts(c: Pacing.Config, timeouts: map<nat, nat>, start: nat, now: nat) returns (filled: map<nat, nat>)
    requires c.Valid()
    ensures filled == timeouts + Pacing.EpochTimeouts(c, start, now)
  {
    var end := Pacing.Epoch(start, c.epochLength) * c.epochLength;
    Pacing.EpochBounds(start, c.epochLength);
    filled := timeouts;
    assert timeouts + TimeoutsUpTo(c, start, start, now) == timeouts;
    for view := start to end + 1
      invariant filled == timeouts + TimeoutsUpTo(c, start, view, now)
    {
      OneMoreTimeout(c, start, view, now);
      var timeToDeadline := c.maxViewTime / Pacing.NANOS_PER_SECOND * (view - start + 1) * Pacing.NANOS_PER_SECOND;
      filled := filled[view := now + timeToDeadline];
    }
    assert TimeoutsUpTo(c, start, end + 1, now) == Pacing.EpochTimeouts(c, start, now);
  }

  class Pacemaker {
    const config: Pacing.Config
    var view: nat
    var deadline: nat
    var timeouts: map<nat, nat>
    var lastAdvance: Option<nat>
    /** Owned by the pacemaker, hence a value; `Collectors.ActiveCollectorPair` computes these transitions in place. */
    var collectors: TimeoutPair
    /** The block tree's Highest TC variable. */
    var highestTc: Option<TimeoutCertificate>
    /** Everything broadcast so far. */
    var sent: seq<Pacing.Outgoing>

    ghost function Value(): Pacing.Pace
      reads this
    {
      Pacing.Pace(view, deadline, timeouts, lastAdvance, collectors, highestTc)
    }

    ghost predicate Valid()
      reads this
    {
      Pacing.PaceInv(config, Value())
    }

    constructor (
        config: Pacing.Config, initView: nat, vss: ValidatorSetState, highestTc: Option<TimeoutCertificate>, now: nat)
      requires config.Valid() && vss.Valid()
      ensures Valid()
      ensures this.config == config && sent == []
      ensures Value() == Pacing.Start(config, initView, vss, highestTc, now)
    {
      this.config := config;
      var filled := FillTimeouts(config, map[], initView, now);
      Pacing.EpochBounds(initView, config.epochLength);
      assert map[] + Pacing.EpochTimeouts(config, initView, now) == Pacing.EpochTimeouts(config, initView, now);
      view, deadline, timeouts, lastAdvance := initView, filled[initView], filled, None;
      collectors := NewTimeoutPair(config.chainId, initView, vss);
      this.highestTc, sent := highestTc, [];
      new;
      Pacing.StartKeepsInv(config, initView, vss, highestTc, now);
    }

    method Broadcast(message: Pacing.Outgoing)
      modifies this`sent
      ensures sent == old(sent) + [message]
    {
      sent := sent + [message];
    }

    method UpdateTimeouts(start: nat, now: nat)
      requires config.Valid()
      modifies this`timeouts
      ensures timeouts == Pacing.UpdatedTimeouts(config, old(timeouts), start, now)
    {
      timeouts := map v: nat | v in timeouts && v >= start :: timeouts[v];
      timeouts := FillTimeouts(config, timeouts, start, now);
    }

    /** A later view is always entered, with the invariant and collectors for exactly the active sets; any other view is
        refused without effect. */
    method UpdateView(next: nat, vss: ValidatorSetState, now: nat) returns (error: Option<Pacing.Error>)
      requires Valid() && vss.Valid()
      modifies this`view, this`deadline, this`timeouts, this`collectors
      ensures Valid()
      ensures error.None? <==> next > old(view)
      ensures error.None? ==> view == next && Matches(collectors, vss)
      ensures error.Some? ==> Value() == old(Value())
      ensures
        var o := Pacing.UpdateView(config, old(Value()), next, vss, now);
        Value() == o.pace && error == o.error
    {
      Pacing.UpdateViewKeepsInv(config, Value(), next, vss, now);
      NewPairMatches(config.chainId, next, vss);
      if next <= view {
        return Some(Pacing.NonIncreasingView(view, next));
      }
      if Pacing.Epoch(view, config.epochLength) != Pacing.Epoch(next, config.epochLength) {
        UpdateTimeouts(next, now);
      }
      if next !in timeouts {
        return Some(Pacing.NoViewTimeout(next));
      }
      view, deadline := next, timeouts[next];
      collectors := NewTimeoutPair(config.chainId, next, vss);
      error := None;
    }

    /** In an epoch-change view the deadline moves to a full view time from now, the rest of the table stays as it
        was and the invariant holds; in any other view nothing changes and the call fails. */
    method ExtendView(now: nat) returns (error: Option<Pacing.Error>)
      requires Valid()
      modifies this`timeouts, this`deadline
      ensures Valid()
      ensures error.None? <==> Pacing.IsEpochChangeView(view, config.epochLength)
      ensures error.None? ==> deadline == now + config.maxViewTime && timeouts - {view} == old(timeouts) - {view}
      ensures error.Some? ==> Value() == old(Value())
      ensures
        var o := Pacing.ExtendView(config, old(Value()), now);
        Value() == o.pace && error == o.error
    {
      if Pacing.IsEpochChangeView(view, config.epochLength) {
        Pacing.ExtendViewIsGood(config, Value(), now);
      }
      if !Pacing.IsEpochChangeView(view, config.epochLength) {
        return Some(Pacing.ExtendNonEpochView(view));
      }
      timeouts := timeouts[view := now + config.maxViewTime];
      deadline := timeouts[view];
      error := None;
    }

    /** A tick keeps the invariant, never fails, and stays within the epoch. */
    method Tick(t: Tree, now: nat, later: nat, salt: nat) returns (error: Option<Pacing.Error>)
      requires Valid() && Pacing.StateOf(t).Valid()
      modifies this
      ensures Valid()
      ensures
        var o := Pacing.Tick(config, old(Value()), t, now, later, salt);
        Value() == o.pace && sent == old(sent) + o.sent && error == o.error
      ensures error.None? && Pacing.Epoch(view, config.epochLength) == Pacing.Epoch(old(view), config.epochLength)
    {
      Pacing.TickIsGood(config, Value(), t, now, later, salt);
      var vss := Pacing.StateOf(t);
      if now > deadline {
        if Pacing.IsEpochChangeView(view, config.epochLength) {
          if Pacing.IsValidator(config.key, vss) {
            var signature := Signed(config.key, TimeoutMessage(config.chainId, view), salt);
            Broadcast(Pacing.BroadcastTimeoutVote(TimeoutVote(config.chainId, view, signature, highestTc)));
          }
          error := ExtendView(later);
        } else {
          error := UpdateView(view + 1, vss, later);
        }
        return;
      }
      collectors := TimeoutPairUpdated(collectors, vss).0;
      if t.highestPc.view >= view && !IsGenesisPc(t.highestPc) && Pacing.IsValidator(config.key, vss)
         && (lastAdvance.None? || lastAdvance.value < view) {
        Broadcast(Pacing.BroadcastAdvanceView(Pacing.ByPhase(t.highestPc)));
        lastAdvance := Some(view);
      }
      error := None;
    }

    method OnReceiveTimeoutVote(
        vote: TimeoutVote, origin: VerifyingKey, t: Tree, now: nat) returns (error: Option<Pacing.Error>)
      requires Valid() && Pacing.StateOf(t).Valid() && vote.view >= view
      modifies this
      ensures Valid()
      ensures
        var o := Pacing.OnTimeoutVote(config, old(Value()), vote, origin, t, now);
        Value() == o.pace && sent == old(sent) + o.sent && error == o.error
    {
      Pacing.TimeoutVoteIsGood(config, Value(), vote, origin, t, now);
      var vss := Pacing.StateOf(t);
      error := None;
      if !Pacing.IsValidator(origin, vss) {
        return;
      }
      if TimeoutVoteIsCorrect(origin, vote) && Pacing.IsEpochChangeView(vote.view, config.epochLength) {
        var fallback := if vote.highestTc.Some? && TcIsCorrect(t, vote.highestTc.value) then vote.highestTc else None;
        error := CountVote(vote, origin, fallback, vss, now);
      }
    }

    method CountVote(
        vote: TimeoutVote, origin: VerifyingKey, fallback: Option<TimeoutCertificate>, vss: ValidatorSetState, now: nat)
        returns (error: Option<Pacing.Error>)
      requires Valid() && vss.Valid() && TimeoutVoteIsCorrect(origin, vote)
      modifies this
      ensures
        var o := Pacing.CountVote(config, old(Value()), vote, origin, fallback, vss, now);
        Value() == o.pace && sent == old(sent) + o.sent && error == o.error
    {
      TimeoutPairStep(collectors, origin, vote);
      var (pair, collected) := TimeoutPairCollected(collectors, origin, vote);
      collectors := pair;
      error := AfterCollecting(collected, fallback, vss, now);
    }

    method AfterCollecting(
        collected: Option<TimeoutCertificate>, fallback: Option<TimeoutCertificate>, vss: ValidatorSetState, now: nat)
        returns (error: Option<Pacing.Error>)
      requires Valid() && vss.Valid()
      modifies this
      ensures
        var o := Pacing.AfterCollecting(config, old(Value()), collected, fallback, vss, now);
        Value() == o.pace && sent == old(sent) + o.sent && error == o.error
    {
      error := None;
      if collected.Some? {
        OnCollectedTc(collected.value, vss);
      } else if fallback.Some? {
        if highestTc.None? || fallback.value.view > highestTc.value.view {
          highestTc := fallback;
          error := UpdateView(fallback.value.view + 1, vss, now);
        }
      }
    }

    method OnCollectedTc(tc: TimeoutCertificate, vss: ValidatorSetState)
      modifies this`highestTc, this`lastAdvance, this`sent
      ensures
        var o := Pacing.OnCollectedTc(config, old(Value()), tc, vss);
        Value() == o.pace && sent == old(sent) + o.sent
    {
      if highestTc.None? || tc.view > highestTc.value.view {
        highestTc := Some(tc);
        if (Pacing.IsValidator(config.key, vss) && lastAdvance.None?) ||
          (lastAdvance.Some? && lastAdvance.value < view) {
          Broadcast(Pacing.BroadcastAdvanceView(Pacing.ByTimeout(tc)));
          lastAdvance := Some(view);
        }
      }
    }

    /** On a certificate for the current view or a later one, the move to the next view never fails. */
    method OnReceiveAdvanceView(certificate: Pacing.ProgressCertificate, origin: VerifyingKey, t: Tree, now: nat)
        returns (error: Option<Pacing.Error>)
      requires Valid() && Pacing.StateOf(t).Valid() && certificate.View() >= view
      modifies this
      ensures Valid()
      ensures
        var o := Pacing.OnAdvanceView(config, old(Value()), certificate, origin, t, now);
        Value() == o.pace && sent == old(sent) + o.sent && error == o.error
      ensures error.None?
    {
      Pacing.AdvanceViewIsGood(config, Value(), certificate, origin, t, now);
      var vss := Pacing.StateOf(t);
      error := None;
      if !Pacing.IsValidator(origin, vss) {
        return;
      }
      if Pacing.ProgressIsValid(config, certificate, t) {
        error := AdvanceOn(certificate, vss, now);
      }
    }

    method AdvanceOn(certificate: Pacing.ProgressCertificate, vss: ValidatorSetState, now: nat)
        returns (error: Option<Pacing.Error>)
      requires Valid() && vss.Valid()
      modifies this
      ensures
        var o := Pacing.AdvanceOn(config, old(Value()), certificate, vss, now);
        Value() == o.pace && sent == old(sent) + o.sent && error == o.error
    {
      Rebroadcast(certificate, vss);
      error := UpdateView(certificate.View() + 1, vss, now);
    }

    /** Stores a newer timeout certificate, and passes the certificate on if none has gone out in this view. */
    method Rebroadcast(certificate: Pacing.ProgressCertificate, vss: ValidatorSetState)
      requires Valid()
      modifies this`highestTc, this`lastAdvance, this`sent
      ensures Valid() && Value() == Pacing.BeforeMove(config, old(Value()), certificate, vss)
      ensures sent == old(sent) +
        if Pacing.Rebroadcasts(config, old(Value()), vss) then [Pacing.BroadcastAdvanceView(certificate)] else []
    {
      if certificate.ByTimeout? {
        if highestTc.None? || certificate.tc.view > highestTc.value.view {
          highestTc := Some(certificate.tc);
        }
      }
      if Pacing.IsValidator(config.key, vss) && (lastAdvance.None? || lastAdvance.value < view) {
        Broadcast(Pacing.BroadcastAdvanceView(certificate));
        lastAdvance := Some(view);
      }
    }
  }
}
