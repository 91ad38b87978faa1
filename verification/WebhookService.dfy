/**
 * Delivery, manual retry and the sweeper over mutable tables (delivery.service.ts, event.service.ts,
 * webhooks-admin.controller.ts, webhook-sweeper.processor.ts).
 */
module WebhookService {
  import opened Prelude
  import opened Outbox
  import opened WebhookSchedule
  import opened WebhookDelivery
  import opened WebhookAnswers
  import opened WebhookRuns

  class HookTables {
    var events: seq<OutboxEvent>
    var deliveries: seq<Delivery>
    var endpoints: map<nat, Endpoint>

    function State(): Hooks
      reads this
    {
      Hooks(events, deliveries, endpoints)
    }

    constructor (companies: map<nat, Endpoint>)
      ensures State() == Hooks([], [], companies)
    {
      events, deliveries, endpoints := [], [], companies;
    }

    method CreateInTx(company: nat, raw: EventBody, url: Option<string>, now: int) returns (id: nat)
      modifies this
      ensures State() == CreateEvent(old(State()), company, raw, url, now) && id == |old(events)|
    {
      id := |events|;
      if url.None? || url.value == "" {
        events := events
          + [OutboxEvent(company, raw, None, now, EvCancelled, 0, None, false, None, Some("NO_CALLBACK_URL"))];
        return;
      }
      var paused := !EndpointOf(State(), company).status.CompanyActive?;
      events := events
        + [OutboxEvent(company, raw, url, now, EvPending, 0, if paused then None else Some(now), paused, None, None)];
    }

    method FailureRecorded(company: nat, now: int)
      modifies this`endpoints
      ensures State() == RecordFailure(old(State()), company, now)
    {
      var p := EndpointOf(State(), company);
      var updated := p.(failures := p.failures + 1);
      if updated.failures >= BREAKER_THRESHOLD && !updated.open {
        updated := updated.(open := true, openedAt := Some(now));
      }
      endpoints := endpoints[company := updated];
    }

    method SuccessRecorded(company: nat, now: int)
      modifies this`endpoints
      ensures State() == CloseBreaker(old(State()), company, now)
    {
      var p := EndpointOf(State(), company);
      endpoints := endpoints[company := p.(failures := 0, open := false, openedAt := None, lastSuccess := Some(now))];
    }

    /** The event row first, then the company's breaker. */
    method Apply(id: nat, p: Endpoint, c: Classification, attempt: nat, a: Attempt, retryAfter: Option<real>)
      requires id < |events|
      modifies this
      ensures State() == ApplyOutcome(old(State()), id, p, c, attempt, a, retryAfter)
    {
      hide NextAttemptAt, JitterDraw, RetryAfterMs, RecordFailure, CloseBreaker, EndpointOf;
      var e := events[id];
      match c.outcome
      case OutDelivered =>
        events := events[id := e.(status := EvDelivered, deliveredAt := Some(a.now), attemptCount := attempt)];
        SuccessRecorded(e.company, a.now);
      case OutCancelled =>
        events := events[id := e.(status := EvCancelled, reason := c.reason, attemptCount := attempt)];
      case OutFailed =>
        events := events[id := e.(status := EvFailed, reason := c.reason, attemptCount := attempt)];
        FailureRecorded(e.company, a.now);
      case OutRetry =>
        var override := RetryAfterMs(retryAfter);
        var next := NextAttemptAt(attempt, p.maxAttempts, a.now, JitterDraw(a.uuid, attempt), p.open);
        if next.Some? && override.Some? {
          next := Some(a.now + override.value);
        }
        if next.None? {
          events := events[id := e.(status := EvDead, attemptCount := attempt, nextAttemptAt := None)];
        } else {
          events := events[id := e.(status := EvPending, attemptCount := attempt, nextAttemptAt := next)];
        }
        FailureRecorded(e.company, a.now);
    }

    method DeliverOne(id: nat, a: Attempt)
      modifies this
      ensures State() == DeliverEvent(old(State()), id, a)
    {
      hide ApplyOutcome, ClassifyResponse;
      if id >= |events| || !events[id].status.EvPending? || events[id].paused {
        return;
      }
      var e := events[id];
      var p := EndpointOf(State(), e.company);
      if !p.status.CompanyActive? {
        events := events[id := e.(paused := true, nextAttemptAt := None)];
        return;
      }
      if e.callbackUrl.None? {
        events := events[id := e.(status := EvFailed, reason := Some("NO_CALLBACK_URL"))];
        return;
      }
      var attempt := e.attemptCount + 1;
      if !a.urlIsSafe {
        deliveries := deliveries + [Delivery(id, e.company, attempt, UNSAFE_CALLBACK.outcome)];
        Apply(id, p, UNSAFE_CALLBACK, attempt, a, None);
        return;
      }
      var c := match a.sent
        case Answered(status, _) => ClassifyResponse(status)
        case TransportFailed => TRANSPORT_ERROR;
      deliveries := deliveries + [Delivery(id, e.company, attempt, c.outcome)];
      Apply(id, p, c, attempt, a, if a.sent.Answered? then a.sent.retryAfter else None);
    }

    /** Events that were due when the tick began, each handed to delivery once. */
    method Tick(now: int, attempts: nat -> Attempt) returns (taken: nat)
      modifies this
      ensures var ids := SweepIds(old(State()), now);
        State() == DeliverAll(old(State()), ids, attempts) && taken == |ids|
    {
      hide DeliverEvent, SweepIds;
      var due := SweepIds(State(), now);
      var k := 0;
      while k < |due|
        invariant 0 <= k <= |due|
        invariant State() == DeliverAll(old(State()), due[..k], attempts)
      {
        assert due[..k + 1][..k] == due[..k];
        DeliverOne(due[k], attempts(k));
        k := k + 1;
      }
      assert due[..|due|] == due;
      taken := |due|;
    }

    method ManualRetry(id: nat, now: int) returns (found: bool)
      modifies this
      ensures State() == RetryEvent(old(State()), id, now) && (found <==> id < |old(events)|)
    {
      found := id < |events|;
      if found {
        events := events[id := events[id].(status := EvPending, nextAttemptAt := Some(now), paused := false)];
      }
    }

    /** Counts the DEAD events the filter selects; replays them unless this is a dry run. */
    method ReplayDeadEvents(f: ReplayFilter, now: int) returns (count: nat)
      modifies this
      ensures State() == ReplayDead(old(State()), f, now)
      ensures count == |set i | 0 <= i < |old(events)| && IsSelected(old(events)[i], f)|
    {
      count := CountReplayed(events, f);
      CountReplayedIs(events, f);
      if !f.dryRun {
        events := MapSeq(ReplayRow(f, now), events);
      }
    }
  }

  function CountReplayed(events: seq<OutboxEvent>, f: ReplayFilter): nat {
    if events == [] then 0
    else CountReplayed(events[..|events| - 1], f) + if IsReplayed(events[|events| - 1], f) then 1 else 0
  }

  lemma {:induction false} CountReplayedIs(events: seq<OutboxEvent>, f: ReplayFilter)
    ensures CountReplayed(events, f) == |set i | 0 <= i < |events| && IsSelected(events[i], f)|
  {
    if events != [] {
      var n := |events| - 1;
      CountReplayedIs(events[..n], f);
      SelectedSplits(events, n, f);
    }
  }

  lemma SelectedSplits(events: seq<OutboxEvent>, n: nat, f: ReplayFilter)
    requires |events| == n + 1
    ensures var before, all := set i | 0 <= i < n && IsSelected(events[..n][i], f),
        set i | 0 <= i < |events| && IsSelected(events[i], f);
      all == (if IsSelected(events[n], f) then before + {n} else before) && n !in before
  {
    hide IsSelected;
  }

  /** After a replay that is not a dry run no DEAD event of the selection is left, and only its events moved. */
  lemma ReplayEmptiesSelection(h: Hooks, f: ReplayFilter, now: int, i: nat)
    requires i < |h.events| && !f.dryRun
    ensures var e, e' := h.events[i], ReplayDead(h, f, now).events[i];
      && !IsReplayed(e', f)
      && (if IsReplayed(e, f) then e' == e.(status := EvPending, nextAttemptAt := Some(now)) else e' == e)
  {
  }

  /**
   * A tick that was not full leaves nothing due that was due when it began and belongs to a working endpoint,
   * other than rows its own attempts made due again.
   */
  lemma TickLeavesNothing(h: Hooks, now: int, attempts: nat -> Attempt, i: nat)
    requires i < |h.events| && IsDueEvent(h.events[i], now) && |SweepIds(h, now)| < SWEEP_BATCH
    ensures var h' := DeliverAll(h, SweepIds(h, now), attempts);
      && i < |h'.events|
      && (IsDueEvent(h'.events[i], now) ==> h'.events[i].attemptCount == h.events[i].attemptCount + 1)
  {
    hide SweepIds, DeliverAll;
    var ids := SweepIds(h, now);
    SweepIdsAreDue(h, now);
    SweepIdsDistinct(h, now);
    assert i in ids;
    TickHandlesEachOnce(h, ids, attempts, i);
  }
}
