/** What an endpoint's answer does to its event and its breaker, by HTTP status (classify.ts, delivery.service.ts). */
module WebhookAnswers {
  import opened Prelude
  import opened MatchTypes
  import opened Outbox
  import opened WebhookSchedule
  import opened WebhookDelivery

  /** The attempt got through to the endpoint and was answered with a status in this range. */
  predicate AnsweredIn(a: Attempt, from: int, to: int) {
    a.urlIsSafe && a.sent.Answered? && from <= a.sent.status <= to
  }

  predicate AnsweredWith(a: Attempt, statuses: set<int>) {
    a.urlIsSafe && a.sent.Answered? && a.sent.status in statuses
  }

  predicate Succeeds(a: Attempt) { AnsweredIn(a, 200, 299) }

  predicate IsGone(a: Attempt) { AnsweredWith(a, {410}) }

  /** A redirect, a client error other than the four that ask for something else, or a callback that is not safe. */
  predicate IsRefused(a: Attempt) {
    !a.urlIsSafe || (AnsweredIn(a, 300, 499) && !AnsweredWith(a, {408, 410, 425, 429}))
  }

  /** Why a refused event failed. */
  function RefusalReason(a: Attempt): string {
    if !a.urlIsSafe then "UNSAFE_CALLBACK_URL"
    else if AnsweredIn(a, 300, 399) then "REDIRECT_NOT_FOLLOWED"
    else "CLIENT_ERROR"
  }

  /**
   * DELIVERED on a 2xx, CANCELLED on 410, FAILED on a redirect, another client error or an unsafe callback; on
   * everything else (408, 425, 429, other statuses, no answer) tried again, or DEAD once the budget is used up.
   */
  lemma AnswerDecides(h: Hooks, id: nat, a: Attempt)
    requires Attempts(h, id)
    ensures var e, e' := h.events[id], DeliverEvent(h, id, a).events[id];
      var limit := EndpointOf(h, e.company).maxAttempts;
      var used := e.attemptCount + 1;
      && e'.attemptCount == used && !e'.paused
      && (e'.status == EvDelivered <==> Succeeds(a))
      && (e'.status == EvCancelled <==> IsGone(a))
      && (e'.status == EvFailed <==> IsRefused(a))
      && (e'.status == EvDead <==> !Succeeds(a) && !IsGone(a) && !IsRefused(a) && (used >= limit || used >= 9))
      && (e'.status == EvPending <==> !Succeeds(a) && !IsGone(a) && !IsRefused(a) && used < limit && used < 9)
      && e'.deliveredAt == (if Succeeds(a) then Some(a.now) else e.deliveredAt)
      && e'.reason == (if IsGone(a) then Some("CLIENT_GONE")
                       else if IsRefused(a) then Some(RefusalReason(a)) else e.reason)
  {
    hide JitterDraw;
  }

  /** The recorded attempt and the breaker: a 2xx closes it, 410 leaves it, every other answer counts as a failure. */
  lemma AnswerCounts(h: Hooks, id: nat, a: Attempt)
    requires Attempts(h, id)
    ensures var e, h' := h.events[id], DeliverEvent(h, id, a);
      var p, p' := EndpointOf(h, e.company), EndpointOf(h', e.company);
      && |h'.deliveries| == |h.deliveries| + 1 && h'.deliveries[..|h.deliveries|] == h.deliveries
      && (var d := h'.deliveries[|h.deliveries|];
          && d.event == id && d.company == e.company && d.attemptNo == e.attemptCount + 1
          && (d.outcome == OutDelivered <==> Succeeds(a)) && (d.outcome == OutCancelled <==> IsGone(a))
          && (d.outcome == OutFailed <==> IsRefused(a)))
      && (if Succeeds(a) then p' == p.(failures := 0, open := false, openedAt := None, lastSuccess := Some(a.now))
          else if IsGone(a) then p' == p
          else
            p' == p.(failures := p.failures + 1, open := p.open || p.failures + 1 >= 10,
              openedAt := if !p.open && p.failures + 1 >= 10 then Some(a.now) else p.openedAt))
      && (forall c: nat :: c != e.company ==> EndpointOf(h', c) == EndpointOf(h, c))
  {
    hide JitterDraw, NextAttemptAt;
  }

  /** Without an attempt: held back for an inactive company, failed for want of a callback URL, else left alone. */
  lemma IdleDecides(h: Hooks, id: nat, a: Attempt)
    requires id < |h.events| && !Attempts(h, id)
    ensures var e, h' := h.events[id], DeliverEvent(h, id, a);
      && h'.deliveries == h.deliveries && h'.endpoints == h.endpoints
      && h'.events[id] ==
        if e.status != EvPending || e.paused then e
        else if EndpointOf(h, e.company).status != CompanyActive then e.(paused := true, nextAttemptAt := None)
        else e.(status := EvFailed, reason := Some("NO_CALLBACK_URL"))
  {
  }

  /** The header the endpoint sent, when it asks for zero to 3600 seconds. */
  predicate AsksFor(a: Attempt, seconds: real) {
    a.urlIsSafe && a.sent.Answered? && a.sent.retryAfter == Some(seconds) && 0.0 <= seconds <= 3600.0
  }

  /**
   * When the next attempt is: after exactly the seconds asked for, to the millisecond; else within a fifth of thirty
   * seconds, two, ten, thirty minutes, two, six, twelve hours, a day; and with the breaker open not within the hour.
   */
  lemma RetryWaits(h: Hooks, id: nat, a: Attempt, seconds: real)
    requires Attempts(h, id) && DeliverEvent(h, id, a).events[id].status == EvPending
    ensures var e := h.events[id];
      var minutes := [0.5, 2.0, 10.0, 30.0, 120.0, 360.0, 720.0, 1440.0];
      var next := DeliverEvent(h, id, a).events[id].nextAttemptAt;
      && e.attemptCount < 8 && next.Some?
      && var wait := (next.value - a.now) as real;
         var base := minutes[e.attemptCount] * 60_000.0;
         && (AsksFor(a, seconds) ==> seconds * 1000.0 - 1.0 < wait <= seconds * 1000.0)
         && (!(exists s :: AsksFor(a, s)) ==>
               if EndpointOf(h, e.company).open then 3_600_000.0 <= wait && (wait == 3_600_000.0 || wait <= 1.2 * base)
               else 0.8 * base <= wait <= 1.2 * base)
  {
    hide JitterDraw, ClassifyResponse, NextAttemptAt;
    DeadIff(h, id, a);
    var e := h.events[id];
    var p := EndpointOf(h, e.company);
    assert e.attemptCount < 8;
    AskedIff(a);
    var u := JitterDraw(a.uuid, e.attemptCount + 1);
    NextAttemptWithin(e.attemptCount + 1, p.maxAttempts, a.now, u, p.open);
    WholeTenths(SCHEDULE_MS[e.attemptCount]);
    MinutesAre(e.attemptCount);
    assert DeliverEvent(h, id, a).events[id].nextAttemptAt
      == if RetryAfterMs(RetryAfterOf(a)).Some? then Some(a.now + RetryAfterMs(RetryAfterOf(a)).value)
         else NextAttemptAt(e.attemptCount + 1, p.maxAttempts, a.now, u, p.open);
  }

  lemma AskedIff(a: Attempt)
    ensures RetryAfterMs(RetryAfterOf(a)).Some? ==> exists s :: AsksFor(a, s)
    ensures forall s :: AsksFor(a, s) ==>
      RetryAfterMs(RetryAfterOf(a)).Some?
      && s * 1000.0 - 1.0 < RetryAfterMs(RetryAfterOf(a)).value as real <= s * 1000.0
  {
    if RetryAfterMs(RetryAfterOf(a)).Some? {
      assert AsksFor(a, a.sent.retryAfter.value);
    }
  }

  lemma MinutesAre(k: nat)
    requires k < 8
    ensures SCHEDULE_MS[k] as real == [0.5, 2.0, 10.0, 30.0, 120.0, 360.0, 720.0, 1440.0][k] * 60_000.0
    ensures SCHEDULE_MS[k] % 10 == 0
  {
  }

  /** A company nothing was delivered for yet: its first failed attempt counts one, the breaker stays closed. */
  lemma FirstFailureOf(h: Hooks, id: nat, a: Attempt)
    requires Attempts(h, id) && h.events[id].company !in h.endpoints && !Succeeds(a) && !IsGone(a)
    ensures var e := h.events[id];
      EndpointOf(DeliverEvent(h, id, a), e.company) == Endpoint(CompanyActive, 8, 1, false, None, None)
  {
    AnswerCounts(h, id, a);
  }

  // ---------------------------------------------------------------- the sweep, the retry and the replay

  /** PENDING, not held back, and its time has come. */
  predicate IsDueAt(e: OutboxEvent, now: int) {
    e.status == EvPending && !e.paused && e.nextAttemptAt.Some? && e.nextAttemptAt.value <= now
  }

  /** A tick takes due events only, at most two hundred, each once, longest overdue first, and all when fewer. */
  lemma TickTakes(h: Hooks, now: int)
    ensures var r := SweepIds(h, now);
      && |r| <= 200
      && (forall k :: 0 <= k < |r| ==> r[k] < |h.events| && IsDueAt(h.events[r[k]], now))
      && (forall j, k :: 0 <= j < k < |r| ==>
            r[j] != r[k] && h.events[r[j]].nextAttemptAt.value <= h.events[r[k]].nextAttemptAt.value)
      && (|r| < 200 ==> forall i: nat :: i < |h.events| && IsDueAt(h.events[i], now) ==> i in r)
  {
    hide SweepIds;
    SweepIdsAreDue(h, now);
    SweepIdsDistinct(h, now);
    var r := SweepIds(h, now);
    forall j, k | 0 <= j < k < |r|
      ensures r[j] != r[k] && h.events[r[j]].nextAttemptAt.value <= h.events[r[k]].nextAttemptAt.value
    {
      SweepOldestFirst(h, now, j, k);
    }
  }

  /** A manual retry makes one event due now, whatever it was, and forgets nothing else. */
  lemma RetryWrites(h: Hooks, id: nat, now: int)
    requires id < |h.events|
    ensures var h' := RetryEvent(h, id, now);
      && h'.deliveries == h.deliveries && h'.endpoints == h.endpoints && |h'.events| == |h.events|
      && (forall i :: 0 <= i < |h.events| && i != id ==> h'.events[i] == h.events[i])
      && h'.events[id] == h.events[id].(status := EvPending, nextAttemptAt := Some(now), paused := false)
  {
  }

  /** A DEAD event of the company, created within the bounds that are given. */
  predicate IsSelected(e: OutboxEvent, f: ReplayFilter) {
    && e.company == f.company && e.status == EvDead
    && (f.from.None? || f.from.value <= e.createdAt) && (f.to.None? || e.createdAt <= f.to.value)
  }

  /** A replay makes exactly the selected events due now, and a dry run none. */
  lemma ReplayWrites(h: Hooks, f: ReplayFilter, now: int)
    ensures var h' := ReplayDead(h, f, now);
      && h'.deliveries == h.deliveries && h'.endpoints == h.endpoints && |h'.events| == |h.events|
      && forall i :: 0 <= i < |h.events| ==>
        h'.events[i] == if IsSelected(h.events[i], f) && !f.dryRun
          then h.events[i].(status := EvPending, nextAttemptAt := Some(now)) else h.events[i]
  {
  }
}
