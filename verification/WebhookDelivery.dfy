/** The outbox and the circuit breaker as a state machine (delivery.service.ts, event.service.ts, webhooks-admin). */
module WebhookDelivery {
  import opened Prelude
  import opened MatchTypes
  import opened Outbox
  import opened WebhookSchedule

  const BREAKER_THRESHOLD := 10

  /** The columns of a company row that delivery reads and writes. */
  datatype Endpoint = Endpoint(
    status: CompanyStatus, maxAttempts: nat, failures: nat, open: bool, openedAt: Option<int>, lastSuccess: Option<int>)

  /** A row of webhook_deliveries: one completed attempt. */
  datatype Delivery = Delivery(event: nat, company: nat, attemptNo: nat, outcome: Outcome)

  datatype Hooks = Hooks(events: seq<OutboxEvent>, deliveries: seq<Delivery>, endpoints: map<nat, Endpoint>)

  const DEFAULT_ENDPOINT := Endpoint(CompanyActive, 8, 0, false, None, None)

  /** A company without a row of its own stands for one with the column defaults. */
  function EndpointOf(h: Hooks, company: nat): Endpoint {
    if company in h.endpoints then h.endpoints[company] else DEFAULT_ENDPOINT
  }

  /** What one HTTP exchange brought back. */
  datatype Sent = Answered(status: int, retryAfter: Option<real>) | TransportFailed

  /** What an attempt depends on besides the tables. */
  datatype Attempt = Attempt(now: int, uuid: string, urlIsSafe: bool, sent: Sent)

  // ---------------------------------------------------------------- single-row writes

  function SetEvent(h: Hooks, id: nat, e: OutboxEvent): Hooks
    requires id < |h.events|
  {
    h.(events := h.events[id := e])
  }

  function SetEndpoint(h: Hooks, company: nat, e: Endpoint): Hooks {
    h.(endpoints := h.endpoints[company := e])
  }

  function RecordDelivery(h: Hooks, d: Delivery): Hooks {
    h.(deliveries := h.deliveries + [d])
  }

  // ---------------------------------------------------------------- the breaker

  function CountFailure(e: Endpoint, now: int): Endpoint {
    var n := e.failures + 1;
    if n >= BREAKER_THRESHOLD && !e.open then e.(failures := n, open := true, openedAt := Some(now))
    else e.(failures := n)
  }

  function RecordFailure(h: Hooks, company: nat, now: int): Hooks {
    SetEndpoint(h, company, CountFailure(EndpointOf(h, company), now))
  }

  function CloseBreaker(h: Hooks, company: nat, now: int): Hooks {
    SetEndpoint(h, company,
      EndpointOf(h, company).(failures := 0, open := false, openedAt := None, lastSuccess := Some(now)))
  }

  // ---------------------------------------------------------------- one attempt

  /** The event row after its attempt number `attempt` ended in `c`. */
  function RowAfter(e: OutboxEvent, p: Endpoint, c: Classification, attempt: nat, a: Attempt, retryAfter: Option<real>)
    : OutboxEvent
  {
    match c.outcome
    case OutDelivered => e.(status := EvDelivered, deliveredAt := Some(a.now), attemptCount := attempt)
    case OutCancelled => e.(status := EvCancelled, reason := c.reason, attemptCount := attempt)
    case OutFailed => e.(status := EvFailed, reason := c.reason, attemptCount := attempt)
    case OutRetry =>
      var next := NextAttemptAt(attempt, p.maxAttempts, a.now, JitterDraw(a.uuid, attempt), p.open);
      var override := RetryAfterMs(retryAfter);
      if next.None? then e.(status := EvDead, attemptCount := attempt, nextAttemptAt := None)
      else
        e.(status := EvPending, attemptCount := attempt,
           nextAttemptAt := if override.Some? then Some(a.now + override.value) else next)
  }

  function ApplyOutcome(
      h: Hooks, id: nat, p: Endpoint, c: Classification, attempt: nat, a: Attempt, retryAfter: Option<real>): Hooks
    requires id < |h.events|
  {
    var e := h.events[id];
    var h' := SetEvent(h, id, RowAfter(e, p, c, attempt, a, retryAfter));
    match c.outcome
    case OutDelivered => CloseBreaker(h', e.company, a.now)
    case OutCancelled => h'
    case OutFailed => RecordFailure(h', e.company, a.now)
    case OutRetry => RecordFailure(h', e.company, a.now)
  }

  function Classify(a: Attempt): Classification {
    if !a.urlIsSafe then UNSAFE_CALLBACK
    else
      match a.sent
      case Answered(status, _) => ClassifyResponse(status)
      case TransportFailed => TRANSPORT_ERROR
  }

  function RetryAfterOf(a: Attempt): Option<real> {
    if a.urlIsSafe && a.sent.Answered? then a.sent.retryAfter else None
  }

  /** The attempt gets as far as the callback: the event is due for one and its company is active. */
  predicate Attempts(h: Hooks, id: nat) {
    && id < |h.events| && h.events[id].status.EvPending? && !h.events[id].paused
    && EndpointOf(h, h.events[id].company).status.CompanyActive?
    && h.events[id].callbackUrl.Some?
  }

  function DeliverEvent(h: Hooks, id: nat, a: Attempt): Hooks {
    if id >= |h.events| || !h.events[id].status.EvPending? || h.events[id].paused then h
    else
      var e := h.events[id];
      var p := EndpointOf(h, e.company);
      if !p.status.CompanyActive? then SetEvent(h, id, e.(paused := true, nextAttemptAt := None))
      else if e.callbackUrl.None? then SetEvent(h, id, e.(status := EvFailed, reason := Some("NO_CALLBACK_URL")))
      else
        var attempt := e.attemptCount + 1;
        var c := Classify(a);
        var recorded := RecordDelivery(h, Delivery(id, e.company, attempt, c.outcome));
        ApplyOutcome(recorded, id, p, c, attempt, a, RetryAfterOf(a))
  }

  // ---------------------------------------------------------------- creation, manual retry, replay, sweep

  function CreateEvent(h: Hooks, company: nat, raw: EventBody, url: Option<string>, now: int): Hooks {
    h.(events := h.events
      + [CreatedEvent(company, raw, url, now, EndpointOf(h, company).status.CompanyActive?)])
  }

  function RetryEvent(h: Hooks, id: nat, now: int): Hooks {
    if id >= |h.events| then h
    else SetEvent(h, id, h.events[id].(status := EvPending, nextAttemptAt := Some(now), paused := false))
  }

  datatype ReplayFilter = ReplayFilter(company: nat, from: Option<int>, to: Option<int>, dryRun: bool)

  predicate IsReplayed(e: OutboxEvent, f: ReplayFilter) {
    && e.company == f.company && e.status.EvDead?
    && (f.from.Some? ==> e.createdAt >= f.from.value) && (f.to.Some? ==> e.createdAt <= f.to.value)
  }

  function ReplayRow(f: ReplayFilter, now: int): OutboxEvent -> OutboxEvent {
    (e: OutboxEvent) => if IsReplayed(e, f) then e.(status := EvPending, nextAttemptAt := Some(now)) else e
  }

  function ReplayDead(h: Hooks, f: ReplayFilter, now: int): Hooks {
    if f.dryRun then h else h.(events := MapSeq(ReplayRow(f, now), h.events))
  }

  const SWEEP_BATCH := 200

  predicate IsDueEvent(e: OutboxEvent, now: int) {
    e.status.EvPending? && !e.paused && e.nextAttemptAt.Some? && e.nextAttemptAt.value <= now
  }

  /** Ids of the first `n` events that are due, in id order. */
  function DueEvents(events: seq<OutboxEvent>, now: int, n: nat): (r: seq<nat>)
    requires n <= |events|
    ensures forall k :: 0 <= k < |r| ==> r[k] < n && IsDueEvent(events[r[k]], now)
    ensures forall i: nat :: i < n && IsDueEvent(events[i], now) ==> i in r
    ensures forall j, k :: 0 <= j < k < |r| ==> r[j] < r[k]
  {
    if n == 0 then []
    else
      var r := DueEvents(events, now, n - 1);
      if IsDueEvent(events[n - 1], now) then r + [n - 1] else r
  }

  function NextKey(events: seq<OutboxEvent>): nat -> real {
    (i: nat) =>
      if i < |events| && events[i].nextAttemptAt.Some? then -(events[i].nextAttemptAt.value as real) else 0.0
  }

  /** The events one tick takes, the longest overdue first. */
  function SweepIds(h: Hooks, now: int): (r: seq<nat>) {
    var sorted := SortDesc(DueEvents(h.events, now, |h.events|), NextKey(h.events));
    if |sorted| <= SWEEP_BATCH then sorted else sorted[..SWEEP_BATCH]
  }

  /** They are due, at most two hundred, and all of them when there are fewer. */
  lemma SweepIdsAreDue(h: Hooks, now: int)
    ensures var r := SweepIds(h, now);
      && |r| <= 200
      && (forall k :: 0 <= k < |r| ==> r[k] < |h.events| && IsDueEvent(h.events[r[k]], now))
      && (|r| < 200 ==> forall i: nat :: i < |h.events| && IsDueEvent(h.events[i], now) ==> i in r)
  {
    hide SortDesc, IsDueEvent, NextKey;
    var due := DueEvents(h.events, now, |h.events|);
    var sorted := SortDesc(due, NextKey(h.events));
    SameElements(due, sorted);
    var r := SweepIds(h, now);
    assert forall k :: 0 <= k < |r| ==> r[k] == sorted[k] && r[k] in due;
  }

  /** The longest overdue event goes first. */
  lemma SweepOldestFirst(h: Hooks, now: int, j: nat, k: nat)
    requires j < k < |SweepIds(h, now)|
    ensures var r := SweepIds(h, now);
      r[j] < |h.events| && r[k] < |h.events| && h.events[r[j]].nextAttemptAt.Some? && h.events[r[k]].nextAttemptAt.Some?
      && h.events[r[j]].nextAttemptAt.value <= h.events[r[k]].nextAttemptAt.value
  {
    SweepIdsAreDue(h, now);
    hide DueEvents;
    var sorted := SortDesc(DueEvents(h.events, now, |h.events|), NextKey(h.events));
    assert NextKey(h.events)(sorted[j]) >= NextKey(h.events)(sorted[k]);
  }

  lemma SweepIdsDistinct(h: Hooks, now: int)
    ensures Distinct(SweepIds(h, now))
  {
    var due := DueEvents(h.events, now, |h.events|);
    var sorted := SortDesc(due, NextKey(h.events));
    assert Distinct(due);
    DistinctPermutation(due, sorted);
  }

  function DeliverAll(h: Hooks, ids: seq<nat>, attempts: nat -> Attempt): Hooks
    decreases |ids|
  {
    if ids == [] then h
    else DeliverEvent(DeliverAll(h, ids[..|ids| - 1], attempts), ids[|ids| - 1], attempts(|ids| - 1))
  }

  // ---------------------------------------------------------------- what one attempt does

  /** Nothing ever rewrites what an event announces, to whom, or when it was created. */
  predicate SameMessage(a: OutboxEvent, b: OutboxEvent) {
    a.company == b.company && a.raw == b.raw && a.callbackUrl == b.callbackUrl && a.createdAt == b.createdAt
  }

  function DeliveryOf(h: Hooks, id: nat, a: Attempt): Delivery
    requires id < |h.events|
  {
    Delivery(id, h.events[id].company, h.events[id].attemptCount + 1, Classify(a).outcome)
  }

  lemma DeliveryFrame(h: Hooks, id: nat, a: Attempt)
    ensures var h' := DeliverEvent(h, id, a);
      && |h'.events| == |h.events|
      && (forall i :: 0 <= i < |h.events| && i != id ==> h'.events[i] == h.events[i])
      && (id < |h.events| ==> SameMessage(h.events[id], h'.events[id]))
      && (!Attempts(h, id) ==> h'.deliveries == h.deliveries && h'.endpoints == h.endpoints)
      && (Attempts(h, id) ==> h'.deliveries == h.deliveries + [DeliveryOf(h, id, a)])
  {
    hide NextAttemptAt, JitterDraw, ClassifyResponse;
  }

  /** An attempt that asks for a retry kills the event exactly when it used up the budget. */
  lemma DeadIff(h: Hooks, id: nat, a: Attempt)
    requires Attempts(h, id)
    ensures var e, e' := h.events[id], DeliverEvent(h, id, a).events[id];
      var budget := Budget(EndpointOf(h, e.company).maxAttempts);
      && e'.attemptCount == e.attemptCount + 1
      && (e'.status.EvDead? <==> Classify(a).outcome.OutRetry? && e.attemptCount + 1 >= budget)
      && (e'.status.EvPending? <==> Classify(a).outcome.OutRetry? && e.attemptCount + 1 < budget)
      && (e'.status.EvDelivered? <==> Classify(a).outcome.OutDelivered?)
  {
  }

  /** A DEAD event that is replayed gets exactly one more attempt: if that asks for a retry, it is DEAD again. */
  lemma ReplayAddsOneAttempt(h: Hooks, id: nat, f: ReplayFilter, now: int, a: Attempt)
    requires id < |h.events| && IsReplayed(h.events[id], f) && !f.dryRun
    requires !h.events[id].paused && Attempts(ReplayDead(h, f, now), id)
    requires h.events[id].attemptCount >= Budget(EndpointOf(h, h.events[id].company).maxAttempts)
    ensures var e' := DeliverEvent(ReplayDead(h, f, now), id, a).events[id];
      e'.attemptCount == h.events[id].attemptCount + 1 && (Classify(a).outcome.OutRetry? <==> e'.status.EvDead?)
  {
  }

  /** The time of the retry: by the schedule, or exactly as the endpoint asked, breaker or no breaker. */
  lemma RetryTime(h: Hooks, id: nat, a: Attempt)
    requires Attempts(h, id) && DeliverEvent(h, id, a).events[id].status.EvPending?
    ensures var e := h.events[id];
      var p := EndpointOf(h, e.company);
      var base := SCHEDULE_MS[e.attemptCount];
      var next := DeliverEvent(h, id, a).events[id].nextAttemptAt;
      var asked := RetryAfterMs(RetryAfterOf(a));
      && next.Some?
      && (asked.Some? ==> next.value == a.now + asked.value && 0 <= asked.value <= HOUR_MS)
      && (asked.None? && !p.open ==> base * 8 / 10 <= next.value - a.now <= base * 12 / 10)
      && (asked.None? && p.open ==> next.value - a.now >= BREAKER_MIN_SPACING_MS)
  {
    hide JitterDraw, ClassifyResponse;
    DeadIff(h, id, a);
    var e := h.events[id];
    var p := EndpointOf(h, e.company);
    NextAttemptWithin(e.attemptCount + 1, p.maxAttempts, a.now, JitterDraw(a.uuid, e.attemptCount + 1), p.open);
  }

  /**
   * With the breaker open a retry waits at least an hour if and only if the endpoint asked for nothing, or for the full
   * hour: any shorter Retry-After overrides the floor.
   */
  lemma FloorHoldsIff(h: Hooks, id: nat, a: Attempt)
    requires Attempts(h, id) && EndpointOf(h, h.events[id].company).open
    requires DeliverEvent(h, id, a).events[id].status.EvPending?
    ensures var next := DeliverEvent(h, id, a).events[id].nextAttemptAt;
      var asked := RetryAfterMs(RetryAfterOf(a));
      next.Some? &&
      (next.value - a.now >= BREAKER_MIN_SPACING_MS <==> asked.None? || asked.value == BREAKER_MIN_SPACING_MS)
  {
    hide DeliverEvent, RetryAfterMs;
    RetryTime(h, id, a);
  }

  /** The tenth failure in a row left the breaker open; the endpoint then answers 503 with Retry-After: 1. */
  lemma ShortRetryAfterBeatsBreaker(company: nat, raw: EventBody, url: string, now: int, uuid: string)
    ensures var h := Hooks([PendingEvent(company, raw, url, now, true)], [],
        map[company := Endpoint(CompanyActive, 8, BREAKER_THRESHOLD, true, Some(now), None)]);
      var h' := DeliverEvent(h, 0, Attempt(now, uuid, true, Answered(503, Some(1.0))));
      && h'.events[0].status.EvPending? && h'.events[0].nextAttemptAt == Some(now + 1000)
      && EndpointOf(h', company).open
  {
    hide JitterDraw;
    assert (1.0 * 1000.0).Floor == 1000;
  }
}
