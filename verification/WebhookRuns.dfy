/** What every run of the outbox keeps: creation, delivery, manual retry, replay and company status changes. */
module WebhookRuns {
  import opened Prelude
  import opened MatchTypes
  import opened Outbox
  import opened WebhookSchedule
  import opened WebhookDelivery

  // ---------------------------------------------------------------- steps

  /** The tables; how often each event was put back by hand, and how often a retry found it DELIVERED. */
  datatype Sim = Sim(h: Hooks, requeues: seq<nat>, reopened: seq<nat>)

  predicate Counted(s: Sim) {
    |s.requeues| == |s.reopened| == |s.h.events|
  }

  datatype HookOp =
    | Create(company: nat, raw: EventBody, url: Option<string>, now: int)
    | CreateDirect(company: nat, raw: EventBody, callback: string, now: int, active: bool)
    | Deliver(id: nat, attempt: Attempt)
    | Retry(id: nat, now: int)
    | Replay(filter: ReplayFilter, now: int)
    | SetStatus(company: nat, status: CompanyStatus)

  function Requeued(s: Sim, f: ReplayFilter): seq<nat>
    requires |s.requeues| == |s.h.events|
  {
    seq(|s.requeues|, i requires 0 <= i < |s.requeues| =>
      if IsReplayed(s.h.events[i], f) then s.requeues[i] + 1 else s.requeues[i])
  }

  /** Whether a retry at this moment takes back a delivery. */
  function Reopens(s: Sim, id: nat): nat {
    if id < |s.h.events| && s.h.events[id].status.EvDelivered? then 1 else 0
  }

  function HookStep(s: Sim, op: HookOp): Sim
    requires Counted(s)
  {
    match op
    case Create(company, raw, url, now) =>
      Sim(CreateEvent(s.h, company, raw, url, now), s.requeues + [0], s.reopened + [0])
    case CreateDirect(company, raw, url, now, active) =>
      var e := PendingEvent(company, raw, url, now, active);
      Sim(s.h.(events := s.h.events + [e]), s.requeues + [0], s.reopened + [0])
    case Deliver(id, a) => s.(h := DeliverEvent(s.h, id, a))
    case Retry(id, now) =>
      if id >= |s.h.events| then s
      else Sim(RetryEvent(s.h, id, now), s.requeues[id := s.requeues[id] + 1],
        s.reopened[id := s.reopened[id] + Reopens(s, id)])
    case Replay(f, now) =>
      s.(h := ReplayDead(s.h, f, now), requeues := if f.dryRun then s.requeues else Requeued(s, f))
    case SetStatus(company, status) =>
      s.(h := SetEndpoint(s.h, company, EndpointOf(s.h, company).(status := status)))
  }

  // ---------------------------------------------------------------- invariants

  /** A pending event that is not held back has a next time; a held or dead one has none. */
  predicate EventSound(e: OutboxEvent) {
    && (e.status.EvPending? && !e.paused ==> e.nextAttemptAt.Some?)
    && (e.paused ==> e.status.EvPending? && e.nextAttemptAt.None?)
    && (e.status.EvDead? ==> e.nextAttemptAt.None?)
  }

  ghost predicate EventsSound(h: Hooks) {
    forall i :: 0 <= i < |h.events| ==> EventSound(h.events[i])
  }

  /** RETRY and FAILED attempts of a company since its last DELIVERED one. */
  function FailuresSince(ds: seq<Delivery>, company: nat): nat {
    if ds == [] then 0
    else
      var last, before := ds[|ds| - 1], FailuresSince(ds[..|ds| - 1], company);
      if last.company != company || last.outcome.OutCancelled? then before
      else if last.outcome.OutDelivered? then 0
      else before + 1
  }

  /** The breaker is OPEN exactly from the tenth consecutive failure on. */
  ghost predicate BreakerSound(h: Hooks, company: nat) {
    var p := EndpointOf(h, company);
    && p.failures == FailuresSince(h.deliveries, company)
    && (p.open <==> p.failures >= 10) && (p.open <==> p.openedAt.Some?)
  }

  ghost predicate BreakersSound(h: Hooks) {
    forall c: nat :: BreakerSound(h, c)
  }

  function AttemptsOf(ds: seq<Delivery>, event: nat): nat {
    if ds == [] then 0
    else AttemptsOf(ds[..|ds| - 1], event) + if ds[|ds| - 1].event == event then 1 else 0
  }

  function DeliveredOf(ds: seq<Delivery>, event: nat): nat {
    if ds == [] then 0
    else DeliveredOf(ds[..|ds| - 1], event) + if IsDeliveredOf(ds[|ds| - 1], event) then 1 else 0
  }

  predicate IsDeliveredOf(d: Delivery, event: nat) {
    d.event == event && d.outcome.OutDelivered?
  }

  /** The recorded attempts of every event are numbered one, two, ..., up to its attempt count. */
  ghost predicate AttemptsNumbered(h: Hooks) {
    && (forall k :: 0 <= k < |h.deliveries| ==>
          h.deliveries[k].event < |h.events|
          && h.deliveries[k].attemptNo == AttemptsOf(h.deliveries[..k], h.deliveries[k].event) + 1)
    && (forall i :: 0 <= i < |h.events| ==> h.events[i].attemptCount == AttemptsOf(h.deliveries, i))
  }

  function BudgetOf(h: Hooks, e: OutboxEvent): nat {
    Budget(EndpointOf(h, e.company).maxAttempts)
  }

  /** Attempts stay within the budget, plus one for each time the event was put back by hand. */
  predicate EventInBudget(h: Hooks, e: OutboxEvent, requeues: nat) {
    && e.attemptCount <= BudgetOf(h, e) + requeues
    && (e.status.EvPending? ==> e.attemptCount < BudgetOf(h, e) + requeues)
    && (e.status.EvDead? ==> e.attemptCount >= BudgetOf(h, e))
  }

  ghost predicate WithinBudget(s: Sim) {
    && |s.requeues| == |s.h.events|
    && forall i :: 0 <= i < |s.h.events| ==> EventInBudget(s.h, s.h.events[i], s.requeues[i])
  }

  /** The deliveries of an event are those a retry took back, and one more exactly while it is DELIVERED. */
  ghost predicate DeliveriesExact(s: Sim) {
    && Counted(s)
    && forall i :: 0 <= i < |s.h.events| ==>
      DeliveredOf(s.h.deliveries, i) == s.reopened[i] + Reopens(s, i)
  }

  ghost predicate MayAttempt(h: Hooks) {
    forall c: nat :: EndpointOf(h, c).maxAttempts >= 1
  }

  ghost predicate HookInv(s: Sim) {
    && EventsSound(s.h) && BreakersSound(s.h) && AttemptsNumbered(s.h)
    && WithinBudget(s) && DeliveriesExact(s) && MayAttempt(s.h)
  }

  // ---------------------------------------------------------------- delivery keeps them

  lemma DeliverKeepsEvents(h: Hooks, id: nat, a: Attempt)
    requires EventsSound(h)
    ensures EventsSound(DeliverEvent(h, id, a))
  {
    hide JitterDraw, ClassifyResponse, NextAttemptAt, RetryAfterMs;
    DeliveryFrame(h, id, a);
  }

  lemma DeliverKeepsBreakers(h: Hooks, id: nat, a: Attempt)
    requires BreakersSound(h)
    ensures BreakersSound(DeliverEvent(h, id, a))
  {
    var h' := DeliverEvent(h, id, a);
    forall c: nat ensures BreakerSound(h', c) {
      DeliverKeepsBreaker(h, id, a, c);
    }
  }

  lemma DeliverKeepsBreaker(h: Hooks, id: nat, a: Attempt, c: nat)
    requires BreakerSound(h, c)
    ensures BreakerSound(DeliverEvent(h, id, a), c)
  {
    hide DeliverEvent, FailuresSince, Classify;
    var h' := DeliverEvent(h, id, a);
    DeliveryFrame(h, id, a);
    if Attempts(h, id) {
      AttemptMovesBreaker(h, id, a, c);
      FailuresAfter(h.deliveries, DeliveryOf(h, id, a), c);
    }
  }

  /** What an attempt does to the breaker of each company. */
  lemma AttemptMovesBreaker(h: Hooks, id: nat, a: Attempt, c: nat)
    requires Attempts(h, id)
    ensures var p, p' := EndpointOf(h, c), EndpointOf(DeliverEvent(h, id, a), c);
      if h.events[id].company != c || Classify(a).outcome.OutCancelled? then p' == p
      else if Classify(a).outcome.OutDelivered? then p'.failures == 0 && !p'.open && p'.openedAt.None?
      else p' == CountFailure(p, a.now)
  {
    hide JitterDraw, ClassifyResponse, NextAttemptAt, RetryAfterMs, RowAfter;
  }

  lemma FailuresAfter(ds: seq<Delivery>, d: Delivery, company: nat)
    ensures FailuresSince(ds + [d], company)
      == if d.company != company || d.outcome.OutCancelled? then FailuresSince(ds, company)
         else if d.outcome.OutDelivered? then 0 else FailuresSince(ds, company) + 1
  {
    assert (ds + [d])[..|ds|] == ds;
  }

  lemma DeliverKeepsNumbers(h: Hooks, id: nat, a: Attempt)
    requires AttemptsNumbered(h)
    ensures AttemptsNumbered(DeliverEvent(h, id, a))
  {
    hide JitterDraw, ClassifyResponse, NextAttemptAt, RetryAfterMs, DeliverEvent, Classify, AttemptsOf;
    var h' := DeliverEvent(h, id, a);
    DeliveryFrame(h, id, a);
    CountMoves(h, id, a);
    if Attempts(h, id) {
      assert h'.deliveries[..|h.deliveries|] == h.deliveries;
      forall i: nat
        ensures AttemptsOf(h'.deliveries, i) == AttemptsOf(h.deliveries, i) + if i == id then 1 else 0
      {
        AttemptsAfter(h.deliveries, DeliveryOf(h, id, a), i);
      }
      forall k | 0 <= k < |h'.deliveries|
        ensures h'.deliveries[k].attemptNo == AttemptsOf(h'.deliveries[..k], h'.deliveries[k].event) + 1
        ensures h'.deliveries[k].event < |h'.events|
      {
        assert k < |h.deliveries| ==> h'.deliveries[..k] == h.deliveries[..k];
      }
    }
  }

  lemma AttemptsAfter(ds: seq<Delivery>, d: Delivery, event: nat)
    ensures AttemptsOf(ds + [d], event) == AttemptsOf(ds, event) + if d.event == event then 1 else 0
  {
    assert (ds + [d])[..|ds|] == ds;
  }

  /** An attempt counts once; nothing else counts. */
  lemma CountMoves(h: Hooks, id: nat, a: Attempt)
    ensures id < |h.events| ==>
      && |DeliverEvent(h, id, a).events| == |h.events|
      && DeliverEvent(h, id, a).events[id].attemptCount == h.events[id].attemptCount + if Attempts(h, id) then 1 else 0
  {
  }

  lemma MaxAttemptsFixed(h: Hooks, id: nat, a: Attempt, c: nat)
    ensures EndpointOf(DeliverEvent(h, id, a), c).maxAttempts == EndpointOf(h, c).maxAttempts
  {
  }

  lemma DeliverKeepsBudget(s: Sim, id: nat, a: Attempt)
    requires WithinBudget(s) && MayAttempt(s.h)
    ensures WithinBudget(s.(h := DeliverEvent(s.h, id, a))) && MayAttempt(DeliverEvent(s.h, id, a))
  {
    hide DeliverEvent, Classify;
    var h' := DeliverEvent(s.h, id, a);
    DeliveryFrame(s.h, id, a);
    forall c: nat ensures EndpointOf(h', c).maxAttempts == EndpointOf(s.h, c).maxAttempts {
      MaxAttemptsFixed(s.h, id, a, c);
    }
    forall i | 0 <= i < |h'.events| ensures EventInBudget(h', h'.events[i], s.requeues[i]) {
      assert EventInBudget(s.h, s.h.events[i], s.requeues[i]);
      if i == id {
        if Attempts(s.h, id) {
          DeadIff(s.h, id, a);
        } else {
          IdleRow(s.h, id, a);
        }
      }
    }
  }

  /** Without an attempt the row is only paused, or failed for lack of a callback. */
  lemma IdleRow(h: Hooks, id: nat, a: Attempt)
    requires id < |h.events| && !Attempts(h, id)
    ensures var e, e' := h.events[id], DeliverEvent(h, id, a).events[id];
      && e'.attemptCount == e.attemptCount
      && (e' == e || (e.status.EvPending? && ((e'.status.EvPending? && e'.paused) || e'.status.EvFailed?)))
  {
  }

  lemma DeliverKeepsExact(s: Sim, id: nat, a: Attempt)
    requires DeliveriesExact(s)
    ensures DeliveriesExact(s.(h := DeliverEvent(s.h, id, a)))
  {
    hide DeliverEvent, Classify;
    var h' := DeliverEvent(s.h, id, a);
    DeliveryFrame(s.h, id, a);
    if id < |s.h.events| {
      if Attempts(s.h, id) {
        DeadIff(s.h, id, a);
        assert h'.deliveries[..|s.h.deliveries|] == s.h.deliveries;
      } else {
        IdleRow(s.h, id, a);
      }
    }
  }

  // ---------------------------------------------------------------- every step

  lemma CreateKeeps(s: Sim, e: OutboxEvent)
    requires HookInv(s) && EventSound(e) && e.attemptCount == 0 && !e.status.EvDead?
    requires !e.status.EvDelivered?
    ensures HookInv(Sim(s.h.(events := s.h.events + [e]), s.requeues + [0], s.reopened + [0]))
  {
    var h' := s.h.(events := s.h.events + [e]);
    assert forall c: nat :: EndpointOf(h', c) == EndpointOf(s.h, c);
    assert forall c: nat :: BreakerSound(s.h, c) ==> BreakerSound(h', c);
    NeverAttempted(s.h.deliveries, |s.h.events|);
    forall i | 0 <= i < |h'.events| ensures EventInBudget(h', h'.events[i], (s.requeues + [0])[i]) {
      if i < |s.h.events| {
        assert EventInBudget(s.h, s.h.events[i], s.requeues[i]);
      }
    }
  }

  lemma {:induction false} NeverAttempted(ds: seq<Delivery>, event: nat)
    requires forall k :: 0 <= k < |ds| ==> ds[k].event < event
    ensures AttemptsOf(ds, event) == 0 && DeliveredOf(ds, event) == 0
    decreases |ds|
  {
    if ds != [] {
      NeverAttempted(ds[..|ds| - 1], event);
    }
  }

  /** Putting events back by hand keeps everything, at the price of one more attempt each. */
  lemma RequeueKeeps(s: Sim, t: Sim)
    requires HookInv(s) && Counted(t) && t.h == s.h.(events := t.h.events) && |t.h.events| == |s.h.events|
    requires forall i :: 0 <= i < |s.h.events| ==>
      (t.h.events[i] == s.h.events[i] && t.requeues[i] == s.requeues[i] && t.reopened[i] == s.reopened[i])
      || WasRequeued(s, t, i)
    ensures HookInv(t)
  {
    assert forall c: nat :: EndpointOf(t.h, c) == EndpointOf(s.h, c);
    assert forall c: nat :: BreakerSound(s.h, c) ==> BreakerSound(t.h, c);
    forall i | 0 <= i < |s.h.events|
      ensures EventSound(t.h.events[i]) && EventInBudget(t.h, t.h.events[i], t.requeues[i])
      ensures t.h.events[i].attemptCount == s.h.events[i].attemptCount
      ensures DeliveredOf(t.h.deliveries, i) == t.reopened[i] + Reopens(t, i)
    {
      assert EventSound(s.h.events[i]) && EventInBudget(s.h, s.h.events[i], s.requeues[i]);
    }
  }

  ghost predicate WasRequeued(s: Sim, t: Sim, i: nat)
    requires Counted(s) && Counted(t) && i < |s.h.events| == |t.h.events|
  {
    && t.requeues[i] == s.requeues[i] + 1
    && t.reopened[i] == s.reopened[i] + Reopens(s, i)
    && exists at :: t.h.events[i] == s.h.events[i].(status := EvPending, nextAttemptAt := Some(at), paused := false)
  }

  lemma StepKeepsHooks(s: Sim, op: HookOp)
    requires HookInv(s)
    ensures HookInv(HookStep(s, op))
  {
    hide DeliverEvent;
    match op
    case Create(company, raw, url, now) =>
      CreateKeeps(s, CreatedEvent(company, raw, url, now, EndpointOf(s.h, company).status.CompanyActive?));
    case CreateDirect(company, raw, url, now, active) => CreateKeeps(s, PendingEvent(company, raw, url, now, active));
    case Deliver(id, a) =>
      DeliverKeepsEvents(s.h, id, a);
      DeliverKeepsBreakers(s.h, id, a);
      DeliverKeepsNumbers(s.h, id, a);
      DeliverKeepsBudget(s, id, a);
      DeliverKeepsExact(s, id, a);
    case Retry(_, _) => RetryKeeps(s, op);
    case Replay(_, _) => ReplayKeeps(s, op);
    case SetStatus(company, status) => StatusKeeps(s, company, status);
  }

  lemma RetryKeeps(s: Sim, op: HookOp)
    requires HookInv(s) && op.Retry?
    ensures HookInv(HookStep(s, op))
  {
    hide HookInv;
    SameLength(s);
    var t := HookStep(s, op);
    if op.id < |s.h.events| {
      assert WasRequeued(s, t, op.id);
      RequeueKeeps(s, t);
    }
  }

  lemma ReplayKeeps(s: Sim, op: HookOp)
    requires HookInv(s) && op.Replay?
    ensures HookInv(HookStep(s, op))
  {
    var t := HookStep(s, op);
    if !op.filter.dryRun {
      forall i | 0 <= i < |s.h.events| && IsReplayed(s.h.events[i], op.filter) ensures WasRequeued(s, t, i) {
        assert EventSound(s.h.events[i]);
        assert t.h.events[i] == s.h.events[i].(status := EvPending, nextAttemptAt := Some(op.now), paused := false);
      }
      RequeueKeeps(s, t);
    }
  }

  lemma SameLength(s: Sim)
    requires HookInv(s)
    ensures Counted(s)
  {
  }

  lemma StatusKeeps(s: Sim, company: nat, status: CompanyStatus)
    requires HookInv(s)
    ensures HookInv(HookStep(s, SetStatus(company, status)))
  {
    var h' := SetEndpoint(s.h, company, EndpointOf(s.h, company).(status := status));
    forall c: nat ensures BreakerSound(h', c) && EndpointOf(h', c).maxAttempts == EndpointOf(s.h, c).maxAttempts {
      assert BreakerSound(s.h, c);
    }
    forall i | 0 <= i < |h'.events| ensures EventInBudget(h', h'.events[i], s.requeues[i]) {
      assert EventInBudget(s.h, s.h.events[i], s.requeues[i]);
    }
  }

  // ---------------------------------------------------------------- runs

  function HookRun(s: Sim, ops: seq<HookOp>): (r: Sim)
    requires Counted(s)
    ensures Counted(r)
    decreases |ops|
  {
    if ops == [] then s
    else
      StepLengths(s, ops[0]);
      HookRun(HookStep(s, ops[0]), ops[1..])
  }

  lemma StepLengths(s: Sim, op: HookOp)
    requires Counted(s)
    ensures Counted(HookStep(s, op)) && |HookStep(s, op).h.events| >= |s.h.events|
    ensures forall i :: 0 <= i < |s.h.events| ==> SameMessage(s.h.events[i], HookStep(s, op).h.events[i])
  {
    hide DeliverEvent;
    if op.Deliver? {
      DeliveryFrame(s.h, op.id, op.attempt);
    }
  }

  ghost predicate FreshHooks(s: Sim) {
    s.h.events == [] && s.h.deliveries == [] && s.requeues == [] && s.reopened == [] && MayAttempt(s.h)
    && forall c: nat ::
      EndpointOf(s.h, c).failures == 0 && !EndpointOf(s.h, c).open && EndpointOf(s.h, c).openedAt.None?
  }

  /** Every run of the outbox, from empty tables, keeps every invariant. */
  lemma {:induction false} RunKeepsHooks(s: Sim, ops: seq<HookOp>)
    requires HookInv(s)
    ensures HookInv(HookRun(s, ops))
    decreases |ops|
  {
    hide HookInv, HookStep;
    SameLength(s);
    if ops != [] {
      StepKeepsHooks(s, ops[0]);
      StepLengths(s, ops[0]);
      RunKeepsHooks(HookStep(s, ops[0]), ops[1..]);
    }
  }

  lemma FreshHooksHold(s: Sim)
    requires FreshHooks(s)
    ensures HookInv(s)
  {
  }

  /** No run changes what an event announces, to whom, or when it was created. */
  lemma {:induction false} BodiesAreFrozen(s: Sim, ops: seq<HookOp>, i: nat)
    requires Counted(s) && i < |s.h.events|
    ensures i < |HookRun(s, ops).h.events| && SameMessage(s.h.events[i], HookRun(s, ops).h.events[i])
    decreases |ops|
  {
    hide HookStep;
    if ops != [] {
      StepLengths(s, ops[0]);
      BodiesAreFrozen(HookStep(s, ops[0]), ops[1..], i);
    }
  }

  /** Without manual requeues an event completes at most min(max, 9) attempts, and exactly that many when DEAD. */
  lemma BudgetIsExact(s: Sim, ops: seq<HookOp>, i: nat)
    requires FreshHooks(s) && i < |HookRun(s, ops).h.events| && HookRun(s, ops).requeues[i] == 0
    ensures var h := HookRun(s, ops).h;
      && AttemptsOf(h.deliveries, i) <= BudgetOf(h, h.events[i])
      && (h.events[i].status.EvDead? ==> AttemptsOf(h.deliveries, i) == BudgetOf(h, h.events[i]))
  {
    hide HookRun;
    FreshHooksHold(s);
    RunKeepsHooks(s, ops);
    var r := HookRun(s, ops);
    assert EventInBudget(r.h, r.h.events[i], r.requeues[i]);
  }

  /**
   * An event was DELIVERED exactly as often as retries found it so, plus once while it is; so "at most once"
   * holds exactly when no retry found it DELIVERED, or one did and it was not delivered again. Replays of DEAD
   * events and retries of undelivered ones never matter.
   */
  lemma DeliveredAtMostOnceIff(s: Sim, ops: seq<HookOp>, i: nat)
    requires FreshHooks(s) && i < |HookRun(s, ops).h.events|
    ensures var r := HookRun(s, ops);
      var delivered := r.h.events[i].status.EvDelivered?;
      && DeliveredOf(r.h.deliveries, i) == r.reopened[i] + (if delivered then 1 else 0)
      && (DeliveredOf(r.h.deliveries, i) <= 1 <==> r.reopened[i] == 0 || (r.reopened[i] == 1 && !delivered))
  {
    hide HookRun;
    FreshHooksHold(s);
    RunKeepsHooks(s, ops);
  }

  /** A held event changes exactly when it is itself retried; reactivating its company does not wake it. */
  lemma PausedUntilRetried(s: Sim, op: HookOp, i: nat)
    requires HookInv(s) && i < |s.h.events| && s.h.events[i].paused
    ensures HookStep(s, op).h.events[i] != s.h.events[i] <==> op.Retry? && op.id == i
    ensures op.Retry? && op.id == i ==>
      var e := HookStep(s, op).h.events[i];
      e.status.EvPending? && !e.paused && e.nextAttemptAt == Some(op.now)
  {
    hide DeliverEvent;
    assert EventSound(s.h.events[i]);
    if op.Deliver? {
      DeliveryFrame(s.h, op.id, op.attempt);
      if op.id == i {
        PausedIsSkipped(s.h, i, op.attempt);
      }
    }
  }

  lemma PausedIsSkipped(h: Hooks, i: nat, a: Attempt)
    requires i < |h.events| && h.events[i].paused
    ensures DeliverEvent(h, i, a) == h
  {
  }

  /** A manual retry of a DELIVERED event announces it again, so the bound on deliveries is reached. */
  lemma RetryRedelivers(h: Hooks, id: nat, now: int, a: Attempt)
    requires id < |h.events| && h.events[id].status.EvDelivered? && h.events[id].callbackUrl.Some?
    requires EndpointOf(h, h.events[id].company).status.CompanyActive? && Classify(a).outcome.OutDelivered?
    ensures var h' := DeliverEvent(RetryEvent(h, id, now), id, a);
      && h'.events[id].status.EvDelivered?
      && DeliveredOf(h'.deliveries, id) == DeliveredOf(h.deliveries, id) + 1
  {
  }

  // ---------------------------------------------------------------- one tick of the sweeper

  /** A tick hands each event it took to delivery once: attempted, held back, or failed for lack of a callback. */
  lemma {:induction false} TickHandlesEachOnce(h: Hooks, ids: seq<nat>, attempts: nat -> Attempt, i: nat)
    requires Distinct(ids) && i < |h.events|
    requires forall k :: 0 <= k < |ids| ==>
      ids[k] < |h.events| && h.events[ids[k]].status.EvPending? && !h.events[ids[k]].paused
    ensures var h' := DeliverAll(h, ids, attempts);
      && |h'.events| == |h.events|
      && (i !in ids ==> h'.events[i] == h.events[i])
      && (i in ids ==>
            || h'.events[i].attemptCount == h.events[i].attemptCount + 1
            || h'.events[i] == h.events[i].(paused := true, nextAttemptAt := None)
            || h'.events[i] == h.events[i].(status := EvFailed, reason := Some("NO_CALLBACK_URL")))
    decreases |ids|
  {
    hide DeliverEvent;
    if ids != [] {
      var n := |ids| - 1;
      var init := ids[..n];
      assert Distinct(init);
      assert ids == init + [ids[n]];
      TickHandlesEachOnce(h, init, attempts, i);
      if ids[n] != i {
        TickHandlesEachOnce(h, init, attempts, ids[n]);
      }
      var mid := DeliverAll(h, init, attempts);
      DeliveryFrame(mid, ids[n], attempts(n));
      HandledOnce(mid, ids[n], attempts(n));
    }
  }

  lemma HandledOnce(h: Hooks, id: nat, a: Attempt)
    requires id < |h.events| && h.events[id].status.EvPending? && !h.events[id].paused
    ensures var e, e' := h.events[id], DeliverEvent(h, id, a).events[id];
      || e'.attemptCount == e.attemptCount + 1
      || e' == e.(paused := true, nextAttemptAt := None)
      || e' == e.(status := EvFailed, reason := Some("NO_CALLBACK_URL"))
  {
  }
}
