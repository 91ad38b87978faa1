/**
 * The payment tables and the delivery side of the outbox together: matching, review and expiry create the rows
 * (apply-decision.ts, resolve.service.ts, expiry.service.ts), delivery works them off (delivery.service.ts).
 */
module Announcements {
  import opened Prelude
  import opened MatchTypes
  import opened Outbox
  import opened Tables
  import opened Invariants
  import opened Steps
  import opened Stability
  import opened EventBirth
  import opened WebhookDelivery
  import opened WebhookRuns

  // ---------------------------------------------------------------- new rows are creation steps

  /** The creation step of the outbox that stores this row. */
  function CreationOf(e: OutboxEvent): HookOp {
    if e.callbackUrl.Some? then CreateDirect(e.company, e.raw, e.callbackUrl.value, e.createdAt, !e.paused)
    else Create(e.company, e.raw, None, e.createdAt)
  }

  function Creations(rows: seq<OutboxEvent>): (r: seq<HookOp>)
    ensures |r| == |rows|
  {
    MapSeq(CreationOf, rows)
  }

  function Zeros(n: nat): seq<nat> { seq(n, _ => 0) }

  /** The outbox with these rows appended, none of them touched yet. */
  function WithRows(s: Sim, rows: seq<OutboxEvent>): Sim {
    Sim(s.h.(events := s.h.events + rows), s.requeues + Zeros(|rows|), s.reopened + Zeros(|rows|))
  }

  lemma CreationStores(s: Sim, e: OutboxEvent)
    requires Counted(s) && JustCreated(e)
    ensures HookStep(s, CreationOf(e)) == WithRows(s, [e])
  {
    assert Zeros(1) == [0];
  }

  /** The creation steps of a list of rows append exactly these rows. */
  lemma {:induction false} CreationsStore(s: Sim, rows: seq<OutboxEvent>)
    requires Counted(s) && forall i :: 0 <= i < |rows| ==> JustCreated(rows[i])
    ensures HookRun(s, Creations(rows)) == WithRows(s, rows)
    decreases |rows|
  {
    hide HookStep, JustCreated, CreationOf;
    if rows == [] {
      assert s.requeues + [] == s.requeues && s.reopened + [] == s.reopened && s.h.events + [] == s.h.events;
      assert WithRows(s, rows) == s;
    } else {
      CreationStores(s, rows[0]);
      CreationsHead(rows);
      RowsAppend(s, rows[0], rows[1..]);
      hide WithRows, Creations;
      CreationsStore(WithRows(s, [rows[0]]), rows[1..]);
      assert [rows[0]] + rows[1..] == rows;
      assert HookRun(s, Creations(rows)) == HookRun(HookStep(s, CreationOf(rows[0])), Creations(rows[1..]));
    }
  }

  lemma CreationsHead(rows: seq<OutboxEvent>)
    requires rows != []
    ensures Creations(rows)[0] == CreationOf(rows[0]) && Creations(rows)[1..] == Creations(rows[1..])
  {
    hide CreationOf;
  }

  lemma RowsAppend(s: Sim, e: OutboxEvent, rest: seq<OutboxEvent>)
    ensures WithRows(WithRows(s, [e]), rest) == WithRows(s, [e] + rest)
    ensures Counted(s) ==> Counted(WithRows(s, [e]))
  {
    var next, all := WithRows(s, [e]), WithRows(s, [e] + rest);
    assert s.h.events + [e] + rest == s.h.events + ([e] + rest);
    assert Zeros(1) + Zeros(|rest|) == Zeros(1 + |rest|);
    assert s.requeues + Zeros(1) + Zeros(|rest|) == s.requeues + (Zeros(1) + Zeros(|rest|));
    assert s.reopened + Zeros(1) + Zeros(|rest|) == s.reopened + (Zeros(1) + Zeros(|rest|));
  }

  /** Every step of the payment tables keeps its outbox rows and appends rows that are just created. */
  lemma StepAppends(db: Db, op: Op)
    requires Inv(db) && ValidOp(op)
    ensures var db' := Step(db, op);
      && db.events <= db'.events && Inv(db')
      && forall i :: |db.events| <= i < |db'.events| ==> JustCreated(db'.events[i])
  {
    hide JustCreated, Step;
    StepKeeps(db, op);
    if op.Void? {
      VoidAppendsNothing(db, op);
    } else {
      StepEvolves(db, op);
    }
  }

  lemma VoidAppendsNothing(db: Db, op: Op)
    requires op.Void?
    ensures Step(db, op).events == db.events
  {
  }

  // ---------------------------------------------------------------- the joint system

  datatype Joint = Joint(db: Db, sim: Sim)

  /** A step of the payment tables, or one of the outbox that creates nothing. */
  datatype JointOp = Pay(op: Op) | Work(hook: HookOp)

  predicate ValidJointOp(op: JointOp) {
    match op
    case Pay(p) => ValidOp(p)
    case Work(hook) => !hook.Create? && !hook.CreateDirect?
  }

  function NewRows(a: Db, b: Db): seq<OutboxEvent> {
    if |a.events| <= |b.events| then b.events[|a.events|..] else []
  }

  function JointStep(j: Joint, op: JointOp): (r: Joint)
    requires Counted(j.sim)
    ensures Counted(r.sim)
  {
    match op
    case Pay(p) =>
      var db' := Step(j.db, p);
      Joint(db', HookRun(j.sim, Creations(NewRows(j.db, db'))))
    case Work(hook) =>
      StepLengths(j.sim, hook);
      j.(sim := HookStep(j.sim, hook))
  }

  function JointRun(j: Joint, ops: seq<JointOp>): (r: Joint)
    requires Counted(j.sim)
    ensures Counted(r.sim)
    decreases |ops|
  {
    if ops == [] then j else JointRun(JointStep(j, ops[0]), ops[1..])
  }

  /** Row by row the two sides speak of the same event: who is told what, and since when. */
  ghost predicate InStep(db: Db, s: Sim) {
    |db.events| == |s.h.events| && forall i :: 0 <= i < |db.events| ==> SameMessage(db.events[i], s.h.events[i])
  }

  /** An event with a callback URL is not given up before an attempt was made. */
  predicate NotGivenUp(e: OutboxEvent) {
    e.callbackUrl.Some? && !e.status.EvPending? ==> e.attemptCount >= 1
  }

  ghost predicate NoneGivenUp(s: Sim) {
    forall i :: 0 <= i < |s.h.events| ==> NotGivenUp(s.h.events[i])
  }

  ghost predicate JointInv(j: Joint) {
    Inv(j.db) && HookInv(j.sim) && InStep(j.db, j.sim) && NoneGivenUp(j.sim)
  }

  lemma WorkGivesNothingUp(s: Sim, op: HookOp)
    requires Counted(s) && NoneGivenUp(s) && !op.Create? && !op.CreateDirect?
    ensures NoneGivenUp(HookStep(s, op))
  {
    hide DeliverEvent;
    if op.Deliver? {
      DeliverGivesNothingUp(s.h, op.id, op.attempt);
    }
  }

  lemma DeliverGivesNothingUp(h: Hooks, id: nat, a: Attempt)
    requires forall i :: 0 <= i < |h.events| ==> NotGivenUp(h.events[i])
    ensures var h' := DeliverEvent(h, id, a); forall i :: 0 <= i < |h'.events| ==> NotGivenUp(h'.events[i])
  {
    hide DeliverEvent, Classify;
    DeliveryFrame(h, id, a);
    if Attempts(h, id) {
      DeadIff(h, id, a);
    } else if id < |h.events| {
      IdleWithCallback(h, id, a);
    }
  }

  lemma IdleWithCallback(h: Hooks, id: nat, a: Attempt)
    requires id < |h.events| && !Attempts(h, id)
    ensures var e, e' := h.events[id], DeliverEvent(h, id, a).events[id];
      && e'.attemptCount == e.attemptCount && e'.callbackUrl == e.callbackUrl
      && (e.callbackUrl.Some? ==> e'.status == e.status)
  {
  }

  lemma WorkCreatesNothing(s: Sim, op: HookOp)
    requires Counted(s) && !op.Create? && !op.CreateDirect?
    ensures |HookStep(s, op).h.events| == |s.h.events|
  {
    hide DeliverEvent;
    if op.Deliver? {
      DeliveryFrame(s.h, op.id, op.attempt);
    }
  }

  lemma RowsJoin(a: Db, b: Db, s: Sim)
    requires InStep(a, s) && NoneGivenUp(s) && Counted(s) && a.events <= b.events
    requires forall i :: |a.events| <= i < |b.events| ==> JustCreated(b.events[i])
    ensures var t := WithRows(s, NewRows(a, b)); InStep(b, t) && NoneGivenUp(t)
  {
  }

  lemma CountedOf(s: Sim)
    requires HookInv(s)
    ensures Counted(s)
  {
  }

  /** Every step of the joint system keeps both sides sound, in step, and nothing given up untried. */
  lemma JointStepKeeps(j: Joint, op: JointOp)
    requires JointInv(j) && ValidJointOp(op)
    ensures Counted(j.sim) && JointInv(JointStep(j, op))
  {
    hide Inv, HookInv, Step, HookStep, NotGivenUp, SameMessage, JustCreated;
    CountedOf(j.sim);
    match op
    case Pay(p) =>
      StepAppends(j.db, p);
      var rows := NewRows(j.db, Step(j.db, p));
      CreationsStore(j.sim, rows);
      RunKeepsHooks(j.sim, Creations(rows));
      RowsJoin(j.db, Step(j.db, p), j.sim);
    case Work(hook) =>
      StepKeepsHooks(j.sim, hook);
      StepLengths(j.sim, hook);
      WorkCreatesNothing(j.sim, hook);
      WorkGivesNothingUp(j.sim, hook);
      WorkKeepsMessages(j.db, j.sim, HookStep(j.sim, hook));
  }

  lemma WorkKeepsMessages(db: Db, s: Sim, t: Sim)
    requires InStep(db, s) && |t.h.events| == |s.h.events|
    requires forall i :: 0 <= i < |s.h.events| ==> SameMessage(s.h.events[i], t.h.events[i])
    ensures InStep(db, t)
  {
  }

  lemma {:induction false} JointRunKeeps(j: Joint, ops: seq<JointOp>)
    requires JointInv(j) && forall i :: 0 <= i < |ops| ==> ValidJointOp(ops[i])
    ensures Counted(j.sim) && JointInv(JointRun(j, ops))
    decreases |ops|
  {
    hide JointInv, JointStep, ValidJointOp;
    CountedIn(j);
    if ops != [] {
      JointStepKeeps(j, ops[0]);
      JointRunKeeps(JointStep(j, ops[0]), ops[1..]);
    }
  }

  lemma CountedIn(j: Joint)
    requires JointInv(j)
    ensures Counted(j.sim)
  {
  }

  // ---------------------------------------------------------------- why a row is held back

  /** The step created the row while its company was not active, or tried to deliver it while it was not. */
  ghost predicate HeldAt(j: Joint, op: JointOp, e: nat)
    requires Counted(j.sim)
  {
    match op
    case Pay(p) =>
      |j.db.events| <= e < |Step(j.db, p).events| && !ActiveFor(p)(Step(j.db, p).events[e].company)
    case Work(hook) =>
      && hook.Deliver? && hook.id == e < |j.sim.h.events|
      && EndpointOf(j.sim.h, j.sim.h.events[e].company).status != CompanyActive
  }

  lemma WorkHolds(s: Sim, op: HookOp, e: nat)
    requires Counted(s) && e < |HookStep(s, op).h.events| == |s.h.events|
    requires HookStep(s, op).h.events[e].paused && !s.h.events[e].paused
    ensures op.Deliver? && op.id == e && EndpointOf(s.h, s.h.events[e].company).status != CompanyActive
  {
  }

  lemma PayHolds(j: Joint, p: Op, e: nat)
    requires JointInv(j) && ValidOp(p) && Counted(j.sim)
    requires var k := JointStep(j, Pay(p));
      e < |k.sim.h.events| && k.sim.h.events[e].paused && (e < |j.sim.h.events| ==> !j.sim.h.events[e].paused)
    ensures HeldAt(j, Pay(p), e)
  {
    hide Inv, HookInv, Step, HookStep, Truthful, ActiveFor, ClockOf, JustCreated;
    StepAppends(j.db, p);
    StepTells(j.db, p);
    var db' := Step(j.db, p);
    CreationsStore(j.sim, NewRows(j.db, db'));
    assert JointStep(j, Pay(p)).sim == WithRows(j.sim, NewRows(j.db, db'));
    assert Born(db'.events[e], ActiveFor(p)(db'.events[e].company), ClockOf(p));
  }

  lemma {:induction false} RunSnoc(j: Joint, ops: seq<JointOp>)
    requires Counted(j.sim) && ops != []
    ensures JointRun(j, ops) == JointStep(JointRun(j, ops[..|ops| - 1]), ops[|ops| - 1])
    decreases |ops|
  {
    hide JointStep;
    if |ops| > 1 {
      var rest := ops[1..];
      RunSnoc(JointStep(j, ops[0]), rest);
      assert ops[..|ops| - 1][1..] == rest[..|rest| - 1];
    } else {
      assert ops[1..] == [] && ops[..0] == [];
    }
  }

  /** Somewhere along the run the row was held back for a company that was not active. */
  ghost predicate WasHeld(j: Joint, ops: seq<JointOp>, e: nat)
    requires Counted(j.sim)
  {
    exists k :: 0 <= k < |ops| && HeldAt(JointRun(j, ops[..k]), ops[k], e)
  }

  lemma HeldBefore(j: Joint, ops: seq<JointOp>, e: nat)
    requires Counted(j.sim) && ops != [] && WasHeld(j, ops[..|ops| - 1], e)
    ensures WasHeld(j, ops, e)
  {
    hide HeldAt, JointRun;
    var init := ops[..|ops| - 1];
    var k :| 0 <= k < |init| && HeldAt(JointRun(j, init[..k]), init[k], e);
    assert init[..k] == ops[..k] && init[k] == ops[k];
  }

  /** A row that was not held back at the start is held back at the end only if that happened. */
  lemma {:induction false} HeldHasReason(j: Joint, ops: seq<JointOp>, e: nat)
    requires JointInv(j) && Counted(j.sim) && forall i :: 0 <= i < |ops| ==> ValidJointOp(ops[i])
    requires e < |j.sim.h.events| ==> !j.sim.h.events[e].paused
    requires e < |JointRun(j, ops).sim.h.events| && JointRun(j, ops).sim.h.events[e].paused
    ensures WasHeld(j, ops, e)
    decreases |ops|
  {
    hide JointInv, JointStep, JointRun, HeldAt, WasHeld, ValidJointOp;
    EmptyRun(j);
    if ops != [] {
      var init, last := ops[..|ops| - 1], ops[|ops| - 1];
      RunSnoc(j, ops);
      JointRunKeeps(j, init);
      var before := JointRun(j, init);
      if e < |before.sim.h.events| && before.sim.h.events[e].paused {
        HeldHasReason(j, init, e);
        HeldBefore(j, ops, e);
      } else {
        StepHolds(before, last, e);
        assert WasHeld(j, ops, e) by { HeldLast(j, ops, e); }
      }
    }
  }

  lemma EmptyRun(j: Joint)
    requires Counted(j.sim)
    ensures JointRun(j, []) == j
  {
  }

  lemma HeldLast(j: Joint, ops: seq<JointOp>, e: nat)
    requires Counted(j.sim) && ops != [] && HeldAt(JointRun(j, ops[..|ops| - 1]), ops[|ops| - 1], e)
    ensures WasHeld(j, ops, e)
  {
  }

  lemma StepHolds(j: Joint, op: JointOp, e: nat)
    requires JointInv(j) && ValidJointOp(op) && Counted(j.sim)
    requires var k := JointStep(j, op);
      e < |k.sim.h.events| && k.sim.h.events[e].paused && (e < |j.sim.h.events| ==> !j.sim.h.events[e].paused)
    ensures HeldAt(j, op, e)
  {
    hide JointInv, HookStep, Step;
    match op
    case Pay(p) => PayHolds(j, p, e);
    case Work(hook) =>
      WorkCreatesNothing(j.sim, hook);
      WorkHolds(j.sim, hook, e);
  }

  // ---------------------------------------------------------------- what becomes of an announcement

  /**
   * From empty tables, over every interleaving of payment steps and outbox work: a VERIFIED order has a row in the
   * outbox that tells its own merchant, at its own callback URL, that it was paid. That row is due, or held back since
   * its company was not active at its creation or at a delivery, or was attempted at least once; its attempts are
   * numbered and within the budget, plus one for each time it was put back by hand, and it was DELIVERED as often as
   * retries found it so, plus once while it is.
   */
  lemma VerifiedIsWorkedOff(s: Sim, ops: seq<JointOp>, i: nat)
    requires FreshHooks(s) && forall k :: 0 <= k < |ops| ==> ValidJointOp(ops[k])
    requires var j := JointRun(Joint(EMPTY_DB, s), ops); i < |j.db.orders| && j.db.orders[i].status.Verified?
    ensures var j := JointRun(Joint(EMPTY_DB, s), ops);
      exists e :: 0 <= e < |j.sim.h.events| && IsWorkedOff(j, i, e)
        && (j.sim.h.events[e].paused ==> WasHeld(Joint(EMPTY_DB, s), ops, e))
  {
    hide Inv, HookInv, JointStep, JointRun, IsWorkedOff, InStep, NoneGivenUp, FreshHooks, JustCreated, WasHeld;
    var start := Joint(EMPTY_DB, s);
    StartHolds(s);
    JointRunKeeps(start, ops);
    var j := JointRun(start, ops);
    var e := AnnouncementOf(j.db, i);
    HandledRow(j, i, e);
    if j.sim.h.events[e].paused {
      assert s.h.events == [] by { StartIsEmpty(s); }
      HeldHasReason(start, ops, e);
    }
  }

  lemma StartIsEmpty(s: Sim)
    requires FreshHooks(s)
    ensures s.h.events == []
  {
  }

  /** What the outbox says of event `e` about order `i`. */
  ghost predicate IsWorkedOff(j: Joint, i: nat, e: nat)
    requires i < |j.db.orders| && e < |j.sim.h.events| && Counted(j.sim)
  {
    var row := j.sim.h.events[e];
    && Announces(row, i, j.db.orders[i])
    && (if row.status.EvPending? then row.paused || row.nextAttemptAt.Some? else row.attemptCount >= 1)
    && row.attemptCount == AttemptsOf(j.sim.h.deliveries, e)
    && row.attemptCount <= BudgetOf(j.sim.h, row) + j.sim.requeues[e]
    && DeliveredOf(j.sim.h.deliveries, e) == j.sim.reopened[e] + (if row.status.EvDelivered? then 1 else 0)
  }

  lemma StartHolds(s: Sim)
    requires FreshHooks(s)
    ensures JointInv(Joint(EMPTY_DB, s))
  {
    hide Inv, HookInv;
    EmptyHolds();
    FreshHooksHold(s);
  }

  lemma AnnouncementOf(db: Db, i: nat) returns (e: nat)
    requires Inv(db) && i < |db.orders| && db.orders[i].status.Verified?
    ensures e < |db.events| && Announces(db.events[e], i, db.orders[i])
  {
    e :| e < |db.events| && Announces(db.events[e], i, db.orders[i]);
  }

  lemma HandledRow(j: Joint, i: nat, e: nat)
    requires JointInv(j) && Counted(j.sim) && i < |j.db.orders| && e < |j.db.events|
    requires Announces(j.db.events[e], i, j.db.orders[i])
    ensures e < |j.sim.h.events| && IsWorkedOff(j, i, e)
  {
    hide Inv;
    var row := j.sim.h.events[e];
    assert SameMessage(j.db.events[e], row);
    assert EventSound(row) && NotGivenUp(row);
    assert EventInBudget(j.sim.h, row, j.sim.requeues[e]);
    assert DeliveredOf(j.sim.h.deliveries, e) == j.sim.reopened[e] + Reopens(j.sim, e);
  }
}
