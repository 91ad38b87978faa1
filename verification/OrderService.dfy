/** The order lifecycle as the services run it over the tables (payments.service.ts, expiry.service.ts). */
module OrderService {
  import opened Prelude
  import opened MatchTypes
  import opened Outbox
  import opened Tables
  import opened Engine
  import opened Lifecycle
  import opened Invariants
  import opened ReverseCredit
  import opened ArrivalOrder
  import opened Store
  import opened MatchingService

  // ---------------------------------------------------------------- payments.service.ts

  /** The status the response carries: the row is read again only when the reverse match verified. */
  method Register(t: PaymentTables, req: RegisterRequest, policy: RegisterPolicy, env: Env)
    returns (outcome: RegisterOutcome, answered: Option<PaymentStatus>)
    modifies t
    ensures t.State() == RegisterAndMatch(old(t.State()), req, policy, env)
    ensures outcome == RegisterOrder(old(t.State()), req, env.settings, policy, env.now).1
    ensures outcome.Created? || outcome.AlreadyThere? ==>
      outcome.id < |t.orders| && answered == Some(t.orders[outcome.id].status)
    ensures outcome.Refused? ==> answered.None?
  {
    hide ReverseMatch;
    var invalid := ValidateRequest(req, env.settings);
    if invalid.Some? {
      return Refused(invalid.value), None;
    }
    var row := NewOrder(req, policy, env.now);
    var existing := FindOrder(t.orders, req.company, req.orderRef, |t.orders|);
    var inserted := t.InsertOrder(row);
    if inserted {
      assert existing.None?;
      var id := |t.orders| - 1;
      ghost var created := t.State();
      var verified := ReverseMatchOrder(t, id, env);
      ReverseKeepsLengths(created, id, env);
      if verified.Some? {
        return Created(id), Some(t.orders[id].status);
      }
      UnverifiedKeepsOrders(created, id, env);
      return Created(id), Some(row.status);
    }
    if existing.Some? {
      if IsIdenticalOrder(t.orders[existing.value], req) {
        return AlreadyThere(existing.value), Some(t.orders[existing.value].status);
      }
      return Refused(DuplicateOrderId), None;
    }
    return Refused(DuplicateTransactionId), None;
  }

  lemma {:induction false} LoopKeepsLengths(db: Db, rows: seq<nat>, env: Env)
    requires forall k :: 0 <= k < |rows| ==> rows[k] < |db.sms|
    ensures ReverseLoop(db, rows, env).ReverseDone? ==> |ReverseLoop(db, rows, env).db.orders| == |db.orders|
    decreases |rows|
  {
    hide DecideAndApply;
    if rows != [] {
      DecideKeepsLengths(db, rows[0], env);
      match DecideAndApply(db, rows[0], env)
      case Conflict =>
      case Committed(db', d) =>
        if !d.DVerified? {
          LoopKeepsLengths(db', rows[1..], env);
        }
    }
  }

  lemma ReverseKeepsLengths(db: Db, order: nat, env: Env)
    ensures |ReverseMatch(db, order, env).0.orders| == |db.orders|
  {
    hide ReverseLoop;
    var rows := ReverseRows(db, order, env);
    if rows.Some? {
      LoopKeepsLengths(db, rows.value, env);
    }
  }

  /**
   * An order is created exactly when the request is valid, its reference is unused and no live order holds its
   * TrxID; and the two refusals for taken keys are told apart by the reference.
   */
  lemma RegisterOutcomeIff(db: Db, req: RegisterRequest, settings: Settings, policy: RegisterPolicy, now: int)
    ensures var (db', outcome) := RegisterOrder(db, req, settings, policy, now);
      var row := NewOrder(req, policy, now);
      var valid := ValidateRequest(req, settings).None?;
      && (outcome.Created? <==> valid && RefIsFree(db.orders, row) && IndexAdmits(db.orders, |db.orders|, row))
      && (outcome.Created? ==> outcome.id == |db.orders| && db' == db.(orders := db.orders + [row]))
      && (!outcome.Created? ==> db' == db)
      && (outcome == Refused(DuplicateTransactionId) <==>
            valid && RefIsFree(db.orders, row) && exists j :: 0 <= j < |db.orders| && LiveClash(db.orders[j], row))
      && (outcome.AlreadyThere? || outcome == Refused(DuplicateOrderId) <==> valid && !RefIsFree(db.orders, row))
  {
  }

  /** Repeating an accepted registration later answers with the same order and changes nothing. */
  lemma RegisterIsIdempotent(
      db: Db, later: Db, req: RegisterRequest, settings: Settings, policy: RegisterPolicy, now: int, again: int)
    requires RegisterOrder(db, req, settings, policy, now).1.Created?
    requires OrderRefsUnique(later)
    requires var id := RegisterOrder(db, req, settings, policy, now).1.id;
      && id < |later.orders| && later.orders[id].company == req.company && later.orders[id].orderRef == req.orderRef
      && later.orders[id].trxId == RequestTrx(req) && later.orders[id].expected == Received(req.amount)
      && later.orders[id].provider == req.provider
    ensures RegisterOrder(later, req, settings, policy, again)
      == (later, AlreadyThere(RegisterOrder(db, req, settings, policy, now).1.id))
  {
  }

  /** An order is cancelled exactly when it is found PENDING, and corrected exactly when it may still take the TrxID. */
  lemma CancelAndCorrectIff(db: Db, company: nat, orderRef: string, trxId: Option<string>, now: int)
    requires OrderRefsUnique(db)
    ensures var cancel, correct := CancelOrder(db, company, orderRef), CorrectTrxId(db, company, orderRef, trxId, now);
      && (cancel.1.OrderChanged? <==>
            exists i :: 0 <= i < |db.orders| && HasRef(db.orders[i], company, orderRef) && db.orders[i].status.Pending?)
      && (correct.1.OrderChanged? <==>
            exists i :: 0 <= i < |db.orders| && HasRef(db.orders[i], company, orderRef) && TakesTrx(db, i, trxId, now))
      && (!correct.1.OrderChanged? ==> correct.0 == db)
      && (!cancel.1.OrderChanged? ==> cancel.0 == db)
  {
  }

  predicate HasRef(o: Order, company: nat, orderRef: string) {
    o.company == company && o.orderRef == orderRef
  }

  predicate TakesTrx(db: Db, i: nat, trxId: Option<string>, now: int)
    requires i < |db.orders|
  {
    trxId.Some? && MayCorrect(db.orders[i], now) && IndexAdmits(db.orders, i, Corrected(db.orders[i], trxId))
  }

  method Cancel(t: PaymentTables, company: nat, orderRef: string) returns (outcome: OrderOutcome)
    modifies t
    ensures (t.State(), outcome) == CancelOrder(old(t.State()), company, orderRef)
  {
    var at := FindOrder(t.orders, company, orderRef, |t.orders|);
    if at.None? {
      return OrderRefused(OrderNotFound);
    }
    if !t.orders[at.value].status.Pending? {
      return OrderRefused(OrderNotPending);
    }
    t.orders := t.orders[at.value := t.orders[at.value].(status := Cancelled)];
    return OrderChanged(at.value);
  }

  method CorrectTransactionId(t: PaymentTables, company: nat, orderRef: string, trxId: Option<string>, env: Env)
    returns (outcome: OrderOutcome, verifiedNow: bool)
    modifies t
    ensures outcome == CorrectTrxId(old(t.State()), company, orderRef, trxId, env.now).1
    ensures var corrected := CorrectTrxId(old(t.State()), company, orderRef, trxId, env.now).0;
      if outcome.OrderChanged?
      then (t.State(), verifiedNow)
        == (ReverseMatch(corrected, outcome.id, env).0, ReverseMatch(corrected, outcome.id, env).1.Some?)
      else t.State() == corrected == old(t.State()) && !verifiedNow
  {
    var at := FindOrder(t.orders, company, orderRef, |t.orders|);
    if at.None? {
      return OrderRefused(OrderNotFound), false;
    }
    var o := t.orders[at.value];
    if !MayCorrect(o, env.now) {
      return OrderRefused(OrderNotPending), false;
    }
    if trxId.None? {
      return OrderRefused(BadTrxId), false;
    }
    var ok := t.UpdateOrder(at.value, Corrected(o, trxId));
    if !ok {
      return OrderRefused(TrxIdClaimed), false;
    }
    var verified := ReverseMatchOrder(t, at.value, env);
    return OrderChanged(at.value), verified.Some?;
  }

  // ---------------------------------------------------------------- expiry.service.ts

  method ExpireOne(t: PaymentTables, i: nat, policy: ExpiryPolicy) returns (flipped: bool)
    requires i < |t.orders|
    modifies t
    ensures (t.State(), flipped) == ExpireOrder(old(t.State()), i, policy)
  {
    var o := t.orders[i];
    if !o.status.Pending? {
      return false;
    }
    t.orders := t.orders[i := o.(status := Expired)];
    if o.company in policy.notify {
      t.CreateEvent(ExpiryEvent(i, o, policy));
    }
    return true;
  }

  method SweepOrders(t: PaymentTables, policy: ExpiryPolicy) returns (count: nat)
    modifies t
    ensures (t.State(), count) == SweepExpired(old(t.State()), policy)
  {
    hide ExpireOrder, ExpireAll, DueOrders;
    var due := Take(DueOrders(t.orders, policy.now, |t.orders|), EXPIRY_BATCH);
    ghost var end := ExpireAll(t.State(), due, policy);
    count := 0;
    var k := 0;
    assert due[0..] == due;
    while k < |due|
      invariant 0 <= k <= |due|
      invariant |t.orders| == |old(t.orders)|
      invariant ExpireAll(t.State(), due[k..], policy).0 == end.0
      invariant count + ExpireAll(t.State(), due[k..], policy).1 == end.1
    {
      assert due[k..][0] == due[k] && due[k..][1..] == due[k + 1..];
      ExpireAllStep(t.State(), due[k..], policy);
      var flipped := ExpireOne(t, due[k], policy);
      count := count + if flipped then 1 else 0;
      k := k + 1;
    }
    ExpireAllStep(t.State(), due[k..], policy);
  }

  lemma ExpireAllStep(db: Db, ids: seq<nat>, policy: ExpiryPolicy)
    requires forall k :: 0 <= k < |ids| ==> ids[k] < |db.orders|
    ensures ids == [] ==> ExpireAll(db, ids, policy) == (db, 0)
    ensures ids != [] ==>
      var (next, flipped) := ExpireOrder(db, ids[0], policy);
      && |next.orders| == |db.orders|
      && ExpireAll(db, ids, policy).0 == ExpireAll(next, ids[1..], policy).0
      && ExpireAll(db, ids, policy).1 == ExpireAll(next, ids[1..], policy).1 + if flipped then 1 else 0
  {
  }

  predicate Increasing(ids: seq<nat>) {
    forall j, k :: 0 <= j < k < |ids| ==> ids[j] < ids[k]
  }

  lemma ExpireOneExact(db: Db, i: nat, policy: ExpiryPolicy)
    requires i < |db.orders| && db.orders[i].status.Pending?
    ensures var (db', flipped) := ExpireOrder(db, i, policy);
      flipped && db'.orders == db.orders[i := db.orders[i].(status := Expired)]
  {
  }

  /** Expiring a list of pending orders flips each of them once and nothing else. */
  lemma {:induction false} ExpireAllExact(db: Db, ids: seq<nat>, policy: ExpiryPolicy)
    requires Increasing(ids)
    requires forall k :: 0 <= k < |ids| ==> ids[k] < |db.orders| && db.orders[ids[k]].status.Pending?
    ensures var (db', n) := ExpireAll(db, ids, policy);
      && n == |ids| && |db'.orders| == |db.orders|
      && forall i: nat :: i < |db.orders| ==>
        db'.orders[i] == if i in ids then db.orders[i].(status := Expired) else db.orders[i]
    decreases |ids|
  {
    hide ExpireOrder;
    if ids != [] {
      var next := ExpireOrder(db, ids[0], policy).0;
      ExpireOneExact(db, ids[0], policy);
      ExpireAllExact(next, ids[1..], policy);
      assert ids == [ids[0]] + ids[1..];
      assert ids[0] !in ids[1..];
    }
  }

  /** PENDING past its time. */
  predicate IsOverdue(o: Order, now: int) {
    o.status == Pending && o.expiresAt < now
  }

  /** The orders that differ between two tables. */
  ghost function Changed(a: Db, b: Db): set<nat>
    requires |a.orders| == |b.orders|
  {
    set i: nat | i < |a.orders| && b.orders[i] != a.orders[i]
  }

  /**
   * One sweep turns overdue orders EXPIRED and changes no other row; it reports how many, at most five hundred, and
   * when they were fewer, none is left overdue.
   */
  lemma SweepExact(db: Db, policy: ExpiryPolicy)
    ensures var (b, n) := SweepExpired(db, policy);
      && |b.orders| == |db.orders|
      && (forall i: nat :: i < |db.orders| && b.orders[i] != db.orders[i] ==>
            IsOverdue(db.orders[i], policy.now) && b.orders[i] == db.orders[i].(status := Expired))
      && n == |Changed(db, b)| && n <= 500
      && (n < 500 ==> forall i: nat :: i < |db.orders| ==> !IsOverdue(b.orders[i], policy.now))
  {
    hide SweepExpired, ExpireAll, Changed;
    var due := DueOrders(db.orders, policy.now, |db.orders|);
    var batch := Take(due, EXPIRY_BATCH);
    assert |batch| < 500 ==> batch == due;
    assert forall i: nat :: i in batch ==> i < |db.orders| && IsOverdue(db.orders[i], policy.now);
    SweepIs(db, policy);
    ExpireAllExact(db, batch, policy);
    ChangedIs(db, SweepExpired(db, policy).0, batch);
  }

  lemma SweepIs(db: Db, policy: ExpiryPolicy)
    ensures SweepExpired(db, policy)
      == ExpireAll(db, Take(DueOrders(db.orders, policy.now, |db.orders|), EXPIRY_BATCH), policy)
  {
  }

  lemma ChangedIs(a: Db, b: Db, ids: seq<nat>)
    requires |a.orders| == |b.orders| && Increasing(ids)
    requires forall k :: 0 <= k < |ids| ==> ids[k] < |a.orders| && a.orders[ids[k]].status == Pending
    requires forall i: nat :: i < |a.orders| ==>
      b.orders[i] == if i in ids then a.orders[i].(status := Expired) else a.orders[i]
    ensures |Changed(a, b)| == |ids|
  {
    CountIncreasing(ids);
    assert Changed(a, b) == Elements(ids);
  }

  ghost function Elements(ids: seq<nat>): set<nat> { set k | 0 <= k < |ids| :: ids[k] }

  lemma {:induction false} CountIncreasing(ids: seq<nat>)
    requires Increasing(ids)
    ensures |Elements(ids)| == |ids|
    decreases |ids|
  {
    if ids != [] {
      var init, last := ids[..|ids| - 1], ids[|ids| - 1];
      CountIncreasing(init);
      assert last !in Elements(init);
      assert Elements(ids) == Elements(init) + {last} by {
        assert ids == init + [last];
      }
    }
  }

  /** The expiry events of a batch: one for each order whose company wants them, in the order of the sweep. */
  function ExpiryEvents(orders: seq<Order>, ids: seq<nat>, policy: ExpiryPolicy): seq<OutboxEvent>
    requires forall k :: 0 <= k < |ids| ==> ids[k] < |orders|
  {
    if ids == [] then []
    else
      (if orders[ids[0]].company in policy.notify then [ExpiryEvent(ids[0], orders[ids[0]], policy)] else [])
      + ExpiryEvents(orders, ids[1..], policy)
  }

  lemma {:induction false} ExpiryEventsSame(a: seq<Order>, b: seq<Order>, ids: seq<nat>, policy: ExpiryPolicy)
    requires |a| == |b| && forall k :: 0 <= k < |ids| ==> ids[k] < |a| && a[ids[k]] == b[ids[k]]
    ensures ExpiryEvents(a, ids, policy) == ExpiryEvents(b, ids, policy)
    decreases |ids|
  {
    if ids != [] {
      ExpiryEventsSame(a, b, ids[1..], policy);
    }
  }

  /** A sweep announces exactly the orders it flipped, for the companies that asked. */
  lemma {:induction false} ExpireAllAnnounces(db: Db, ids: seq<nat>, policy: ExpiryPolicy)
    requires Increasing(ids)
    requires forall k :: 0 <= k < |ids| ==> ids[k] < |db.orders| && db.orders[ids[k]].status.Pending?
    ensures ExpireAll(db, ids, policy).0.events == db.events + ExpiryEvents(db.orders, ids, policy)
    decreases |ids|
  {
    if ids != [] {
      var next := ExpireOrder(db, ids[0], policy).0;
      ExpireOneExact(db, ids[0], policy);
      ExpireAllAnnounces(next, ids[1..], policy);
      ExpiryEventsSame(next.orders, db.orders, ids[1..], policy);
    }
  }

  /** The event tells that this order expired, with its reference, amount and time. */
  predicate TellsExpiry(e: OutboxEvent, i: nat, o: Order) {
    e.raw == PaymentExpired(i, o.orderRef, o.expected, o.expiresAt)
  }

  ghost predicate ToldOnce(events: seq<OutboxEvent>, i: nat, o: Order) {
    exists k :: 0 <= k < |events| && TellsExpiry(events[k], i, o)
      && forall j :: 0 <= j < |events| && j != k ==> !TellsExpiry(events[j], i, o)
  }

  ghost predicate IsToldOf(e: OutboxEvent, orders: seq<Order>, ids: seq<nat>, policy: ExpiryPolicy) {
    exists i: nat ::
      i in ids && i < |orders| && orders[i].company in policy.notify && TellsExpiry(e, i, orders[i])
  }

  lemma ExpiryStep(orders: seq<Order>, ids: seq<nat>, policy: ExpiryPolicy)
    requires ids != [] && forall k :: 0 <= k < |ids| ==> ids[k] < |orders|
    ensures ExpiryEvents(orders, ids, policy) ==
      (if orders[ids[0]].company in policy.notify then [ExpiryEvent(ids[0], orders[ids[0]], policy)] else [])
      + ExpiryEvents(orders, ids[1..], policy)
    ensures TellsExpiry(ExpiryEvent(ids[0], orders[ids[0]], policy), ids[0], orders[ids[0]])
  {
  }

  /** Every event of a sweep tells of an order of its batch, whose company asked. */
  lemma {:induction false} ExpiryEventsTellOf(orders: seq<Order>, ids: seq<nat>, policy: ExpiryPolicy)
    requires forall k :: 0 <= k < |ids| ==> ids[k] < |orders|
    ensures forall k :: 0 <= k < |ExpiryEvents(orders, ids, policy)| ==>
      IsToldOf(ExpiryEvents(orders, ids, policy)[k], orders, ids, policy)
    decreases |ids|
  {
    hide ExpiryEvents, ExpiryEvent, TellsExpiry;
    if ids != [] {
      var all, more := ExpiryEvents(orders, ids, policy), ExpiryEvents(orders, ids[1..], policy);
      ExpiryStep(orders, ids, policy);
      ExpiryEventsTellOf(orders, ids[1..], policy);
      forall k | 0 <= k < |all| ensures IsToldOf(all[k], orders, ids, policy) {
        if |all| > |more| && k == 0 {
          assert all[0] == ExpiryEvent(ids[0], orders[ids[0]], policy) && ids[0] in ids;
        } else {
          assert all[k] == more[k - (|all| - |more|)];
          assert IsToldOf(all[k], orders, ids[1..], policy);
          var i: nat :| i in ids[1..] && i < |orders| && orders[i].company in policy.notify
            && TellsExpiry(all[k], i, orders[i]);
          assert i in ids;
        }
      }
    } else {
      assert ExpiryEvents(orders, [], policy) == [] by { NoExpiryEvents(orders, policy); }
    }
  }

  lemma NoExpiryEvents(orders: seq<Order>, policy: ExpiryPolicy)
    ensures ExpiryEvents(orders, [], policy) == []
  {
  }

  /** And each order of the batch whose company asked is told of exactly once. */
  lemma {:induction false} ExpiryToldOnce(orders: seq<Order>, ids: seq<nat>, policy: ExpiryPolicy, i: nat)
    requires Increasing(ids) && forall k :: 0 <= k < |ids| ==> ids[k] < |orders|
    requires i in ids && orders[i].company in policy.notify
    ensures ToldOnce(ExpiryEvents(orders, ids, policy), i, orders[i])
    decreases |ids|
  {
    hide ExpiryEvents, ExpiryEvent, TellsExpiry;
    var all, more := ExpiryEvents(orders, ids, policy), ExpiryEvents(orders, ids[1..], policy);
    ExpiryStep(orders, ids, policy);
    assert ids == [ids[0]] + ids[1..];
    if i == ids[0] {
      ExpiryEventsTellOf(orders, ids[1..], policy);
      forall j | 0 < j < |all| ensures !TellsExpiry(all[j], i, orders[i]) {
        assert all[j] == more[j - 1] && IsToldOf(more[j - 1], orders, ids[1..], policy);
        OtherExpiry(all[j], orders, ids[1..], policy, i);
      }
      assert TellsExpiry(all[0], i, orders[i]);
    } else {
      ExpiryToldOnce(orders, ids[1..], policy, i);
      if TellsExpiry(ExpiryEvent(ids[0], orders[ids[0]], policy), i, orders[i]) {
        TellsOneExpiry(ExpiryEvent(ids[0], orders[ids[0]], policy), ids[0], orders[ids[0]], i, orders[i]);
        assert false;
      }
      ToldOnceBehind(all, more, i, orders[i]);
    }
  }

  lemma TellsOneExpiry(e: OutboxEvent, i: nat, o: Order, j: nat, p: Order)
    requires TellsExpiry(e, i, o) && TellsExpiry(e, j, p)
    ensures i == j
  {
  }

  lemma OtherExpiry(e: OutboxEvent, orders: seq<Order>, ids: seq<nat>, policy: ExpiryPolicy, i: nat)
    requires IsToldOf(e, orders, ids, policy) && i !in ids && i < |orders|
    ensures !TellsExpiry(e, i, orders[i])
  {
  }

  lemma ToldOnceBehind(all: seq<OutboxEvent>, more: seq<OutboxEvent>, i: nat, o: Order)
    requires |more| <= |all| <= |more| + 1 && all[|all| - |more|..] == more && ToldOnce(more, i, o)
    requires |all| > |more| ==> !TellsExpiry(all[0], i, o)
    ensures ToldOnce(all, i, o)
  {
    hide TellsExpiry;
    var shift := |all| - |more|;
    var k :| 0 <= k < |more| && TellsExpiry(more[k], i, o)
      && forall j :: 0 <= j < |more| && j != k ==> !TellsExpiry(more[j], i, o);
    assert all[k + shift] == more[k];
    forall j | 0 <= j < |all| && j != k + shift ensures !TellsExpiry(all[j], i, o) {
      if j >= shift {
        assert all[j] == more[j - shift];
      }
    }
  }
}
