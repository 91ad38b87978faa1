/** The payment tables as mutable state, and the row writes of apply-decision.ts performed in sequence. */
module Store {
  import opened Prelude
  import opened MatchTypes
  import opened Outbox
  import opened Tables
  import opened Engine

  /** The unique index on (company, order reference). */
  predicate RefIsFree(orders: seq<Order>, row: Order) {
    forall j :: 0 <= j < |orders| ==> orders[j].company != row.company || orders[j].orderRef != row.orderRef
  }

  class PaymentTables {
    var orders: seq<Order>
    var sms: seq<Sms>
    var verifs: map<nat, Verification>
    var nextVerif: nat
    var reviews: seq<Review>
    var events: seq<OutboxEvent>

    function State(): Db
      reads this
    {
      Db(orders, sms, verifs, nextVerif, reviews, events)
    }

    constructor ()
      ensures State() == EMPTY_DB
    {
      orders, sms, verifs, nextVerif, reviews, events := [], [], map[], 0, [], [];
    }

    /** What the database does when a transaction aborts. */
    method Rollback(saved: Db)
      modifies this
      ensures State() == saved
    {
      orders, sms, verifs, nextVerif := saved.orders, saved.sms, saved.verifs, saved.nextVerif;
      reviews, events := saved.reviews, saved.events;
    }

    method SetSmsStatus(id: nat, status: MatchStatus, flags: set<Flag>)
      requires id < |sms|
      modifies this`sms
      ensures State() == SetSms(old(State()), id, status, flags)
    {
      sms := sms[id := sms[id].(matchStatus := status, flags := sms[id].flags + flags)];
    }

    method InsertReview(
        company: nat, smsId: Option<nat>, order: Option<nat>, reason: ReviewReason, candidates: seq<ReviewCandidate>)
      modifies this`reviews
      ensures State() == AddReview(old(State()), company, smsId, order, reason, candidates)
    {
      // A duplicate OPEN review is expected under rescans and is not added.
      if !OpenReviewExists(State(), smsId, order) {
        reviews := reviews + [Review(company, smsId, order, reason, candidates, ReviewOpen)];
      }
    }

    method CreateEvent(e: OutboxEvent)
      modifies this`events
      ensures State() == AddEvent(old(State()), e)
    {
      events := events + [e];
    }

    /** Inserts an order; false when (company, order reference) or the partial unique index refuses it. */
    method InsertOrder(row: Order) returns (ok: bool)
      modifies this`orders
      ensures ok <==> RefIsFree(old(orders), row) && IndexAdmits(old(orders), |old(orders)|, row)
      ensures orders == if ok then old(orders) + [row] else old(orders)
    {
      ok := RefIsFree(orders, row) && IndexAdmits(orders, |orders|, row);
      if ok {
        orders := orders + [row];
      }
    }

    /** Updates one order row; false when the partial unique index refuses it. */
    method UpdateOrder(i: nat, row: Order) returns (ok: bool)
      requires i < |orders|
      modifies this`orders
      ensures ok <==> IndexAdmits(old(orders), i, row)
      ensures orders == if ok then old(orders)[i := row] else old(orders)
    {
      ok := IndexAdmits(orders, i, row);
      if ok {
        orders := orders[i := row];
      }
    }

    /** Verification, order, SMS and event; false on the first unique violation, for the caller to roll back. */
    method ApplyVerified(c: Crediting) returns (ok: bool)
      requires InTables(State(), c)
      modifies this
      ensures ok <==> ApplyCredit(old(State()), c).Some?
      ensures ok ==> State() == ApplyCredit(old(State()), c).value
    {
      var o, s := orders[c.order], sms[c.sms];
      if OrderTaken(State(), c.order) || SmsTaken(State(), c.sms) {
        return false;
      }
      verifs := verifs[nextVerif :=
        Verification(o.company, c.order, c.sms, c.verifiedBy, c.confidence, c.delta, c.wasLate, c.now)];
      nextVerif := nextVerif + 1;
      ok := UpdateOrder(c.order, CreditedRow(o, c.now));
      if ok {
        SetSmsStatus(c.sms, StMatched, c.flags);
        CreateEvent(CreditEvent(o, s, c));
      }
    }

    method ApplyReviewed(id: nat, reason: ReviewReason, candidates: seq<ReviewCandidate>, env: Env)
      requires id < |sms|
      modifies this
      ensures State() == ApplyReview(old(State()), id, reason, candidates, env)
    {
      var single := SingleCandidate(candidates);
      var company := sms[id].company;
      InsertReview(company, Some(id), single, reason, candidates);
      SetSmsStatus(id, StInReview, {});
      if env.settings.notifyOnReview && single.Some? && single.value < |orders| {
        var o := orders[single.value];
        CreateEvent(PendingEvent(
          company, ReviewRequired(single.value, o.orderRef, reason, o.expected), o.callbackUrl, env.now,
          env.companyStatus.CompanyActive?));
      }
    }

    /** The effects of one decision; false on a unique violation. */
    method Apply(id: nat, d: Decision, env: Env) returns (ok: bool)
      requires id < |sms|
      requires d.DVerified? ==> d.orderId < |orders|
      modifies this
      ensures ok <==> ApplyDecision(old(State()), id, d, env).Some?
      ensures ok ==> State() == ApplyDecision(old(State()), id, d, env).value
    {
      ok := true;
      match d
      case DVerified(_, _, _, _, _, _) =>
        ok := ApplyVerified(CreditOf(id, d, env));
      case DReview(reason, candidates) =>
        ApplyReviewed(id, reason, candidates, env);
      case DDuplicate(_) =>
        InsertReview(sms[id].company, Some(id), None, DuplicateTxnId, []);
        SetSmsStatus(id, StDuplicateTxn, {DuplicateTxn});
      case DGuardRejected(_) =>
        SetSmsStatus(id, StIgnored, {});
      case DUnmatched =>
        SetSmsStatus(id, StUnmatched, {});
    }
  }
}
