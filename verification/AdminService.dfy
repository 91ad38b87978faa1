/** Manual decisions over the tables (resolve.service.ts, void-verification.controller.ts). */
module AdminService {
  import opened Prelude
  import opened MatchTypes
  import opened Tables
  import opened Engine
  import opened Lifecycle
  import opened Invariants
  import opened Store

  /** Link an SMS to an order by hand: re-validated inside the transaction, rolled back on a unique violation. */
  method Link(t: PaymentTables, review: nat, smsId: nat, orderId: nat, now: int) returns (outcome: ResolveOutcome)
    modifies t
    ensures (t.State(), outcome) == ResolveLink(old(t.State()), review, smsId, orderId, now)
  {
    if review >= |t.reviews| {
      return ReviewRefused(ReviewNotFound);
    }
    if !t.reviews[review].status.ReviewOpen? {
      return ReviewRefused(ReviewClosed);
    }
    var company := t.reviews[review].company;
    if orderId >= |t.orders| || smsId >= |t.sms|
      || t.orders[orderId].company != company || t.sms[smsId].company != company
    {
      return ReviewRefused(SubjectNotFound);
    }
    if !t.orders[orderId].status.Pending? && !t.orders[orderId].status.Expired? {
      return ReviewRefused(OrderNotVerifiable);
    }
    var saved := t.State();
    var ok := t.ApplyVerified(LinkCredit(saved, smsId, orderId, now));
    if !ok {
      t.Rollback(saved);
      return ReviewRefused(AlreadyVerified);
    }
    t.reviews := t.reviews[review := t.reviews[review].(status := ReviewResolved)];
    return ReviewDone;
  }

  method DismissReview(t: PaymentTables, review: nat, notAPayment: bool) returns (outcome: ResolveOutcome)
    modifies t
    ensures (t.State(), outcome) == ResolveDismiss(old(t.State()), review, notAPayment)
  {
    if review >= |t.reviews| {
      return ReviewRefused(ReviewNotFound);
    }
    if !t.reviews[review].status.ReviewOpen? {
      return ReviewRefused(ReviewClosed);
    }
    var subject := t.reviews[review].sms;
    t.reviews := t.reviews[review := t.reviews[review].(status := ReviewDismissed)];
    if subject.Some? && subject.value < |t.sms| {
      t.SetSmsStatus(subject.value, if notAPayment then StIgnored else StUnmatched, {});
    }
    return ReviewDone;
  }

  /** Deletes the verification, then gives the order back; a TrxID claimed meanwhile undoes the deletion. */
  method VoidCredit(t: PaymentTables, id: nat) returns (outcome: VoidOutcome)
    modifies t
    ensures (t.State(), outcome) == VoidVerification(old(t.State()), id)
  {
    if id !in t.verifs {
      return VerificationNotFound;
    }
    var v := t.verifs[id];
    if v.order >= |t.orders| || v.sms >= |t.sms| {
      return VerificationNotFound;
    }
    var saved := t.State();
    t.verifs := t.verifs - {id};
    var ok := t.UpdateOrder(v.order, t.orders[v.order].(status := Pending, verifiedAt := None));
    if !ok {
      t.Rollback(saved);
      return VoidConflict;
    }
    t.SetSmsStatus(v.sms, StUnmatched, {});
    return Voided(v.order, v.sms);
  }

  // ---------------------------------------------------------------- what they mean

  /** Under the invariants a verification can always be voided: its order already holds the TrxID it goes back to. */
  lemma VoidAlwaysGoesThrough(db: Db, id: nat)
    requires Inv(db) && id in db.verifs
    ensures VoidVerification(db, id).1 == Voided(db.verifs[id].order, db.verifs[id].sms)
    ensures id !in VoidVerification(db, id).0.verifs
  {
    var v := db.verifs[id];
    var row := db.orders[v.order].(status := Pending, verifiedAt := None);
    assert Joined(db, v);
    forall j | 0 <= j < |db.orders| && j != v.order ensures !LiveClash(db.orders[j], row) {
      assert !LiveClash(db.orders[j], db.orders[v.order]);
    }
  }

  /** A link succeeds exactly when nothing else holds the order, the SMS or the TrxID. */
  lemma LinkSucceedsIff(db: Db, review: nat, smsId: nat, orderId: nat, now: int)
    requires Inv(db)
    ensures ResolveLink(db, review, smsId, orderId, now).1.ReviewDone? <==>
      && review < |db.reviews| && db.reviews[review].status.ReviewOpen?
      && orderId < |db.orders| && smsId < |db.sms|
      && db.orders[orderId].company == db.sms[smsId].company == db.reviews[review].company
      && (db.orders[orderId].status.Pending? || db.orders[orderId].status.Expired?)
      && !SmsTaken(db, smsId)
      && IndexAdmits(db.orders, orderId, CreditedRow(db.orders[orderId], now))
  {
    if orderId < |db.orders| && OrderTaken(db, orderId) {
      var k :| k in db.verifs && db.verifs[k].order == orderId;
      assert Joined(db, db.verifs[k]);
    }
  }

  /** Voiding right after crediting by hand restores the order, but leaves the announcement in the outbox. */
  lemma VoidUndoesCredit(db: Db, c: Crediting)
    requires Inv(db) && InTables(db, c) && CreditAdmitted(db, c)
    requires db.orders[c.order].status.Pending? && db.orders[c.order].verifiedAt.None?
    requires IndexAdmits(db.orders, c.order, db.orders[c.order])
    ensures var credited := ApplyCredit(db, c).value;
      var (db', outcome) := VoidVerification(credited, db.nextVerif);
      && outcome == Voided(c.order, c.sms)
      && db'.orders == db.orders && db'.verifs == db.verifs && db'.reviews == db.reviews
      && db'.events == credited.events && |db'.events| == |db.events| + 1
      && db'.sms == db.sms[c.sms := db.sms[c.sms].(matchStatus := StUnmatched, flags := db.sms[c.sms].flags + c.flags)]
  {
    var credited := ApplyCredit(db, c).value;
    var (db', outcome) := VoidVerification(credited, db.nextVerif);
    assert db.nextVerif !in db.verifs;
    assert db'.verifs == db.verifs;
    assert db'.orders == db.orders;
    var f := db.sms[c.sms].flags + c.flags;
    assert f + {} == f;
  }
}
