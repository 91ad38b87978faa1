/**
 * The correctness invariants of the payment tables (invariants.service.ts), with the facts that make
 * them inductive, and the proof that every single-row write used by the steps keeps them.
 */
module Invariants {
  import opened Prelude
  import opened MatchTypes
  import opened Outbox
  import opened Tables
  import opened Engine
  import opened Lifecycle

  // ---------------------------------------------------------------- the invariants

  /** A verification joins a VERIFIED order and an SMS of one company. */
  ghost predicate Joined(db: Db, v: Verification) {
    && v.order < |db.orders| && v.sms < |db.sms|
    && db.orders[v.order].company == v.company && db.sms[v.sms].company == v.company
    && db.orders[v.order].status.Verified?
  }

  /** The delta is exact, and an automatic verification is backed by the money its pass requires. */
  ghost predicate Backed(o: Order, s: Sms, v: Verification) {
    && v.delta == Received(s.amount) - o.expected
    && 0.0 < v.confidence <= 1.0
    && (!v.verifiedBy.ManualAdmin? ==>
        s.amount.Some? && s.amount.value > 0 && o.expected <= s.amount.value + o.tolerance)
    && (v.verifiedBy.ExactTxnId? ==> o.trxId.Some? && o.trxId == s.trxId)
    && (v.verifiedBy.HeuristicAmountWindow? ==>
        o.trxId.None? && !v.wasLate && Abs(o.expected - s.amount.value) <= o.tolerance)
  }

  ghost predicate VerificationsSound(db: Db) {
    forall k :: k in db.verifs ==>
      k < db.nextVerif && Joined(db, db.verifs[k])
      && Backed(db.orders[db.verifs[k].order], db.sms[db.verifs[k].sms], db.verifs[k])
  }

  /** One verification per order and per SMS. */
  ghost predicate OncePerRow(db: Db) {
    forall j, k :: j in db.verifs && k in db.verifs && j != k ==>
      db.verifs[j].order != db.verifs[k].order && db.verifs[j].sms != db.verifs[k].sms
  }

  ghost predicate VerifiedHasVerification(db: Db) {
    forall i :: 0 <= i < |db.orders| && db.orders[i].status.Verified? ==> OrderTaken(db, i)
  }

  ghost predicate MatchedHasVerification(db: Db) {
    forall s :: 0 <= s < |db.sms| && db.sms[s].matchStatus.StMatched? ==> SmsTaken(db, s)
  }

  ghost predicate LiveTrxUnique(db: Db) {
    forall i, j :: 0 <= i < |db.orders| && 0 <= j < |db.orders| && i != j ==>
      !LiveClash(db.orders[i], db.orders[j])
  }

  /** Two verifications whose SMS carry the same TrxID in one company. */
  ghost predicate SameTrx(db: Db, v: Verification, w: Verification) {
    && v.sms < |db.sms| && w.sms < |db.sms| && v.company == w.company
    && db.sms[v.sms].trxId.Some? && db.sms[v.sms].trxId == db.sms[w.sms].trxId
  }

  /** A TrxID is on the SMS of at most one heuristic and at most one exact verification. */
  ghost predicate TrxSpendingBound(db: Db) {
    forall j, k :: j in db.verifs && k in db.verifs && j != k && SameTrx(db, db.verifs[j], db.verifs[k]) ==>
      db.verifs[j].verifiedBy != db.verifs[k].verifiedBy || db.verifs[j].verifiedBy.ManualAdmin?
  }

  ghost predicate OrderRefsUnique(db: Db) {
    forall i, j :: 0 <= i < j < |db.orders| && db.orders[i].company == db.orders[j].company ==>
      db.orders[i].orderRef != db.orders[j].orderRef
  }

  predicate BothOpen(a: Review, b: Review) {
    a.status.ReviewOpen? && b.status.ReviewOpen?
  }

  ghost predicate OpenReviewsUnique(db: Db) {
    forall i, j :: 0 <= i < j < |db.reviews| && BothOpen(db.reviews[i], db.reviews[j]) ==>
      db.reviews[i].sms != db.reviews[j].sms || db.reviews[i].order != db.reviews[j].order
  }

  /** The event tells the merchant's endpoint that this very order was paid. */
  predicate Announces(e: OutboxEvent, order: nat, o: Order) {
    && e.raw.PaymentVerified? && e.raw.order == order && e.company == o.company && e.callbackUrl == Some(o.callbackUrl)
    && e.raw.orderRef == o.orderRef && e.raw.trxId == o.trxId && e.raw.expected == o.expected
    && o.verifiedAt == Some(e.raw.verifiedAt)
  }

  /** Every VERIFIED order has its payment.verified row in the outbox. */
  ghost predicate VerifiedIsAnnounced(db: Db) {
    forall i :: 0 <= i < |db.orders| && db.orders[i].status.Verified? ==>
      exists e :: 0 <= e < |db.events| && Announces(db.events[e], i, db.orders[i])
  }

  /** No step of the payment tables touches an outbox row it created; only delivery does. */
  ghost predicate EventsJustCreated(db: Db) {
    forall i :: 0 <= i < |db.events| ==> JustCreated(db.events[i])
  }

  ghost predicate ClientHashesUnique(db: Db) {
    forall i, j :: 0 <= i < j < |db.sms| && db.sms[i].company == db.sms[j].company ==>
      db.sms[i].clientHash != db.sms[j].clientHash
  }

  ghost predicate Inv(db: Db) {
    && VerificationsSound(db)
    && OncePerRow(db)
    && VerifiedHasVerification(db)
    && MatchedHasVerification(db)
    && LiveTrxUnique(db)
    && TrxSpendingBound(db)
    && OrderRefsUnique(db)
    && OpenReviewsUnique(db)
    && VerifiedIsAnnounced(db)
    && EventsJustCreated(db)
    && ClientHashesUnique(db)
  }

  // ---------------------------------------------------------------- single-row writes keep them

  lemma SetSmsKeepsVerifications(db: Db, id: nat, status: MatchStatus, flags: set<Flag>)
    requires VerificationsSound(db) && OncePerRow(db) && TrxSpendingBound(db)
    requires id < |db.sms|
    ensures var db' := SetSms(db, id, status, flags);
      VerificationsSound(db') && OncePerRow(db') && TrxSpendingBound(db')
  {
    var db' := SetSms(db, id, status, flags);
    assert forall i :: 0 <= i < |db.sms| ==>
        (db'.sms[i].trxId == db.sms[i].trxId && db'.sms[i].amount == db.sms[i].amount
        && db'.sms[i].company == db.sms[i].company);
  }

  lemma SetSmsKeeps(db: Db, id: nat, status: MatchStatus, flags: set<Flag>)
    requires Inv(db) && id < |db.sms|
    requires status.StMatched? ==> SmsTaken(db, id)
    ensures Inv(SetSms(db, id, status, flags))
  {
    hide Announces, Backed, JustCreated;
    SetSmsKeepsVerifications(db, id, status, flags);
    var db' := SetSms(db, id, status, flags);
    forall s | 0 <= s < |db'.sms| && db'.sms[s].matchStatus.StMatched? ensures SmsTaken(db', s) {
      assert SmsTaken(db, s);
    }
  }

  lemma AddReviewKeeps(
      db: Db, company: nat, sms: Option<nat>, order: Option<nat>, reason: ReviewReason,
      candidates: seq<ReviewCandidate>)
    requires Inv(db)
    ensures Inv(AddReview(db, company, sms, order, reason, candidates))
  {
    hide Announces, Backed, JustCreated;
  }

  lemma CloseReviewKeeps(db: Db, review: nat, status: ReviewStatus)
    requires Inv(db) && review < |db.reviews| && !status.ReviewOpen?
    ensures Inv(CloseReview(db, review, status))
  {
    hide Announces, Backed, JustCreated;
  }

  lemma AddEventKeeps(db: Db, e: OutboxEvent)
    requires Inv(db) && JustCreated(e)
    ensures Inv(AddEvent(db, e))
  {
    hide Announces, Backed, JustCreated;
    var db' := AddEvent(db, e);
    forall i | 0 <= i < |db'.orders| && db'.orders[i].status.Verified?
      ensures exists k :: 0 <= k < |db'.events| && Announces(db'.events[k], i, db'.orders[i])
    {
      var k :| 0 <= k < |db.events| && Announces(db.events[k], i, db.orders[i]);
      assert db'.events[k] == db.events[k];
    }
  }

  /** Changing an order between statuses other than VERIFIED, or its TrxID, when the index admits it. */
  lemma SetOrderKeeps(db: Db, i: nat, row: Order)
    requires Inv(db) && i < |db.orders|
    requires !db.orders[i].status.Verified? && !row.status.Verified?
    requires row.company == db.orders[i].company && row.orderRef == db.orders[i].orderRef
    requires IndexAdmits(db.orders, i, row)
    ensures Inv(SetOrder(db, i, row))
  {
    hide Backed;
  }

  lemma AppendOrderKeepsVerifications(db: Db, row: Order)
    requires VerificationsSound(db) && OncePerRow(db) && TrxSpendingBound(db)
    ensures var db' := db.(orders := db.orders + [row]);
      VerificationsSound(db') && OncePerRow(db') && TrxSpendingBound(db')
  {
  }

  lemma AppendOrderKeeps(db: Db, row: Order)
    requires Inv(db) && !row.status.Verified?
    requires IndexAdmits(db.orders, |db.orders|, row)
    requires forall j :: 0 <= j < |db.orders| ==>
      db.orders[j].company != row.company || db.orders[j].orderRef != row.orderRef
    ensures Inv(db.(orders := db.orders + [row]))
  {
    hide VerificationsSound, TrxSpendingBound, OncePerRow;
    var db' := db.(orders := db.orders + [row]);
    AppendOrderKeepsVerifications(db, row);
    forall i | 0 <= i < |db'.orders| && db'.orders[i].status.Verified?
      ensures OrderTaken(db', i) && exists e :: 0 <= e < |db'.events| && Announces(db'.events[e], i, db'.orders[i])
    {
      assert OrderTaken(db, i);
      var e :| 0 <= e < |db.events| && Announces(db.events[e], i, db.orders[i]);
    }
    forall s | 0 <= s < |db'.sms| && db'.sms[s].matchStatus.StMatched? ensures SmsTaken(db', s) {
      assert SmsTaken(db, s);
    }
  }

  lemma AppendSmsKeepsVerifications(db: Db, row: Sms)
    requires VerificationsSound(db) && OncePerRow(db) && TrxSpendingBound(db)
    ensures var db' := db.(sms := db.sms + [row]);
      VerificationsSound(db') && OncePerRow(db') && TrxSpendingBound(db')
  {
  }

  lemma AppendSmsKeeps(db: Db, row: Sms)
    requires Inv(db) && !row.matchStatus.StMatched?
    requires forall j :: 0 <= j < |db.sms| ==>
      db.sms[j].company != row.company || db.sms[j].clientHash != row.clientHash
    ensures Inv(db.(sms := db.sms + [row]))
  {
    hide Announces, Backed, JustCreated;
    AppendSmsKeepsVerifications(db, row);
    var db' := db.(sms := db.sms + [row]);
    forall s | 0 <= s < |db'.sms| && db'.sms[s].matchStatus.StMatched? ensures SmsTaken(db', s) {
      assert SmsTaken(db, s);
    }
  }

  // ---------------------------------------------------------------- crediting keeps them

  /** What a credit must satisfy before the indexes are even asked. */
  ghost predicate SoundCredit(db: Db, c: Crediting)
    requires InTables(db, c)
  {
    var o, s := db.orders[c.order], db.sms[c.sms];
    && o.company == s.company
    && (o.status.Pending? || o.status.Expired?)
    && Backed(o, s, Verification(o.company, c.order, c.sms, c.verifiedBy, c.confidence, c.delta, c.wasLate, c.now))
    && (c.verifiedBy.HeuristicAmountWindow? && s.trxId.Some? ==> !TrxSpent(db, s.company, s.trxId.value))
  }

  lemma CreditKeepsJoins(db: Db, c: Crediting)
    requires VerificationsSound(db) && OncePerRow(db)
    requires InTables(db, c) && SoundCredit(db, c) && CreditAdmitted(db, c)
    ensures VerificationsSound(ApplyCredit(db, c).value) && OncePerRow(ApplyCredit(db, c).value)
  {
    hide IndexAdmits, CreditEvent, TrxSpent, Backed;
    var db' := ApplyCredit(db, c).value;
    CreditIsBacked(db, c);
    forall k | k in db'.verifs
      ensures k < db'.nextVerif && Joined(db', db'.verifs[k])
      ensures Backed(db'.orders[db'.verifs[k].order], db'.sms[db'.verifs[k].sms], db'.verifs[k])
    {
      if k != db.nextVerif {
        assert db'.verifs[k] == db.verifs[k];
        StaysBacked(db, c, db.verifs[k]);
      }
    }
  }

  lemma CreditIsBacked(db: Db, c: Crediting)
    requires InTables(db, c) && SoundCredit(db, c) && CreditAdmitted(db, c)
    ensures var db' := ApplyCredit(db, c).value;
      Backed(db'.orders[c.order], db'.sms[c.sms], db'.verifs[db.nextVerif])
  {
    hide IndexAdmits, CreditEvent, TrxSpent;
  }

  /** What a verification needs of its rows, a later credit does not touch. */
  lemma StaysBacked(db: Db, c: Crediting, v: Verification)
    requires InTables(db, c) && CreditAdmitted(db, c) && v.order < |db.orders| && v.sms < |db.sms|
    requires Backed(db.orders[v.order], db.sms[v.sms], v)
    ensures var db' := ApplyCredit(db, c).value; Backed(db'.orders[v.order], db'.sms[v.sms], v)
  {
    hide IndexAdmits, CreditEvent;
  }

  lemma CreditKeepsRows(db: Db, c: Crediting)
    requires LiveTrxUnique(db) && OrderRefsUnique(db) && OpenReviewsUnique(db) && ClientHashesUnique(db)
    requires InTables(db, c) && CreditAdmitted(db, c)
    ensures var db' := ApplyCredit(db, c).value;
      LiveTrxUnique(db') && OrderRefsUnique(db') && OpenReviewsUnique(db') && ClientHashesUnique(db')
  {
  }

  lemma CreditAnnounces(db: Db, c: Crediting)
    requires InTables(db, c) && CreditAdmitted(db, c)
    ensures var db' := ApplyCredit(db, c).value;
      |db'.events| == |db.events| + 1 && Announces(db'.events[|db.events|], c.order, db'.orders[c.order])
  {
  }

  lemma CreditKeepsLookups(db: Db, c: Crediting)
    requires VerificationsSound(db) && VerifiedHasVerification(db) && VerifiedIsAnnounced(db)
    requires InTables(db, c) && CreditAdmitted(db, c)
    ensures VerifiedHasVerification(ApplyCredit(db, c).value) && VerifiedIsAnnounced(ApplyCredit(db, c).value)
  {
    hide CreditEvent, Backed, Announces;
    var db' := ApplyCredit(db, c).value;
    assert db.nextVerif !in db.verifs;
    forall i | 0 <= i < |db'.orders| && db'.orders[i].status.Verified?
      ensures OrderTaken(db', i) && exists e :: 0 <= e < |db'.events| && Announces(db'.events[e], i, db'.orders[i])
    {
      if i == c.order {
        assert db'.verifs[db.nextVerif].order == i;
        CreditAnnounces(db, c);
      } else {
        var k :| k in db.verifs && db.verifs[k].order == i;
        assert db'.verifs[k].order == i;
        var e :| 0 <= e < |db.events| && Announces(db.events[e], i, db.orders[i]);
        assert Announces(db'.events[e], i, db'.orders[i]);
      }
    }
  }

  lemma CreditKeepsMatched(db: Db, c: Crediting)
    requires VerificationsSound(db) && MatchedHasVerification(db)
    requires InTables(db, c) && CreditAdmitted(db, c)
    ensures MatchedHasVerification(ApplyCredit(db, c).value)
  {
    var db' := ApplyCredit(db, c).value;
    assert db.nextVerif !in db.verifs;
    forall s | 0 <= s < |db'.sms| && db'.sms[s].matchStatus.StMatched?
      ensures SmsTaken(db', s)
    {
      if s == c.sms {
        assert db'.verifs[db.nextVerif].sms == s;
      } else {
        var k :| k in db.verifs && db.verifs[k].sms == s;
        assert db'.verifs[k].sms == s;
      }
    }
  }

  /** An earlier exact verification of the same TrxID would hold the live index against this one. */
  lemma CreditKeepsTrxBound(db: Db, c: Crediting)
    requires VerificationsSound(db) && TrxSpendingBound(db)
    requires InTables(db, c) && SoundCredit(db, c) && CreditAdmitted(db, c)
    ensures TrxSpendingBound(ApplyCredit(db, c).value)
  {
    var db' := ApplyCredit(db, c).value;
    var n := db.nextVerif;
    var w := db'.verifs[n];
    forall k | k in db.verifs && SameTrx(db', db'.verifs[k], w)
      ensures db'.verifs[k].verifiedBy != w.verifiedBy || w.verifiedBy.ManualAdmin?
    {
      var v := db.verifs[k];
      assert db'.verifs[k] == v && db'.sms[v.sms].trxId == db.sms[v.sms].trxId;
      if w.verifiedBy.HeuristicAmountWindow? {
        assert TrxSpent(db, w.company, db.sms[c.sms].trxId.value);
      } else if w.verifiedBy.ExactTxnId? && v.verifiedBy.ExactTxnId? {
        assert LiveClash(db.orders[v.order], CreditedRow(db.orders[c.order], c.now));
        assert false;
      }
    }
    forall j, k | j in db'.verifs && k in db'.verifs && j != k && SameTrx(db', db'.verifs[j], db'.verifs[k])
      ensures db'.verifs[j].verifiedBy != db'.verifs[k].verifiedBy || db'.verifs[j].verifiedBy.ManualAdmin?
    {
      if j != n && k != n {
        assert SameTrx(db, db.verifs[j], db.verifs[k]);
      } else if j == n {
        assert SameTrx(db', db'.verifs[k], db'.verifs[j]);
      }
    }
  }

  lemma CreditKeepsEvents(db: Db, c: Crediting)
    requires EventsJustCreated(db) && InTables(db, c) && CreditAdmitted(db, c)
    ensures EventsJustCreated(ApplyCredit(db, c).value)
  {
  }

  lemma CreditKeeps(db: Db, c: Crediting)
    requires Inv(db) && InTables(db, c) && SoundCredit(db, c) && CreditAdmitted(db, c)
    ensures Inv(ApplyCredit(db, c).value)
  {
    CreditKeepsJoins(db, c);
    CreditKeepsRows(db, c);
    CreditKeepsLookups(db, c);
    CreditKeepsMatched(db, c);
    CreditKeepsEvents(db, c);
    CreditKeepsTrxBound(db, c);
  }

  // ---------------------------------------------------------------- un-crediting keeps them

  lemma VoidKeepsLookups(db: Db, id: nat)
    requires VerificationsSound(db) && VerifiedHasVerification(db) && MatchedHasVerification(db)
    ensures var db' := VoidVerification(db, id).0; VerifiedHasVerification(db') && MatchedHasVerification(db')
  {
    var db' := VoidVerification(db, id).0;
    if VoidVerification(db, id).1.Voided? {
      var gone := db.verifs[id];
      forall i | 0 <= i < |db'.orders| && db'.orders[i].status.Verified? ensures OrderTaken(db', i) {
        var k :| k in db.verifs && db.verifs[k].order == i;
        assert k != id;
        assert db'.verifs[k].order == i;
      }
      forall s | 0 <= s < |db'.sms| && db'.sms[s].matchStatus.StMatched? ensures SmsTaken(db', s) {
        var k :| k in db.verifs && db.verifs[k].sms == s;
        assert k != id;
        assert db'.verifs[k].sms == s;
      }
    }
  }

  lemma VoidKeepsVerifications(db: Db, id: nat)
    requires VerificationsSound(db) && OncePerRow(db)
    ensures VerificationsSound(VoidVerification(db, id).0) && OncePerRow(VoidVerification(db, id).0)
  {
    var db' := VoidVerification(db, id).0;
    if VoidVerification(db, id).1.Voided? {
      forall k | k in db'.verifs
        ensures k in db.verifs && db'.verifs[k] == db.verifs[k] && k < db'.nextVerif
        ensures Joined(db', db'.verifs[k])
        ensures Backed(db'.orders[db'.verifs[k].order], db'.sms[db'.verifs[k].sms], db'.verifs[k])
      {
        assert k != id && Joined(db, db.verifs[k]);
        assert db'.orders[db.verifs[k].order] == db.orders[db.verifs[k].order];
        assert db'.sms[db.verifs[k].sms] == db.sms[db.verifs[k].sms];
      }
    }
  }

  lemma VoidKeepsTrxBound(db: Db, id: nat)
    requires VerificationsSound(db) && TrxSpendingBound(db)
    ensures TrxSpendingBound(VoidVerification(db, id).0)
  {
    var db' := VoidVerification(db, id).0;
    if VoidVerification(db, id).1.Voided? {
      assert forall s :: 0 <= s < |db.sms| ==> db'.sms[s].trxId == db.sms[s].trxId;
      forall j, k | j in db'.verifs && k in db'.verifs && j != k && SameTrx(db', db'.verifs[j], db'.verifs[k])
        ensures db'.verifs[j].verifiedBy != db'.verifs[k].verifiedBy || db'.verifs[j].verifiedBy.ManualAdmin?
      {
        assert SameTrx(db, db.verifs[j], db.verifs[k]);
      }
    }
  }

  lemma VoidKeeps(db: Db, id: nat)
    requires Inv(db)
    ensures Inv(VoidVerification(db, id).0)
  {
    VoidKeepsVerifications(db, id);
    VoidKeepsTrxBound(db, id);
    VoidKeepsLookups(db, id);
  }
}
