/** What a matching transaction writes, and which rows a reverse match visits, column by column. */
module MatchEffects {
  import opened Prelude
  import opened MatchTypes
  import opened Outbox
  import opened Decide
  import opened Tables
  import opened Engine
  import opened Verdict

  // ---------------------------------------------------------------- crediting

  /** Another PENDING or VERIFIED order of the company holds the TrxID of order `i`. */
  predicate TrxHeldElsewhere(db: Db, i: nat)
    requires i < |db.orders|
  {
    db.orders[i].trxId.Some?
    && exists j :: 0 <= j < |db.orders| && j != i && IsLiveWith(db.orders[j], db.orders[i].company, db.orders[i].trxId)
  }

  predicate IsLiveWith(o: Order, company: nat, trxId: Option<string>) {
    o.company == company && o.trxId == trxId && (o.status == Pending || o.status == Verified)
  }

  /** Nothing uses the order or the SMS, and no other live order holds the TrxID. */
  predicate IsFree(db: Db, order: nat, sms: nat)
    requires order < |db.orders|
  {
    && (forall k :: k in db.verifs ==> db.verifs[k].order != order && db.verifs[k].sms != sms)
    && !TrxHeldElsewhere(db, order)
  }

  /** Only these rows differ: one order, one SMS, one new verification, one new event. */
  ghost predicate WritesCredit(a: Db, b: Db, c: Crediting)
    requires InTables(a, c)
  {
    && |b.orders| == |a.orders| && |b.sms| == |a.sms| && b.reviews == a.reviews && b.nextVerif == a.nextVerif + 1
    && (forall i :: 0 <= i < |a.orders| && i != c.order ==> b.orders[i] == a.orders[i])
    && (forall s :: 0 <= s < |a.sms| && s != c.sms ==> b.sms[s] == a.sms[s])
    && b.orders[c.order] == a.orders[c.order].(status := Verified, verifiedAt := Some(c.now))
    && b.sms[c.sms] == a.sms[c.sms].(matchStatus := StMatched, flags := a.sms[c.sms].flags + c.flags)
    && b.verifs.Keys == a.verifs.Keys + {a.nextVerif}
    && (forall k :: k in a.verifs && k != a.nextVerif ==> b.verifs[k] == a.verifs[k])
    && var v := b.verifs[a.nextVerif];
       && v.company == a.orders[c.order].company && v.order == c.order && v.sms == c.sms
       && v.verifiedBy == c.verifiedBy && v.confidence == c.confidence && v.delta == c.delta
       && v.wasLate == c.wasLate && v.verifiedAt == c.now
  }

  /** A credit goes through exactly when order, SMS and TrxID are free, and then writes exactly that. */
  lemma CreditWrites(db: Db, c: Crediting)
    requires InTables(db, c)
    ensures ApplyCredit(db, c).Some? <==> IsFree(db, c.order, c.sms)
    ensures ApplyCredit(db, c).Some? ==> WritesCredit(db, ApplyCredit(db, c).value, c)
  {
    var o := db.orders[c.order];
    forall j | 0 <= j < |db.orders| && j != c.order
      ensures LiveClash(db.orders[j], CreditedRow(o, c.now))
        <==> o.trxId.Some? && IsLiveWith(db.orders[j], o.company, o.trxId)
    {
    }
  }

  /** An OPEN review of the same SMS and order. */
  predicate IsOpenPair(r: Review, sms: nat, order: Option<nat>) {
    r.status == ReviewOpen && r.sms == Some(sms) && r.order == order
  }

  /** The reviews gained exactly this OPEN one, or none because the pair has one already. */
  ghost predicate WritesReview(
      a: Db, b: Db, sms: nat, order: Option<nat>, reason: ReviewReason, lines: seq<ReviewCandidate>)
    requires sms < |a.sms|
  {
    if exists r :: 0 <= r < |a.reviews| && IsOpenPair(a.reviews[r], sms, order) then b.reviews == a.reviews
    else b.reviews == a.reviews + [Review(a.sms[sms].company, Some(sms), order, reason, lines, ReviewOpen)]
  }

  /** Only the status of this SMS changes, and its flags grow by these. */
  ghost predicate Relabelled(a: Db, b: Db, sms: nat, status: MatchStatus, flags: set<Flag>)
    requires sms < |a.sms|
  {
    && b.orders == a.orders && b.verifs == a.verifs && b.nextVerif == a.nextVerif
    && |b.sms| == |a.sms| && (forall s :: 0 <= s < |a.sms| && s != sms ==> b.sms[s] == a.sms[s])
    && b.sms[sms] == a.sms[sms].(matchStatus := status, flags := a.sms[sms].flags + flags)
  }

  function OnlyOrderOf(lines: seq<ReviewCandidate>): Option<nat> {
    if |lines| == 1 then Some(lines[0].orderId) else None
  }

  /** What a committed run leaves, decision by decision. */
  ghost predicate WritesDecision(a: Db, b: Db, id: nat, d: Decision, env: Env)
    requires id < |a.sms|
  {
    match d
    case DVerified(pass, order, confidence, delta, wasLate, flags) =>
      order < |a.orders|
      && WritesCredit(a, b, Crediting(order, id, if pass.ExactPass? then ExactTxnId else HeuristicAmountWindow,
        confidence, delta, wasLate, flags, env.now, env.companyStatus == CompanyActive))
    case DReview(reason, lines) =>
      Relabelled(a, b, id, StInReview, {}) && WritesReview(a, b, id, OnlyOrderOf(lines), reason, lines)
    case DDuplicate(_) =>
      Relabelled(a, b, id, StDuplicateTxn, {DuplicateTxn}) && WritesReview(a, b, id, None, DuplicateTxnId, [])
    case DGuardRejected(_) => Relabelled(a, b, id, StIgnored, {}) && b.reviews == a.reviews
    case DUnmatched => Relabelled(a, b, id, StUnmatched, {}) && b.reviews == a.reviews
  }

  /**
   * One run for one SMS, after at most one failed attempt: it writes its decision, unless that is a credit whose order,
   * SMS or TrxID is taken. Then, or when both attempts fail, nothing is written.
   */
  lemma RunWrites(db: Db, id: nat, env: Env)
    requires id < |db.sms|
    ensures var d, b := DecideOn(db, id, env), MatchSms(db, id, env);
      && (d.DVerified? ==> d.orderId < |db.orders|)
      && if env.faults >= 2 || (d.DVerified? && !IsFree(db, d.orderId, id)) then b == db
         else WritesDecision(db, b, id, d, env)
  {
    hide DecideOn, WritesCredit, IsFree;
    DecisionNamesRow(db, id, env);
    var d := DecideOn(db, id, env);
    if d.DVerified? {
      CreditWrites(db, CreditOf(id, d, env));
    } else {
      OtherWrites(db, id, d, env);
    }
  }

  lemma OtherWrites(db: Db, id: nat, d: Decision, env: Env)
    requires id < |db.sms| && !d.DVerified?
    ensures ApplyDecision(db, id, d, env).Some? && WritesDecision(db, ApplyDecision(db, id, d, env).value, id, d, env)
  {
    match d
    case DReview(reason, lines) => ReviewPairIff(db, id, OnlyOrderOf(lines));
    case DDuplicate(_) => ReviewPairIff(db, id, None);
    case _ =>
  }

  lemma ReviewPairIff(db: Db, sms: nat, order: Option<nat>)
    ensures OpenReviewExists(db, Some(sms), order)
      <==> exists r :: 0 <= r < |db.reviews| && IsOpenPair(db.reviews[r], sms, order)
  {
    if OpenReviewExists(db, Some(sms), order) {
      var r :| 0 <= r < |db.reviews| && db.reviews[r].status.ReviewOpen? && db.reviews[r].sms == Some(sms)
        && db.reviews[r].order == order;
      assert IsOpenPair(db.reviews[r], sms, order);
    }
  }

  // ---------------------------------------------------------------- the rows of a reverse match

  /** An UNMATCHED SMS of the company that carries the order's TrxID. */
  predicate IsExactRow(s: Sms, o: Order) {
    s.company == o.company && s.matchStatus == StUnmatched && s.trxId.Some? && s.trxId == o.trxId
  }

  /** An UNMATCHED SMS of the company, parsed, within the tolerance, and timed in the window before the order. */
  predicate IsWindowRow(s: Sms, o: Order, settings: Settings) {
    && s.company == o.company && s.matchStatus == StUnmatched && TextIsParsed(s)
    && s.amount.Some? && o.expected - o.tolerance <= s.amount.value <= o.expected + o.tolerance
    && s.smsAt.Some?
    && o.createdAt - settings.heuristicWindowMinutes * 60_000 <= s.smsAt.value <= o.createdAt + 300_000
  }

  predicate IsReverseRow(s: Sms, o: Order, settings: Settings) {
    if o.mode == ExactMode then IsExactRow(s, o) else IsWindowRow(s, o, settings)
  }

  /** Whether an order is reverse-matched at all. */
  predicate CanReverse(o: Order, settings: Settings) {
    && (o.status == Pending || o.status == Expired)
    && (if o.mode == ExactMode then o.trxId.Some? else settings.heuristicEnabled)
  }

  /** A reverse match visits only such rows, at most two hundred, and all of them when there are fewer. */
  lemma ReverseRowsAre(db: Db, order: nat, env: Env)
    ensures var r := ReverseRows(db, order, env);
      && (r.Some? <==> order < |db.orders| && CanReverse(db.orders[order], env.settings))
      && (r.Some? ==>
            && |r.value| <= 200
            && (forall k :: 0 <= k < |r.value| ==>
                  r.value[k] < |db.sms| && IsReverseRow(db.sms[r.value[k]], db.orders[order], env.settings))
            && (|r.value| < 200 ==>
                  forall s: nat :: s < |db.sms| && IsReverseRow(db.sms[s], db.orders[order], env.settings) ==>
                    s in r.value))
  {
    hide RowsWhere;
    if order < |db.orders| && CanReverse(db.orders[order], env.settings) {
      var o := db.orders[order];
      var keep := if o.mode == ExactMode then ReverseExactFor(o) else ReverseHeuristicFor(o, env.settings);
      var newest := o.mode != ExactMode;
      forall s: Sms ensures keep(s) <==> IsReverseRow(s, o, env.settings) {
      }
      var rows := RowsWhere(db.sms, keep, newest);
      if |rows| < 200 {
        forall s: nat | s < |db.sms| && IsReverseRow(db.sms[s], o, env.settings) ensures s in rows {
          RowsWhereAll(db.sms, keep, newest, s);
        }
      }
    }
  }

  /** Oldest SMS first for a TrxID, newest first for an amount; rows without a time last. */
  lemma ReverseRowsOrdered(db: Db, order: nat, env: Env, j: nat, k: nat)
    requires ReverseRows(db, order, env).Some? && j < k < |ReverseRows(db, order, env).value|
    ensures var r := ReverseRows(db, order, env).value;
      var x, y := db.sms[r[j]].smsAt, db.sms[r[k]].smsAt;
      y.Some? ==> x.Some? && if db.orders[order].mode == ExactMode then x.value <= y.value else x.value >= y.value
  {
    hide ByTime, ScanSms;
    var o := db.orders[order];
    var keep := if o.mode == ExactMode then ReverseExactFor(o) else ReverseHeuristicFor(o, env.settings);
    ByTimeOrders(db.sms, ScanSms(db.sms, keep, |db.sms|), o.mode != ExactMode, j, k);
  }
}
