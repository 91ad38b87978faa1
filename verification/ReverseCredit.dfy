/** What a reverse match credits (matching.service.ts): the first row whose decision on the initial tables verifies. */
module ReverseCredit {
  import opened Prelude
  import opened MatchTypes
  import opened Decide
  import opened Tables
  import opened Engine
  import opened Invariants
  import opened Steps
  import opened Spending
  import opened Verdict

  // ---------------------------------------------------------------- decisions survive earlier rows

  predicate SameSmsFacts(a: Sms, b: Sms) {
    b == a.(matchStatus := b.matchStatus, flags := b.flags) && (DebitMessage in a.flags <==> DebitMessage in b.flags)
  }

  /** The tables give every decision the same input, up to what a decision does not read. */
  ghost predicate SameReading(a: Db, b: Db) {
    && a.orders == b.orders && a.verifs == b.verifs && a.nextVerif == b.nextVerif && |a.sms| == |b.sms|
    && forall s :: 0 <= s < |a.sms| ==> SameSmsFacts(a.sms[s], b.sms[s])
  }

  lemma SameReadingDecidesSame(a: Db, b: Db, id: nat, env: Env)
    requires SameReading(a, b) && id < |a.sms|
    ensures BuildInput(b, id, env) == BuildInput(a, id, env)
    ensures DecideOn(b, id, env) == DecideOn(a, id, env)
  {
    var r, q := a.sms[id], b.sms[id];
    assert SameSmsFacts(r, q);
    assert LoadSmsFacts(q, id, env) == LoadSmsFacts(r, id, env);
    assert LoadHeuristicCandidates(b.orders, q, env) == LoadHeuristicCandidates(a.orders, r, env) by {
      SameQuery(a.orders, r, q, env);
    }
    if r.trxId.Some? {
      assert TrxSpent(b, q.company, q.trxId.value) <==> TrxSpent(a, r.company, r.trxId.value);
    }
  }

  lemma SameQuery(orders: seq<Order>, r: Sms, q: Sms, env: Env)
    requires SameSmsFacts(r, q)
    ensures LoadHeuristicCandidates(orders, q, env) == LoadHeuristicCandidates(orders, r, env)
  {
    if r.amount.Some? {
      var at := SmsTime(r, env.now);
      ScanSame(orders, HeuristicQueryFor(r, r.amount.value, at, env.settings),
        HeuristicQueryFor(q, q.amount.value, at, env.settings), |orders|);
    }
  }

  lemma {:induction false} ScanSame(orders: seq<Order>, p: Order -> bool, q: Order -> bool, n: nat)
    requires n <= |orders| && forall i :: 0 <= i < n ==> p(orders[i]) == q(orders[i])
    ensures Scan(orders, p, n) == Scan(orders, q, n)
  {
    if n > 0 {
      ScanSame(orders, p, q, n - 1);
    }
  }

  /** A committed decision other than a verification leaves every later decision as it was. */
  lemma UnverifiedKeepsReading(db: Db, id: nat, env: Env)
    requires id < |db.sms| && !DecideOn(db, id, env).DVerified?
    ensures DecideAndApply(db, id, env).Committed?
    ensures DecideAndApply(db, id, env).decision == DecideOn(db, id, env)
    ensures SameReading(db, DecideAndApply(db, id, env).db)
  {
    hide DecideOn, ApplyDecision, SameReading;
    ApplyKeepsReading(db, id, DecideOn(db, id, env), env);
  }

  lemma ApplyKeepsReading(db: Db, id: nat, d: Decision, env: Env)
    requires id < |db.sms| && !d.DVerified?
    ensures ApplyDecision(db, id, d, env).Some? && SameReading(db, ApplyDecision(db, id, d, env).value)
  {
    hide ApplyReview;
    match d
    case DReview(reason, candidates) => ReviewKeepsReading(db, id, reason, candidates, env);
    case _ =>
  }

  lemma ReviewKeepsReading(db: Db, id: nat, reason: ReviewReason, candidates: seq<ReviewCandidate>, env: Env)
    requires id < |db.sms|
    ensures SameReading(db, ApplyReview(db, id, reason, candidates, env))
  {
  }

  // ---------------------------------------------------------------- the loop

  /** The first row the tables would verify. */
  ghost function FirstVerified(db: Db, rows: seq<nat>, env: Env): (r: Option<nat>)
    requires forall k :: 0 <= k < |rows| ==> rows[k] < |db.sms|
    ensures r.Some? ==> r.value in rows && r.value < |db.sms| && DecideOn(db, r.value, env).DVerified?
    ensures r.None? ==> forall k :: 0 <= k < |rows| ==> !DecideOn(db, rows[k], env).DVerified?
  {
    if rows == [] then None
    else if DecideOn(db, rows[0], env).DVerified? then Some(rows[0])
    else FirstVerified(db, rows[1..], env)
  }

  lemma {:induction false} SameReadingVerifiesSame(a: Db, b: Db, rows: seq<nat>, env: Env)
    requires SameReading(a, b) && forall k :: 0 <= k < |rows| ==> rows[k] < |a.sms|
    ensures FirstVerified(b, rows, env) == FirstVerified(a, rows, env)
    decreases |rows|
  {
    hide DecideOn, SameReading;
    assert |a.sms| == |b.sms| by { SameCount(a, b); }
    if rows != [] {
      SameReadingDecidesSame(a, b, rows[0], env);
      SameReadingVerifiesSame(a, b, rows[1..], env);
    }
  }

  lemma SameCount(a: Db, b: Db)
    requires SameReading(a, b)
    ensures |a.sms| == |b.sms|
  {
  }

  /** The credit of a row's decision gets through the unique indexes. */
  ghost predicate GoesThrough(db: Db, s: nat, env: Env) {
    && s < |db.sms| && DecideOn(db, s, env).DVerified? && DecideOn(db, s, env).orderId < |db.orders|
    && CreditAdmitted(db, CreditOf(s, DecideOn(db, s, env), env))
  }

  lemma SameReadingAdmitsSame(a: Db, b: Db, s: nat, env: Env)
    requires SameReading(a, b) && s < |a.sms|
    ensures GoesThrough(b, s, env) <==> GoesThrough(a, s, env)
    ensures DecideOn(b, s, env) == DecideOn(a, s, env)
  {
    hide DecideOn;
    SameReadingDecidesSame(a, b, s, env);
  }

  /** One new verification, of this order by this SMS; no other order changes. */
  ghost predicate CreditsExactly(a: Db, b: Db, order: nat, sms: nat) {
    && order < |a.orders| == |b.orders|
    && (forall i :: 0 <= i < |a.orders| && i != order ==> b.orders[i] == a.orders[i])
    && b.orders[order].status.Verified?
    && a.nextVerif in b.verifs && b.verifs == a.verifs[a.nextVerif := b.verifs[a.nextVerif]]
    && b.verifs[a.nextVerif].order == order && b.verifs[a.nextVerif].sms == sms
  }

  ghost predicate CreditsNothing(a: Db, b: Db) {
    b.orders == a.orders && b.verifs == a.verifs
  }

  /** Where the loop stops, from the tables it started on. */
  ghost predicate StopsAtFirst(db: Db, r: ReverseOutcome, first: Option<nat>, env: Env) {
    match first
    case None => r.ReverseDone? && r.verified.None? && CreditsNothing(db, r.db)
    case Some(s) =>
      if GoesThrough(db, s, env) then
        && r.ReverseDone? && r.verified == Some(DecideOn(db, s, env))
        && CreditsExactly(db, r.db, DecideOn(db, s, env).orderId, s)
      else r.ReverseConflict?
  }

  lemma VerifiedStops(db: Db, s: nat, env: Env)
    requires s < |db.sms| && DecideOn(db, s, env).DVerified?
    ensures DecideAndApply(db, s, env).Committed? <==> GoesThrough(db, s, env)
    ensures GoesThrough(db, s, env) ==>
      && DecideAndApply(db, s, env).decision == DecideOn(db, s, env)
      && CreditsExactly(db, DecideAndApply(db, s, env).db, DecideOn(db, s, env).orderId, s)
  {
    hide DecideOn;
    DecisionNamesRow(db, s, env);
    if GoesThrough(db, s, env) {
      var db' := DecideAndApply(db, s, env).db;
      assert db'.verifs[db.nextVerif].order == DecideOn(db, s, env).orderId;
    }
  }

  /** The loop stops at the first row the initial tables would verify: earlier rows do not change that. */
  lemma {:induction false} LoopStopsAtFirst(db: Db, rows: seq<nat>, env: Env)
    requires forall k :: 0 <= k < |rows| ==> rows[k] < |db.sms|
    ensures StopsAtFirst(db, ReverseLoop(db, rows, env), FirstVerified(db, rows, env), env)
    decreases |rows|
  {
    hide DecideOn, DecideAndApply, SameReading, GoesThrough, CreditsExactly;
    if rows != [] {
      if DecideOn(db, rows[0], env).DVerified? {
        VerifiedStops(db, rows[0], env);
      } else {
        UnverifiedKeepsReading(db, rows[0], env);
        var next := DecideAndApply(db, rows[0], env).db;
        SameCount(db, next);
        LoopStopsAtFirst(next, rows[1..], env);
        SameReadingVerifiesSame(db, next, rows[1..], env);
        StopsAlike(db, next, ReverseLoop(next, rows[1..], env), FirstVerified(db, rows[1..], env), env);
      }
    }
  }

  lemma StopsAlike(a: Db, b: Db, r: ReverseOutcome, first: Option<nat>, env: Env)
    requires SameReading(a, b) && StopsAtFirst(b, r, first, env) && (first.Some? ==> first.value < |a.sms|)
    ensures StopsAtFirst(a, r, first, env)
  {
    hide DecideOn, GoesThrough;
    if first.Some? {
      SameReadingAdmitsSame(a, b, first.value, env);
    }
  }

  // ---------------------------------------------------------------- the reverse match

  /** The row a reverse match verifies, when its credit goes through. */
  ghost function CreditingRow(db: Db, order: nat, env: Env): (r: Option<nat>) {
    var rows := ReverseRows(db, order, env);
    if env.faults > 0 || rows.None? then None else FirstVerified(db, rows.value, env)
  }

  /**
   * A reverse match credits exactly what the first row of its query that the initial tables verify asks for, if the
   * unique indexes admit it; in every other case it credits nothing, and on a conflict it changes nothing.
   */
  lemma ReverseCreditsFirst(db: Db, order: nat, env: Env)
    ensures var (db', d) := ReverseMatch(db, order, env);
      var s := CreditingRow(db, order, env);
      if s.Some? && GoesThrough(db, s.value, env) then
        d == Some(DecideOn(db, s.value, env)) && CreditsExactly(db, db', DecideOn(db, s.value, env).orderId, s.value)
      else d.None? && CreditsNothing(db, db') && (s.Some? ==> db' == db)
  {
    hide ReverseLoop, ReverseRows, DecideOn, GoesThrough, CreditsExactly;
    var rows := ReverseRows(db, order, env);
    if env.faults == 0 && rows.Some? {
      LoopStopsAtFirst(db, rows.value, env);
    }
  }

  /** A reverse match that verifies nothing changes no order and no verification. */
  lemma UnverifiedKeepsOrders(db: Db, order: nat, env: Env)
    requires ReverseMatch(db, order, env).1.None?
    ensures ReverseMatch(db, order, env).0.orders == db.orders
  {
    hide ReverseMatch, CreditingRow, GoesThrough, CreditsExactly;
    ReverseCreditsFirst(db, order, env);
  }

  /** In a sound state: what the credit of the first verified row needs to go through. */
  lemma GoesThroughIff(db: Db, s: nat, env: Env)
    requires LiveTrxUnique(db) && VerificationsSound(db) && s < |db.sms| && ValidSettings(env.settings)
    requires DecideOn(db, s, env).DVerified?
    ensures var i := DecideOn(db, s, env).orderId;
      i < |db.orders| && (GoesThrough(db, s, env) <==> !SmsTaken(db, s) && MayTakeLive(db, i))
  {
    hide DecideOn, LiveTrxUnique, VerificationsSound, CreditAdmitted, TrxLiveElsewhere, SoundCredit;
    DecisionNamesRow(db, s, env);
    DecisionIsSound(db, s, env);
    var d := DecideOn(db, s, env);
    assert db.orders[d.orderId].status.Pending? || db.orders[d.orderId].status.Expired? by {
      SoundCreditIsUnverified(db, CreditOf(s, d, env));
    }
    AdmittedIff(db, CreditOf(s, d, env));
  }

  /**
   * Reverse matching credits order `i`, whichever order it was started for, if and only if the first row it would
   * verify decides for `i`, credited nothing before, and `i` is not an EXPIRED order whose TrxID a live one holds.
   */
  lemma ReverseCreditsIff(db: Db, order: nat, env: Env, i: nat)
    requires Inv(db) && ValidSettings(env.settings) && i < |db.orders|
    ensures !OrderTaken(db, i) ==>
      var s := CreditingRow(db, order, env);
      (OrderTaken(ReverseMatch(db, order, env).0, i) <==>
        && s.Some? && DecideOn(db, s.value, env).orderId == i && !SmsTaken(db, s.value) && MayTakeLive(db, i))
  {
    hide ReverseMatch, CreditingRow, GoesThrough, DecideOn, Inv, MayTakeLive, FirstVerified, CreditsExactly;
    assert LiveTrxUnique(db) && VerificationsSound(db) by { PartsOf(db); }
    ReverseCreditsFirst(db, order, env);
    CreditingRowVerifies(db, order, env);
    var s := CreditingRow(db, order, env);
    if s.Some? {
      GoesThroughIff(db, s.value, env);
      if GoesThrough(db, s.value, env) {
        TakenAfterIff(db, ReverseMatch(db, order, env).0, DecideOn(db, s.value, env).orderId, s.value, i);
      }
    }
  }

  lemma CreditingRowVerifies(db: Db, order: nat, env: Env)
    ensures var s := CreditingRow(db, order, env);
      s.Some? ==>
        && s.value < |db.sms| && DecideOn(db, s.value, env).DVerified?
        && db.sms[s.value].matchStatus.StUnmatched?
  {
  }

  lemma TakenAfterIff(a: Db, b: Db, order: nat, sms: nat, i: nat)
    requires CreditsExactly(a, b, order, sms) && VerificationsSound(a)
    ensures OrderTaken(b, i) <==> OrderTaken(a, i) || i == order
    ensures SmsTaken(b, i) <==> SmsTaken(a, i) || i == sms
  {
    assert a.nextVerif !in a.verifs;
    forall k | k in a.verifs ensures k in b.verifs && b.verifs[k] == a.verifs[k] {
    }
  }

  /** The query returns this row, and the initial tables verify none before it. */
  ghost predicate Reached(db: Db, rows: seq<nat>, s: nat, env: Env)
    requires forall k :: 0 <= k < |rows| ==> rows[k] < |db.sms|
  {
    exists k :: 0 <= k < |rows| && rows[k] == s && forall j :: 0 <= j < k ==> !DecideOn(db, rows[j], env).DVerified?
  }

  lemma {:induction false} FirstVerifiedIff(db: Db, rows: seq<nat>, s: nat, env: Env)
    requires s < |db.sms| && forall k :: 0 <= k < |rows| ==> rows[k] < |db.sms|
    ensures FirstVerified(db, rows, env) == Some(s) <==> Reached(db, rows, s, env) && DecideOn(db, s, env).DVerified?
    decreases |rows|
  {
    hide DecideOn;
    if rows != [] {
      var rest := rows[1..];
      FirstVerifiedIff(db, rest, s, env);
      if !DecideOn(db, rows[0], env).DVerified? {
        if k :| 0 <= k < |rest| && rest[k] == s && forall j :: 0 <= j < k ==> !DecideOn(db, rest[j], env).DVerified? {
          assert rows[k + 1] == s;
          assert forall j :: 0 <= j < k + 1 ==> j == 0 || rows[j] == rest[j - 1];
        }
        if k :| 0 <= k < |rows| && rows[k] == s && forall j :: 0 <= j < k ==> !DecideOn(db, rows[j], env).DVerified? {
          if k > 0 {
            assert rest[k - 1] == s;
            assert forall j :: 0 <= j < k - 1 ==> rest[j] == rows[j + 1];
          }
        }
      }
    }
  }

  /**
   * The spending condition for reverse matching: an SMS that credited nothing yet, whose TrxID is spent, credits an
   * order in a reverse match if and only if the match reaches it, the guards pass, it is not dated in the future, and
   * its sole claim is not an EXPIRED order whose TrxID a live one holds.
   */
  lemma ReverseSpentCreditsIff(db: Db, order: nat, env: Env, s: nat)
    requires Inv(db) && ValidSettings(env.settings) && s < |db.sms| && !SmsTaken(db, s)
    requires db.sms[s].trxId.Some? && TrxSpent(db, db.sms[s].company, db.sms[s].trxId.value)
    ensures SmsTaken(ReverseMatch(db, order, env).0, s) <==>
      && env.faults == 0 && ReverseRows(db, order, env).Some?
      && Reached(db, ReverseRows(db, order, env).value, s, env)
      && UsableSms(db.sms[s], env) && SmsInTime(db.sms[s], env)
      && exists i: nat :: SoleClaim(db, s, i, env) && MayTakeLive(db, i)
  {
    hide ReverseMatch, ReverseRows, GoesThrough, DecideOn, Inv, MayTakeLive, FirstVerified, Reached, SoleClaim;
    hide UsableSms, SmsInTime, BuildInput, TrxSpent, CreditsExactly;
    assert LiveTrxUnique(db) && VerificationsSound(db) by { PartsOf(db); }
    SpentDecidedIff(db, s, env);
    forall i: nat | SoleClaim(db, s, i, env) && DecideOn(db, s, env).DVerified?
      ensures DecideOn(db, s, env).orderId == i
    {
      SpentNamesSoleClaim(db, s, i, env);
    }
    ReverseCreditsSmsIff(db, order, env, s);
    var rows := ReverseRows(db, order, env);
    if rows.Some? {
      FirstVerifiedIff(db, rows.value, s, env);
    }
  }

  lemma ReverseCreditsSmsIff(db: Db, order: nat, env: Env, s: nat)
    requires Inv(db) && ValidSettings(env.settings) && s < |db.sms| && !SmsTaken(db, s)
    ensures SmsTaken(ReverseMatch(db, order, env).0, s) <==>
      && CreditingRow(db, order, env) == Some(s)
      && DecideOn(db, s, env).DVerified? && MayTakeLive(db, DecideOn(db, s, env).orderId)
  {
    hide ReverseMatch, CreditingRow, GoesThrough, DecideOn, Inv, MayTakeLive, FirstVerified, CreditsExactly;
    assert LiveTrxUnique(db) && VerificationsSound(db) by { PartsOf(db); }
    ReverseCreditsFirst(db, order, env);
    CreditingRowVerifies(db, order, env);
    var t := CreditingRow(db, order, env);
    if t.Some? {
      GoesThroughIff(db, t.value, env);
      if GoesThrough(db, t.value, env) {
        TakenAfterIff(db, ReverseMatch(db, order, env).0, DecideOn(db, t.value, env).orderId, t.value, s);
      }
    }
  }

  // ---------------------------------------------------------------- an order with a TrxID

  predicate CarriesTrxOf(s: Sms, o: Order) {
    s.company == o.company && s.trxId.Some? && s.trxId == o.trxId
  }

  /** An SMS that carries a pending order's TrxID credits that order or none. */
  lemma ExactSmsCreditsItsOrder(db: Db, order: nat, id: nat, env: Env)
    requires order < |db.orders| && id < |db.sms|
    requires db.orders[order].status.Pending? && CarriesTrxOf(db.sms[id], db.orders[order])
    ensures DecideOn(db, id, env).DVerified? ==> DecideOn(db, id, env).orderId == order
  {
    if DecideOn(db, id, env).DVerified? {
      var input := BuildInput(db, id, env);
      var o := db.orders[order];
      InputIsTables(db, id, env);
      assert ClaimsTrxOf(o.company, o.trxId.value)(o);
      assert ToOrderFacts(order, o) in input.candidates;
      OwnOrderIsEligible(input, ToOrderFacts(order, o));
    }
  }

  /** With an eligible candidate the heuristic is not consulted, and only that candidate can be verified. */
  lemma OwnOrderIsEligible(input: MatchInput, c: OrderFacts)
    requires DistinctIds(input.candidates) && c in input.candidates
    requires c.status.Pending? && c.trxId.Some? && c.trxId == input.sms.trxId
    ensures RunDecide(input).DVerified? ==> RunDecide(input).orderId == c.id
  {
    if RunDecide(input).DVerified? && input.sms.amount.Some? {
      var eligible := Eligible(
        input.candidates, input.sms.trxId.value, input.now, input.settings.lateMatchGraceHours);
      assert c in eligible;
      assert RunExact(input).Some?;
    }
  }

  /** Registering or correcting an order with a TrxID can only ever credit that order. */
  lemma ExactReverseCreditsItsOrder(db: Db, order: nat, env: Env)
    requires order < |db.orders| && db.orders[order].status.Pending?
    requires db.orders[order].mode.ExactMode? && db.orders[order].trxId.Some?
    ensures var d := ReverseMatch(db, order, env).1; d.Some? ==> d.value.DVerified? && d.value.orderId == order
  {
    hide DecideOn, FirstVerified, GoesThrough, ReverseMatch, CreditsExactly;
    ReverseCreditsFirst(db, order, env);
    CreditingRowVerifies(db, order, env);
    var s := CreditingRow(db, order, env);
    if s.Some? {
      var keep := ReverseExactFor(db.orders[order]);
      var rows := RowsWhere(db.sms, keep, false);
      assert keep(db.sms[s.value]);
      ExactSmsCreditsItsOrder(db, order, s.value, env);
    }
  }
}
