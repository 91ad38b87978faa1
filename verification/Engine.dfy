/**
 * The effects of matching, as functions from one database state to the next. A transaction that
 * violates a unique index has no next state: it rolls back whole.
 */
module Engine {
  import opened Prelude
  import opened MatchTypes
  import opened Decide
  import opened Outbox
  import opened Tables

  const REVERSE_CANDIDATE_LIMIT := 200

  // ---------------------------------------------------------------- single-row writes

  function SetSms(db: Db, id: nat, status: MatchStatus, flags: set<Flag>): Db
    requires id < |db.sms|
  {
    db.(sms := db.sms[id := db.sms[id].(matchStatus := status, flags := db.sms[id].flags + flags)])
  }

  function AddReview(
      db: Db, company: nat, sms: Option<nat>, order: Option<nat>, reason: ReviewReason,
      candidates: seq<ReviewCandidate>): Db
  {
    if OpenReviewExists(db, sms, order) then db
    else db.(reviews := db.reviews + [Review(company, sms, order, reason, candidates, ReviewOpen)])
  }

  function AddEvent(db: Db, e: OutboxEvent): Db {
    db.(events := db.events + [e])
  }

  function MethodOf(pass: Pass): VerificationMethod {
    match pass case ExactPass => ExactTxnId case HeuristicPass => HeuristicAmountWindow
  }

  // ---------------------------------------------------------------- crediting an order

  datatype Crediting = Crediting(
    order: nat, sms: nat, verifiedBy: VerificationMethod, confidence: real, delta: int,
    wasLate: bool, flags: set<Flag>, now: int, active: bool)

  function VerifiedBody(o: Order, s: Sms, c: Crediting): EventBody {
    PaymentVerified(
      c.order, o.orderRef, o.trxId, Received(s.amount), o.expected, s.provider, s.sender, c.now,
      c.verifiedBy, c.confidence, c.wasLate)
  }

  predicate InTables(db: Db, c: Crediting) {
    c.order < |db.orders| && c.sms < |db.sms|
  }

  /** The order row a credit leaves behind. */
  function CreditedRow(o: Order, now: int): Order {
    o.(status := Verified, verifiedAt := Some(now))
  }

  /** The unique indexes let this credit through. */
  predicate CreditAdmitted(db: Db, c: Crediting)
    requires InTables(db, c)
  {
    !OrderTaken(db, c.order) && !SmsTaken(db, c.sms)
    && IndexAdmits(db.orders, c.order, CreditedRow(db.orders[c.order], c.now))
  }

  /** The matcher and the manual link write their event row directly; a link does not hold it back. */
  function CreditEvent(o: Order, s: Sms, c: Crediting): (e: OutboxEvent)
    ensures e.raw == VerifiedBody(o, s, c)
  {
    PendingEvent(o.company, VerifiedBody(o, s, c), o.callbackUrl, c.now, c.active)
  }

  /** Verification, order, SMS and webhook event, all or nothing. */
  function ApplyCredit(db: Db, c: Crediting): Option<Db>
    requires InTables(db, c)
  {
    if !CreditAdmitted(db, c) then None
    else
      var o, s := db.orders[c.order], db.sms[c.sms];
      var v := Verification(o.company, c.order, c.sms, c.verifiedBy, c.confidence, c.delta, c.wasLate, c.now);
      var credited := db.(
        verifs := db.verifs[db.nextVerif := v],
        nextVerif := db.nextVerif + 1,
        orders := db.orders[c.order := CreditedRow(o, c.now)]);
      Some(AddEvent(SetSms(credited, c.sms, StMatched, c.flags), CreditEvent(o, s, c)))
  }

  // ---------------------------------------------------------------- apply-decision.ts

  function SingleCandidate(candidates: seq<ReviewCandidate>): Option<nat> {
    if |candidates| == 1 then Some(candidates[0].orderId) else None
  }

  function ApplyReview(db: Db, id: nat, reason: ReviewReason, candidates: seq<ReviewCandidate>, env: Env): Db
    requires id < |db.sms|
  {
    var single := SingleCandidate(candidates);
    var company := db.sms[id].company;
    var reviewed := SetSms(AddReview(db, company, Some(id), single, reason, candidates), id, StInReview, {});
    if env.settings.notifyOnReview && single.Some? && single.value < |db.orders| then
      var o := db.orders[single.value];
      AddEvent(reviewed, PendingEvent(
        company, ReviewRequired(single.value, o.orderRef, reason, o.expected), o.callbackUrl, env.now,
        env.companyStatus.CompanyActive?))
    else reviewed
  }

  function CreditOf(id: nat, d: Decision, env: Env): Crediting
    requires d.DVerified?
  {
    Crediting(d.orderId, id, MethodOf(d.pass), d.confidence, d.delta, d.wasLate, d.flags, env.now,
      env.companyStatus.CompanyActive?)
  }

  function ApplyDecision(db: Db, id: nat, d: Decision, env: Env): Option<Db>
    requires id < |db.sms|
    requires d.DVerified? ==> d.orderId < |db.orders|
  {
    match d
    case DVerified(_, _, _, _, _, _) => ApplyCredit(db, CreditOf(id, d, env))
    case DReview(reason, candidates) => Some(ApplyReview(db, id, reason, candidates, env))
    case DDuplicate(_) =>
      Some(SetSms(AddReview(db, db.sms[id].company, Some(id), None, DuplicateTxnId, []), id,
        StDuplicateTxn, {DuplicateTxn}))
    case DGuardRejected(_) => Some(SetSms(db, id, StIgnored, {}))
    case DUnmatched => Some(SetSms(db, id, StUnmatched, {}))
  }

  function StatusFor(d: Decision): MatchStatus {
    match d
    case DVerified(_, _, _, _, _, _) => StMatched
    case DReview(_, _) => StInReview
    case DDuplicate(_) => StDuplicateTxn
    case DGuardRejected(_) => StIgnored
    case DUnmatched => StUnmatched
  }

  // ---------------------------------------------------------------- matching.service.ts

  datatype TxOutcome = Committed(db: Db, decision: Decision) | Conflict

  function DecideOn(db: Db, id: nat, env: Env): Decision
    requires id < |db.sms|
  {
    RunDecide(BuildInput(db, id, env))
  }

  predicate IsRow(db: Db, c: OrderFacts) {
    c.id < |db.orders| && c == ToOrderFacts(c.id, db.orders[c.id])
  }

  predicate IsExactCandidate(db: Db, id: nat, c: OrderFacts)
    requires id < |db.sms|
  {
    IsRow(db, c) && db.sms[id].trxId.Some? && ClaimsTrx(db.orders[c.id], db.sms[id].company, db.sms[id].trxId.value)
  }

  ghost predicate IsHeuristicCandidate(db: Db, id: nat, c: OrderFacts, settings: Settings)
    requires id < |db.sms|
  {
    && IsRow(db, c) && db.sms[id].amount.Some?
    && exists at :: HeuristicQuery(db.orders[c.id], db.sms[id], db.sms[id].amount.value, at, settings)
  }

  /** The candidate lists hold rows of the table, so the order a decision names is one of them. */
  lemma InputIsTables(db: Db, id: nat, env: Env)
    requires id < |db.sms|
    ensures var input := BuildInput(db, id, env);
      && DistinctIds(input.candidates) && DistinctIds(input.heuristicCandidates)
      && (forall c :: c in input.candidates ==> IsExactCandidate(db, id, c))
      && (forall c :: c in input.heuristicCandidates ==> IsHeuristicCandidate(db, id, c, env.settings))
  {
    HeuristicCandidatesAreRows(db.orders, db.sms[id], env);
    if db.sms[id].trxId.Some? {
      var keep := ClaimsTrxOf(db.sms[id].company, db.sms[id].trxId.value);
      var r := Scan(db.orders, keep, |db.orders|);
      assert forall c :: c in r ==> keep(db.orders[c.id]);
    }
  }

  lemma DecisionNamesRow(db: Db, id: nat, env: Env)
    requires id < |db.sms|
    ensures DecideOn(db, id, env).DVerified? ==> DecideOn(db, id, env).orderId < |db.orders|
  {
    if DecideOn(db, id, env).DVerified? {
      InputIsTables(db, id, env);
      var o := VerifiedIsSound(BuildInput(db, id, env));
    }
  }

  /** Load, decide, apply, inside one transaction. */
  function DecideAndApply(db: Db, id: nat, env: Env): TxOutcome
    requires id < |db.sms|
  {
    DecisionNamesRow(db, id, env);
    var d := DecideOn(db, id, env);
    match ApplyDecision(db, id, d, env)
    case None => Conflict
    case Some(db') => Committed(db', d)
  }

  const MATCH_ATTEMPTS := 2

  /** One run for one SMS: a conflict, or two failed attempts, leave the tables alone. */
  function MatchSms(db: Db, id: nat, env: Env): Db
    requires id < |db.sms|
  {
    if env.faults >= MATCH_ATTEMPTS then db
    else
      match DecideAndApply(db, id, env)
      case Committed(db', _) => db'
      case Conflict => db
  }

  /** The status the caller of a run is told. */
  function MatchResult(db: Db, id: nat, env: Env): MatchStatus
    requires id < |db.sms|
  {
    if env.faults >= MATCH_ATTEMPTS then StUnmatched
    else
      match DecideAndApply(db, id, env)
      case Committed(_, d) => StatusFor(d)
      case Conflict => db.sms[id].matchStatus
  }

  predicate ReverseExact(s: Sms, o: Order) {
    s.company == o.company && s.trxId.Some? && s.trxId == o.trxId && s.matchStatus.StUnmatched?
  }

  predicate ReverseHeuristic(s: Sms, o: Order, settings: Settings) {
    && s.company == o.company && s.matchStatus.StUnmatched?
    && s.amount.Some? && (s.parse.Parsed? || s.parse.Partial?)
    && Abs(s.amount.value - o.expected) <= o.tolerance
    && s.smsAt.Some?
    && o.createdAt - settings.heuristicWindowMinutes * 60_000 <= s.smsAt.value <= o.createdAt + FIVE_MINUTES_MS
  }

  function ReverseExactFor(o: Order): Sms -> bool { (s: Sms) => ReverseExact(s, o) }

  function ReverseHeuristicFor(o: Order, settings: Settings): Sms -> bool {
    (s: Sms) => ReverseHeuristic(s, o, settings)
  }

  /** Ids of the SMS rows satisfying `keep`, in id order. */
  function ScanSms(sms: seq<Sms>, keep: Sms -> bool, n: nat): (r: seq<nat>)
    requires n <= |sms|
    ensures forall i: nat :: i in r <==> i < n && keep(sms[i])
    ensures forall k :: 0 <= k < |r| ==> r[k] < n && keep(sms[r[k]])
    ensures (forall i :: 0 <= i < n ==> !keep(sms[i])) ==> r == []
    ensures forall i, j :: 0 <= i < j < |r| ==> r[i] < r[j]
  {
    if n == 0 then []
    else
      var r := ScanSms(sms, keep, n - 1);
      if keep(sms[n - 1]) then r + [n - 1] else r
  }

  function HasTime(sms: seq<Sms>, has: bool): nat -> bool {
    (i: nat) => has == (i < |sms| && sms[i].smsAt.Some?)
  }

  function TimeKey(sms: seq<Sms>, newestFirst: bool): nat -> real {
    (i: nat) =>
      if i < |sms| && sms[i].smsAt.Some? then
        (if newestFirst then sms[i].smsAt.value as real else -(sms[i].smsAt.value as real))
      else 0.0
  }

  /** ORDER BY sms_timestamp, rows without one last. */
  function ByTime(sms: seq<Sms>, ids: seq<nat>, newestFirst: bool): (r: seq<nat>)
    ensures forall k :: 0 <= k < |r| ==> r[k] in ids
  {
    var timed := KeepIf(ids, HasTime(sms, true));
    var untimed := KeepIf(ids, HasTime(sms, false));
    var sorted := SortDesc(timed, TimeKey(sms, newestFirst));
    SameElements(sorted, timed);
    assert forall k :: 0 <= k < |sorted| ==> sorted[k] in timed;
    sorted + untimed
  }

  /** Rows with a time come first, in time order; rows without one come last; no row is dropped or invented. */
  lemma ByTimeOrders(sms: seq<Sms>, ids: seq<nat>, newestFirst: bool, j: nat, k: nat)
    requires forall i :: 0 <= i < |ids| ==> ids[i] < |sms|
    requires j < k < |ByTime(sms, ids, newestFirst)|
    ensures var r := ByTime(sms, ids, newestFirst);
      && r[j] < |sms| && r[k] < |sms|
      && (sms[r[k]].smsAt.Some? ==> sms[r[j]].smsAt.Some?)
      && (sms[r[k]].smsAt.Some? ==>
            if newestFirst then sms[r[j]].smsAt.value >= sms[r[k]].smsAt.value
            else sms[r[j]].smsAt.value <= sms[r[k]].smsAt.value)
  {
    var r := ByTime(sms, ids, newestFirst);
    var timed := KeepIf(ids, HasTime(sms, true));
    var untimed := KeepIf(ids, HasTime(sms, false));
    var key := TimeKey(sms, newestFirst);
    var sorted := SortDesc(timed, key);
    SameElements(sorted, timed);
    assert r == sorted + untimed;
    assert r[j] in ids && r[k] in ids;
    if k < |sorted| {
      assert sorted[j] in timed && sorted[k] in timed;
      assert HasTime(sms, true)(sorted[j]) && HasTime(sms, true)(sorted[k]);
      assert key(sorted[j]) >= key(sorted[k]);
    } else {
      assert untimed[k - |sorted|] in untimed;
      assert HasTime(sms, false)(r[k]);
    }
  }

  lemma ByTimeKeepsAll(sms: seq<Sms>, ids: seq<nat>, newestFirst: bool, i: nat)
    requires forall k :: 0 <= k < |ids| ==> ids[k] < |sms|
    requires i in ids
    ensures i in ByTime(sms, ids, newestFirst)
  {
    var timed := KeepIf(ids, HasTime(sms, true));
    SameElements(SortDesc(timed, TimeKey(sms, newestFirst)), timed);
    assert HasTime(sms, true)(i) || HasTime(sms, false)(i);
  }

  /** When fewer rows than the limit qualify, a reverse match visits every one of them. */
  lemma RowsWhereAll(sms: seq<Sms>, keep: Sms -> bool, newestFirst: bool, i: nat)
    requires i < |sms| && keep(sms[i]) && |RowsWhere(sms, keep, newestFirst)| < REVERSE_CANDIDATE_LIMIT
    ensures i in RowsWhere(sms, keep, newestFirst)
  {
    ByTimeKeepsAll(sms, ScanSms(sms, keep, |sms|), newestFirst, i);
  }

  function KeepIf(ids: seq<nat>, keep: nat -> bool): (r: seq<nat>)
    ensures forall i: nat :: i in r <==> i in ids && keep(i)
  {
    if ids == [] then []
    else
      assert ids == [ids[0]] + ids[1..];
      var rest := KeepIf(ids[1..], keep);
      if keep(ids[0]) then [ids[0]] + rest else rest
  }

  function RowsWhere(sms: seq<Sms>, keep: Sms -> bool, newestFirst: bool): (r: seq<nat>)
    ensures forall k :: 0 <= k < |r| ==> r[k] < |sms| && keep(sms[r[k]])
    ensures |r| <= REVERSE_CANDIDATE_LIMIT
  {
    var found := ScanSms(sms, keep, |sms|);
    var sorted := ByTime(sms, found, newestFirst);
    var r := Take(sorted, REVERSE_CANDIDATE_LIMIT);
    assert forall k :: 0 <= k < |r| ==> r[k] == sorted[k] && r[k] in found;
    r
  }

  /** The SMS rows a reverse match visits; None when the order cannot be reverse-matched. */
  function ReverseRows(db: Db, order: nat, env: Env): (r: Option<seq<nat>>)
    ensures r.Some? ==> forall k :: 0 <= k < |r.value| ==>
      r.value[k] < |db.sms| && db.sms[r.value[k]].matchStatus.StUnmatched?
  {
    if order >= |db.orders| then None
    else
      var o := db.orders[order];
      if !o.status.Pending? && !o.status.Expired? then None
      else if o.mode.ExactMode? && o.trxId.Some? then
        Some(RowsWhere(db.sms, ReverseExactFor(o), false))
      else if o.mode.HeuristicMode? && env.settings.heuristicEnabled then
        Some(RowsWhere(db.sms, ReverseHeuristicFor(o, env.settings), true))
      else None
  }

  datatype ReverseOutcome = ReverseDone(db: Db, verified: Option<Decision>) | ReverseConflict

  /** Try the rows in turn inside one transaction, stopping at the first verification. */
  function ReverseLoop(db: Db, rows: seq<nat>, env: Env): ReverseOutcome
    requires forall k :: 0 <= k < |rows| ==> rows[k] < |db.sms|
    decreases |rows|
  {
    if rows == [] then ReverseDone(db, None)
    else
      match DecideAndApply(db, rows[0], env)
      case Conflict => ReverseConflict
      case Committed(db', d) =>
        DecideKeepsLengths(db, rows[0], env);
        if d.DVerified? then ReverseDone(db', Some(d)) else ReverseLoop(db', rows[1..], env)
  }

  lemma ApplyKeepsLengths(db: Db, id: nat, d: Decision, env: Env)
    requires id < |db.sms|
    requires d.DVerified? ==> d.orderId < |db.orders|
    ensures ApplyDecision(db, id, d, env).Some? ==>
      && |ApplyDecision(db, id, d, env).value.sms| == |db.sms|
      && |ApplyDecision(db, id, d, env).value.orders| == |db.orders|
  {
  }

  lemma DecideKeepsLengths(db: Db, id: nat, env: Env)
    requires id < |db.sms|
    ensures DecideAndApply(db, id, env).Committed? ==>
      |DecideAndApply(db, id, env).db.sms| == |db.sms| && |DecideAndApply(db, id, env).db.orders| == |db.orders|
  {
    DecisionNamesRow(db, id, env);
    ApplyKeepsLengths(db, id, DecideOn(db, id, env), env);
  }

  /** The whole reverse match: a conflict on any row undoes what earlier rows did. */
  function ReverseMatch(db: Db, order: nat, env: Env): (r: (Db, Option<Decision>)) {
    if env.faults > 0 then (db, None)
    else
      match ReverseRows(db, order, env)
      case None => (db, None)
      case Some(rows) =>
        match ReverseLoop(db, rows, env)
        case ReverseConflict => (db, None)
        case ReverseDone(db', verified) => (db', verified)
  }
}
