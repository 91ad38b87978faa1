/** For a TrxID nobody else has used, it does not matter whether the order or the SMS arrives first. */
module ArrivalOrder {
  import opened Prelude
  import opened MatchTypes
  import opened Decide
  import opened Outbox
  import opened Tables
  import opened Engine
  import opened Lifecycle
  import opened Invariants
  import opened Steps
  import opened Verdict

  /** Registration as the service runs it: create the order, then look for an SMS that already pays it. */
  function RegisterAndMatch(db: Db, req: RegisterRequest, policy: RegisterPolicy, env: Env): Db {
    var (created, outcome) := RegisterOrder(db, req, env.settings, policy, env.now);
    match outcome
    case Created(id) => ReverseMatch(created, id, env).0
    case _ => created
  }

  // ---------------------------------------------------------------- equality up to clock readings

  function TimelessBody(b: EventBody): EventBody {
    match b
    case PaymentVerified(_, _, _, _, _, _, _, _, _, _, _) => b.(verifiedAt := 0)
    case ReviewRequired(_, _, _, _) => b
    case PaymentExpired(_, _, _, _) => b.(expiresAt := 0)
  }

  function TimelessEvent(e: OutboxEvent): OutboxEvent {
    e.(raw := TimelessBody(e.raw), createdAt := 0,
       nextAttemptAt := if e.nextAttemptAt.Some? then Some(0) else None)
  }

  function TimelessOrder(o: Order): Order {
    o.(createdAt := 0, expiresAt := 0, verifiedAt := if o.verifiedAt.Some? then Some(0) else None)
  }

  /** The same tables except for when things happened. */
  ghost predicate SameButTimes(a: Db, b: Db) {
    && |a.orders| == |b.orders| && a.sms == b.sms && a.reviews == b.reviews && |a.events| == |b.events|
    && a.nextVerif == b.nextVerif && a.verifs.Keys == b.verifs.Keys
    && (forall i :: 0 <= i < |a.orders| ==> TimelessOrder(a.orders[i]) == TimelessOrder(b.orders[i]))
    && (forall k :: k in a.verifs ==> a.verifs[k].(verifiedAt := 0) == b.verifs[k].(verifiedAt := 0))
    && (forall e :: 0 <= e < |a.events| ==> TimelessEvent(a.events[e]) == TimelessEvent(b.events[e]))
  }

  lemma SameAdmission(a: Db, b: Db, c: Crediting, later: int)
    requires SameButTimes(a, b) && InTables(a, c)
    ensures CreditAdmitted(a, c) == CreditAdmitted(b, c.(now := later))
  {
  }

  lemma SameCredit(a: Db, b: Db, c: Crediting, later: int)
    requires SameButTimes(a, b) && InTables(a, c) && CreditAdmitted(a, c)
    ensures CreditAdmitted(b, c.(now := later))
    ensures SameButTimes(ApplyCredit(a, c).value, ApplyCredit(b, c.(now := later)).value)
  {
    SameAdmission(a, b, c, later);
    assert TimelessOrder(a.orders[c.order]) == TimelessOrder(b.orders[c.order]);
  }

  lemma SameReview(
      a: Db, b: Db, id: nat, reason: ReviewReason, candidates: seq<ReviewCandidate>, env: Env, later: int)
    requires SameButTimes(a, b) && id < |a.sms|
    ensures SameButTimes(
      ApplyReview(a, id, reason, candidates, env), ApplyReview(b, id, reason, candidates, env.(now := later)))
  {
    var single := SingleCandidate(candidates);
    var company := a.sms[id].company;
    var x := SetSms(AddReview(a, company, Some(id), single, reason, candidates), id, StInReview, {});
    var y := SetSms(AddReview(b, company, Some(id), single, reason, candidates), id, StInReview, {});
    assert SameButTimes(x, y);
    if env.settings.notifyOnReview && single.Some? && single.value < |a.orders| {
      var o, p := a.orders[single.value], b.orders[single.value];
      assert TimelessOrder(o) == TimelessOrder(p);
      assert o.orderRef == TimelessOrder(o).orderRef && o.expected == TimelessOrder(o).expected
        && o.callbackUrl == TimelessOrder(o).callbackUrl;
      SameEvent(x, y,
        PendingEvent(company, ReviewRequired(single.value, o.orderRef, reason, o.expected), o.callbackUrl, env.now,
          env.companyStatus.CompanyActive?),
        PendingEvent(company, ReviewRequired(single.value, p.orderRef, reason, p.expected), p.callbackUrl, later,
          env.companyStatus.CompanyActive?));
    }
  }

  lemma SameEvent(a: Db, b: Db, e: OutboxEvent, f: OutboxEvent)
    requires SameButTimes(a, b) && TimelessEvent(e) == TimelessEvent(f)
    ensures SameButTimes(AddEvent(a, e), AddEvent(b, f))
  {
  }

  /** Applying one decision to tables that differ only in times gives tables that differ only in times. */
  lemma SameEffect(a: Db, b: Db, id: nat, d: Decision, env: Env, later: int)
    requires SameButTimes(a, b) && id < |a.sms|
    requires d.DVerified? ==> d.orderId < |a.orders|
    ensures var x, y := ApplyDecision(a, id, d, env), ApplyDecision(b, id, d, env.(now := later));
      x.Some? == y.Some? && (x.Some? ==> SameButTimes(x.value, y.value))
  {
    match d
    case DVerified(_, _, _, _, _, _) =>
      var c := CreditOf(id, d, env);
      SameAdmission(a, b, c, later);
      if CreditAdmitted(a, c) {
        SameCredit(a, b, c, later);
      }
    case DReview(reason, candidates) => SameReview(a, b, id, reason, candidates, env, later);
    case DDuplicate(_) =>
    case DGuardRejected(_) =>
    case DUnmatched =>
  }

  // ---------------------------------------------------------------- what the queries see

  lemma ScanStep(orders: seq<Order>, keep: Order -> bool, n: nat)
    requires 0 < n <= |orders|
    ensures Scan(orders, keep, n)
      == Scan(orders, keep, n - 1) + if keep(orders[n - 1]) then [ToOrderFacts(n - 1, orders[n - 1])] else []
    ensures Scan(orders, keep, 0) == []
  {
  }

  lemma {:induction false} ScanPrefix(orders: seq<Order>, row: Order, keep: Order -> bool, n: nat)
    requires n <= |orders|
    ensures Scan(orders + [row], keep, n) == Scan(orders, keep, n)
  {
    hide Scan, ToOrderFacts;
    if n > 0 {
      ScanPrefix(orders, row, keep, n - 1);
      ScanStep(orders + [row], keep, n);
      ScanStep(orders, keep, n);
      assert (orders + [row])[n - 1] == orders[n - 1];
    } else {
      ScanEmpty(orders, keep);
      ScanEmpty(orders + [row], keep);
    }
  }

  lemma ScanEmpty(orders: seq<Order>, keep: Order -> bool)
    ensures Scan(orders, keep, 0) == []
  {
  }

  lemma {:induction false} ScanNone(orders: seq<Order>, keep: Order -> bool, n: nat)
    requires n <= |orders| && forall i :: 0 <= i < n ==> !keep(orders[i])
    ensures Scan(orders, keep, n) == []
  {
    if n > 0 { ScanNone(orders, keep, n - 1); }
  }

  /** No order and no SMS of the company has ever carried this TrxID. */
  ghost predicate Unused(db: Db, company: nat, trxId: string) {
    && (forall i :: 0 <= i < |db.orders| ==> db.orders[i].company != company || db.orders[i].trxId != Some(trxId))
    && (forall s :: 0 <= s < |db.sms| ==> db.sms[s].company != company || db.sms[s].trxId != Some(trxId))
  }

  lemma OnlyNewOrderClaims(orders: seq<Order>, o: Order, company: nat, trxId: string)
    requires forall i :: 0 <= i < |orders| ==> orders[i].company != company || orders[i].trxId != Some(trxId)
    ensures LoadExactCandidates(orders, company, trxId) == []
    ensures ClaimsTrx(o, company, trxId) ==>
      LoadExactCandidates(orders + [o], company, trxId) == [ToOrderFacts(|orders|, o)]
  {
    var keep := ClaimsTrxOf(company, trxId);
    ScanNone(orders, keep, |orders|);
    ScanPrefix(orders, o, keep, |orders|);
  }

  lemma TrxOrderIsNoHeuristicCandidate(orders: seq<Order>, o: Order, row: Sms, env: Env)
    requires o.trxId.Some?
    ensures LoadHeuristicCandidates(orders + [o], row, env) == LoadHeuristicCandidates(orders, row, env)
  {
    if row.amount.Some? {
      ScanPrefix(orders, o, HeuristicQueryFor(row, row.amount.value, SmsTime(row, env.now), env.settings), |orders|);
    }
  }

  /** The decision for the pair alone. */
  function PairDecision(id: nat, row: Sms, n: nat, o: Order, env: Env): Decision {
    RunDecide(MatchInput(LoadSmsFacts(row, id, env), [ToOrderFacts(n, o)], [], env.settings, {}, env.now))
  }

  /** The decision for the SMS before its order exists. */
  function LoneDecision(id: nat, row: Sms, env: Env): Decision {
    RunDecide(MatchInput(LoadSmsFacts(row, id, env), [], [], env.settings, {}, env.now))
  }

  lemma Unspent(db: Db, row: Sms, trxId: string)
    requires VerificationsSound(db) && Unused(db, row.company, trxId)
    ensures !TrxSpent(db.(sms := db.sms + [row]), row.company, trxId)
  {
  }

  lemma DecisionsOfThePair(db: Db, o: Order, row: Sms, trxId: string, env: Env)
    requires VerificationsSound(db) && Unused(db, row.company, trxId)
    requires row.trxId == Some(trxId) && ClaimsTrx(o, row.company, trxId)
    requires LoadHeuristicCandidates(db.orders, row, env) == []
    ensures DecideOn(db.(sms := db.sms + [row]), |db.sms|, env) == LoneDecision(|db.sms|, row, env)
    ensures DecideOn(db.(orders := db.orders + [o], sms := db.sms + [row]), |db.sms|, env)
      == PairDecision(|db.sms|, row, |db.orders|, o, env)
  {
    hide RunDecide;
    Unspent(db, row, trxId);
    OnlyNewOrderClaims(db.orders, o, row.company, trxId);
    TrxOrderIsNoHeuristicCandidate(db.orders, o, row, env);
    var both := db.(orders := db.orders + [o], sms := db.sms + [row]);
    assert TrxSpent(both, row.company, trxId) == TrxSpent(db.(sms := db.sms + [row]), row.company, trxId);
    assert BuildInput(both, |db.sms|, env).candidates == [ToOrderFacts(|db.orders|, o)];
  }

  lemma EligibleSingle(c: OrderFacts, trxId: string, now: int, graceHours: nat)
    requires c.trxId == Some(trxId) && c.status.Pending?
    ensures Eligible([c], trxId, now, graceHours) == [c]
  {
  }

  /** The pair decision does not look at when the order was registered, nor, once accepted, at the clock. */
  lemma PairDecisionTimeless(id: nat, row: Sms, n: nat, o: Order, p: Order, env: Env, later: int)
    requires TimelessOrder(o) == TimelessOrder(p) && o.status.Pending? && env.now <= later
    requires row.trxId.Some? && o.trxId == row.trxId
    ensures LoneDecision(id, row, env).DUnmatched? ==>
      PairDecision(id, row, n, o, env) == PairDecision(id, row, n, p, env.(now := later))
    ensures !LoneDecision(id, row, env).DUnmatched? ==> PairDecision(id, row, n, o, env) == LoneDecision(id, row, env)
    ensures LoneDecision(id, row, env).DUnmatched? || LoneDecision(id, row, env).DGuardRejected?
      || LoneDecision(id, row, env) == DReview(SuspiciousSms, [])
  {
    EligibleSingle(ToOrderFacts(n, o), row.trxId.value, env.now, env.settings.lateMatchGraceHours);
    EligibleSingle(ToOrderFacts(n, p), row.trxId.value, later, env.settings.lateMatchGraceHours);
    assert TimelessOrder(o).status == TimelessOrder(p).status && TimelessOrder(o).trxId == TimelessOrder(p).trxId
      && TimelessOrder(o).expected == TimelessOrder(p).expected
      && TimelessOrder(o).tolerance == TimelessOrder(p).tolerance;
  }

  // ---------------------------------------------------------------- reverse rows

  lemma {:induction false} ScanSmsOnly(sms: seq<Sms>, keep: Sms -> bool, id: nat)
    requires id < |sms|
    requires forall i :: 0 <= i < |sms| && keep(sms[i]) ==> i == id
    ensures ScanSms(sms, keep, |sms|) == if keep(sms[id]) then [id] else []
  {
    var r := ScanSms(sms, keep, |sms|);
    assert forall k :: 0 <= k < |r| ==> keep(sms[r[k]]) && r[k] == id;
    assert |r| <= 1 by {
      var first, last := 0, |r| - 1;
      assert |r| > 0 ==> r[first] == id && r[last] == id;
    }
    assert keep(sms[id]) ==> id in r && r == [id];
  }

  lemma SortSingle(id: nat, key: nat -> real)
    ensures SortDesc([id], key) == [id]
    ensures SortDesc<nat>([], key) == []
  {
  }

  lemma SingleRow(sms: seq<Sms>, id: nat, newestFirst: bool)
    ensures ByTime(sms, [id], newestFirst) == [id]
    ensures ByTime(sms, [], newestFirst) == []
  {
    var one: seq<nat> := [id];
    var none: seq<nat> := [];
    assert one[1..] == none;
    SortSingle(id, TimeKey(sms, newestFirst));
    if id < |sms| && sms[id].smsAt.Some? {
      assert KeepIf(one, HasTime(sms, true)) == one && KeepIf(one, HasTime(sms, false)) == none;
    } else {
      assert KeepIf(one, HasTime(sms, true)) == none && KeepIf(one, HasTime(sms, false)) == one;
    }
  }

  /** A reverse query that only one row can satisfy returns that row or none. */
  lemma RowsOnly(sms: seq<Sms>, keep: Sms -> bool, id: nat, newestFirst: bool)
    requires id < |sms|
    requires forall i :: 0 <= i < |sms| && keep(sms[i]) ==> i == id
    ensures RowsWhere(sms, keep, newestFirst) == if keep(sms[id]) then [id] else []
  {
    hide ScanSms, ByTime;
    ScanSmsOnly(sms, keep, id);
    SingleRow(sms, id, newestFirst);
  }

  /** The reverse match of the new order visits the new SMS if it is still UNMATCHED, and nothing else. */
  lemma ReverseSeesOnly(db: Db, n: nat, id: nat, env: Env)
    requires n < |db.orders| && id < |db.sms|
    requires db.orders[n].status.Pending? && db.orders[n].mode.ExactMode? && db.orders[n].trxId.Some?
    requires forall s :: 0 <= s < |db.sms| && ReverseExact(db.sms[s], db.orders[n]) ==> s == id
    ensures ReverseRows(db, n, env) == Some(if ReverseExact(db.sms[id], db.orders[n]) then [id] else [])
  {
    hide RowsWhere;
    RowsOnly(db.sms, ReverseExactFor(db.orders[n]), id, false);
  }

  lemma ReverseSeesNothing(db: Db, n: nat, env: Env)
    requires n < |db.orders|
    requires db.orders[n].status.Pending? && db.orders[n].mode.ExactMode? && db.orders[n].trxId.Some?
    requires forall s :: 0 <= s < |db.sms| ==> !ReverseExact(db.sms[s], db.orders[n])
    ensures ReverseRows(db, n, env) == Some([])
  {
  }

  // ---------------------------------------------------------------- both orders of arrival

  /** An order and an SMS about to arrive, each new to the tables, sharing a TrxID nobody has used. */
  ghost predicate FreshPair(
      db: Db, req: RegisterRequest, settings: Settings, company: nat, msg: Message, now: int)
  {
    && req.company == company && ValidateRequest(req, settings).None? && req.trxGiven && req.trxId.Some?
    && msg.extraction.trxId == req.trxId
    && Unused(db, company, req.trxId.value)
    && FindOrder(db.orders, company, req.orderRef, |db.orders|).None?
    && IsHex64(msg.clientHash)
    && FindSms(db.sms, SameContentAs(company, msg.contentHash, now), |db.sms|).None?
    && FindSms(db.sms, SameClientAs(company, msg.clientHash), |db.sms|).None?
  }

  /** Three moments under the same settings, with the database answering. */
  ghost predicate InSequence(early: Env, upload: Env, late: Env) {
    && early == upload.(now := early.now) && late == upload.(now := late.now) && upload.faults == 0
    && early.now <= upload.now <= late.now
  }

  lemma OrderIsCreated(db: Db, req: RegisterRequest, policy: RegisterPolicy, env: Env)
    requires ValidateRequest(req, env.settings).None? && req.trxGiven
    requires forall i :: 0 <= i < |db.orders| ==>
      db.orders[i].company != req.company || db.orders[i].trxId != req.trxId
    requires FindOrder(db.orders, req.company, req.orderRef, |db.orders|).None?
    ensures var row := NewOrder(req, policy, env.now);
      RegisterOrder(db, req, env.settings, policy, env.now) == (db.(orders := db.orders + [row]), Created(|db.orders|))
  {
  }

  lemma RegisterFirst(
      db: Db, req: RegisterRequest, policy: RegisterPolicy, company: nat, msg: Message, env: Env, now: int)
    requires FreshPair(db, req, env.settings, company, msg, now) && env.faults == 0
    ensures RegisterAndMatch(db, req, policy, env)
      == db.(orders := db.orders + [NewOrder(req, policy, env.now)])
  {
    OrderIsCreated(db, req, policy, env);
    var created := db.(orders := db.orders + [NewOrder(req, policy, env.now)]);
    assert req.trxId.Some?;
    ReverseSeesNothing(created, |db.orders|, env);
  }

  lemma SmsIsIngested(db: Db, company: nat, device: nat, msg: Message, env: Env)
    requires IsHex64(msg.clientHash)
    requires FindSms(db.sms, SameContentAs(company, msg.contentHash, env.now), |db.sms|).None?
    requires FindSms(db.sms, SameClientAs(company, msg.clientHash), |db.sms|).None?
    ensures IngestOne(db, company, device, msg, env, {}).0
      == MatchSms(db.(sms := db.sms + [NewSms(company, device, msg, env.now)]), |db.sms|, env)
  {
    hide IsHex64, MatchSms, MatchResult, RewriteStatus;
    RewriteChangesNothing(db.(sms := db.sms + [NewSms(company, device, msg, env.now)]), |db.sms|, env);
  }

  /** The SMS came first and was left UNMATCHED: the new order's reverse match decides the pair. */
  lemma LateRegisterDecides(
      db: Db, o: Order, id: nat, env: Env)
    requires |db.orders| > 0 && id < |db.sms| && env.faults == 0
    requires db.orders[|db.orders| - 1] == o
    requires o.status.Pending? && o.mode.ExactMode? && o.trxId.Some?
    requires forall s :: 0 <= s < |db.sms| && ReverseExact(db.sms[s], o) ==> s == id
    requires ReverseExact(db.sms[id], o)
    ensures ReverseMatch(db, |db.orders| - 1, env).0 == MatchSms(db, id, env)
  {
    hide DecideAndApply, ReverseRows, ReverseLoop;
    ReverseSeesOnly(db, |db.orders| - 1, id, env);
    LoopOverOne(db, id, env);
  }

  lemma LoopOverOne(db: Db, id: nat, env: Env)
    requires id < |db.sms|
    ensures ReverseLoop(db, [id], env)
      == match DecideAndApply(db, id, env)
         case Conflict => ReverseConflict
         case Committed(db', d) => ReverseDone(db', if d.DVerified? then Some(d) else None)
  {
    hide DecideAndApply;
    assert [id][1..] == [];
    DecideKeepsLengths(db, id, env);
    match DecideAndApply(db, id, env)
    case Conflict =>
    case Committed(db', d) =>
      assert ReverseLoop(db', [id][1..], env) == ReverseDone(db', None);
  }

  lemma PairMeets(
      db: Db, o: Order, p: Order, row: Sms, trxId: string, upload: Env, late: Env)
    requires VerificationsSound(db) && Unused(db, row.company, trxId)
    requires row.trxId == Some(trxId) && ClaimsTrx(o, row.company, trxId) && ClaimsTrx(p, row.company, trxId)
    requires o.status.Pending? && TimelessOrder(o) == TimelessOrder(p)
    requires upload.faults == 0 && late == upload.(now := late.now) && upload.now <= late.now
    requires LoadHeuristicCandidates(db.orders, row, upload) == []
    requires LoadHeuristicCandidates(db.orders, row, late) == []
    requires LoneDecision(|db.sms|, row, upload).DUnmatched?
    ensures SameButTimes(
      MatchSms(db.(orders := db.orders + [o], sms := db.sms + [row]), |db.sms|, upload),
      MatchSms(db.(orders := db.orders + [p], sms := db.sms + [row]), |db.sms|, late))
  {
    hide RunDecide, LoneDecision, PairDecision, DecideOn, ApplyDecision;
    var a := db.(orders := db.orders + [o], sms := db.sms + [row]);
    var b := db.(orders := db.orders + [p], sms := db.sms + [row]);
    DecisionsOfThePair(db, o, row, trxId, upload);
    DecisionsOfThePair(db, p, row, trxId, late);
    PairDecisionTimeless(|db.sms|, row, |db.orders|, o, p, upload, late.now);
    var d := DecideOn(a, |db.sms|, upload);
    assert d == DecideOn(b, |db.sms|, late);
    DecisionNamesRow(a, |db.sms|, upload);
    DecisionNamesRow(b, |db.sms|, late);
    SameEffect(a, b, |db.sms|, d, upload, late.now);
  }

  /** An SMS rejected or held back on its own is rejected or held back with or without its order. */
  lemma PairParts(
      db: Db, o: Order, p: Order, row: Sms, trxId: string, upload: Env, late: Env)
    requires VerificationsSound(db) && Unused(db, row.company, trxId)
    requires row.trxId == Some(trxId) && ClaimsTrx(o, row.company, trxId)
    requires o.status.Pending? && TimelessOrder(o) == TimelessOrder(p)
    requires upload.faults == 0 && upload.now <= late.now && row.matchStatus.StUnmatched?
    requires LoadHeuristicCandidates(db.orders, row, upload) == []
    requires !LoneDecision(|db.sms|, row, upload).DUnmatched?
    ensures var id := |db.sms|;
      var a := MatchSms(db.(orders := db.orders + [o], sms := db.sms + [row]), id, upload);
      var b := MatchSms(db.(sms := db.sms + [row]), id, upload);
      && b.orders == db.orders && |b.sms| == |db.sms| + 1 && !b.sms[id].matchStatus.StUnmatched?
      && b.sms[..id] == db.sms
      && SameButTimes(a, b.(orders := b.orders + [p]))
  {
    hide RunDecide, PairDecision, DecideOn, LoneDecision;
    hide VerificationsSound, Unused, LoadHeuristicCandidates, SameButTimes;
    DecisionsOfThePair(db, o, row, trxId, upload);
    PairDecisionTimeless(|db.sms|, row, |db.orders|, o, p, upload, late.now);
    var id := |db.sms|;
    var with := db.(orders := db.orders + [o], sms := db.sms + [row]);
    var alone := db.(sms := db.sms + [row]);
    if LoneDecision(id, row, upload).DGuardRejected? {
      AppendLater(SetSms(alone, id, StIgnored, {}), o, p);
    } else {
      var reviewed := ApplyReview(alone, id, SuspiciousSms, [], upload);
      AppendLater(reviewed, o, p);
      assert ApplyReview(with, id, SuspiciousSms, [], upload) == reviewed.(orders := reviewed.orders + [o]);
    }
  }

  lemma AppendLater(db: Db, o: Order, p: Order)
    requires TimelessOrder(o) == TimelessOrder(p)
    ensures SameButTimes(db.(orders := db.orders + [o]), db.(orders := db.orders + [p]))
  {
  }

  lemma UnmatchedAlone(db: Db, o: Order, row: Sms, trxId: string, upload: Env)
    requires VerificationsSound(db) && Unused(db, row.company, trxId)
    requires row.trxId == Some(trxId) && ClaimsTrx(o, row.company, trxId)
    requires upload.faults == 0 && row.matchStatus.StUnmatched?
    requires LoadHeuristicCandidates(db.orders, row, upload) == []
    requires LoneDecision(|db.sms|, row, upload).DUnmatched?
    ensures MatchSms(db.(sms := db.sms + [row]), |db.sms|, upload) == db.(sms := db.sms + [row])
  {
    hide RunDecide, LoneDecision, DecideOn;
    var stored := db.(sms := db.sms + [row]);
    DecisionsOfThePair(db, o, row, trxId, upload);
    assert row.flags + {} == row.flags;
    assert stored.sms[|db.sms| := row] == stored.sms;
  }

  /**
   * Arrival order is irrelevant: registering then ingesting, and ingesting then registering, end in the
   * same tables but for clock readings: same order status, SMS status, verification, delta, flags, reviews
   * and events, whether the amount fits, exceeds or falls short, and whatever the guards say.
   */
  lemma ArrivalOrderIrrelevant(
      db: Db, req: RegisterRequest, policy: RegisterPolicy, company: nat, device: nat, msg: Message,
      early: Env, upload: Env, late: Env)
    requires Inv(db) && InSequence(early, upload, late)
    requires FreshPair(db, req, upload.settings, company, msg, upload.now)
    requires LoadHeuristicCandidates(db.orders, NewSms(company, device, msg, upload.now), upload) == []
    requires LoadHeuristicCandidates(db.orders, NewSms(company, device, msg, upload.now), late) == []
    ensures SameButTimes(
      IngestOne(RegisterAndMatch(db, req, policy, early), company, device, msg, upload, {}).0,
      RegisterAndMatch(IngestOne(db, company, device, msg, upload, {}).0, req, policy, late))
  {
    hide Inv, SameButTimes, MatchSms, LoneDecision, LoadHeuristicCandidates, IngestOne, IsHex64, ValidateRequest;
    var o, p := NewOrder(req, policy, early.now), NewOrder(req, policy, late.now);
    var row, id, n := NewSms(company, device, msg, upload.now), |db.sms|, |db.orders|;
    assert VerificationsSound(db) by { InvIsSound(db); }
    RegisterFirst(db, req, policy, company, msg, early, upload.now);
    SmsIsIngested(db.(orders := db.orders + [o]), company, device, msg, upload);
    SmsIsIngested(db, company, device, msg, upload);
    if LoneDecision(id, row, upload).DUnmatched? {
      UnmatchedAlone(db, p, row, req.trxId.value, upload);
      RegisterMeetsSms(db, req, policy, company, msg, row, late, upload.now);
      PairMeets(db, o, p, row, req.trxId.value, upload, late);
    } else {
      PairParts(db, o, p, row, req.trxId.value, upload, late);
      RegisterMissesSms(db, MatchSms(db.(sms := db.sms + [row]), id, upload), req, policy, company, msg, late,
        upload.now);
    }
  }

  lemma RegisterMeetsSms(
      db: Db, req: RegisterRequest, policy: RegisterPolicy, company: nat, msg: Message, row: Sms, late: Env, now: int)
    requires FreshPair(db, req, late.settings, company, msg, now) && late.faults == 0
    requires row.company == company && row.trxId == req.trxId && row.matchStatus.StUnmatched?
    ensures var p := NewOrder(req, policy, late.now);
      RegisterAndMatch(db.(sms := db.sms + [row]), req, policy, late)
        == MatchSms(db.(orders := db.orders + [p], sms := db.sms + [row]), |db.sms|, late)
  {
    hide MatchSms, ReverseMatch, IsHex64, ValidateRequest;
    var p := NewOrder(req, policy, late.now);
    OrderIsCreated(db.(sms := db.sms + [row]), req, policy, late);
    LateRegisterDecides(db.(orders := db.orders + [p], sms := db.sms + [row]), p, |db.sms|, late);
  }

  lemma RegisterMissesSms(
      db: Db, ingested: Db, req: RegisterRequest, policy: RegisterPolicy, company: nat, msg: Message,
      late: Env, now: int)
    requires FreshPair(db, req, late.settings, company, msg, now) && late.faults == 0
    requires ingested.orders == db.orders && |ingested.sms| == |db.sms| + 1 && ingested.sms[..|db.sms|] == db.sms
    requires !ingested.sms[|db.sms|].matchStatus.StUnmatched?
    ensures RegisterAndMatch(ingested, req, policy, late)
      == ingested.(orders := ingested.orders + [NewOrder(req, policy, late.now)])
  {
    hide IsHex64, ValidateRequest;
    var p := NewOrder(req, policy, late.now);
    OrderIsCreated(ingested, req, policy, late);
    var created := ingested.(orders := ingested.orders + [p]);
    forall s | 0 <= s < |created.sms| ensures !ReverseExact(created.sms[s], p) {
      assert s < |db.sms| ==> created.sms[s] == db.sms[s];
    }
    ReverseSeesNothing(created, |db.orders|, late);
  }

  lemma InvIsSound(db: Db)
    requires Inv(db)
    ensures VerificationsSound(db) && LiveTrxUnique(db)
  {
  }

  /** And what they end in: the order is VERIFIED exactly when the SMS is usable, the SMS is not from the
      future, and it is not underpaid. */
  lemma FreshPairVerifiesIff(
      db: Db, req: RegisterRequest, policy: RegisterPolicy, company: nat, device: nat, msg: Message,
      early: Env, upload: Env)
    requires Inv(db) && early == upload.(now := early.now) && upload.faults == 0
    requires FreshPair(db, req, upload.settings, company, msg, upload.now)
    requires LoadHeuristicCandidates(db.orders, NewSms(company, device, msg, upload.now), upload) == []
    ensures var done := IngestOne(RegisterAndMatch(db, req, policy, early), company, device, msg, upload, {}).0;
      var row := NewSms(company, device, msg, upload.now);
      && |done.orders| == |db.orders| + 1
      && (done.orders[|db.orders|].status.Verified? <==>
            UsableSms(row, upload) && SmsInTime(row, upload)
            && Received(req.amount) <= Received(msg.extraction.amount) + policy.tolerance)
  {
    hide Inv, MatchSms, LoadHeuristicCandidates, IngestOne, IsHex64, ValidateRequest, VerificationsSound, LiveTrxUnique;
    var o, row, id := NewOrder(req, policy, early.now), NewSms(company, device, msg, upload.now), |db.sms|;
    InvIsSound(db);
    RegisterFirst(db, req, policy, company, msg, early, upload.now);
    SmsIsIngested(db.(orders := db.orders + [o]), company, device, msg, upload);
    FreshRunVerifiesIff(db, o, row, req.trxId.value, upload);
  }

  lemma FreshRunVerifiesIff(db: Db, o: Order, row: Sms, trxId: string, env: Env)
    requires VerificationsSound(db) && LiveTrxUnique(db) && Unused(db, row.company, trxId)
    requires row.trxId == Some(trxId) && ClaimsTrx(o, row.company, trxId) && o.status.Pending?
    requires env.faults == 0 && LoadHeuristicCandidates(db.orders, row, env) == []
    ensures var a := db.(orders := db.orders + [o], sms := db.sms + [row]);
      var done := MatchSms(a, |db.sms|, env);
      && |done.orders| == |a.orders|
      && (done.orders[|db.orders|].status.Verified? <==>
            UsableSms(row, env) && SmsInTime(row, env) && o.expected <= Received(row.amount) + o.tolerance)
  {
    hide DecideOn, PairDecision, LoadHeuristicCandidates;
    var a := db.(orders := db.orders + [o], sms := db.sms + [row]);
    DecisionsOfThePair(db, o, row, trxId, env);
    var d := DecideOn(a, |db.sms|, env);
    PairDecisionIs(|db.sms|, row, |db.orders|, o, env);
    DecisionNamesRow(a, |db.sms|, env);
    MatchKeepsLengths(a, |db.sms|, env);
    if d.DVerified? {
      FreshPairAdmitted(db, o, row, CreditOf(|db.sms|, d, env));
    }
  }

  lemma FreshPairAdmitted(db: Db, o: Order, row: Sms, c: Crediting)
    requires VerificationsSound(db) && o.status.Pending? && o.trxId.Some?
    requires Unused(db, o.company, o.trxId.value)
    requires c.order == |db.orders| && c.sms == |db.sms|
    ensures CreditAdmitted(db.(orders := db.orders + [o], sms := db.sms + [row]), c)
  {
  }

  lemma PairDecisionIs(id: nat, row: Sms, n: nat, o: Order, env: Env)
    requires o.status.Pending? && row.trxId.Some? && o.trxId == row.trxId
    ensures var d := PairDecision(id, row, n, o, env);
      && (d.DVerified? <==>
            UsableSms(row, env) && SmsInTime(row, env) && o.expected <= Received(row.amount) + o.tolerance)
      && (d.DVerified? ==> d.orderId == n)
  {
    EligibleSingle(ToOrderFacts(n, o), row.trxId.value, env.now, env.settings.lateMatchGraceHours);
  }
}
