/** What every step of the payment tables tells the outbox: what the new rows say, and whether they wait. */
module EventBirth {
  import opened Prelude
  import opened MatchTypes
  import opened Heuristic
  import opened HeuristicRule
  import opened Decide
  import opened Outbox
  import opened Tables
  import opened Engine
  import opened Lifecycle
  import opened Invariants
  import opened Steps
  import opened Stability

  // ---------------------------------------------------------------- a row at birth

  /** Due at once for an active company, held back for any other; without a callback URL cancelled at birth. */
  predicate Born(e: OutboxEvent, active: bool, now: int) {
    && e.createdAt == now && e.attemptCount == 0 && e.deliveredAt == None
    && (if e.callbackUrl.None? then e.status == EvCancelled && !e.paused && e.nextAttemptAt == None
        else if active then e.status == EvPending && !e.paused && e.nextAttemptAt == Some(now)
        else e.status == EvPending && e.paused && e.nextAttemptAt == None)
  }

  /** The addressee is the merchant of this order, at the order's own callback URL. */
  predicate IsAddressedTo(e: OutboxEvent, o: Order) {
    e.company == o.company && (e.callbackUrl == Some(o.callbackUrl) || (e.callbackUrl == None && o.callbackUrl == ""))
  }

  /** The announced payment is this verification of this order, at the time and by the SMS the tables have. */
  predicate TellsOf(e: OutboxEvent, o: Order, v: Verification, s: Sms) {
    && e.raw.PaymentVerified? && v.order == e.raw.order && v.company == o.company
    && e.raw.orderRef == o.orderRef && e.raw.trxId == o.trxId && e.raw.expected == o.expected
    && e.raw.amount == Received(s.amount) && e.raw.provider == s.provider && e.raw.sender == s.sender
    && e.raw.verifiedBy == v.verifiedBy && e.raw.confidence == v.confidence && e.raw.wasLate == v.wasLate
    && e.raw.verifiedAt == v.verifiedAt == e.createdAt && o.verifiedAt == Some(v.verifiedAt)
  }

  ghost predicate IsSource(e: OutboxEvent, b: Db, v: Verification)
    requires e.raw.order < |b.orders|
  {
    v.sms < |b.sms| && TellsOf(e, b.orders[e.raw.order], v, b.sms[v.sms])
  }

  /** What the row says is what the tables have. */
  ghost predicate Truthful(e: OutboxEvent, b: Db) {
    && e.raw.order < |b.orders|
    && var o := b.orders[e.raw.order];
       && IsAddressedTo(e, o) && e.raw.orderRef == o.orderRef
       && match e.raw
          case PaymentVerified(_, _, _, _, _, _, _, _, _, _, _) =>
            o.status == Verified && exists k :: k in b.verifs && IsSource(e, b, b.verifs[k])
          case ReviewRequired(_, _, _, amount) => amount == o.expected
          case PaymentExpired(_, _, amount, expiresAt) => amount == o.expected && expiresAt == o.expiresAt
  }

  /** The step kept the outbox and appended truthful rows, due or held by the state of their company. */
  ghost predicate NewTold(a: Db, b: Db, active: nat -> bool, now: int) {
    && a.events <= b.events
    && forall i :: |a.events| <= i < |b.events| ==>
      Born(b.events[i], active(b.events[i].company), now) && Truthful(b.events[i], b)
  }

  function Same(active: bool): nat -> bool { (_: nat) => active }

  function Outside(inactive: set<nat>): nat -> bool { (c: nat) => c !in inactive }

  lemma NothingTold(a: Db, b: Db, active: nat -> bool, now: int)
    requires b.events == a.events
    ensures NewTold(a, b, active, now)
  {
  }

  lemma TruthStays(e: OutboxEvent, b: Db, c: Db)
    requires Truthful(e, b) && Evolves(b, c)
    ensures Truthful(e, c)
  {
    hide TellsOf;
    var o := b.orders[e.raw.order];
    assert SameOrder(o, c.orders[e.raw.order]);
    if e.raw.PaymentVerified? {
      var k :| k in b.verifs && IsSource(e, b, b.verifs[k]);
      var s := b.verifs[k].sms;
      assert SameSms(b.sms[s], c.sms[s]);
      TellsSame(e, o, b.verifs[k], b.sms[s], c.sms[s]);
      assert c.verifs[k] == b.verifs[k] && c.orders[e.raw.order] == o;
      assert IsSource(e, c, c.verifs[k]);
    }
  }

  lemma TellsSame(e: OutboxEvent, o: Order, v: Verification, s: Sms, t: Sms)
    requires TellsOf(e, o, v, s) && SameSms(s, t)
    ensures TellsOf(e, o, v, t)
  {
  }

  lemma ToldTwice(a: Db, b: Db, c: Db, active: nat -> bool, now: int)
    requires NewTold(a, b, active, now) && NewTold(b, c, active, now) && Evolves(b, c)
    ensures NewTold(a, c, active, now)
  {
    hide Truthful, Born, Evolves;
    forall i | |a.events| <= i < |c.events|
      ensures Born(c.events[i], active(c.events[i].company), now) && Truthful(c.events[i], c)
    {
      if i < |b.events| {
        assert c.events[i] == b.events[i];
        TruthStays(b.events[i], b, c);
      }
    }
  }

  // ---------------------------------------------------------------- matching

  lemma CreditTells(db: Db, c: Crediting)
    requires InTables(db, c) && CreditAdmitted(db, c)
    ensures var b := ApplyCredit(db, c).value;
      && |b.events| == |db.events| + 1 && b.events[|db.events|].raw.PaymentVerified?
      && NewTold(db, b, Same(c.active), c.now)
  {
    var b := ApplyCredit(db, c).value;
    var e := b.events[|db.events|];
    assert IsSource(e, b, b.verifs[db.nextVerif]);
    assert Truthful(e, b);
  }

  /** Every line of the review names an order of the company. */
  predicate NamesOwnOrders(d: Decision, db: Db, company: nat) {
    d.DReview? && forall k :: 0 <= k < |d.candidates| ==> IsOwnOrder(db, d.candidates[k].orderId, company)
  }

  predicate IsOwnOrder(db: Db, order: nat, company: nat) {
    order < |db.orders| && db.orders[order].company == company
  }

  predicate IsReviewOf(e: OutboxEvent, order: nat, reason: ReviewReason) {
    e.raw.ReviewRequired? && e.raw.order == order && e.raw.reason == reason
  }

  lemma ReviewTells(db: Db, id: nat, d: Decision, env: Env)
    requires id < |db.sms| && NamesOwnOrders(d, db, db.sms[id].company)
    ensures var b := ApplyReview(db, id, d.reason, d.candidates, env);
      && NewTold(db, b, Same(env.companyStatus == CompanyActive), env.now)
      && (if env.settings.notifyOnReview && |d.candidates| == 1 then
            |b.events| == |db.events| + 1 && IsReviewOf(b.events[|db.events|], d.candidates[0].orderId, d.reason)
          else b.events == db.events)
  {
    assert |d.candidates| == 1 ==> IsOwnOrder(db, d.candidates[0].orderId, db.sms[id].company);
  }

  /** The lines of a decision come from the candidates, and those are rows of the company. */
  lemma ReviewNamesOwnOrders(db: Db, id: nat, env: Env)
    requires id < |db.sms| && DecideOn(db, id, env).DReview?
    ensures NamesOwnOrders(DecideOn(db, id, env), db, db.sms[id].company)
  {
    hide RunDecide, Usable, ListsAll, ListsClaims, RunHeuristic;
    hide BuildInput;
    var input := BuildInput(db, id, env);
    InputIsTables(db, id, env);
    InputCompany(db, id, env);
    DecisionIs(input);
    var d := DecideOn(db, id, env);
    if Usable(input.sms, input.settings) && InTime(input) {
      if HasTwoClaims(input) {
        TwoClaimsAreReviewed(input);
        ClaimLinesAreOwn(d.candidates, input, db, db.sms[id].company);
      } else if HasClaim(input) {
        var i :| 0 <= i < |input.candidates| && ClaimsAndEligible(input.candidates[i], input);
        SingleClaimIsAnswered(input, input.candidates[i]);
        assert IsOwnOrder(db, input.candidates[i].id, db.sms[id].company);
      } else {
        HeuristicAnswers(input);
        ScoredLinesAreOwn(d.candidates, input, db, db.sms[id].company);
      }
    }
  }

  lemma InputCompany(db: Db, id: nat, env: Env)
    requires id < |db.sms|
    ensures var input := BuildInput(db, id, env);
      && (forall c :: c in input.candidates ==> IsOwnOrder(db, c.id, db.sms[id].company))
      && (forall c :: c in input.heuristicCandidates ==> IsOwnOrder(db, c.id, db.sms[id].company))
  {
    hide BuildInput;
    InputIsTables(db, id, env);
  }

  lemma ClaimLinesAreOwn(lines: seq<ReviewCandidate>, input: MatchInput, db: Db, company: nat)
    requires ListsClaims(lines, input)
    requires forall c :: c in input.candidates ==> IsOwnOrder(db, c.id, company)
    ensures forall k :: 0 <= k < |lines| ==> IsOwnOrder(db, lines[k].orderId, company)
  {
    forall k | 0 <= k < |lines| ensures IsOwnOrder(db, lines[k].orderId, company) {
      assert IsLineOfClaim(lines[k], input);
    }
  }

  lemma ScoredLinesAreOwn(lines: seq<ReviewCandidate>, input: MatchInput, db: Db, company: nat)
    requires ListsAll(lines, input)
    requires forall c :: c in input.heuristicCandidates ==> IsOwnOrder(db, c.id, company)
    ensures forall k :: 0 <= k < |lines| ==> IsOwnOrder(db, lines[k].orderId, company)
  {
    forall k | 0 <= k < |lines| ensures IsOwnOrder(db, lines[k].orderId, company) {
      assert IsLine(lines[k], input);
    }
  }

  /** How many rows a committed run adds: one for a verification, one for a review of one order if asked for. */
  ghost predicate AddsRows(db: Db, b: Db, d: Decision, env: Env) {
    if d.DVerified? then |b.events| == |db.events| + 1 && b.events[|db.events|].raw.PaymentVerified?
    else if d.DReview? && env.settings.notifyOnReview && |d.candidates| == 1 then
      |b.events| == |db.events| + 1 && IsReviewOf(b.events[|db.events|], d.candidates[0].orderId, d.reason)
    else b.events == db.events
  }

  lemma DecideTells(db: Db, id: nat, env: Env)
    requires id < |db.sms| && DecideAndApply(db, id, env).Committed?
    ensures var r := DecideAndApply(db, id, env);
      && r.decision == DecideOn(db, id, env)
      && NewTold(db, r.db, Same(env.companyStatus == CompanyActive), env.now)
      && AddsRows(db, r.db, r.decision, env)
  {
    hide DecideOn, NewTold, ApplyReview, CreditAdmitted, NamesOwnOrders;
    DecisionNamesRow(db, id, env);
    var d := DecideOn(db, id, env);
    if d.DVerified? {
      CreditTells(db, CreditOf(id, d, env));
    } else if d.DReview? {
      ReviewNamesOwnOrders(db, id, env);
      ReviewTells(db, id, d, env);
    } else {
      NothingTold(db, DecideAndApply(db, id, env).db, Same(env.companyStatus == CompanyActive), env.now);
    }
  }

  /**
   * A matching run that adds a verification appends exactly one row, the announcement of that payment: due now if the
   * company is active, and held back only if it is not.
   */
  lemma RunTells(db: Db, id: nat, env: Env)
    requires VerificationsSound(db) && id < |db.sms| && MatchSms(db, id, env).verifs != db.verifs
    ensures var b := MatchSms(db, id, env);
      && |b.events| == |db.events| + 1 && b.events[..|db.events|] == db.events
      && var e := b.events[|db.events|];
         && e.raw.PaymentVerified? && Truthful(e, b)
         && (e.paused <==> env.companyStatus != CompanyActive)
         && e.nextAttemptAt == (if e.paused then None else Some(env.now))
  {
    hide DecideOn, CreditEvent, Truthful;
    DecideTells(db, id, env);
    var r := DecideAndApply(db, id, env);
    VerifiesWhenAdding(db, id, env);
    var e := r.db.events[|db.events|];
    assert Born(e, env.companyStatus == CompanyActive, env.now);
    assert e.callbackUrl.Some? by { CreditHasUrl(db, id, env); }
  }

  lemma VerifiesWhenAdding(db: Db, id: nat, env: Env)
    requires id < |db.sms| && MatchSms(db, id, env).verifs != db.verifs
    ensures DecideAndApply(db, id, env).Committed? && DecideOn(db, id, env).DVerified?
    ensures MatchSms(db, id, env) == DecideAndApply(db, id, env).db
  {
    hide DecideOn;
    DecisionNamesRow(db, id, env);
  }

  lemma CreditHasUrl(db: Db, id: nat, env: Env)
    requires id < |db.sms| && DecideAndApply(db, id, env).Committed? && DecideOn(db, id, env).DVerified?
    requires |DecideAndApply(db, id, env).db.events| == |db.events| + 1
    ensures DecideAndApply(db, id, env).db.events[|db.events|].callbackUrl.Some?
  {
    hide DecideOn;
    DecisionNamesRow(db, id, env);
  }

  // ---------------------------------------------------------------- every step

  /** Whether a step finds this company active. */
  function ActiveFor(op: Op): nat -> bool {
    match op
    case Reverse(_, env) => Same(env.companyStatus == CompanyActive)
    case Upload(_, _, _, env) => Same(env.companyStatus == CompanyActive)
    case Rematch(_, env) => Same(env.companyStatus == CompanyActive)
    case Sweep(policy) => Outside(policy.inactive)
    case _ => Same(true)
  }

  /** The clock of a step. */
  function ClockOf(op: Op): int {
    match op
    case Register(_, _, env) => env.now
    case Reverse(_, env) => env.now
    case Upload(_, _, _, env) => env.now
    case Rematch(_, env) => env.now
    case Correct(_, _, _, now) => now
    case Sweep(policy) => policy.now
    case Link(_, _, _, now) => now
    case _ => 0
  }

  lemma MatchTells(db: Db, id: nat, env: Env)
    requires id < |db.sms|
    ensures NewTold(db, MatchSms(db, id, env), Same(env.companyStatus == CompanyActive), env.now)
  {
    hide NewTold, DecideAndApply;
    NothingTold(db, db, Same(env.companyStatus == CompanyActive), env.now);
    if DecideAndApply(db, id, env).Committed? {
      DecideTells(db, id, env);
    }
  }

  lemma {:induction false} LoopTells(db: Db, rows: seq<nat>, env: Env)
    requires Inv(db) && ValidSettings(env.settings)
    requires forall k :: 0 <= k < |rows| ==> rows[k] < |db.sms|
    ensures ReverseLoop(db, rows, env).ReverseDone? ==>
      NewTold(db, ReverseLoop(db, rows, env).db, Same(env.companyStatus == CompanyActive), env.now)
    decreases |rows|
  {
    hide Inv, DecideAndApply, Evolves, NewTold;
    var active := Same(env.companyStatus == CompanyActive);
    NothingTold(db, db, active, env.now);
    if rows != [] && DecideAndApply(db, rows[0], env).Committed? {
      DecideTells(db, rows[0], env);
      DecideAndApplyKeeps(db, rows[0], env);
      DecideKeepsLengths(db, rows[0], env);
      var next := DecideAndApply(db, rows[0], env);
      if !next.decision.DVerified? {
        LoopTells(next.db, rows[1..], env);
        ReverseLoopEvolves(next.db, rows[1..], env);
        var last := ReverseLoop(next.db, rows[1..], env);
        if last.ReverseDone? {
          ToldTwice(db, next.db, last.db, active, env.now);
        }
      }
    }
  }

  lemma ReverseTells(db: Db, order: nat, env: Env)
    requires Inv(db) && ValidSettings(env.settings)
    ensures NewTold(db, ReverseMatch(db, order, env).0, Same(env.companyStatus == CompanyActive), env.now)
  {
    hide Inv, ReverseLoop, NewTold;
    NothingTold(db, db, Same(env.companyStatus == CompanyActive), env.now);
    var rows := ReverseRows(db, order, env);
    if rows.Some? {
      LoopTells(db, rows.value, env);
    }
  }

  lemma IngestOneTells(db: Db, company: nat, device: nat, msg: Message, env: Env, seen: set<string>)
    ensures NewTold(
      db, IngestOne(db, company, device, msg, env, seen).0, Same(env.companyStatus == CompanyActive), env.now)
  {
    hide MatchSms, MatchResult, RewriteStatus, IsHex64, NewTold;
    var active := Same(env.companyStatus == CompanyActive);
    var stored := db.(sms := db.sms + [NewSms(company, device, msg, env.now)]);
    NothingTold(db, db, active, env.now);
    RewriteChangesNothing(stored, |db.sms|, env);
    MatchTells(stored, |db.sms|, env);
    SameStartTells(db, stored, MatchSms(stored, |db.sms|, env), active, env.now);
  }

  lemma SameStartTells(a: Db, b: Db, c: Db, active: nat -> bool, now: int)
    requires b.events == a.events && NewTold(b, c, active, now)
    ensures NewTold(a, c, active, now)
  {
    hide Truthful, Born;
  }

  lemma {:induction false} IngestAllTells(
      db: Db, company: nat, device: nat, msgs: seq<Message>, env: Env, seen: set<string>)
    requires Inv(db) && ValidSettings(env.settings)
    ensures NewTold(
      db, IngestAll(db, company, device, msgs, env, seen).0, Same(env.companyStatus == CompanyActive), env.now)
    decreases |msgs|
  {
    hide Inv, IngestOne, Evolves, NewTold;
    var active := Same(env.companyStatus == CompanyActive);
    if msgs == [] {
      NothingTold(db, db, active, env.now);
    } else {
      var next := IngestOne(db, company, device, msgs[0], env, seen).0;
      var rest := SeenAfter(msgs[0], seen);
      IngestOneTells(db, company, device, msgs[0], env, seen);
      IngestOneKeeps(db, company, device, msgs[0], env, seen);
      IngestAllTells(next, company, device, msgs[1..], env, rest);
      IngestAllEvolves(next, company, device, msgs[1..], env, rest);
      ToldTwice(db, next, IngestAll(next, company, device, msgs[1..], env, rest).0, active, env.now);
    }
  }

  lemma ExpireTells(db: Db, i: nat, policy: ExpiryPolicy)
    requires i < |db.orders|
    ensures NewTold(db, ExpireOrder(db, i, policy).0, Outside(policy.inactive), policy.now)
  {
  }

  lemma {:induction false} ExpireAllTells(db: Db, ids: seq<nat>, policy: ExpiryPolicy)
    requires forall k :: 0 <= k < |ids| ==> ids[k] < |db.orders|
    ensures NewTold(db, ExpireAll(db, ids, policy).0, Outside(policy.inactive), policy.now)
    decreases |ids|
  {
    hide ExpireOrder, Evolves, NewTold;
    if ids == [] {
      NothingTold(db, db, Outside(policy.inactive), policy.now);
    } else {
      var next := ExpireOrder(db, ids[0], policy).0;
      ExpireTells(db, ids[0], policy);
      ExpireOneEvolves(db, ids[0], policy);
      ExpireAllTells(next, ids[1..], policy);
      ExpireAllEvolves(next, ids[1..], policy);
      ToldTwice(db, next, ExpireAll(next, ids[1..], policy).0, Outside(policy.inactive), policy.now);
    }
  }

  lemma LinkTells(db: Db, review: nat, sms: nat, order: nat, now: int)
    ensures NewTold(db, ResolveLink(db, review, sms, order, now).0, Same(true), now)
  {
    hide NewTold, CreditAdmitted;
    NothingTold(db, db, Same(true), now);
    if ResolveLink(db, review, sms, order, now).1.ReviewDone? {
      var c := LinkCredit(db, sms, order, now);
      CreditTells(db, c);
      CloseTells(db, ApplyCredit(db, c).value, review, Same(true), now);
    }
  }

  lemma CloseTells(a: Db, b: Db, review: nat, active: nat -> bool, now: int)
    requires NewTold(a, b, active, now) && review < |b.reviews|
    ensures NewTold(a, CloseReview(b, review, ReviewResolved), active, now)
  {
    hide Born, TellsOf;
    var c := CloseReview(b, review, ReviewResolved);
    forall i | |a.events| <= i < |b.events| ensures Truthful(c.events[i], c) {
      assert Truthful(b.events[i], b);
      if b.events[i].raw.PaymentVerified? {
        var k :| k in b.verifs && IsSource(b.events[i], b, b.verifs[k]);
        assert IsSource(c.events[i], c, c.verifs[k]);
      }
    }
  }

  /**
   * Every step keeps the outbox and appends only truthful rows: addressed to the merchant of the order, with the
   * columns the tables have, stamped with the clock of the step, due at once if the company is active and held back if
   * it is not. A link does not ask for the state of the company.
   */
  lemma StepTells(db: Db, op: Op)
    requires Inv(db) && ValidOp(op)
    ensures NewTold(db, Step(db, op), ActiveFor(op), ClockOf(op))
  {
    hide Inv, NewTold, ReverseMatch, IngestAll, MatchSms, ExpireAll, ResolveLink, ValidateRequest;
    match op
    case Reverse(order, env) => ReverseTells(db, order, env);
    case Upload(company, device, msgs, env) => IngestAllTells(db, company, device, msgs, env, {});
    case Rematch(sms, env) =>
      NothingTold(db, db, ActiveFor(op), ClockOf(op));
      if sms < |db.sms| {
        MatchTells(db, sms, env);
      }
    case Sweep(policy) =>
      ExpireAllTells(db, Take(DueOrders(db.orders, policy.now, |db.orders|), EXPIRY_BATCH), policy);
    case Link(review, sms, order, now) => LinkTells(db, review, sms, order, now);
    case _ => NothingTold(db, Step(db, op), ActiveFor(op), ClockOf(op));
  }
}
