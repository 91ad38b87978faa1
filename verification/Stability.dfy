/** What no step of the payment tables ever takes back: facts, verifications, announcements. */
module Stability {
  import opened Prelude
  import opened MatchTypes
  import opened Decide
  import opened Tables
  import opened Engine
  import opened Lifecycle
  import opened Invariants
  import opened Steps

  /** The columns fixed at registration. */
  predicate SameOrder(a: Order, b: Order) {
    && a.company == b.company && a.orderRef == b.orderRef && a.expected == b.expected && a.tolerance == b.tolerance
    && a.provider == b.provider && a.sender == b.sender && a.callbackUrl == b.callbackUrl
    && a.expiresAt == b.expiresAt && a.createdAt == b.createdAt
  }

  ghost predicate OrdersKept(a: Db, b: Db) {
    |a.orders| <= |b.orders| && forall i :: 0 <= i < |a.orders| ==> SameOrder(a.orders[i], b.orders[i])
  }

  /** A VERIFIED row, its TrxID and time of verification included, does not change. */
  ghost predicate VerifiedKept(a: Db, b: Db) {
    |a.orders| <= |b.orders|
    && forall i :: 0 <= i < |a.orders| && a.orders[i].status.Verified? ==> b.orders[i] == a.orders[i]
  }

  ghost predicate VerificationsKept(a: Db, b: Db) {
    forall k :: k in a.verifs ==> k in b.verifs && b.verifs[k] == a.verifs[k]
  }

  /** Only the status of an SMS changes, and its flags only grow. */
  predicate SameSms(a: Sms, b: Sms) {
    b == a.(matchStatus := b.matchStatus, flags := b.flags) && a.flags <= b.flags
  }

  ghost predicate SmsKept(a: Db, b: Db) {
    |a.sms| <= |b.sms| && forall s :: 0 <= s < |a.sms| ==> SameSms(a.sms[s], b.sms[s])
  }

  /** Everything that only a void may undo, and everything nothing may undo. */
  ghost predicate Evolves(a: Db, b: Db) {
    OrdersKept(a, b) && VerifiedKept(a, b) && VerificationsKept(a, b) && SmsKept(a, b) && a.events <= b.events
  }

  lemma EvolvesItself(a: Db)
    ensures Evolves(a, a)
  {
  }

  lemma EvolvesTwice(a: Db, b: Db, c: Db)
    requires Evolves(a, b) && Evolves(b, c)
    ensures Evolves(a, c)
  {
  }

  // ---------------------------------------------------------------- single-row writes

  lemma SetSmsEvolves(db: Db, id: nat, status: MatchStatus, flags: set<Flag>)
    requires id < |db.sms|
    ensures Evolves(db, SetSms(db, id, status, flags))
  {
  }

  lemma SetOrderEvolves(db: Db, i: nat, row: Order)
    requires i < |db.orders| && SameOrder(db.orders[i], row) && !db.orders[i].status.Verified?
    ensures Evolves(db, SetOrder(db, i, row))
  {
  }

  lemma AddReviewEvolves(
      db: Db, company: nat, sms: Option<nat>, order: Option<nat>, reason: ReviewReason,
      candidates: seq<ReviewCandidate>)
    ensures Evolves(db, AddReview(db, company, sms, order, reason, candidates))
  {
  }

  lemma CreditEvolves(db: Db, c: Crediting)
    requires VerificationsSound(db) && InTables(db, c) && CreditAdmitted(db, c)
    requires !db.orders[c.order].status.Verified?
    ensures Evolves(db, ApplyCredit(db, c).value)
  {
    hide Joined, Backed, CreditEvent;
    assert db.nextVerif !in db.verifs;
    var row := CreditedRow(db.orders[c.order], c.now);
    var verified := db.(verifs := ApplyCredit(db, c).value.verifs, nextVerif := db.nextVerif + 1);
    assert Evolves(db, verified);
    SetOrderEvolves(verified, c.order, row);
    EvolvesTwice(db, verified, SetOrder(verified, c.order, row));
    var credited := SetOrder(verified, c.order, row);
    SetSmsEvolves(credited, c.sms, StMatched, c.flags);
    var matched := SetSms(credited, c.sms, StMatched, c.flags);
    EvolvesTwice(db, credited, matched);
    assert ApplyCredit(db, c).value == AddEvent(matched, CreditEvent(db.orders[c.order], db.sms[c.sms], c));
    assert Evolves(matched, ApplyCredit(db, c).value);
    EvolvesTwice(db, matched, ApplyCredit(db, c).value);
  }

  lemma ReviewEvolves(db: Db, id: nat, reason: ReviewReason, candidates: seq<ReviewCandidate>, env: Env)
    requires id < |db.sms|
    ensures Evolves(db, ApplyReview(db, id, reason, candidates, env))
  {
    var single := SingleCandidate(candidates);
    var added := AddReview(db, db.sms[id].company, Some(id), single, reason, candidates);
    AddReviewEvolves(db, db.sms[id].company, Some(id), single, reason, candidates);
    SetSmsEvolves(added, id, StInReview, {});
    var reviewed := SetSms(added, id, StInReview, {});
    EvolvesTwice(db, added, reviewed);
    EvolvesItself(reviewed);
    EvolvesTwice(db, reviewed, ApplyReview(db, id, reason, candidates, env));
  }

  // ---------------------------------------------------------------- matching

  lemma DecideEvolves(db: Db, id: nat, env: Env)
    requires Inv(db) && id < |db.sms| && ValidSettings(env.settings)
    requires DecideAndApply(db, id, env).Committed?
    ensures Evolves(db, DecideAndApply(db, id, env).db)
  {
    hide Inv, RunDecide, BuildInput, Evolves, ApplyReview;
    DecisionNamesRow(db, id, env);
    var d := DecideOn(db, id, env);
    match d
    case DVerified(_, _, _, _, _, _) =>
      DecisionIsSound(db, id, env);
      assert VerificationsSound(db) by { SoundOf(db); }
      CreditEvolves(db, CreditOf(id, d, env));
    case DReview(reason, candidates) => ReviewEvolves(db, id, reason, candidates, env);
    case DDuplicate(_) =>
      var added := AddReview(db, db.sms[id].company, Some(id), None, DuplicateTxnId, []);
      AddReviewEvolves(db, db.sms[id].company, Some(id), None, DuplicateTxnId, []);
      SetSmsEvolves(added, id, StDuplicateTxn, {DuplicateTxn});
      EvolvesTwice(db, added, SetSms(added, id, StDuplicateTxn, {DuplicateTxn}));
    case DGuardRejected(_) => SetSmsEvolves(db, id, StIgnored, {});
    case DUnmatched => SetSmsEvolves(db, id, StUnmatched, {});
  }

  lemma SoundOf(db: Db)
    requires Inv(db)
    ensures VerificationsSound(db)
  {
  }

  lemma MatchEvolves(db: Db, id: nat, env: Env)
    requires Inv(db) && id < |db.sms| && ValidSettings(env.settings)
    ensures Evolves(db, MatchSms(db, id, env))
  {
    hide Inv, DecideAndApply, Evolves;
    EvolvesItself(db);
    if DecideAndApply(db, id, env).Committed? {
      DecideEvolves(db, id, env);
    }
  }

  lemma {:induction false} ReverseLoopEvolves(db: Db, rows: seq<nat>, env: Env)
    requires Inv(db) && ValidSettings(env.settings)
    requires forall k :: 0 <= k < |rows| ==> rows[k] < |db.sms|
    ensures ReverseLoop(db, rows, env).ReverseDone? ==> Evolves(db, ReverseLoop(db, rows, env).db)
    decreases |rows|
  {
    hide Inv, DecideAndApply, Evolves;
    EvolvesItself(db);
    if rows != [] && DecideAndApply(db, rows[0], env).Committed? {
      DecideEvolves(db, rows[0], env);
      DecideAndApplyKeeps(db, rows[0], env);
      DecideKeepsLengths(db, rows[0], env);
      var next := DecideAndApply(db, rows[0], env);
      if !next.decision.DVerified? {
        ReverseLoopEvolves(next.db, rows[1..], env);
        var last := ReverseLoop(next.db, rows[1..], env);
        if last.ReverseDone? {
          EvolvesTwice(db, next.db, last.db);
        }
      }
    }
  }

  lemma ReverseEvolves(db: Db, order: nat, env: Env)
    requires Inv(db) && ValidSettings(env.settings)
    ensures Evolves(db, ReverseMatch(db, order, env).0)
  {
    hide Inv, ReverseLoop, Evolves;
    EvolvesItself(db);
    var rows := ReverseRows(db, order, env);
    if rows.Some? {
      ReverseLoopEvolves(db, rows.value, env);
    }
  }

  // ---------------------------------------------------------------- ingestion and lifecycle

  lemma IngestOneEvolves(db: Db, company: nat, device: nat, msg: Message, env: Env, seen: set<string>)
    requires Inv(db) && ValidSettings(env.settings)
    ensures Evolves(db, IngestOne(db, company, device, msg, env, seen).0)
  {
    hide Inv, MatchSms, MatchResult, RewriteStatus, IsHex64, Evolves;
    EvolvesItself(db);
    var row := NewSms(company, device, msg, env.now);
    if FindSms(db.sms, SameClientAs(company, msg.clientHash), |db.sms|).None? {
      assert forall j :: 0 <= j < |db.sms| ==> !SameClient(db.sms[j], company, msg.clientHash);
      AppendSmsKeeps(db, row);
      var stored := db.(sms := db.sms + [row]);
      assert Evolves(db, stored) by { AppendSmsEvolves(db, row); }
      MatchEvolves(stored, |db.sms|, env);
      EvolvesTwice(db, stored, MatchSms(stored, |db.sms|, env));
      RewriteChangesNothing(stored, |db.sms|, env);
    }
  }

  lemma AppendSmsEvolves(db: Db, row: Sms)
    ensures Evolves(db, db.(sms := db.sms + [row]))
  {
  }

  lemma {:induction false} IngestAllEvolves(
      db: Db, company: nat, device: nat, msgs: seq<Message>, env: Env, seen: set<string>)
    requires Inv(db) && ValidSettings(env.settings)
    ensures Evolves(db, IngestAll(db, company, device, msgs, env, seen).0)
    decreases |msgs|
  {
    hide Inv, IngestOne, Evolves;
    EvolvesItself(db);
    if msgs != [] {
      var next := IngestOne(db, company, device, msgs[0], env, seen).0;
      IngestOneKeeps(db, company, device, msgs[0], env, seen);
      IngestOneEvolves(db, company, device, msgs[0], env, seen);
      IngestAllEvolves(next, company, device, msgs[1..], env, SeenAfter(msgs[0], seen));
      EvolvesTwice(db, next, IngestAll(next, company, device, msgs[1..], env, SeenAfter(msgs[0], seen)).0);
    }
  }

  lemma {:induction false} ExpireAllEvolves(db: Db, ids: seq<nat>, policy: ExpiryPolicy)
    requires forall k :: 0 <= k < |ids| ==> ids[k] < |db.orders|
    ensures Evolves(db, ExpireAll(db, ids, policy).0)
    decreases |ids|
  {
    hide ExpireOrder, Evolves;
    EvolvesItself(db);
    if ids != [] {
      var next := ExpireOrder(db, ids[0], policy).0;
      ExpireOneEvolves(db, ids[0], policy);
      ExpireAllEvolves(next, ids[1..], policy);
      EvolvesTwice(db, next, ExpireAll(next, ids[1..], policy).0);
    }
  }

  lemma ExpireOneEvolves(db: Db, i: nat, policy: ExpiryPolicy)
    requires i < |db.orders|
    ensures |ExpireOrder(db, i, policy).0.orders| == |db.orders|
    ensures Evolves(db, ExpireOrder(db, i, policy).0)
  {
  }

  lemma LinkEvolves(db: Db, review: nat, sms: nat, order: nat, now: int)
    requires Inv(db)
    ensures Evolves(db, ResolveLink(db, review, sms, order, now).0)
  {
    hide Inv, Evolves, ApplyCredit;
    EvolvesItself(db);
    if ResolveLink(db, review, sms, order, now).1.ReviewDone? {
      var c := LinkCredit(db, sms, order, now);
      assert VerificationsSound(db) by { SoundOf(db); }
      var credited := ApplyCredit(db, c).value;
      AdmittedIfApplied(db, c);
      CreditEvolves(db, c);
      CloseReviewEvolves(credited, review, ReviewResolved);
      EvolvesTwice(db, credited, CloseReview(credited, review, ReviewResolved));
    }
  }

  lemma AdmittedIfApplied(db: Db, c: Crediting)
    requires InTables(db, c)
    ensures ApplyCredit(db, c).Some? <==> CreditAdmitted(db, c)
    ensures ApplyCredit(db, c).Some? ==> ApplyCredit(db, c).value.reviews == db.reviews
  {
  }

  lemma CloseReviewEvolves(db: Db, review: nat, status: ReviewStatus)
    requires review < |db.reviews|
    ensures Evolves(db, CloseReview(db, review, status))
  {
  }

  lemma DismissEvolves(db: Db, review: nat, notAPayment: bool)
    ensures Evolves(db, ResolveDismiss(db, review, notAPayment).0)
  {
    hide Evolves;
    EvolvesItself(db);
    if ResolveDismiss(db, review, notAPayment).1.ReviewDone? {
      var closed := CloseReview(db, review, ReviewDismissed);
      CloseReviewEvolves(db, review, ReviewDismissed);
      var sms := db.reviews[review].sms;
      if sms.Some? && sms.value < |db.sms| {
        var status := if notAPayment then StIgnored else StUnmatched;
        SetSmsEvolves(closed, sms.value, status, {});
        EvolvesTwice(db, closed, SetSms(closed, sms.value, status, {}));
      }
    }
  }

  lemma OrderStepsEvolve(db: Db, op: Op)
    requires op.Register? || op.Cancel? || op.Correct?
    ensures Evolves(db, Step(db, op))
  {
    hide Evolves, ValidateRequest;
    EvolvesItself(db);
    match op
    case Register(req, policy, env) => AppendOrderEvolves(db, NewOrder(req, policy, env.now));
    case Cancel(company, orderRef) =>
      var at := FindOrder(db.orders, company, orderRef, |db.orders|);
      if at.Some? && db.orders[at.value].status.Pending? {
        SetOrderEvolves(db, at.value, db.orders[at.value].(status := Cancelled));
      }
    case Correct(company, orderRef, trxId, now) =>
      var at := FindOrder(db.orders, company, orderRef, |db.orders|);
      if at.Some? && !db.orders[at.value].status.Verified? {
        SetOrderEvolves(db, at.value, Corrected(db.orders[at.value], trxId));
      }
  }

  lemma AppendOrderEvolves(db: Db, row: Order)
    ensures Evolves(db, db.(orders := db.orders + [row]))
  {
  }

  // ---------------------------------------------------------------- the theorems

  /**
   * Every step but a void keeps every order as registered, every VERIFIED order and every verification untouched,
   * every SMS as parsed with all its flags, and every announcement, in order.
   */
  lemma StepEvolves(db: Db, op: Op)
    requires Inv(db) && ValidOp(op) && !op.Void?
    ensures Evolves(db, Step(db, op))
  {
    hide Inv, Evolves, ReverseMatch, IngestAll, MatchSms, ExpireAll;
    hide ResolveLink, ResolveDismiss, RegisterOrder, CancelOrder, CorrectTrxId;
    match op
    case Reverse(order, env) => ReverseEvolves(db, order, env);
    case Upload(company, device, msgs, env) => IngestAllEvolves(db, company, device, msgs, env, {});
    case Rematch(sms, env) =>
      EvolvesItself(db);
      if sms < |db.sms| { MatchEvolves(db, sms, env); }
    case Sweep(policy) =>
      ExpireAllEvolves(db, Take(DueOrders(db.orders, policy.now, |db.orders|), EXPIRY_BATCH), policy);
    case Link(review, sms, order, now) => LinkEvolves(db, review, sms, order, now);
    case Dismiss(review, notAPayment) => DismissEvolves(db, review, notAPayment);
    case _ => OrderStepsEvolve(db, op);
  }

  /** A void takes back its own verification and reopens its own order; everything else stays. */
  lemma VoidIsLocal(db: Db, id: nat)
    requires Inv(db)
    ensures var db' := VoidVerification(db, id).0;
      && OrdersKept(db, db') && SmsKept(db, db') && db'.events == db.events
      && (forall k :: k in db.verifs && k != id ==> k in db'.verifs && db'.verifs[k] == db.verifs[k])
      && (forall i :: 0 <= i < |db.orders| && (id in db.verifs ==> i != db.verifs[id].order) ==>
            db'.orders[i] == db.orders[i])
  {
    hide Inv;
  }

  /** Over a run without voids nothing credited is ever taken back. */
  lemma {:induction false} RunEvolves(db: Db, ops: seq<Op>)
    requires Inv(db) && forall i :: 0 <= i < |ops| ==> ValidOp(ops[i]) && !ops[i].Void?
    ensures Evolves(db, Run(db, ops))
    decreases |ops|
  {
    hide Inv, Evolves, Step;
    EvolvesItself(db);
    if ops != [] {
      StepKeeps(db, ops[0]);
      StepEvolves(db, ops[0]);
      RunEvolves(Step(db, ops[0]), ops[1..]);
      EvolvesTwice(db, Step(db, ops[0]), Run(Step(db, ops[0]), ops[1..]));
    }
  }
}
