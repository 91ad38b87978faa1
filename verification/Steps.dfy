/** The step relation of the payment tables, its runs, and the invariants every run keeps. */
module Steps {
  import opened Prelude
  import opened MatchTypes
  import opened Decide
  import opened Outbox
  import opened Tables
  import opened Engine
  import opened Lifecycle
  import opened Invariants

  // ---------------------------------------------------------------- matching keeps the invariants

  /** What `decide` verifies is a sound credit: the pure rules and the candidate queries together. */
  lemma DecisionIsSound(db: Db, id: nat, env: Env)
    requires id < |db.sms| && ValidSettings(env.settings)
    requires DecideOn(db, id, env).DVerified?
    ensures InTables(db, CreditOf(id, DecideOn(db, id, env), env))
    ensures SoundCredit(db, CreditOf(id, DecideOn(db, id, env), env))
  {
    var input := BuildInput(db, id, env);
    InputIsTables(db, id, env);
    var c := VerifiedIsSound(input);
    var d := RunDecide(input);
    if d.pass.ExactPass? {
      assert IsExactCandidate(db, id, c);
    } else {
      assert IsHeuristicCandidate(db, id, c, env.settings);
      if db.sms[id].trxId.Some? && TrxSpent(db, db.sms[id].company, db.sms[id].trxId.value) {
        assert false;
      }
    }
  }

  lemma ReviewKeeps(db: Db, id: nat, reason: ReviewReason, candidates: seq<ReviewCandidate>, env: Env)
    requires Inv(db) && id < |db.sms|
    ensures Inv(ApplyReview(db, id, reason, candidates, env))
  {
    var single := SingleCandidate(candidates);
    var company := db.sms[id].company;
    var added := AddReview(db, company, Some(id), single, reason, candidates);
    AddReviewKeeps(db, company, Some(id), single, reason, candidates);
    SetSmsKeeps(added, id, StInReview, {});
    var reviewed := SetSms(added, id, StInReview, {});
    if env.settings.notifyOnReview && single.Some? && single.value < |db.orders| {
      var o := db.orders[single.value];
      AddEventKeeps(reviewed, PendingEvent(
        company, ReviewRequired(single.value, o.orderRef, reason, o.expected), o.callbackUrl, env.now,
        env.companyStatus.CompanyActive?));
    }
  }

  lemma DecideAndApplyKeeps(db: Db, id: nat, env: Env)
    requires Inv(db) && id < |db.sms| && ValidSettings(env.settings)
    ensures DecideAndApply(db, id, env).Committed? ==> Inv(DecideAndApply(db, id, env).db)
  {
    hide Inv, RunDecide, BuildInput;
    DecisionNamesRow(db, id, env);
    var d := DecideOn(db, id, env);
    match d
    case DVerified(_, _, _, _, _, _) =>
      DecisionIsSound(db, id, env);
      var c := CreditOf(id, d, env);
      if CreditAdmitted(db, c) {
        CreditKeeps(db, c);
      }
    case DReview(reason, candidates) =>
      ReviewKeeps(db, id, reason, candidates, env);
    case DDuplicate(_) =>
      AddReviewKeeps(db, db.sms[id].company, Some(id), None, DuplicateTxnId, []);
      var added := AddReview(db, db.sms[id].company, Some(id), None, DuplicateTxnId, []);
      SetSmsKeeps(added, id, StDuplicateTxn, {DuplicateTxn});
    case DGuardRejected(_) => SetSmsKeeps(db, id, StIgnored, {});
    case DUnmatched => SetSmsKeeps(db, id, StUnmatched, {});
  }

  lemma MatchSmsKeeps(db: Db, id: nat, env: Env)
    requires Inv(db) && id < |db.sms| && ValidSettings(env.settings)
    ensures Inv(MatchSms(db, id, env))
  {
    hide Inv;
    DecideAndApplyKeeps(db, id, env);
  }

  lemma {:induction false} ReverseLoopKeeps(db: Db, rows: seq<nat>, env: Env)
    requires Inv(db) && ValidSettings(env.settings)
    requires forall k :: 0 <= k < |rows| ==> rows[k] < |db.sms|
    ensures ReverseLoop(db, rows, env).ReverseDone? ==> Inv(ReverseLoop(db, rows, env).db)
    decreases |rows|
  {
    hide Inv, DecideAndApply;
    if rows != [] {
      DecideAndApplyKeeps(db, rows[0], env);
      DecideKeepsLengths(db, rows[0], env);
      match DecideAndApply(db, rows[0], env)
      case Conflict =>
      case Committed(db', d) =>
        if !d.DVerified? {
          ReverseLoopKeeps(db', rows[1..], env);
        }
    }
  }

  lemma ReverseMatchKeeps(db: Db, order: nat, env: Env)
    requires Inv(db) && ValidSettings(env.settings)
    ensures Inv(ReverseMatch(db, order, env).0)
  {
    hide Inv, ReverseLoop;
    var rows := ReverseRows(db, order, env);
    if rows.Some? {
      ReverseLoopKeeps(db, rows.value, env);
    }
  }

  // ---------------------------------------------------------------- ingestion keeps the invariants

  lemma RewriteSame(db: Db, id: nat)
    requires id < |db.sms|
    ensures RewriteStatus(db, id, db.sms[id].matchStatus) == db
  {
    assert db.sms[id].flags + {} == db.sms[id].flags;
  }

  /** The status a run reports is the one it left in the row. */
  lemma ReportedIsStored(db: Db, id: nat, env: Env)
    requires id < |db.sms| && env.faults < MATCH_ATTEMPTS
    ensures id < |MatchSms(db, id, env).sms|
    ensures MatchSms(db, id, env).sms[id].matchStatus == MatchResult(db, id, env)
  {
    hide DecideOn;
    DecisionNamesRow(db, id, env);
    var d := DecideOn(db, id, env);
    if ApplyDecision(db, id, d, env).Some? {
      AppliedStatus(db, id, d, env);
    }
  }

  /** In one atomic step the status written after matching is the one the row already has. */
  lemma RewriteChangesNothing(db: Db, id: nat, env: Env)
    requires id < |db.sms|
    ensures id < |MatchSms(db, id, env).sms|
    ensures RewriteStatus(MatchSms(db, id, env), id, MatchResult(db, id, env)) == MatchSms(db, id, env)
  {
    hide DecideAndApply;
    if env.faults < MATCH_ATTEMPTS {
      ReportedIsStored(db, id, env);
      RewriteSame(MatchSms(db, id, env), id);
    }
  }

  /** Applying a decision leaves the SMS with the status that decision reports, and touches no other SMS. */
  lemma AppliedStatus(db: Db, id: nat, d: Decision, env: Env)
    requires id < |db.sms|
    requires d.DVerified? ==> d.orderId < |db.orders|
    requires ApplyDecision(db, id, d, env).Some?
    ensures var db' := ApplyDecision(db, id, d, env).value;
      && |db'.sms| == |db.sms| && |db'.orders| == |db.orders|
      && db'.sms[id] == db.sms[id].(matchStatus := StatusFor(d), flags := db'.sms[id].flags)
      && forall j :: 0 <= j < |db.sms| && j != id ==> db'.sms[j] == db.sms[j]
  {
  }

  lemma IngestOneKeeps(db: Db, company: nat, device: nat, msg: Message, env: Env, seen: set<string>)
    requires Inv(db) && ValidSettings(env.settings)
    ensures Inv(IngestOne(db, company, device, msg, env, seen).0)
  {
    hide Inv, MatchSms, MatchResult, RewriteStatus, IsHex64;
    var row := NewSms(company, device, msg, env.now);
    var byClient := FindSms(db.sms, SameClientAs(company, msg.clientHash), |db.sms|);
    if byClient.None? {
      assert forall j :: 0 <= j < |db.sms| ==> !SameClient(db.sms[j], company, msg.clientHash);
      AppendSmsKeeps(db, row);
      var stored := db.(sms := db.sms + [row]);
      MatchSmsKeeps(stored, |db.sms|, env);
      RewriteChangesNothing(stored, |db.sms|, env);
    }
  }

  lemma {:induction false} IngestAllKeeps(
      db: Db, company: nat, device: nat, msgs: seq<Message>, env: Env, seen: set<string>)
    requires Inv(db) && ValidSettings(env.settings)
    ensures Inv(IngestAll(db, company, device, msgs, env, seen).0)
    decreases |msgs|
  {
    hide Inv, IngestOne;
    if msgs != [] {
      IngestOneKeeps(db, company, device, msgs[0], env, seen);
      var next := IngestOne(db, company, device, msgs[0], env, seen).0;
      IngestAllKeeps(next, company, device, msgs[1..], env, SeenAfter(msgs[0], seen));
    }
  }

  // ---------------------------------------------------------------- order lifecycle keeps the invariants

  lemma RegisterKeeps(db: Db, req: RegisterRequest, settings: Settings, policy: RegisterPolicy, now: int)
    requires Inv(db)
    ensures Inv(RegisterOrder(db, req, settings, policy, now).0)
  {
    hide Inv, ValidateRequest;
    var row := NewOrder(req, policy, now);
    if FindOrder(db.orders, req.company, req.orderRef, |db.orders|).None? && IndexAdmits(db.orders, |db.orders|, row) {
      AppendOrderKeeps(db, row);
    }
  }

  lemma CancelKeeps(db: Db, company: nat, orderRef: string)
    requires Inv(db)
    ensures Inv(CancelOrder(db, company, orderRef).0)
  {
    hide Inv;
    var at := FindOrder(db.orders, company, orderRef, |db.orders|);
    if at.Some? && db.orders[at.value].status.Pending? {
      SetOrderKeeps(db, at.value, db.orders[at.value].(status := Cancelled));
    }
  }

  lemma CorrectKeeps(db: Db, company: nat, orderRef: string, trxId: Option<string>, now: int)
    requires Inv(db)
    ensures Inv(CorrectTrxId(db, company, orderRef, trxId, now).0)
  {
    hide Inv;
    var at := FindOrder(db.orders, company, orderRef, |db.orders|);
    if at.Some? {
      var o := db.orders[at.value];
      var row := Corrected(o, trxId);
      if (o.status.Pending? || o.status.Expired?) && IndexAdmits(db.orders, at.value, row) {
        SetOrderKeeps(db, at.value, row);
      }
    }
  }

  lemma ExpireKeeps(db: Db, i: nat, policy: ExpiryPolicy)
    requires Inv(db) && i < |db.orders|
    ensures Inv(ExpireOrder(db, i, policy).0)
  {
    hide Inv;
    var o := db.orders[i];
    if o.status.Pending? {
      var row := o.(status := Expired);
      SetOrderKeeps(db, i, row);
      AddEventKeeps(SetOrder(db, i, row), ExpiryEvent(i, o, policy));
    }
  }

  lemma {:induction false} ExpireAllKeeps(db: Db, ids: seq<nat>, policy: ExpiryPolicy)
    requires Inv(db)
    requires forall k :: 0 <= k < |ids| ==> ids[k] < |db.orders|
    ensures Inv(ExpireAll(db, ids, policy).0)
    decreases |ids|
  {
    hide Inv;
    if ids != [] {
      ExpireKeeps(db, ids[0], policy);
      ExpireAllKeeps(ExpireOrder(db, ids[0], policy).0, ids[1..], policy);
    }
  }

  /** A sweep touches no SMS and no verification. */
  lemma {:induction false} ExpireAllLeavesSms(db: Db, ids: seq<nat>, policy: ExpiryPolicy)
    requires forall k :: 0 <= k < |ids| ==> ids[k] < |db.orders|
    ensures ExpireAll(db, ids, policy).0.sms == db.sms && ExpireAll(db, ids, policy).0.verifs == db.verifs
    decreases |ids|
  {
    if ids != [] {
      ExpireAllLeavesSms(ExpireOrder(db, ids[0], policy).0, ids[1..], policy);
    }
  }

  lemma LinkKeeps(db: Db, review: nat, sms: nat, order: nat, now: int)
    requires Inv(db)
    ensures Inv(ResolveLink(db, review, sms, order, now).0)
  {
    hide Inv;
    if ResolveLink(db, review, sms, order, now).1.ReviewDone? {
      var c := LinkCredit(db, sms, order, now);
      CreditKeeps(db, c);
      CloseReviewKeeps(ApplyCredit(db, c).value, review, ReviewResolved);
    }
  }

  lemma DismissKeeps(db: Db, review: nat, notAPayment: bool)
    requires Inv(db)
    ensures Inv(ResolveDismiss(db, review, notAPayment).0)
  {
    hide Inv;
    if ResolveDismiss(db, review, notAPayment).1.ReviewDone? {
      var closed := CloseReview(db, review, ReviewDismissed);
      CloseReviewKeeps(db, review, ReviewDismissed);
      var sms := db.reviews[review].sms;
      if sms.Some? && sms.value < |db.sms| {
        SetSmsKeeps(closed, sms.value, if notAPayment then StIgnored else StUnmatched, {});
      }
    }
  }

  // ---------------------------------------------------------------- steps and runs

  datatype Op =
    | Register(req: RegisterRequest, policy: RegisterPolicy, env: Env)
    | Reverse(order: nat, env: Env)
    | Upload(company: nat, device: nat, msgs: seq<Message>, env: Env)
    | Rematch(sms: nat, env: Env)
    | Cancel(company: nat, orderRef: string)
    | Correct(company: nat, orderRef: string, trxId: Option<string>, now: int)
    | Sweep(expiry: ExpiryPolicy)
    | Link(review: nat, smsId: nat, orderId: nat, now: int)
    | Dismiss(review: nat, notAPayment: bool)
    | Void(verification: nat)

  /** Settings come from the settings endpoint; everything else about a step is arbitrary. */
  predicate ValidOp(op: Op) {
    match op
    case Register(_, _, env) => ValidSettings(env.settings)
    case Reverse(_, env) => ValidSettings(env.settings)
    case Upload(_, _, _, env) => ValidSettings(env.settings)
    case Rematch(_, env) => ValidSettings(env.settings)
    case _ => true
  }

  function Step(db: Db, op: Op): Db {
    match op
    case Register(req, policy, env) => RegisterOrder(db, req, env.settings, policy, env.now).0
    case Reverse(order, env) => ReverseMatch(db, order, env).0
    case Upload(company, device, msgs, env) => IngestAll(db, company, device, msgs, env, {}).0
    case Rematch(sms, env) => if sms < |db.sms| then MatchSms(db, sms, env) else db
    case Cancel(company, orderRef) => CancelOrder(db, company, orderRef).0
    case Correct(company, orderRef, trxId, now) => CorrectTrxId(db, company, orderRef, trxId, now).0
    case Sweep(policy) => SweepExpired(db, policy).0
    case Link(review, sms, order, now) => ResolveLink(db, review, sms, order, now).0
    case Dismiss(review, notAPayment) => ResolveDismiss(db, review, notAPayment).0
    case Void(verification) => VoidVerification(db, verification).0
  }

  function Run(db: Db, ops: seq<Op>): Db
    decreases |ops|
  {
    if ops == [] then db else Run(Step(db, ops[0]), ops[1..])
  }

  lemma StepKeeps(db: Db, op: Op)
    requires Inv(db) && ValidOp(op)
    ensures Inv(Step(db, op))
  {
    hide Inv;
    match op
    case Register(req, policy, env) => RegisterKeeps(db, req, env.settings, policy, env.now);
    case Reverse(order, env) => ReverseMatchKeeps(db, order, env);
    case Upload(company, device, msgs, env) => IngestAllKeeps(db, company, device, msgs, env, {});
    case Rematch(sms, env) => if sms < |db.sms| { MatchSmsKeeps(db, sms, env); }
    case Cancel(company, orderRef) => CancelKeeps(db, company, orderRef);
    case Correct(company, orderRef, trxId, now) => CorrectKeeps(db, company, orderRef, trxId, now);
    case Sweep(policy) =>
      ExpireAllKeeps(db, Take(DueOrders(db.orders, policy.now, |db.orders|), EXPIRY_BATCH), policy);
    case Link(review, sms, order, now) => LinkKeeps(db, review, sms, order, now);
    case Dismiss(review, notAPayment) => DismissKeeps(db, review, notAPayment);
    case Void(verification) => VoidKeeps(db, verification);
  }

  lemma {:induction false} RunKeeps(db: Db, ops: seq<Op>)
    requires Inv(db) && forall i :: 0 <= i < |ops| ==> ValidOp(ops[i])
    ensures Inv(Run(db, ops))
    decreases |ops|
  {
    hide Inv;
    if ops != [] {
      StepKeeps(db, ops[0]);
      RunKeeps(Step(db, ops[0]), ops[1..]);
    }
  }

  lemma EmptyHolds()
    ensures Inv(EMPTY_DB)
  {
  }

  ghost predicate Reachable(db: Db) {
    exists ops :: (forall i :: 0 <= i < |ops| ==> ValidOp(ops[i])) && db == Run(EMPTY_DB, ops)
  }

  /** Every reachable state satisfies every invariant. */
  lemma ReachableSafe(db: Db)
    requires Reachable(db)
    ensures Inv(db)
  {
    var ops :| (forall i :: 0 <= i < |ops| ==> ValidOp(ops[i])) && db == Run(EMPTY_DB, ops);
    EmptyHolds();
    RunKeeps(EMPTY_DB, ops);
  }
}
