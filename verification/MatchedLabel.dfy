/** The label MATCHED and the verification behind it: exactly which steps part them. */
module MatchedLabel {
  import opened Prelude
  import opened Decide
  import opened Tables
  import opened Engine
  import opened Lifecycle
  import opened Invariants
  import opened Steps
  import opened Spending

  /** The SMS is behind a verification and says so. */
  ghost predicate Labelled(db: Db, s: nat) {
    s < |db.sms| && SmsTaken(db, s) && db.sms[s].matchStatus.StMatched?
  }

  /** A run that commits something other than a verification, or the dismissal of an OPEN review of this SMS. */
  ghost predicate Relabels(db: Db, op: Op, s: nat)
    requires s < |db.sms|
  {
    || (op.Rematch? && op.sms == s && op.env.faults < MATCH_ATTEMPTS && !ShouldVerify(BuildInput(db, s, op.env)))
    || (op.Dismiss? && op.review < |db.reviews| && db.reviews[op.review].status.ReviewOpen?
        && db.reviews[op.review].sms == Some(s))
  }

  // ---------------------------------------------------------------- the two steps that relabel

  lemma DecidesIff(db: Db, s: nat, env: Env)
    requires s < |db.sms|
    ensures DecideOn(db, s, env).DVerified? <==> ShouldVerify(BuildInput(db, s, env))
  {
    hide RunDecide, ShouldVerify, BuildInput;
    InputIsTables(db, s, env);
    VerifiesIff(BuildInput(db, s, env));
  }

  /** Running matching again on a labelled SMS takes the label away exactly when the decision is not to verify. */
  lemma RematchRelabelsIff(db: Db, s: nat, env: Env)
    requires Labelled(db, s)
    ensures var db' := MatchSms(db, s, env);
      && |db'.sms| == |db.sms| && SmsTaken(db', s)
      && (!db'.sms[s].matchStatus.StMatched? <==>
            env.faults < MATCH_ATTEMPTS && !ShouldVerify(BuildInput(db, s, env)))
  {
    hide DecideOn, ShouldVerify, BuildInput;
    DecidesIff(db, s, env);
    CreditedSmsNeverCreditsAgain(db, s, env);
    MatchKeepsLengths(db, s, env);
    if env.faults < MATCH_ATTEMPTS {
      ReportedIsStored(db, s, env);
    }
  }

  // ---------------------------------------------------------------- the steps that do not

  lemma DecideLeavesOthers(db: Db, id: nat, env: Env, s: nat)
    requires id < |db.sms| && s < |db.sms| && s != id && DecideAndApply(db, id, env).Committed?
    ensures var db' := DecideAndApply(db, id, env).db; s < |db'.sms| && db'.sms[s] == db.sms[s]
  {
    hide DecideOn;
    DecisionNamesRow(db, id, env);
    AppliedStatus(db, id, DecideOn(db, id, env), env);
  }

  lemma {:induction false} LoopLeavesOthers(db: Db, rows: seq<nat>, env: Env, s: nat)
    requires forall k :: 0 <= k < |rows| ==> rows[k] < |db.sms| && rows[k] != s
    requires s < |db.sms|
    ensures var r := ReverseLoop(db, rows, env); r.ReverseDone? ==> s < |r.db.sms| && r.db.sms[s] == db.sms[s]
    decreases |rows|
  {
    hide DecideAndApply;
    if rows != [] && DecideAndApply(db, rows[0], env).Committed? {
      DecideLeavesOthers(db, rows[0], env, s);
      DecideKeepsLengths(db, rows[0], env);
      var next := DecideAndApply(db, rows[0], env);
      if !next.decision.DVerified? {
        LoopLeavesOthers(next.db, rows[1..], env, s);
      }
    }
  }

  /** A reverse match visits UNMATCHED rows only, so it leaves every label. */
  lemma ReverseLeavesLabel(db: Db, order: nat, env: Env, s: nat)
    requires Labelled(db, s)
    ensures var db' := ReverseMatch(db, order, env).0; s < |db'.sms| && db'.sms[s] == db.sms[s]
  {
    hide ReverseLoop;
    var rows := ReverseRows(db, order, env);
    if rows.Some? {
      LoopLeavesOthers(db, rows.value, env, s);
    }
  }

  lemma IngestOneLeavesOld(db: Db, company: nat, device: nat, msg: Message, env: Env, seen: set<string>, s: nat)
    requires s < |db.sms|
    ensures var db' := IngestOne(db, company, device, msg, env, seen).0; s < |db'.sms| && db'.sms[s] == db.sms[s]
  {
    hide IsHex64, MatchSms, MatchResult, RewriteStatus;
    var stored := db.(sms := db.sms + [NewSms(company, device, msg, env.now)]);
    RewriteChangesNothing(stored, |db.sms|, env);
    RunTouchesOneSms(stored, |db.sms|, env);
  }

  lemma {:induction false} IngestAllLeavesOld(
      db: Db, company: nat, device: nat, msgs: seq<Message>, env: Env, seen: set<string>, s: nat)
    requires s < |db.sms|
    ensures var db' := IngestAll(db, company, device, msgs, env, seen).0; s < |db'.sms| && db'.sms[s] == db.sms[s]
    decreases |msgs|
  {
    hide IngestOne;
    if msgs != [] {
      var next := IngestOne(db, company, device, msgs[0], env, seen).0;
      IngestOneLeavesOld(db, company, device, msgs[0], env, seen, s);
      IngestAllLeavesOld(next, company, device, msgs[1..], env, SeenAfter(msgs[0], seen), s);
    }
  }

  /** A link credits an SMS that had no verification, so it leaves every label. */
  lemma LinkLeavesLabel(db: Db, review: nat, sms: nat, order: nat, now: int, s: nat)
    requires Labelled(db, s)
    ensures var db' := ResolveLink(db, review, sms, order, now).0; s < |db'.sms| && db'.sms[s] == db.sms[s]
  {
  }

  /** A void takes the label together with the verification, and only then. */
  lemma VoidLeavesLabel(db: Db, id: nat, s: nat)
    requires OncePerRow(db) && Labelled(db, s)
    ensures var db' := VoidVerification(db, id).0;
      s < |db'.sms| && (SmsTaken(db', s) ==> db'.sms[s].matchStatus.StMatched?)
  {
  }

  // ---------------------------------------------------------------- every step

  /**
   * A step leaves a labelled SMS with its verification but without its label if and only if it is a rematch of it that
   * commits something other than a verification, or the dismissal of an OPEN review that names it.
   */
  lemma StepRelabelsIff(db: Db, op: Op, s: nat)
    requires Inv(db) && ValidOp(op) && Labelled(db, s)
    ensures var db' := Step(db, op);
      && s < |db'.sms|
      && (SmsTaken(db', s) && !db'.sms[s].matchStatus.StMatched? <==> Relabels(db, op, s))
  {
    hide Inv, ReverseMatch, IngestAll, MatchSms, ExpireAll, ResolveLink, VoidVerification, ShouldVerify, BuildInput;
    match op
    case Reverse(order, env) => ReverseLeavesLabel(db, order, env, s);
    case Upload(company, device, msgs, env) => IngestAllLeavesOld(db, company, device, msgs, env, {}, s);
    case Rematch(sms, env) =>
      if sms == s {
        RematchRelabelsIff(db, s, env);
      } else if sms < |db.sms| {
        RunTouchesOneSms(db, sms, env);
      }
    case Sweep(policy) =>
      ExpireAllLeavesSms(db, Take(DueOrders(db.orders, policy.now, |db.orders|), EXPIRY_BATCH), policy);
    case Link(review, sms, order, now) => LinkLeavesLabel(db, review, sms, order, now, s);
    case Dismiss(_, _) =>
    case Void(id) =>
      assert OncePerRow(db) by { OnceOf(db); }
      VoidLeavesLabel(db, id, s);
    case _ =>
  }

  lemma OnceOf(db: Db)
    requires Inv(db)
    ensures OncePerRow(db) && VerificationsSound(db) && MatchedHasVerification(db)
  {
  }

  // ---------------------------------------------------------------- new verifications are labelled

  ghost predicate NewAreLabelled(a: Db, b: Db) {
    forall s: nat :: SmsTaken(b, s) && !SmsTaken(a, s) ==> s < |b.sms| && b.sms[s].matchStatus.StMatched?
  }

  lemma CreditLabels(db: Db, c: Crediting)
    requires InTables(db, c) && CreditAdmitted(db, c)
    ensures NewAreLabelled(db, ApplyCredit(db, c).value)
  {
    hide CreditEvent;
  }

  lemma DecideLabels(db: Db, id: nat, env: Env)
    requires id < |db.sms| && DecideAndApply(db, id, env).Committed?
    ensures NewAreLabelled(db, DecideAndApply(db, id, env).db)
    ensures !DecideAndApply(db, id, env).decision.DVerified? ==> DecideAndApply(db, id, env).db.verifs == db.verifs
  {
    hide DecideOn, NewAreLabelled, CreditAdmitted;
    DecisionNamesRow(db, id, env);
    var d := DecideOn(db, id, env);
    if d.DVerified? {
      CreditLabels(db, CreditOf(id, d, env));
    } else {
      SameVerificationsLabel(db, DecideAndApply(db, id, env).db);
    }
  }

  lemma SameVerificationsLabel(a: Db, b: Db)
    requires forall k :: k in b.verifs ==> k in a.verifs && b.verifs[k] == a.verifs[k]
    ensures NewAreLabelled(a, b)
  {
  }

  lemma {:induction false} LoopLabels(db: Db, rows: seq<nat>, env: Env)
    requires forall k :: 0 <= k < |rows| ==> rows[k] < |db.sms|
    ensures ReverseLoop(db, rows, env).ReverseDone? ==> NewAreLabelled(db, ReverseLoop(db, rows, env).db)
    decreases |rows|
  {
    hide DecideAndApply, NewAreLabelled;
    if rows == [] {
      SameVerificationsLabel(db, db);
    } else if DecideAndApply(db, rows[0], env).Committed? {
      DecideLabels(db, rows[0], env);
      DecideKeepsLengths(db, rows[0], env);
      var next := DecideAndApply(db, rows[0], env);
      if !next.decision.DVerified? {
        LoopLabels(next.db, rows[1..], env);
        var last := ReverseLoop(next.db, rows[1..], env);
        if last.ReverseDone? {
          SameStart(db, next.db, last.db);
        }
      }
    }
  }

  lemma SameStart(a: Db, b: Db, c: Db)
    requires b.verifs == a.verifs && NewAreLabelled(b, c)
    ensures NewAreLabelled(a, c)
  {
  }

  lemma ReverseLabels(db: Db, order: nat, env: Env)
    ensures NewAreLabelled(db, ReverseMatch(db, order, env).0)
  {
    hide ReverseLoop, NewAreLabelled;
    SameVerificationsLabel(db, db);
    var rows := ReverseRows(db, order, env);
    if rows.Some? {
      LoopLabels(db, rows.value, env);
    }
  }

  lemma MatchLabels(db: Db, id: nat, env: Env)
    requires id < |db.sms|
    ensures NewAreLabelled(db, MatchSms(db, id, env))
  {
    hide DecideAndApply, NewAreLabelled;
    SameVerificationsLabel(db, db);
    if DecideAndApply(db, id, env).Committed? {
      DecideLabels(db, id, env);
    }
  }

  lemma IngestOneLabels(db: Db, company: nat, device: nat, msg: Message, env: Env, seen: set<string>)
    ensures NewAreLabelled(db, IngestOne(db, company, device, msg, env, seen).0)
  {
    hide IsHex64, MatchSms, MatchResult, RewriteStatus, NewAreLabelled;
    SameVerificationsLabel(db, db);
    var stored := db.(sms := db.sms + [NewSms(company, device, msg, env.now)]);
    RewriteChangesNothing(stored, |db.sms|, env);
    MatchLabels(stored, |db.sms|, env);
    SameStart(db, stored, MatchSms(stored, |db.sms|, env));
  }

  lemma {:induction false} IngestAllLabels(
      db: Db, company: nat, device: nat, msgs: seq<Message>, env: Env, seen: set<string>)
    ensures NewAreLabelled(db, IngestAll(db, company, device, msgs, env, seen).0)
    decreases |msgs|
  {
    hide IngestOne, NewAreLabelled, SmsTaken;
    if msgs == [] {
      SameVerificationsLabel(db, db);
    } else {
      var next := IngestOne(db, company, device, msgs[0], env, seen).0;
      var last := IngestAll(next, company, device, msgs[1..], env, SeenAfter(msgs[0], seen)).0;
      IngestOneLabels(db, company, device, msgs[0], env, seen);
      IngestAllLabels(next, company, device, msgs[1..], env, SeenAfter(msgs[0], seen));
      forall s: nat | s < |next.sms| ensures s < |last.sms| && last.sms[s] == next.sms[s] {
        IngestAllLeavesOld(next, company, device, msgs[1..], env, SeenAfter(msgs[0], seen), s);
      }
      LabelsJoin(db, next, last);
    }
  }

  lemma LabelsJoin(a: Db, b: Db, c: Db)
    requires NewAreLabelled(a, b) && NewAreLabelled(b, c)
    requires |b.sms| <= |c.sms| && forall s :: 0 <= s < |b.sms| ==> c.sms[s] == b.sms[s]
    ensures NewAreLabelled(a, c)
  {
    hide SmsTaken;
  }

  lemma LinkLabels(db: Db, review: nat, sms: nat, order: nat, now: int)
    ensures NewAreLabelled(db, ResolveLink(db, review, sms, order, now).0)
  {
    hide NewAreLabelled, CreditAdmitted;
    SameVerificationsLabel(db, db);
    if ResolveLink(db, review, sms, order, now).1.ReviewDone? {
      var c := LinkCredit(db, sms, order, now);
      CreditLabels(db, c);
      CloseKeepsLabels(db, ApplyCredit(db, c).value, review);
    }
  }

  lemma CloseKeepsLabels(a: Db, b: Db, review: nat)
    requires NewAreLabelled(a, b) && review < |b.reviews|
    ensures NewAreLabelled(a, CloseReview(b, review, ReviewResolved))
  {
  }

  lemma StepLabels(db: Db, op: Op)
    ensures NewAreLabelled(db, Step(db, op))
  {
    hide ReverseMatch, IngestAll, MatchSms, ExpireAll, ResolveLink, NewAreLabelled;
    match op
    case Reverse(order, env) => ReverseLabels(db, order, env);
    case Upload(company, device, msgs, env) => IngestAllLabels(db, company, device, msgs, env, {});
    case Rematch(sms, env) =>
      if sms < |db.sms| {
        MatchLabels(db, sms, env);
      } else {
        SameVerificationsLabel(db, db);
      }
    case Sweep(policy) =>
      ExpireAllLeavesSms(db, Take(DueOrders(db.orders, policy.now, |db.orders|), EXPIRY_BATCH), policy);
      SameVerificationsLabel(db, Step(db, op));
    case Link(review, sms, order, now) => LinkLabels(db, review, sms, order, now);
    case _ => SameVerificationsLabel(db, Step(db, op));
  }

  // ---------------------------------------------------------------- MATCHED exactly when verified

  /** "MATCHED if and only if a verification uses it", for every SMS. */
  ghost predicate MatchedIffTaken(db: Db) {
    forall s: nat :: s < |db.sms| ==> (db.sms[s].matchStatus.StMatched? <==> SmsTaken(db, s))
  }

  /** The step relabels no SMS that a verification uses. */
  ghost predicate Guarded(db: Db, op: Op) {
    forall s: nat :: s < |db.sms| && SmsTaken(db, s) ==> !Relabels(db, op, s)
  }

  /** A step keeps that equivalence if and only if it relabels no SMS that a verification uses. */
  lemma StepKeepsMatchedIff(db: Db, op: Op)
    requires Inv(db) && ValidOp(op) && MatchedIffTaken(db)
    ensures MatchedIffTaken(Step(db, op)) <==> Guarded(db, op)
  {
    hide Inv, Step, Relabels, SmsTaken, VerificationsSound, OncePerRow;
    var db' := Step(db, op);
    StepKeeps(db, op);
    StepLabels(db, op);
    OnceOf(db');
    forall s: nat | s < |db.sms| && SmsTaken(db, s)
      ensures s < |db'.sms| && (SmsTaken(db', s) && !db'.sms[s].matchStatus.StMatched? <==> Relabels(db, op, s))
    {
      StepRelabelsIff(db, op, s);
    }
    forall s: nat | SmsTaken(db, s) ensures s < |db.sms| {
      TakenIsRow(db, s);
    }
  }

  lemma TakenIsRow(db: Db, s: nat)
    requires Inv(db) && SmsTaken(db, s)
    ensures s < |db.sms|
  {
    var k :| k in db.verifs && db.verifs[k].sms == s;
    assert Joined(db, db.verifs[k]);
  }

  ghost predicate GuardedRun(db: Db, ops: seq<Op>)
    decreases |ops|
  {
    ops == [] || (ValidOp(ops[0]) && Guarded(db, ops[0]) && GuardedRun(Step(db, ops[0]), ops[1..]))
  }

  /** Over every guarded run MATCHED and verified are the same. */
  lemma {:induction false} GuardedRunsKeepMatchedIff(db: Db, ops: seq<Op>)
    requires Inv(db) && MatchedIffTaken(db) && GuardedRun(db, ops)
    ensures MatchedIffTaken(Run(db, ops))
    decreases |ops|
  {
    hide Inv, MatchedIffTaken, Step, Guarded;
    if ops != [] {
      StepKeeps(db, ops[0]);
      StepKeepsMatchedIff(db, ops[0]);
      GuardedRunsKeepMatchedIff(Step(db, ops[0]), ops[1..]);
    }
  }

  /** In particular from empty tables. */
  lemma GuardedReachableIsLabelled(ops: seq<Op>)
    requires GuardedRun(EMPTY_DB, ops)
    ensures MatchedIffTaken(Run(EMPTY_DB, ops))
  {
    EmptyHolds();
    GuardedRunsKeepMatchedIff(EMPTY_DB, ops);
  }

  /**
   * The dismissal path: a link resolves the review it was asked through, so another OPEN review of the linked SMS
   * stays, and dismissing that one takes the label from a spent SMS.
   */
  lemma LinkThenDismissRelabels(db: Db, first: nat, other: nat, s: nat, order: nat, now: int, notAPayment: bool)
    requires ResolveLink(db, first, s, order, now).1.ReviewDone?
    requires other < |db.reviews| && other != first && db.reviews[other].status.ReviewOpen?
    requires db.reviews[other].sms == Some(s)
    ensures var end := Step(Step(db, Link(first, s, order, now)), Dismiss(other, notAPayment));
      s < |end.sms| && SmsTaken(end, s) && !end.sms[s].matchStatus.StMatched?
  {
    var c := LinkCredit(db, s, order, now);
    var linked := Step(db, Link(first, s, order, now));
    assert linked.verifs[db.nextVerif].sms == s;
    var end := Step(linked, Dismiss(other, notAPayment));
    assert end.verifs[db.nextVerif].sms == s;
  }
}
