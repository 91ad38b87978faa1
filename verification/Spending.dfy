/** What one matching run can and cannot do to the tables, and where the comments promise more than the code. */
module Spending {
  import opened Prelude
  import opened MatchTypes
  import opened Heuristic
  import opened Decide
  import opened Outbox
  import opened Tables
  import opened Engine
  import opened Lifecycle
  import opened Invariants
  import opened Steps
  import opened Verdict

  // ---------------------------------------------------------------- one run

  /** The columns no step ever rewrites: what an order asks for and what an SMS brought. */
  ghost predicate SameFacts(a: Db, b: Db) {
    && |a.orders| == |b.orders| && |a.sms| == |b.sms|
    && (forall i :: 0 <= i < |a.orders| ==>
          b.orders[i] == a.orders[i].(status := b.orders[i].status, verifiedAt := b.orders[i].verifiedAt))
    && (forall s :: 0 <= s < |a.sms| ==>
          b.sms[s] == a.sms[s].(matchStatus := b.sms[s].matchStatus, flags := b.sms[s].flags))
  }

  /** Apart from the row it was run for, a run leaves every SMS alone, and every fact it read. */
  lemma RunTouchesOneSms(db: Db, id: nat, env: Env)
    requires id < |db.sms|
    ensures var db' := MatchSms(db, id, env);
      SameFacts(db, db') && forall s :: 0 <= s < |db.sms| && s != id ==> db'.sms[s] == db.sms[s]
  {
    hide DecideOn;
    DecisionNamesRow(db, id, env);
    var d := DecideOn(db, id, env);
    if ApplyDecision(db, id, d, env).Some? {
      AppliedStatus(db, id, d, env);
    }
  }

  /** An SMS that already credited an order never credits again, whatever status it has been given since. */
  lemma CreditedSmsNeverCreditsAgain(db: Db, id: nat, env: Env)
    requires id < |db.sms| && SmsTaken(db, id)
    ensures MatchSms(db, id, env).verifs == db.verifs && MatchSms(db, id, env).orders == db.orders
    ensures DecideOn(db, id, env).DVerified? ==> MatchSms(db, id, env) == db
  {
    hide DecideOn;
    DecisionNamesRow(db, id, env);
  }

  /** Some other PENDING or VERIFIED order of the company holds this order's TrxID. */
  predicate TrxLiveElsewhere(db: Db, i: nat)
    requires i < |db.orders|
  {
    exists j :: 0 <= j < |db.orders| && j != i && LiveClash(db.orders[j], db.orders[i].(status := Pending))
  }

  lemma SoundCreditIsUnverified(db: Db, c: Crediting)
    requires InTables(db, c) && SoundCredit(db, c)
    ensures db.orders[c.order].status.Pending? || db.orders[c.order].status.Expired?
  {
  }

  /** When the unique indexes let a credit of an unverified order through. */
  lemma AdmittedIff(db: Db, c: Crediting)
    requires LiveTrxUnique(db) && VerificationsSound(db) && InTables(db, c)
    requires db.orders[c.order].status.Pending? || db.orders[c.order].status.Expired?
    ensures CreditAdmitted(db, c) <==>
      !SmsTaken(db, c.sms) && !(db.orders[c.order].status.Expired? && TrxLiveElsewhere(db, c.order))
  {
  }

  /**
   * A run conflicts exactly when it wants to verify and either the SMS is spent, or the order it chose
   * is EXPIRED while another live order holds its TrxID.
   */
  lemma ConflictIff(db: Db, id: nat, env: Env)
    requires LiveTrxUnique(db) && VerificationsSound(db)
    requires id < |db.sms| && ValidSettings(env.settings)
    ensures var d := DecideOn(db, id, env);
      DecideAndApply(db, id, env).Conflict? <==>
        && d.DVerified? && d.orderId < |db.orders|
        && (SmsTaken(db, id) || (db.orders[d.orderId].status.Expired? && TrxLiveElsewhere(db, d.orderId)))
  {
    hide DecideOn, LiveTrxUnique, VerificationsSound, CreditAdmitted, TrxLiveElsewhere, SoundCredit;
    DecisionNamesRow(db, id, env);
    var d := DecideOn(db, id, env);
    if d.DVerified? {
      DecisionIsSound(db, id, env);
      assert db.orders[d.orderId].status.Pending? || db.orders[d.orderId].status.Expired? by {
        SoundCreditIsUnverified(db, CreditOf(id, d, env));
      }
      AdmittedIff(db, CreditOf(id, d, env));
    }
  }

  /** The heuristic pass never verifies an SMS whose TrxID any verification already consumed. */
  lemma HeuristicNeverTakesSpent(db: Db, id: nat, env: Env)
    requires id < |db.sms| && ValidSettings(env.settings)
    requires db.sms[id].trxId.Some? && TrxSpent(db, db.sms[id].company, db.sms[id].trxId.value)
    ensures DecideOn(db, id, env).DVerified? ==> DecideOn(db, id, env).pass.ExactPass?
  {
    if DecideOn(db, id, env).DVerified? {
      DecisionIsSound(db, id, env);
    }
  }

  // ---------------------------------------------------------------- crediting a spent TrxID

  /** Order `i` claims the TrxID of SMS `id` and may still take it: PENDING, or EXPIRED within the grace period. */
  predicate EligibleClaim(db: Db, id: nat, i: nat, env: Env)
    requires id < |db.sms| && i < |db.orders|
  {
    && ClaimsSms(db.orders[i], db.sms[id])
    && (db.orders[i].status == Pending
        || env.now < db.orders[i].expiresAt + env.settings.lateMatchGraceHours * 3_600_000)
  }

  /** It is the only such order, and not underpaid beyond tolerance. */
  ghost predicate SoleClaim(db: Db, id: nat, i: nat, env: Env)
    requires id < |db.sms|
  {
    && i < |db.orders| && EligibleClaim(db, id, i, env)
    && db.sms[id].amount.Some? && db.orders[i].expected <= db.sms[id].amount.value + db.orders[i].tolerance
    && forall j: nat :: j < |db.orders| && EligibleClaim(db, id, j, env) ==> j == i
  }

  /** The exact match of the decision is the sole claim of the tables. */
  lemma ClaimsAreCandidates(db: Db, id: nat, i: nat, env: Env)
    requires id < |db.sms| && i < |db.orders|
    ensures var input := BuildInput(db, id, env); var c := ToOrderFacts(i, db.orders[i]);
      c in input.candidates && ClaimsAndEligible(c, input) <==> EligibleClaim(db, id, i, env)
  {
    hide LoadHeuristicCandidates, TrxSpent;
    InputIsTables(db, id, env);
    if db.sms[id].trxId.Some? {
      assert ClaimsTrxOf(db.sms[id].company, db.sms[id].trxId.value)(db.orders[i])
        == ClaimsTrx(db.orders[i], db.sms[id].company, db.sms[id].trxId.value);
    }
  }

  lemma SoleClaimIff(db: Db, id: nat, i: nat, env: Env)
    requires id < |db.sms| && i < |db.orders|
    ensures SoleClaim(db, id, i, env) <==> ExactMatch(ToOrderFacts(i, db.orders[i]), BuildInput(db, id, env))
  {
    hide ClaimsAndEligible, EligibleClaim, LoadHeuristicCandidates, TrxSpent, LoadExactCandidates;
    var input := BuildInput(db, id, env);
    InputIsTables(db, id, env);
    ClaimsAreCandidates(db, id, i, env);
    if SoleClaim(db, id, i, env) {
      forall c | c in input.candidates && ClaimsAndEligible(c, input) ensures c.id == i {
        assert IsExactCandidate(db, id, c);
        ClaimsAreCandidates(db, id, c.id, env);
      }
      assert input.sms.trxId.Some? by { ClaimHasTrx(db, id, i, env); }
    }
    if ExactMatch(ToOrderFacts(i, db.orders[i]), input) {
      forall j: nat | j < |db.orders| && EligibleClaim(db, id, j, env) ensures j == i {
        ClaimsAreCandidates(db, id, j, env);
        assert ToOrderFacts(j, db.orders[j]).id == i;
      }
    }
  }

  lemma ClaimHasTrx(db: Db, id: nat, i: nat, env: Env)
    requires id < |db.sms| && i < |db.orders| && EligibleClaim(db, id, i, env)
    ensures db.sms[id].trxId.Some?
  {
  }

  lemma SoleClaimExistsIff(db: Db, id: nat, env: Env)
    requires id < |db.sms|
    ensures (exists i: nat :: SoleClaim(db, id, i, env)) <==> exists o :: ExactMatch(o, BuildInput(db, id, env))
  {
    hide SoleClaim, LoadHeuristicCandidates, TrxSpent, LoadExactCandidates;
    if i: nat :| SoleClaim(db, id, i, env) {
      assert i < |db.orders| by { SoleClaimIsOrder(db, id, i, env); }
      SoleClaimIff(db, id, i, env);
    }
    if o :| ExactMatch(o, BuildInput(db, id, env)) {
      InputIsTables(db, id, env);
      assert IsExactCandidate(db, id, o);
      SoleClaimIff(db, id, o.id, env);
    }
  }

  lemma SoleClaimIsOrder(db: Db, id: nat, i: nat, env: Env)
    requires id < |db.sms| && SoleClaim(db, id, i, env)
    ensures i < |db.orders|
  {
  }

  /** On the tables: an SMS with a spent TrxID is decided VERIFIED exactly when one order is the sole claim. */
  lemma SpentDecidedIff(db: Db, id: nat, env: Env)
    requires id < |db.sms| && db.sms[id].trxId.Some?
    requires TrxSpent(db, db.sms[id].company, db.sms[id].trxId.value)
    ensures DecideOn(db, id, env).DVerified? <==>
      && UsableSms(db.sms[id], env) && SmsInTime(db.sms[id], env)
      && exists i: nat :: SoleClaim(db, id, i, env)
  {
    hide RunDecide, Usable, UsableSms, SoleClaim, ExactMatch, LoadHeuristicCandidates, LoadExactCandidates;
    var input := BuildInput(db, id, env);
    InputIsTables(db, id, env);
    UsableIs(db, id, env);
    SpentVerifiesIff(input);
    SoleClaimExistsIff(db, id, env);
  }

  /** A verified spent SMS names its sole claim. */
  lemma SpentNamesSoleClaim(db: Db, id: nat, i: nat, env: Env)
    requires id < |db.sms| && SoleClaim(db, id, i, env) && DecideOn(db, id, env).DVerified?
    ensures DecideOn(db, id, env).orderId == i
  {
    hide RunGuards, IsFuture, RunHeuristic, RunExact, SoleClaim, LoadHeuristicCandidates, LoadExactCandidates, TrxSpent;
    var input := BuildInput(db, id, env);
    InputIsTables(db, id, env);
    assert i < |db.orders| by { SoleClaimIsOrder(db, id, i, env); }
    SoleClaimIff(db, id, i, env);
    ExactVerifiesIff(input, ToOrderFacts(i, db.orders[i]));
  }

  /**
   * "A spent TrxID is never verified again" fails exactly here: a run on an SMS that credited nothing yet, whose TrxID
   * is spent, credits an order if and only if the database answers, the guards pass, the SMS is not dated in the
   * future, and some order is the sole claim and not an EXPIRED one whose TrxID a live order holds.
   */
  lemma SpentCreditsIff(db: Db, id: nat, env: Env)
    requires Inv(db) && id < |db.sms| && ValidSettings(env.settings) && !SmsTaken(db, id)
    requires db.sms[id].trxId.Some? && TrxSpent(db, db.sms[id].company, db.sms[id].trxId.value)
    ensures MatchSms(db, id, env).verifs != db.verifs <==>
      && env.faults < MATCH_ATTEMPTS
      && UsableSms(db.sms[id], env) && SmsInTime(db.sms[id], env)
      && exists i: nat :: SoleClaim(db, id, i, env) && MayTakeLive(db, i)
  {
    hide Inv, UsableSms, SmsInTime, SoleClaim, DecideOn, BuildInput, DecideAndApply;
    assert LiveTrxUnique(db) && VerificationsSound(db) by { PartsOf(db); }
    SpentDecidedIff(db, id, env);
    ConflictIff(db, id, env);
    CreditsIffVerified(db, id, env);
    forall i: nat | SoleClaim(db, id, i, env) && DecideOn(db, id, env).DVerified?
      ensures DecideOn(db, id, env).orderId == i
    {
      SpentNamesSoleClaim(db, id, i, env);
    }
  }

  /** PENDING, or EXPIRED with no live order of the same TrxID. */
  predicate MayTakeLive(db: Db, i: nat) {
    i < |db.orders| && !(db.orders[i].status.Expired? && TrxLiveElsewhere(db, i))
  }

  lemma PartsOf(db: Db)
    requires Inv(db)
    ensures LiveTrxUnique(db) && VerificationsSound(db)
  {
  }

  /** A committed run adds a verification exactly when it decided to verify. */
  lemma CreditsIffVerified(db: Db, id: nat, env: Env)
    requires VerificationsSound(db) && id < |db.sms|
    ensures MatchSms(db, id, env).verifs != db.verifs <==>
      env.faults < MATCH_ATTEMPTS && DecideAndApply(db, id, env).Committed? && DecideOn(db, id, env).DVerified?
    ensures DecideOn(db, id, env).DVerified? ==> DecideOn(db, id, env).orderId < |db.orders|
  {
    hide DecideOn, Joined, Backed;
    DecisionNamesRow(db, id, env);
    assert db.nextVerif !in db.verifs;
  }

  /** The spending bound itself, in every reachable state. */
  lemma TrxIdSpentAtMostOncePerPass(db: Db, j: nat, k: nat)
    requires Reachable(db)
    requires j in db.verifs && k in db.verifs && j != k && SameTrx(db, db.verifs[j], db.verifs[k])
    ensures db.verifs[j].verifiedBy.ManualAdmin? || db.verifs[k].verifiedBy.ManualAdmin?
      || {db.verifs[j].verifiedBy, db.verifs[k].verifiedBy} == {ExactTxnId, HeuristicAmountWindow}
  {
    ReachableSafe(db);
  }

  // ---------------------------------------------------------------- writes without their checks

  /** The write half of `cancel` is safe exactly on orders that are not VERIFIED. */
  lemma CancelWriteSafeIff(db: Db, i: nat)
    requires Inv(db) && i < |db.orders|
    ensures Inv(SetOrder(db, i, db.orders[i].(status := Cancelled))) <==> !db.orders[i].status.Verified?
  {
    var row := db.orders[i].(status := Cancelled);
    if db.orders[i].status.Verified? {
      var k :| k in db.verifs && db.verifs[k].order == i;
      assert !Joined(SetOrder(db, i, row), db.verifs[k]);
    } else {
      SetOrderKeeps(db, i, row);
    }
  }

  /** The write half of a correction is safe exactly when the order is not VERIFIED and no live order has the TrxID. */
  lemma CorrectWriteSafeIff(db: Db, i: nat, trxId: string)
    requires Inv(db) && i < |db.orders|
    ensures var row := Corrected(db.orders[i], Some(trxId));
      Inv(SetOrder(db, i, row)) <==> !db.orders[i].status.Verified? && IndexAdmits(db.orders, i, row)
  {
    var row := Corrected(db.orders[i], Some(trxId));
    var db' := SetOrder(db, i, row);
    if db.orders[i].status.Verified? {
      var k :| k in db.verifs && db.verifs[k].order == i;
      assert !Joined(db', db.verifs[k]);
    } else if IndexAdmits(db.orders, i, row) {
      SetOrderKeeps(db, i, row);
    } else {
      var j :| 0 <= j < |db.orders| && j != i && LiveClash(db.orders[j], row);
      assert LiveClash(db'.orders[j], db'.orders[i]);
    }
  }

  /** Writing MATCHED after the fact, as ingestion does outside the transaction, is safe exactly on spent SMS. */
  lemma MatchedWriteSafeIff(db: Db, id: nat)
    requires Inv(db) && id < |db.sms|
    ensures Inv(SetSms(db, id, StMatched, {})) <==> SmsTaken(db, id)
  {
    if SmsTaken(db, id) {
      SetSmsKeeps(db, id, StMatched, {});
    } else {
      var db' := SetSms(db, id, StMatched, {});
      assert db'.sms[id].matchStatus.StMatched?;
      assert db'.verifs == db.verifs;
    }
  }
}
