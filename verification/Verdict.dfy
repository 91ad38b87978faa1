/** What a matching run reads, and when it verifies, in the columns of the tables (candidate.repository.ts). */
module Verdict {
  import opened Prelude
  import opened MatchTypes
  import opened Heuristic
  import opened Decide
  import opened Tables
  import opened Engine

  // ---------------------------------------------------------------- the SMS

  predicate CompanyNotDisabled(env: Env) { env.companyStatus == CompanyActive || env.companyStatus == CompanySuspended }

  /** The SMS has no known device, or an active one. */
  predicate DeviceIsActive(s: Sms, env: Env) {
    s.device.None? || s.device.value !in env.devices || env.devices[s.device.value] == DeviceActive
  }

  predicate TextIsParsed(s: Sms) { s.parse == Parsed || s.parse == Partial }

  /** The row may enter the matching passes. */
  predicate UsableSms(s: Sms, env: Env) {
    && CompanyNotDisabled(env) && DeviceIsActive(s, env) && TextIsParsed(s)
    && s.provider in env.settings.allowedProviders
    && s.amount.Some? && s.amount.value > 0
  }

  /** Not dated more than five minutes ahead of the clock. */
  predicate SmsInTime(s: Sms, env: Env) {
    s.smsAt.Some? ==> s.smsAt.value <= env.now + 300_000
  }

  lemma UsableIs(db: Db, id: nat, env: Env)
    requires id < |db.sms|
    ensures Usable(BuildInput(db, id, env).sms, env.settings) <==> UsableSms(db.sms[id], env)
    ensures InTime(BuildInput(db, id, env)) <==> SmsInTime(db.sms[id], env)
  {
    hide LoadHeuristicCandidates, LoadExactCandidates, TrxSpent;
  }

  /**
   * A run rejects exactly the rows that are not usable, and names the first failing condition: company, device,
   * direction, provider, amount. A row that was not parsed counts as not being money in, so the guard on the parse
   * status is never the one named.
   */
  lemma RejectedIff(db: Db, id: nat, env: Env)
    requires id < |db.sms|
    ensures var s, d := db.sms[id], DecideOn(db, id, env);
      && (d.DGuardRejected? <==> !UsableSms(s, env))
      && (d.DGuardRejected? ==>
            d.guard == if !CompanyNotDisabled(env) then CompanyNotActive
                       else if !DeviceIsActive(s, env) then DeviceNotActive
                       else if !TextIsParsed(s) then DirectionNotCredit
                       else if s.provider !in env.settings.allowedProviders then ProviderNotAllowed
                       else AmountMissingOrZero)
  {
    hide LoadHeuristicCandidates, LoadExactCandidates, TrxSpent, RunHeuristic;
    InputIsTables(db, id, env);
    DecisionIs(BuildInput(db, id, env));
    UsableIs(db, id, env);
    HeuristicRejectsNothing(BuildInput(db, id, env));
  }

  lemma HeuristicRejectsNothing(input: MatchInput)
    ensures !RunHeuristic(input).DGuardRejected?
  {
  }

  // ---------------------------------------------------------------- the candidates

  /** The order is live for this SMS: same company, the same TrxID, PENDING or EXPIRED. */
  predicate ClaimsSms(o: Order, s: Sms) {
    && o.company == s.company && s.trxId.Some? && o.trxId == s.trxId
    && (o.status == Pending || o.status == Expired)
  }

  /** The order fits the SMS by amount and time: PENDING, without a TrxID, for the same provider and sender. */
  predicate Fits(o: Order, s: Sms, env: Env) {
    var at := if s.smsAt.Some? then s.smsAt.value else env.now;
    && o.company == s.company && o.status == Pending && o.trxId == None
    && s.amount.Some? && o.expected - o.tolerance <= s.amount.value <= o.expected + o.tolerance
    && o.createdAt - 300_000 <= at <= o.createdAt + env.settings.heuristicWindowMinutes * 60_000
    && (o.provider == None || o.provider == Some(s.provider))
    && (env.settings.requireSenderMatch ==> o.sender.Some? && o.sender == s.sender)
  }

  /** The facts of a candidate are the columns of its row. */
  predicate IsRowOf(c: OrderFacts, db: Db) {
    && c.id < |db.orders|
    && var o := db.orders[c.id];
       && c.trxId == o.trxId && c.expected == o.expected && c.tolerance == o.tolerance && c.status == o.status
       && c.expiresAt == o.expiresAt && c.createdAt == o.createdAt && c.mode == o.mode && c.provider == o.provider
       && c.sender == o.sender
  }

  /** The exact candidates are the orders that claim the TrxID of the SMS. */
  lemma ExactCandidatesAre(db: Db, id: nat, env: Env)
    requires id < |db.sms|
    ensures var cs := BuildInput(db, id, env).candidates;
      && (forall c :: c in cs ==> IsRowOf(c, db) && ClaimsSms(db.orders[c.id], db.sms[id]))
      && (forall i :: 0 <= i < |db.orders| && ClaimsSms(db.orders[i], db.sms[id]) ==>
            exists c :: c in cs && c.id == i)
  {
    hide LoadHeuristicCandidates, TrxSpent;
    var s := db.sms[id];
    if s.trxId.Some? {
      var keep := ClaimsTrxOf(s.company, s.trxId.value);
      var cs := Scan(db.orders, keep, |db.orders|);
      forall c | c in cs ensures IsRowOf(c, db) && ClaimsSms(db.orders[c.id], s) {
        assert keep(db.orders[c.id]);
      }
      forall i | 0 <= i < |db.orders| && ClaimsSms(db.orders[i], s) ensures exists c :: c in cs && c.id == i {
        assert keep(db.orders[i]);
        assert ToOrderFacts(i, db.orders[i]) in cs;
      }
    }
  }

  /** Whether the candidate query of the heuristic pass is run at all. */
  predicate IsQueried(s: Sms, env: Env) {
    s.amount.Some? && env.settings.heuristicEnabled && TextIsParsed(s)
  }

  /** The heuristic candidates fit; when there are fewer than fifty, every order that fits is one. */
  lemma HeuristicCandidatesAre(db: Db, id: nat, env: Env)
    requires id < |db.sms|
    ensures var cs := BuildInput(db, id, env).heuristicCandidates;
      && |cs| <= 50
      && (forall c :: c in cs ==> IsRowOf(c, db) && Fits(db.orders[c.id], db.sms[id], env))
      && (|cs| < 50 && IsQueried(db.sms[id], env) ==>
            forall i :: 0 <= i < |db.orders| && Fits(db.orders[i], db.sms[id], env) ==>
              exists c :: c in cs && c.id == i)
      && (!IsQueried(db.sms[id], env) ==> cs == [])
  {
    hide LoadExactCandidates, TrxSpent;
    var s := db.sms[id];
    if IsQueried(s, env) {
      var at := SmsTime(s, env.now);
      var keep := HeuristicQueryFor(s, s.amount.value, at, env.settings);
      var cs := LoadHeuristicCandidates(db.orders, s, env);
      FitsIsKept(db, id, env);
      HeuristicCandidatesAreRows(db.orders, s, env);
      LoadedFit(db, id, env);
      if |cs| < 50 {
        forall i | 0 <= i < |db.orders| && Fits(db.orders[i], s, env) ensures exists c :: c in cs && c.id == i {
          HeuristicCandidatesAreAll(db.orders, s, env, i);
        }
      }
    }
  }

  lemma FitsIsKept(db: Db, id: nat, env: Env)
    requires id < |db.sms| && IsQueried(db.sms[id], env)
    ensures var s := db.sms[id];
      forall o: Order ::
        HeuristicQuery(o, s, s.amount.value, SmsTime(s, env.now), env.settings) <==> Fits(o, s, env)
  {
  }

  lemma LoadedFit(db: Db, id: nat, env: Env)
    requires id < |db.sms| && IsQueried(db.sms[id], env)
    ensures forall c :: c in LoadHeuristicCandidates(db.orders, db.sms[id], env) ==>
      c.id < |db.orders| && Fits(db.orders[c.id], db.sms[id], env)
  {
    var s := db.sms[id];
    var keep := HeuristicQueryFor(s, s.amount.value, SmsTime(s, env.now), env.settings);
    var found := Scan(db.orders, keep, |db.orders|);
    var sorted := SortDesc(found, CreatedKey);
    SameElements(found, sorted);
    FitsIsKept(db, id, env);
    forall c | c in LoadHeuristicCandidates(db.orders, s, env)
      ensures c.id < |db.orders| && Fits(db.orders[c.id], s, env)
    {
      assert c in sorted && c in found;
      assert keep(db.orders[c.id]);
    }
  }

  /** The verification belongs to the company and used an SMS with the same TrxID. */
  predicate SpendsTrxOf(db: Db, v: Verification, s: Sms) {
    v.company == s.company && v.sms < |db.sms| && db.sms[v.sms].trxId == s.trxId
  }

  /** A TrxID is spent when some verification of the company used an SMS that carries it. */
  lemma SpentIs(db: Db, id: nat, env: Env)
    requires id < |db.sms|
    ensures var s := db.sms[id];
      BuildInput(db, id, env).spentTrxIds ==
        if s.trxId.Some? && exists k :: k in db.verifs && SpendsTrxOf(db, db.verifs[k], s) then {s.trxId.value} else {}
  {
    hide LoadHeuristicCandidates, LoadExactCandidates;
  }

  /** The remaining facts a decision is given. */
  lemma FactsAre(db: Db, id: nat, env: Env)
    requires id < |db.sms|
    ensures var s, input := db.sms[id], BuildInput(db, id, env);
      && input.sms.id == id && input.sms.provider == s.provider && input.sms.trxId == s.trxId
      && input.sms.amount == s.amount && input.sms.sender == s.sender && input.sms.smsAt == s.smsAt
      && input.settings == env.settings && input.now == env.now
  {
    hide LoadHeuristicCandidates, LoadExactCandidates, TrxSpent;
  }
}
