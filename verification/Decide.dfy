/** The pure decision core: guards, exact TrxID pass, and their composition with the heuristic pass. */
module Decide {
  import opened Prelude
  import opened MatchTypes
  import opened Heuristic
  import opened HeuristicRule

  const FUTURE_SKEW_MS := 5 * 60 * 1000

  // ---------------------------------------------------------------- amounts

  datatype AmountRelation = Within | Overpaid | Underpaid
  datatype AmountComparison = AmountComparison(relation: AmountRelation, delta: int)

  /** The tolerance boundary is inclusive on both sides and the delta never leaves the stored range. */
  function CompareAmount(expected: Amount, received: Amount, tolerance: Amount): (r: AmountComparison)
    ensures r.delta == received - expected && Abs(r.delta) <= MAX_ABS_PAISA
    ensures r.relation.Underpaid? <==> received + tolerance < expected
    ensures r.relation.Overpaid? <==> expected + tolerance < received
  {
    var delta := received - expected;
    if Abs(delta) <= tolerance then AmountComparison(Within, delta)
    else AmountComparison(if received > expected then Overpaid else Underpaid, delta)
  }

  // ---------------------------------------------------------------- guards

  function RunGuards(input: MatchInput): Option<GuardName> {
    var sms := input.sms;
    if sms.companyStatus.CompanyDisabled? then Some(CompanyNotActive)
    else if sms.deviceStatus.Some? && !sms.deviceStatus.value.DeviceActive? then Some(DeviceNotActive)
    else if !sms.direction.Credit? then Some(DirectionNotCredit)
    else if sms.provider !in input.settings.allowedProviders then Some(ProviderNotAllowed)
    else if sms.parse.Unparsed? || sms.parse.ParseIgnored? then Some(ParseStatusUnusable)
    else if Received(sms.amount) == 0 then Some(AmountMissingOrZero)
    else None
  }

  // ---------------------------------------------------------------- exact pass

  predicate IsEligible(order: OrderFacts, now: int, graceHours: nat) {
    || order.status.Pending?
    || (order.status.Expired? && order.expiresAt > now - graceHours * HOUR_MS)
  }

  function Eligible(cs: seq<OrderFacts>, trxId: string, now: int, graceHours: nat): (r: seq<OrderFacts>)
    ensures forall c :: c in r <==> c in cs && c.trxId == Some(trxId) && IsEligible(c, now, graceHours)
    ensures DistinctIds(cs) ==> DistinctIds(r)
  {
    if cs == [] then []
    else
      var rest := Eligible(cs[1..], trxId, now, graceHours);
      assert cs == [cs[0]] + cs[1..];
      assert DistinctIds(cs) ==> DistinctIds(cs[1..]);
      assert DistinctIds(cs) ==> forall c :: c in rest ==> c.id != cs[0].id;
      if cs[0].trxId == Some(trxId) && IsEligible(cs[0], now, graceHours) then [cs[0]] + rest else rest
  }

  function ExactLine(order: OrderFacts, received: Amount): ReviewCandidate {
    ReviewCandidate(order.id, order.expected, received, received - order.expected, None)
  }

  function ExactLineIn(received: Amount): OrderFacts -> ReviewCandidate {
    (c: OrderFacts) => ExactLine(c, received)
  }

  function RunExact(input: MatchInput): Option<Decision> {
    if input.sms.trxId.None? || input.sms.amount.None? then None
    else
      var trxId, amount := input.sms.trxId.value, input.sms.amount.value;
      var eligible := Eligible(input.candidates, trxId, input.now, input.settings.lateMatchGraceHours);
      if eligible == [] then
        (if trxId in input.spentTrxIds then Some(DDuplicate(trxId)) else None)
      else if |eligible| > 1 then
        Some(DReview(AmbiguousCandidates, MapSeq(ExactLineIn(amount), eligible)))
      else
        var order := eligible[0];
        var cmp := CompareAmount(order.expected, amount, order.tolerance);
        if cmp.relation.Underpaid? then Some(DReview(AmountMismatch, [ExactLine(order, amount)]))
        else Some(DVerified(
            ExactPass, order.id, 1.0, cmp.delta, order.status.Expired?,
            if cmp.relation.Overpaid? then {AmountOverpaid} else {}))
  }

  // ---------------------------------------------------------------- decide

  predicate IsFuture(input: MatchInput) {
    input.sms.smsAt.Some? && input.sms.smsAt.value > input.now + FUTURE_SKEW_MS
  }

  function RunDecide(input: MatchInput): Decision {
    match RunGuards(input)
    case Some(guard) => DGuardRejected(guard)
    case None =>
      if IsFuture(input) then DReview(SuspiciousSms, [])
      else
        match RunExact(input)
        case Some(d) => d
        case None => RunHeuristic(input)
  }

  // ---------------------------------------------------------------- the guards, in columns

  predicate CompanyAllows(sms: SmsFacts) { sms.companyStatus.CompanyActive? || sms.companyStatus.CompanySuspended? }

  predicate DeviceAllows(sms: SmsFacts) { sms.deviceStatus == None || sms.deviceStatus == Some(DeviceActive) }

  predicate IsMoneyIn(sms: SmsFacts) { sms.direction == Credit }

  predicate ProviderAllowed(sms: SmsFacts, settings: Settings) { sms.provider in settings.allowedProviders }

  predicate IsParsed(sms: SmsFacts) { sms.parse == Parsed || sms.parse == Partial }

  predicate HasAmount(sms: SmsFacts) { sms.amount.Some? && sms.amount.value > 0 }

  /** The SMS may enter the passes at all. */
  predicate Usable(sms: SmsFacts, settings: Settings) {
    && CompanyAllows(sms) && DeviceAllows(sms) && IsMoneyIn(sms) && ProviderAllowed(sms, settings)
    && IsParsed(sms) && HasAmount(sms)
  }

  /** The first of the six conditions that fails, in their order. */
  predicate FailsFirst(g: GuardName, sms: SmsFacts, settings: Settings) {
    match g
    case CompanyNotActive => !CompanyAllows(sms)
    case DeviceNotActive => CompanyAllows(sms) && !DeviceAllows(sms)
    case DirectionNotCredit => CompanyAllows(sms) && DeviceAllows(sms) && !IsMoneyIn(sms)
    case ProviderNotAllowed =>
      CompanyAllows(sms) && DeviceAllows(sms) && IsMoneyIn(sms) && !ProviderAllowed(sms, settings)
    case ParseStatusUnusable =>
      && CompanyAllows(sms) && DeviceAllows(sms) && IsMoneyIn(sms) && ProviderAllowed(sms, settings)
      && !IsParsed(sms)
    case AmountMissingOrZero =>
      && CompanyAllows(sms) && DeviceAllows(sms) && IsMoneyIn(sms) && ProviderAllowed(sms, settings)
      && IsParsed(sms) && !HasAmount(sms)
  }

  /** The guards let exactly the usable SMS through, and name the first condition that fails. */
  lemma GuardsAre(input: MatchInput)
    ensures RunGuards(input).None? <==> Usable(input.sms, input.settings)
    ensures RunGuards(input).Some? ==> FailsFirst(RunGuards(input).value, input.sms, input.settings)
  {
  }

  /** Not dated more than five minutes ahead of the clock. */
  predicate InTime(input: MatchInput) {
    input.sms.smsAt.Some? ==> input.sms.smsAt.value <= input.now + 300_000
  }

  // ---------------------------------------------------------------- what a verification means

  /** The order claims the TrxID of the SMS and is PENDING, or EXPIRED for less than the grace period. */
  predicate ClaimsAndEligible(c: OrderFacts, input: MatchInput) {
    && c.trxId == input.sms.trxId
    && (c.status == Pending
        || (c.status == Expired && input.now < c.expiresAt + input.settings.lateMatchGraceHours * 3_600_000))
  }

  /** The exact pass verifies exactly when one eligible order claims the TrxID and it is not underpaid. */
  ghost predicate ExactMatch(o: OrderFacts, input: MatchInput) {
    && input.sms.trxId.Some? && o in input.candidates && ClaimsAndEligible(o, input)
    && input.sms.amount.Some? && o.expected <= input.sms.amount.value + o.tolerance
    && forall c :: c in input.candidates && ClaimsAndEligible(c, input) ==> c.id == o.id
  }

  lemma OnlyOne(cs: seq<OrderFacts>, o: OrderFacts)
    requires DistinctIds(cs) && o in cs
    requires forall c :: c in cs ==> c.id == o.id
    ensures cs == [o]
  {
    var k :| 0 <= k < |cs| && cs[k] == o;
    var first, last := 0, |cs| - 1;
    assert cs[first].id == cs[k].id && cs[last].id == cs[k].id;
  }

  lemma ExactVerifiesIff(input: MatchInput, o: OrderFacts)
    requires DistinctIds(input.candidates)
    ensures ExactMatch(o, input) ==>
      RunExact(input) == Some(DVerified(
        ExactPass, o.id, 1.0, Received(input.sms.amount) - o.expected, o.status.Expired?,
        if o.expected + o.tolerance < Received(input.sms.amount) then {AmountOverpaid} else {}))
    ensures (&& RunExact(input).Some? && RunExact(input).value.DVerified?
             && RunExact(input).value.orderId == o.id && o in input.candidates)
      ==> ExactMatch(o, input)
  {
    if input.sms.trxId.Some? {
      var eligible := Eligible(
        input.candidates, input.sms.trxId.value, input.now, input.settings.lateMatchGraceHours);
      if ExactMatch(o, input) {
        OnlyOne(eligible, o);
      } else if |eligible| == 1 && o in input.candidates && eligible[0].id == o.id {
        assert eligible[0] in eligible;
        IdsIdentify(input.candidates, eligible[0], o);
      }
    }
  }

  /** The order a decision credits, among the candidates the pass was given. */
  ghost predicate CreditsSoundly(d: Decision, o: OrderFacts, input: MatchInput) {
    && d.DVerified? && d.orderId == o.id
    && input.sms.amount.Some? && input.sms.amount.value > 0
    && d.delta == input.sms.amount.value - o.expected
    && (ValidSettings(input.settings) ==> 0.5 <= d.confidence <= 1.0)
    && (d.pass.ExactPass? ==>
        && ExactMatch(o, input) && d.wasLate == o.status.Expired?
        && d.flags == (if o.expected + o.tolerance < input.sms.amount.value then {AmountOverpaid} else {}))
    && (d.pass.HeuristicPass? ==>
        && o in input.heuristicCandidates && !d.wasLate
        && (input.sms.trxId.Some? ==> input.sms.trxId.value !in input.spentTrxIds))
  }

  lemma ExactIsSound(input: MatchInput) returns (o: OrderFacts)
    requires DistinctIds(input.candidates)
    requires RunDecide(input).DVerified? && RunExact(input).Some?
    ensures CreditsSoundly(RunDecide(input), o, input) && RunDecide(input).pass.ExactPass?
  {
    var eligible := Eligible(
      input.candidates, input.sms.trxId.value, input.now, input.settings.lateMatchGraceHours);
    o := eligible[0];
    assert o in eligible;
    ExactVerifiesIff(input, o);
  }

  lemma HeuristicIsSound(input: MatchInput) returns (o: OrderFacts)
    requires DistinctIds(input.heuristicCandidates)
    requires RunDecide(input).DVerified? && RunExact(input).None?
    ensures CreditsSoundly(RunDecide(input), o, input) && RunDecide(input).pass.HeuristicPass?
  {
    if ValidSettings(input.settings) {
      ConfidenceInRange(input);
    }
    o := VerifiedIsWinner(input);
  }

  /**
   * Whatever `decide` verifies is backed by money: a positive amount, a candidate that the responsible
   * pass was allowed to take, the exact delta; and the heuristic pass never takes a spent TrxID.
   */
  lemma VerifiedIsSound(input: MatchInput) returns (o: OrderFacts)
    requires DistinctIds(input.candidates) && DistinctIds(input.heuristicCandidates)
    requires RunDecide(input).DVerified?
    ensures CreditsSoundly(RunDecide(input), o, input)
  {
    if RunExact(input).Some? {
      o := ExactIsSound(input);
    } else {
      o := HeuristicIsSound(input);
    }
  }

  /** An underpayment beyond tolerance on the only eligible order always goes to review. */
  lemma UnderpaymentIsReviewed(input: MatchInput, o: OrderFacts)
    requires DistinctIds(input.candidates)
    requires Usable(input.sms, input.settings) && InTime(input)
    requires o in input.candidates && input.sms.trxId.Some? && ClaimsAndEligible(o, input)
    requires forall c :: c in input.candidates && ClaimsAndEligible(c, input) ==> c.id == o.id
    ensures RunDecide(input) == DReview(AmountMismatch, [ExactLine(o, Received(input.sms.amount))])
      <==> Received(input.sms.amount) + o.tolerance < o.expected
  {
    if Received(input.sms.amount) + o.tolerance < o.expected {
      var eligible := Eligible(
        input.candidates, input.sms.trxId.value, input.now, input.settings.lateMatchGraceHours);
      OnlyOne(eligible, o);
    } else {
      ExactVerifiesIff(input, o);
    }
  }

  /**
   * "A TrxID already spent is never verified again" is not a property of `decide`: with one eligible
   * order the spent set is not consulted, and replacing it by any other set changes nothing.
   */
  lemma SpentIgnoredWhenEligible(input: MatchInput, o: OrderFacts, spent: set<string>)
    requires DistinctIds(input.candidates)
    requires ExactMatch(o, input) && Usable(input.sms, input.settings) && InTime(input)
    ensures RunDecide(input.(spentTrxIds := spent)) == RunDecide(input)
    ensures RunDecide(input).DVerified?
  {
    ExactVerifiesIff(input, o);
    assert ExactMatch(o, input.(spentTrxIds := spent));
    ExactVerifiesIff(input.(spentTrxIds := spent), o);
  }

  // ---------------------------------------------------------------- when a decision verifies

  /** The exact pass has nothing to say: no eligible order claims the TrxID, and it is not spent. */
  ghost predicate FallsThrough(input: MatchInput) {
    input.sms.trxId.Some? ==>
      && input.sms.trxId.value !in input.spentTrxIds
      && forall c :: c in input.candidates ==> !ClaimsAndEligible(c, input)
  }

  /** The whole condition, without the order in which the code asks. */
  ghost predicate ShouldVerify(input: MatchInput) {
    && Usable(input.sms, input.settings) && InTime(input)
    && ((exists o :: ExactMatch(o, input))
        || (&& FallsThrough(input) && input.settings.heuristicEnabled && |input.heuristicCandidates| < 50
            && exists o :: Leads(o, input)))
  }

  lemma FallsThroughIff(input: MatchInput)
    requires RunGuards(input).None?
    ensures RunExact(input).None? <==> FallsThrough(input)
  {
    if input.sms.trxId.Some? {
      var eligible := Eligible(
        input.candidates, input.sms.trxId.value, input.now, input.settings.lateMatchGraceHours);
      if eligible != [] {
        assert eligible[0] in eligible;
      }
    }
  }

  lemma ExactPassVerifiesIff(input: MatchInput)
    requires DistinctIds(input.candidates) && RunGuards(input).None? && !IsFuture(input)
    ensures RunExact(input).Some? && RunExact(input).value.DVerified? <==> exists o :: ExactMatch(o, input)
  {
    if RunExact(input).Some? && RunExact(input).value.DVerified? {
      var o := ExactIsSound(input);
    } else if o :| ExactMatch(o, input) {
      ExactVerifiesIff(input, o);
      assert false;
    }
  }

  /** The composed decision verifies exactly under that condition. */
  lemma VerifiesIff(input: MatchInput)
    requires DistinctIds(input.candidates) && DistinctIds(input.heuristicCandidates)
    ensures RunDecide(input).DVerified? <==> ShouldVerify(input)
  {
    hide RunExact, RunHeuristic, RunGuards, ExactMatch, Leads, FallsThrough, Usable, ListsAll;
    GuardsAre(input);
    if RunGuards(input).None? && !IsFuture(input) {
      FallsThroughIff(input);
      ExactPassVerifiesIff(input);
      HeuristicAnswers(input);
    }
  }

  /**
   * A decision verifies a spent TrxID exactly when the guards pass, the SMS is not dated in the future, and one
   * eligible order claims the TrxID and is not underpaid: the exact pass alone, whatever the heuristic would say.
   */
  lemma SpentVerifiesIff(input: MatchInput)
    requires DistinctIds(input.candidates) && DistinctIds(input.heuristicCandidates)
    requires input.sms.trxId.Some? && input.sms.trxId.value in input.spentTrxIds
    ensures RunDecide(input).DVerified? <==>
      Usable(input.sms, input.settings) && InTime(input) && exists o :: ExactMatch(o, input)
  {
    hide RunDecide, ExactMatch, Leads, Usable;
    VerifiesIff(input);
  }

  // ---------------------------------------------------------------- everything a decision can be

  predicate HasClaim(input: MatchInput) {
    input.sms.trxId.Some? && exists i :: 0 <= i < |input.candidates| && ClaimsAndEligible(input.candidates[i], input)
  }

  /** Two different candidates claim the TrxID. */
  predicate HasTwoClaims(input: MatchInput) {
    input.sms.trxId.Some?
    && exists i, j :: 0 <= i < j < |input.candidates|
        && ClaimsAndEligible(input.candidates[i], input) && ClaimsAndEligible(input.candidates[j], input)
  }

  /** The line of an exact review: no score, the same amounts as any line. */
  predicate IsExactLine(line: ReviewCandidate, c: OrderFacts, input: MatchInput) {
    && line.orderId == c.id && line.expected == c.expected && line.received == Received(input.sms.amount)
    && line.delta == Received(input.sms.amount) - c.expected && line.score == None
  }

  predicate IsClaim(c: OrderFacts, input: MatchInput) {
    c in input.candidates && ClaimsAndEligible(c, input)
  }

  ghost predicate IsLineOfClaim(line: ReviewCandidate, input: MatchInput) {
    exists c :: IsClaim(c, input) && IsExactLine(line, c, input)
  }

  ghost predicate HasLine(lines: seq<ReviewCandidate>, c: OrderFacts, input: MatchInput) {
    exists k :: 0 <= k < |lines| && IsExactLine(lines[k], c, input)
  }

  /** One line for each order that claims the TrxID, and no other. */
  ghost predicate ListsClaims(lines: seq<ReviewCandidate>, input: MatchInput) {
    && (forall k :: 0 <= k < |lines| ==> IsLineOfClaim(lines[k], input))
    && (forall c :: IsClaim(c, input) ==> HasLine(lines, c, input))
    && (forall j, k :: 0 <= j < k < |lines| ==> lines[j].orderId != lines[k].orderId)
  }

  /** Several claims: a review that lists them. */
  lemma TwoClaimsAreReviewed(input: MatchInput)
    requires DistinctIds(input.candidates) && Usable(input.sms, input.settings) && InTime(input) && HasTwoClaims(input)
    ensures var d := RunDecide(input);
      d.DReview? && d.reason == AmbiguousCandidates && ListsClaims(d.candidates, input)
  {
    hide ListsClaims, ExactLineIn, Eligible, ClaimsAndEligible, Usable, RunGuards;
    GuardsAre(input);
    assert input.sms.amount.Some? by { UsableHasAmount(input.sms, input.settings); }
    var cs := input.candidates;
    var eligible := Eligible(cs, input.sms.trxId.value, input.now, input.settings.lateMatchGraceHours);
    EligibleAreClaims(input);
    var i, j :| 0 <= i < j < |cs| && ClaimsAndEligible(cs[i], input) && ClaimsAndEligible(cs[j], input);
    assert cs[i] in eligible && cs[j] in eligible && cs[i].id != cs[j].id;
    LinesListClaims(input, eligible);
  }

  lemma UsableHasAmount(sms: SmsFacts, settings: Settings)
    requires Usable(sms, settings)
    ensures sms.amount.Some?
  {
  }

  lemma EligibleAreClaims(input: MatchInput)
    requires DistinctIds(input.candidates) && input.sms.trxId.Some?
    ensures var eligible := Eligible(
        input.candidates, input.sms.trxId.value, input.now, input.settings.lateMatchGraceHours);
      DistinctIds(eligible) && forall c :: c in eligible <==> IsClaim(c, input)
  {
  }

  lemma LinesListClaims(input: MatchInput, eligible: seq<OrderFacts>)
    requires DistinctIds(eligible) && input.sms.amount.Some?
    requires forall c :: c in eligible <==> IsClaim(c, input)
    ensures ListsClaims(MapSeq(ExactLineIn(input.sms.amount.value), eligible), input)
  {
    hide IsClaim;
    var lines := MapSeq(ExactLineIn(input.sms.amount.value), eligible);
    forall k | 0 <= k < |lines| ensures IsExactLine(lines[k], eligible[k], input) {
    }
    hide IsExactLine;
    forall k | 0 <= k < |lines| ensures IsLineOfClaim(lines[k], input) {
      assert IsClaim(eligible[k], input);
    }
    forall c | IsClaim(c, input) ensures HasLine(lines, c, input) {
      var k :| 0 <= k < |eligible| && eligible[k] == c;
      assert IsExactLine(lines[k], c, input);
    }
  }

  /** What the decision makes of the only claim `o`: AMOUNT_MISMATCH below the tolerance band, else a verification. */
  predicate AnswersClaim(d: Decision, o: OrderFacts, input: MatchInput) {
    var received := Received(input.sms.amount);
    if received < o.expected - o.tolerance then
      d.DReview? && d.reason == AmountMismatch && |d.candidates| == 1 && IsExactLine(d.candidates[0], o, input)
    else
      d == DVerified(ExactPass, o.id, 1.0, received - o.expected, o.status == Expired,
        if o.expected + o.tolerance < received then {AmountOverpaid} else {})
  }

  /** A single claim is verified, or reviewed for its amount. */
  lemma SingleClaimIsAnswered(input: MatchInput, o: OrderFacts)
    requires DistinctIds(input.candidates) && Usable(input.sms, input.settings) && InTime(input)
    requires input.sms.trxId.Some? && IsClaim(o, input) && !HasTwoClaims(input)
    ensures AnswersClaim(RunDecide(input), o, input)
  {
    GuardsAre(input);
    var cs := input.candidates;
    var eligible := Eligible(cs, input.sms.trxId.value, input.now, input.settings.lateMatchGraceHours);
    var i :| 0 <= i < |cs| && cs[i] == o;
    forall c | c in eligible ensures c.id == o.id {
      var k :| 0 <= k < |cs| && cs[k] == c;
      assert k == i;
    }
    OnlyOne(eligible, o);
  }

  /**
   * Every decision: a guard that failed, a suspicious date, what the claims of the TrxID ask for, a duplicate exactly
   * when nothing claims a spent TrxID, and otherwise what the heuristic pass says.
   */
  lemma DecisionIs(input: MatchInput)
    requires DistinctIds(input.candidates)
    ensures var d := RunDecide(input);
      if !Usable(input.sms, input.settings) then d.DGuardRejected? && FailsFirst(d.guard, input.sms, input.settings)
      else if !InTime(input) then d == DReview(SuspiciousSms, [])
      else if HasClaim(input) then d.DVerified? || d.DReview?
      else if input.sms.trxId.Some? && input.sms.trxId.value in input.spentTrxIds then
        d == DDuplicate(input.sms.trxId.value)
      else d == RunHeuristic(input)
  {
    hide RunHeuristic;
    GuardsAre(input);
    if Usable(input.sms, input.settings) && InTime(input) && input.sms.trxId.Some? {
      var eligible := Eligible(
        input.candidates, input.sms.trxId.value, input.now, input.settings.lateMatchGraceHours);
      if HasClaim(input) {
        var i :| 0 <= i < |input.candidates| && ClaimsAndEligible(input.candidates[i], input);
        assert input.candidates[i] in eligible;
      } else {
        NoneEligible(input);
      }
    }
  }

  lemma NoneEligible(input: MatchInput)
    requires input.sms.trxId.Some?
    ensures var eligible := Eligible(
        input.candidates, input.sms.trxId.value, input.now, input.settings.lateMatchGraceHours);
      eligible == [] || HasClaim(input)
  {
    var eligible := Eligible(
      input.candidates, input.sms.trxId.value, input.now, input.settings.lateMatchGraceHours);
    if eligible != [] {
      assert eligible[0] in eligible;
      var i :| 0 <= i < |input.candidates| && input.candidates[i] == eligible[0];
      assert ClaimsAndEligible(input.candidates[i], input);
    }
  }
}
