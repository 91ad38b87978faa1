/** Runs that show which stronger claims are not invariants of the payment tables. */
module Witnesses {
  import opened Prelude
  import opened MatchTypes
  import opened Score
  import opened Heuristic
  import opened HeuristicRule
  import opened Decide
  import opened Tables
  import opened Engine
  import opened Lifecycle
  import opened Invariants
  import opened Steps
  import opened Spending
  import opened ReverseCredit
  import opened ArrivalOrder

  const SETTINGS := Settings({Bkash}, 24, true, true, 30, false, 0.9)
  const ENV := Env(SETTINGS, CompanyActive, map[], 0, 0)
  const POLICY := RegisterPolicy(60, 0)
  const AMOUNT: Amount := 100_100

  function HashOf(c: char): string { seq(64, _ => c) }

  /** An order for AMOUNT from sender "S", with or without the TrxID "T". */
  function Request(orderRef: string, withTrx: bool): RegisterRequest {
    RegisterRequest(0, orderRef, Some(AMOUNT), withTrx, if withTrx then Some("T") else None, true, Some("S"),
      Some(Bkash), Some("https://shop.example"), true, true)
  }

  /** A credit SMS for AMOUNT from sender "S" carrying the TrxID "T". */
  function Payment(c: char, content: string): Message {
    Message(HashOf(c), content, Extraction(Bkash, Parsed, Some("T"), Some(AMOUNT), Some("S"), Some(0), {}))
  }

  function OrderRow(orderRef: string, withTrx: bool): Order { NewOrder(Request(orderRef, withTrx), POLICY, 0) }

  function SmsRow(c: char, content: string): Sms { NewSms(0, 0, Payment(c, content), 0) }

  lemma UploadOne(db: Db, c: char, content: string, env: Env)
    requires IsHexDigit(c) && env.now == 0
    requires forall s :: 0 <= s < |db.sms| ==> db.sms[s].contentHash != content && db.sms[s].clientHash != HashOf(c)
    ensures Step(db, Upload(0, 0, [Payment(c, content)], env))
      == MatchSms(db.(sms := db.sms + [SmsRow(c, content)]), |db.sms|, env)
  {
    hide MatchSms;
    var msg := Payment(c, content);
    SmsIsIngested(db, 0, 0, msg, env);
    assert [msg][1..] == [];
    var next := IngestOne(db, 0, 0, msg, env, {}).0;
    assert IngestAll(next, 0, 0, [msg][1..], env, SeenAfter(msg, {})).0 == next;
  }

  /** The credit of order `n` by SMS `id` when nothing stands in the way. */
  lemma CreditGoesThrough(db: Db, id: nat, d: Decision)
    requires id < |db.sms| && DecideOn(db, id, ENV) == d && d.DVerified? && d.orderId < |db.orders|
    requires forall k :: k in db.verifs ==> db.verifs[k].order != d.orderId && db.verifs[k].sms != id
    requires IndexAdmits(db.orders, d.orderId, CreditedRow(db.orders[d.orderId], 0))
    ensures var c := CreditOf(id, d, ENV);
      InTables(db, c) && CreditAdmitted(db, c) && MatchSms(db, id, ENV) == ApplyCredit(db, c).value
  {
    hide DecideOn;
  }

  // ---------------------------------------------------------------- a verified SMS need not be MATCHED

  ghost function MatchedThenRematched(): seq<Op> {
    [Register(Request("A", true), POLICY, ENV), Upload(0, 0, [Payment('a', "c1")], ENV), Rematch(0, ENV)]
  }

  lemma ExactPairDecides()
    ensures var d := PairDecision(0, SmsRow('a', "c1"), 0, OrderRow("A", true), ENV);
      d.DVerified? && d.orderId == 0 && d.pass.ExactPass?
  {
    var o, row := OrderRow("A", true), SmsRow('a', "c1");
    PairDecisionIs(0, row, 0, o, ENV);
    EligibleSingle(ToOrderFacts(0, o), "T", 0, 24);
  }

  lemma ExactPairCredited() returns (d: Decision)
    ensures var stored := EMPTY_DB.(orders := [OrderRow("A", true)], sms := [SmsRow('a', "c1")]);
      DecideOn(stored, 0, ENV) == d && d.DVerified? && d.orderId == 0 && d.pass.ExactPass?
  {
    hide RunDecide, DecideOn, PairDecision, LoneDecision;
    var o, row := OrderRow("A", true), SmsRow('a', "c1");
    assert LoadHeuristicCandidates([], row, ENV) == [] by {
      ScanNone([], HeuristicQueryFor(row, AMOUNT, 0, SETTINGS), 0);
    }
    DecisionsOfThePair(EMPTY_DB, o, row, "T", ENV);
    assert [] + [o] == [o] && [] + [row] == [row];
    ExactPairDecides();
    d := PairDecision(0, row, 0, o, ENV);
  }

  lemma SpentAndClosedIsDuplicate(db: Db, env: Env)
    requires |db.orders| == 1 && |db.sms| == 1 && 0 in db.verifs
    requires db.orders[0].status.Verified? && db.verifs[0].company == 0 && db.verifs[0].sms == 0
    requires db.sms[0] == SmsRow('a', "c1").(matchStatus := db.sms[0].matchStatus, flags := db.sms[0].flags)
    requires env == ENV
    ensures DecideOn(db, 0, env) == DDuplicate("T")
  {
    ScanNone(db.orders, ClaimsTrxOf(0, "T"), 1);
    assert TrxSpent(db, 0, "T");
  }

  lemma CreditedThenRematched() returns (db2: Db)
    ensures db2 == Step(Step(EMPTY_DB, MatchedThenRematched()[0]), MatchedThenRematched()[1])
    ensures |db2.orders| == 1 && |db2.sms| == 1 && db2.verifs.Keys == {0} && db2.verifs[0].sms == 0
    ensures DecideOn(db2, 0, ENV) == DDuplicate("T")
  {
    hide DecideOn;
    var o, row := OrderRow("A", true), SmsRow('a', "c1");
    OrderIsCreated(EMPTY_DB, Request("A", true), POLICY, ENV);
    var db1 := EMPTY_DB.(orders := [o]);
    assert Step(EMPTY_DB, MatchedThenRematched()[0]) == db1;
    UploadOne(db1, 'a', "c1", ENV);
    var stored := db1.(sms := [row]);
    assert db1.sms + [row] == [row];
    var d := ExactPairCredited();
    CreditGoesThrough(stored, 0, d);
    db2 := ApplyCredit(stored, CreditOf(0, d, ENV)).value;
    assert Step(db1, MatchedThenRematched()[1]) == db2;
    SpentAndClosedIsDuplicate(db2, ENV);
  }

  lemma {:induction false} RunThree(db: Db, ops: seq<Op>)
    requires |ops| == 3
    ensures Run(db, ops) == Step(Step(Step(db, ops[0]), ops[1]), ops[2])
  {
    hide Step;
    assert ops[1..][1..] == ops[2..] && ops[2..][1..] == [];
    var d1 := Step(db, ops[0]);
    var d2 := Step(d1, ops[1]);
    var d3 := Step(d2, ops[2]);
    assert Run(d3, []) == d3;
    assert Run(d2, ops[2..]) == d3;
    assert Run(d1, ops[1..]) == d3;
  }

  /**
   * "A verification implies its SMS is MATCHED" is not an invariant: re-running matching on a spent SMS
   * relabels it DUPLICATE_TXN. Its converse is one of the invariants.
   */
  lemma VerifiedSmsMayLoseItsStatus()
    ensures var ops := MatchedThenRematched();
      var db := Run(EMPTY_DB, ops);
      && (forall i :: 0 <= i < |ops| ==> ValidOp(ops[i]))
      && |db.sms| == 1 && SmsTaken(db, 0) && db.sms[0].matchStatus.StDuplicateTxn?
  {
    hide DecideOn, Run;
    var db2 := CreditedThenRematched();
    RunThree(EMPTY_DB, MatchedThenRematched());
    assert MatchedThenRematched()[2] == Rematch(0, ENV);
    var db3 := MatchSms(db2, 0, ENV);
    assert db3.verifs[0].sms == 0;
  }

  // ---------------------------------------------------------------- one TrxID, two verifications

  ghost function SpentTwice(): seq<Op> {
    [Register(Request("A", false), POLICY, ENV), Upload(0, 0, [Payment('a', "c1")], ENV),
     Register(Request("B", true), POLICY, ENV), Upload(0, 0, [Payment('b', "c2")], ENV)]
  }

  function PairInput(): MatchInput {
    MatchInput(LoadSmsFacts(SmsRow('a', "c1"), 0, ENV), [], [ToOrderFacts(0, OrderRow("A", false))], SETTINGS, {}, 0)
  }

  lemma PairInputIsBuilt()
    ensures BuildInput(EMPTY_DB.(orders := [OrderRow("A", false)], sms := [SmsRow('a', "c1")]), 0, ENV) == PairInput()
  {
  }

  lemma PairHasAllPoints()
    ensures PointsIn(PairInput().heuristicCandidates[0], PairInput()) == 100.0
  {
    hide IsPopular;
    var c := PairInput().heuristicCandidates[0];
    NoneBesides(c, PairInput().sms);
  }

  lemma LoneHasFullPoints(input: MatchInput, o: OrderFacts)
    requires input.heuristicCandidates == [o] && PointsIn(o, input) == 100.0
    requires input.settings.autoVerifyMinConfidence <= 1.0
    ensures Leads(o, input)
  {
    hide PointsIn;
  }

  lemma PairWins()
    ensures Wins(PairInput().heuristicCandidates[0], PairInput())
  {
    hide Leads, PointsIn;
    var c := PairInput().heuristicCandidates[0];
    PairHasAllPoints();
    LeadsIffWins(c, PairInput());
    LoneHasFullPoints(PairInput(), c);
  }

  lemma PairPassesGuards()
    ensures RunGuards(PairInput()).None? && !IsFuture(PairInput()) && RunExact(PairInput()) == None
  {
  }

  lemma HeuristicPairCredited() returns (d: Decision)
    ensures var stored := EMPTY_DB.(orders := [OrderRow("A", false)], sms := [SmsRow('a', "c1")]);
      DecideOn(stored, 0, ENV) == d && d.DVerified? && d.orderId == 0 && d.pass.HeuristicPass?
  {
    hide BuildInput, RunGuards, IsFuture, RunExact, RunHeuristic, Wins;
    PairInputIsBuilt();
    PairWins();
    PairPassesGuards();
    WinnerIsVerified(PairInput(), PairInput().heuristicCandidates[0]);
    d := VerifyOf(PairInput().heuristicCandidates[0], PairInput());
  }

  lemma SecondPairInput(db: Db)
    requires |db.orders| == 2 && |db.sms| == 2
    requires db.orders[0].status.Verified? && db.orders[1] == OrderRow("B", true)
    requires db.sms[1] == SmsRow('b', "c2")
    ensures BuildInput(db, 1, ENV).candidates == [ToOrderFacts(1, db.orders[1])]
  {
    hide LoadHeuristicCandidates, TrxSpent;
    assert Scan(db.orders, ClaimsTrxOf(0, "T"), 0) == [];
    assert Scan(db.orders, ClaimsTrxOf(0, "T"), 1) == [];
  }

  lemma SecondPairCredited(db: Db) returns (d: Decision)
    requires |db.orders| == 2 && |db.sms| == 2
    requires db.orders[0].status.Verified? && db.orders[1] == OrderRow("B", true)
    requires db.sms[1] == SmsRow('b', "c2")
    ensures DecideOn(db, 1, ENV) == d && d.DVerified? && d.orderId == 1 && d.pass.ExactPass?
  {
    hide LoadHeuristicCandidates, LoadExactCandidates, TrxSpent, RunHeuristic, Eligible;
    SecondPairInput(db);
    EligibleSingle(ToOrderFacts(1, db.orders[1]), "T", 0, 24);
    d := RunDecide(BuildInput(db, 1, ENV));
  }

  /** The bound of one exact and one heuristic verification per TrxID is reached. */
  lemma SpendingBoundIsTight()
    ensures var ops := SpentTwice();
      var db := Run(EMPTY_DB, ops);
      && (forall i :: 0 <= i < |ops| ==> ValidOp(ops[i]))
      && 0 in db.verifs && 1 in db.verifs && SameTrx(db, db.verifs[0], db.verifs[1])
      && db.verifs[0].verifiedBy.HeuristicAmountWindow? && db.verifs[1].verifiedBy.ExactTxnId?
  {
    hide Run, Step, SameTrx;
    var db2 := FirstHalf();
    SecondHalf(db2);
    RunFour(EMPTY_DB, SpentTwice());
  }

  lemma {:induction false} RunFour(db: Db, ops: seq<Op>)
    requires |ops| == 4
    ensures Run(db, ops) == Step(Step(Step(Step(db, ops[0]), ops[1]), ops[2]), ops[3])
  {
    hide Step;
    assert ops[1..][1..] == ops[2..] && ops[2..][1..] == ops[3..] && ops[3..][1..] == [];
    var d1 := Step(db, ops[0]);
    var d2 := Step(d1, ops[1]);
    var d3 := Step(d2, ops[2]);
    var d4 := Step(d3, ops[3]);
    assert Run(d4, []) == d4;
    assert Run(d3, ops[3..]) == d4;
    assert Run(d2, ops[2..]) == d4;
    assert Run(d1, ops[1..]) == d4;
  }

  ghost predicate AfterHeuristic(db: Db) {
    && |db.orders| == 1 && db.orders[0].status.Verified? && db.orders[0].trxId.None? && db.orders[0].company == 0
    && db.orders[0].orderRef == "A"
    && |db.sms| == 1 && db.sms[0].trxId == Some("T") && db.sms[0].contentHash == "c1"
    && db.sms[0].clientHash == HashOf('a')
    && db.nextVerif == 1 && db.verifs.Keys == {0} && db.verifs[0].verifiedBy.HeuristicAmountWindow?
    && db.verifs[0].company == 0 && db.verifs[0].order == 0 && db.verifs[0].sms == 0
  }

  lemma FirstHalf() returns (db2: Db)
    ensures db2 == Step(Step(EMPTY_DB, SpentTwice()[0]), SpentTwice()[1]) && AfterHeuristic(db2)
  {
    hide DecideOn;
    var o, row := OrderRow("A", false), SmsRow('a', "c1");
    var db1 := EMPTY_DB.(orders := [o]);
    assert RegisterOrder(EMPTY_DB, Request("A", false), SETTINGS, POLICY, 0).0 == db1;
    UploadOne(db1, 'a', "c1", ENV);
    var stored := db1.(sms := [row]);
    assert db1.sms + [row] == [row];
    var d := HeuristicPairCredited();
    CreditGoesThrough(stored, 0, d);
    db2 := ApplyCredit(stored, CreditOf(0, d, ENV)).value;
  }

  lemma SecondHalf(db2: Db)
    requires AfterHeuristic(db2)
    ensures var db := Step(Step(db2, SpentTwice()[2]), SpentTwice()[3]);
      && 0 in db.verifs && 1 in db.verifs && SameTrx(db, db.verifs[0], db.verifs[1])
      && db.verifs[0].verifiedBy.HeuristicAmountWindow? && db.verifs[1].verifiedBy.ExactTxnId?
  {
    hide DecideOn;
    var o, row := OrderRow("B", true), SmsRow('b', "c2");
    OrderIsCreated(db2, Request("B", true), POLICY, ENV);
    var db3 := db2.(orders := db2.orders + [o]);
    assert HashOf('a')[0] != HashOf('b')[0];
    UploadOne(db3, 'b', "c2", ENV);
    var stored := db3.(sms := db3.sms + [row]);
    var d := SecondPairCredited(stored);
    CreditGoesThrough(stored, 1, d);
  }

  // ---------------------------------------------------------------- a reverse match that credits another order

  /** The order with the TrxID has not been reverse-matched when the order without one is. */
  ghost function ReversedForAnother(): seq<Op> {
    [Upload(0, 0, [Payment('a', "c1")], ENV.(faults := 2)), Register(Request("A", true), POLICY, ENV),
     Register(Request("B", false), POLICY, ENV), Reverse(1, ENV)]
  }

  const BOTH_WAITING := EMPTY_DB.(orders := [OrderRow("A", true), OrderRow("B", false)], sms := [SmsRow('a', "c1")])

  lemma BothWaitingIsReached()
    ensures var ops := ReversedForAnother();
      Step(Step(Step(EMPTY_DB, ops[0]), ops[1]), ops[2]) == BOTH_WAITING
  {
    var row, a, b := SmsRow('a', "c1"), OrderRow("A", true), OrderRow("B", false);
    UploadOne(EMPTY_DB, 'a', "c1", ENV.(faults := 2));
    var db1 := EMPTY_DB.(sms := [row]);
    assert EMPTY_DB.sms + [row] == [row];
    OrderIsCreated(db1, Request("A", true), POLICY, ENV);
    var db2 := db1.(orders := [a]);
    assert db1.orders + [a] == [a];
    assert [a] + [b] == [a, b];
    assert RegisterOrder(db2, Request("B", false), SETTINGS, POLICY, 0).0 == db2.(orders := [a, b]);
  }

  lemma FirstOrderIsDecided()
    ensures DecideOn(BOTH_WAITING, 0, ENV).DVerified? && DecideOn(BOTH_WAITING, 0, ENV).orderId == 0
  {
    hide LoadHeuristicCandidates, LoadExactCandidates, TrxSpent, RunHeuristic, RunExact, ExactMatch;
    var db := BOTH_WAITING;
    assert SoleClaim(db, 0, 0, ENV);
    SoleClaimIff(db, 0, 0, ENV);
    InputIsTables(db, 0, ENV);
    ExactVerifiesIff(BuildInput(db, 0, ENV), ToOrderFacts(0, db.orders[0]));
  }

  lemma SecondOrderVisitsTheSms()
    ensures ReverseRows(BOTH_WAITING, 1, ENV) == Some([0])
  {
    hide RowsWhere;
    var db := BOTH_WAITING;
    var keep := ReverseHeuristicFor(db.orders[1], SETTINGS);
    RowsOnly(db.sms, keep, 0, true);
    assert keep(db.sms[0]);
  }

  lemma ReversedOps()
    ensures var ops := ReversedForAnother();
      |ops| == 4 && ops[3] == Reverse(1, ENV) && forall i :: 0 <= i < |ops| ==> ValidOp(ops[i])
  {
  }

  lemma ReverseStepIs(db: Db, order: nat, env: Env)
    ensures Step(db, Reverse(order, env)) == ReverseMatch(db, order, env).0
  {
  }

  lemma FirstOrderIsCredited()
    ensures var db := ReverseMatch(BOTH_WAITING, 1, ENV).0;
      |db.orders| == 2 && db.orders[0].status.Verified? && db.orders[1].status.Pending?
  {
    hide DecideOn, ReverseMatch, ReverseRows;
    FirstOrderIsDecided();
    SecondOrderVisitsTheSms();
    assert FirstVerified(BOTH_WAITING, [0], ENV) == Some(0);
    ReverseCreditsFirst(BOTH_WAITING, 1, ENV);
  }

  /** Reverse-matching an order without a TrxID may credit another one: its query shares SMS with orders it ignores. */
  lemma HeuristicReverseCreditsAnother()
    ensures var ops := ReversedForAnother();
      var db := Run(EMPTY_DB, ops);
      && (forall i :: 0 <= i < |ops| ==> ValidOp(ops[i]))
      && |db.orders| == 2 && db.orders[0].status.Verified? && db.orders[1].status.Pending?
  {
    hide ReverseMatch, Run, Step, ValidOp, ReversedForAnother;
    ReversedOps();
    BothWaitingIsReached();
    FirstOrderIsCredited();
    RunFour(EMPTY_DB, ReversedForAnother());
    ReverseStepIs(BOTH_WAITING, 1, ENV);
  }
}
