/** The heuristic confidence score (heuristic/score.ts), over exact rationals. */
module Score {
  import opened Prelude
  import opened MatchTypes

  const MINUTE_MS := 60 * 1000
  const ROUND_AMOUNTS_PAISA: set<int> := {5000, 10000, 20000, 50000, 100000, 150000, 200000, 500000}

  datatype Signals = Signals(
    amount: real, sender: real, time: real, provider: real, collision: real, roundAmount: real)

  datatype Scored = Scored(order: OrderFacts, score: real, signals: Signals)

  function Clamp01(n: real): (r: real)
    ensures 0.0 <= r <= 1.0
    ensures 0.0 <= n <= 1.0 ==> r == n
  {
    if n < 0.0 then 0.0 else if n > 1.0 then 1.0 else n
  }

  /** 1 for an exact amount, falling linearly to 0 at the edge of the tolerance band. */
  function AmountSignal(order: OrderFacts, received: int): (r: real)
    ensures 0.0 <= r <= 1.0
  {
    var diff := Abs(received - order.expected);
    if diff == 0 then 1.0
    else if order.tolerance == 0 then 0.0
    else Clamp01(1.0 - diff as real / order.tolerance as real)
  }

  function SenderSignal(order: OrderFacts, sms: SmsFacts): (r: real)
    ensures r == 0.0 || r == 1.0
  {
    if order.sender.Some? && order.sender == sms.sender then 1.0 else 0.0
  }

  function TimeSignal(order: OrderFacts, sms: SmsFacts, windowMinutes: nat): (r: real)
    ensures 0.0 <= r <= 1.0
  {
    var windowMs := windowMinutes * MINUTE_MS;
    var at := if sms.smsAt.Some? then sms.smsAt.value else order.createdAt;
    var age := at - order.createdAt;
    if windowMs == 0 then (if age <= 0 then 1.0 else 0.0)
    else Clamp01(1.0 - MaxInt(0, age) as real / windowMs as real)
  }

  function ProviderSignal(order: OrderFacts, sms: SmsFacts): (r: real)
    ensures 0.0 <= r <= 1.0
  {
    match order.provider
    case None => 0.5
    case Some(p) => if p == sms.provider then 1.0 else 0.0
  }

  predicate WithinTolerance(order: OrderFacts, received: int) {
    Abs(received - order.expected) <= order.tolerance
  }

  /** The order names no sender, or names exactly the one that sent the SMS. */
  predicate SenderCompatible(order: OrderFacts, sms: SmsFacts) {
    order.sender.None? || order.sender == sms.sender
  }

  /** `c` competes with `order` for this SMS: a different order that fits the amount and the sender. */
  predicate IsRival(c: OrderFacts, order: OrderFacts, sms: SmsFacts) {
    c.id != order.id && WithinTolerance(c, Received(sms.amount)) && SenderCompatible(c, sms)
  }

  predicate HasRival(order: OrderFacts, sms: SmsFacts, all: seq<OrderFacts>) {
    exists i :: 0 <= i < |all| && IsRival(all[i], order, sms)
  }

  function SignalsOf(order: OrderFacts, sms: SmsFacts, all: seq<OrderFacts>, settings: Settings): Signals {
    var received := Received(sms.amount);
    Signals(
      AmountSignal(order, received),
      SenderSignal(order, sms),
      TimeSignal(order, sms, settings.heuristicWindowMinutes),
      ProviderSignal(order, sms),
      if HasRival(order, sms, all) then 1.0 else 0.0,
      if received in ROUND_AMOUNTS_PAISA && |all| > 1 then 1.0 else 0.0)
  }

  function Weighted(s: Signals): real {
    0.45 * s.amount + 0.3 * s.sender + 0.15 * s.time + 0.1 * s.provider
    - 0.3 * s.collision - 0.1 * s.roundAmount
  }

  function ScoreCandidate(order: OrderFacts, sms: SmsFacts, all: seq<OrderFacts>, settings: Settings): Scored {
    var signals := SignalsOf(order, sms, all, settings);
    Scored(order, Clamp01(Weighted(signals)), signals)
  }

  function ScoreOf(order: OrderFacts, sms: SmsFacts, all: seq<OrderFacts>, settings: Settings): (r: real)
    ensures 0.0 <= r <= 1.0
  {
    ScoreCandidate(order, sms, all, settings).score
  }

  // ---------------------------------------------------------------- what the weights imply

  /** Without a matching sender the other signals together carry at most 0.70. */
  lemma NoSenderCapsScore(order: OrderFacts, sms: SmsFacts, all: seq<OrderFacts>, settings: Settings)
    ensures SenderSignal(order, sms) == 0.0 ==> ScoreOf(order, sms, all, settings) <= 0.70
    ensures HasRival(order, sms, all) ==> ScoreOf(order, sms, all, settings) <= 0.70
    ensures SenderSignal(order, sms) == 0.0 && HasRival(order, sms, all)
      ==> ScoreOf(order, sms, all, settings) <= 0.40
  {
  }

  /** The only ways other candidates touch a score: whether a rival exists, and whether there is more than one. */
  lemma ScoreDependsOn(
      order: OrderFacts, sms: SmsFacts, a: seq<OrderFacts>, b: seq<OrderFacts>, settings: Settings)
    requires HasRival(order, sms, a) == HasRival(order, sms, b)
    requires (|a| > 1) == (|b| > 1)
    ensures ScoreCandidate(order, sms, a, settings) == ScoreCandidate(order, sms, b, settings)
  {
  }

  /** Adding candidates to a set of at least two never raises a score and costs at most the collision penalty. */
  lemma MoreCandidatesCost(
      order: OrderFacts, sms: SmsFacts, few: seq<OrderFacts>, many: seq<OrderFacts>, settings: Settings)
    requires forall c :: c in few ==> c in many
    requires |few| > 1 && |many| > 1
    ensures ScoreOf(order, sms, many, settings) <= ScoreOf(order, sms, few, settings)
    ensures ScoreOf(order, sms, few, settings) - 0.30 <= ScoreOf(order, sms, many, settings)
  {
    if HasRival(order, sms, few) {
      var i :| 0 <= i < |few| && IsRival(few[i], order, sms);
      assert few[i] in many;
      var j :| 0 <= j < |many| && many[j] == few[i];
      assert IsRival(many[j], order, sms);
    }
    var s := SignalsOf(order, sms, few, settings);
    var t := SignalsOf(order, sms, many, settings);
    assert t == s.(collision := t.collision);
  }
}
