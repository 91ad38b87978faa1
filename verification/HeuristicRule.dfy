/**
 * The heuristic decision in terms of the columns it reads: hundredths of a score, counted from the amounts, times,
 * senders and providers themselves.
 */
module HeuristicRule {
  import opened Prelude
  import opened MatchTypes
  import opened Score
  import opened Heuristic

  // ---------------------------------------------------------------- points

  /** The part of a band that `x` uses up: nothing up to zero, all of it from the limit on. */
  function Share(x: int, limit: int): (r: real)
    ensures 0.0 <= r <= 1.0
  {
    if x <= 0 then 0.0
    else if x >= limit then 1.0
    else
      assert x as real / limit as real <= 1.0;
      x as real / limit as real
  }

  predicate NamesSender(o: OrderFacts, sms: SmsFacts) {
    o.sender.Some? && o.sender == sms.sender
  }

  /** A different candidate that fits the amount and does not name another sender. */
  predicate Competes(c: OrderFacts, o: OrderFacts, sms: SmsFacts, received: int) {
    && c.id != o.id && c.expected - c.tolerance <= received <= c.expected + c.tolerance
    && (c.sender.None? || c.sender == sms.sender)
  }

  /** Fifty, one hundred, two hundred, five hundred, one, one and a half, two, and five thousand taka. */
  predicate IsPopular(received: int) {
    received % 100 == 0 && received / 100 in {50, 100, 200, 500, 1000, 1500, 2000, 5000}
  }

  function AgeMs(o: OrderFacts, sms: SmsFacts): int {
    if sms.smsAt.Some? then sms.smsAt.value - o.createdAt else 0
  }

  function Gain(b: bool, points: int): int {
    if b then points else 0
  }

  /** Hundredths of the score before it is cut off at zero. */
  function PointsBeforeCut(o: OrderFacts, sms: SmsFacts, cands: seq<OrderFacts>, windowMinutes: nat): real {
    var received := Received(sms.amount);
    45.0 * (1.0 - Share(Abs(received - o.expected), o.tolerance))
    + 15.0 * (1.0 - Share(AgeMs(o, sms), windowMinutes * 60_000))
    + (Gain(NamesSender(o, sms), 30)
       + (if o.provider.None? then 5 else Gain(o.provider == Some(sms.provider), 10))
       - Gain(exists i :: 0 <= i < |cands| && Competes(cands[i], o, sms, received), 30)
       - Gain(IsPopular(received) && |cands| >= 2, 10)) as real
  }

  function Points(o: OrderFacts, sms: SmsFacts, cands: seq<OrderFacts>, windowMinutes: nat): real {
    var p := PointsBeforeCut(o, sms, cands, windowMinutes);
    if p < 0.0 then 0.0 else p
  }

  function PointsIn(o: OrderFacts, input: MatchInput): real {
    Points(o, input.sms, input.heuristicCandidates, input.settings.heuristicWindowMinutes)
  }

  // ---------------------------------------------------------------- the score is these points

  lemma AmountIsShare(o: OrderFacts, received: int)
    ensures AmountSignal(o, received) == 1.0 - Share(Abs(received - o.expected), o.tolerance)
  {
    var d := Abs(received - o.expected);
    if d > 0 && o.tolerance > 0 {
      RatioAgainstOne(d, o.tolerance);
    }
  }

  lemma TimeIsShare(o: OrderFacts, sms: SmsFacts, windowMinutes: nat)
    ensures TimeSignal(o, sms, windowMinutes) == 1.0 - Share(AgeMs(o, sms), windowMinutes * 60_000)
  {
    var age := AgeMs(o, sms);
    if windowMinutes > 0 {
      RatioAgainstOne(MaxInt(0, age), windowMinutes * MINUTE_MS);
    }
  }

  lemma RatioAgainstOne(x: int, limit: int)
    requires x >= 0 && limit > 0
    ensures x as real / limit as real >= 0.0
    ensures x as real / limit as real >= 1.0 <==> x >= limit
  {
    var r := x as real / limit as real;
    assert r * limit as real == x as real;
  }

  lemma PopularIsRound(received: int)
    ensures received in ROUND_AMOUNTS_PAISA <==> IsPopular(received)
  {
  }

  lemma RivalCompetes(o: OrderFacts, sms: SmsFacts, cands: seq<OrderFacts>)
    ensures HasRival(o, sms, cands)
      <==> exists i :: 0 <= i < |cands| && Competes(cands[i], o, sms, Received(sms.amount))
  {
    forall c: OrderFacts ensures IsRival(c, o, sms) <==> Competes(c, o, sms, Received(sms.amount)) {
    }
  }

  lemma UncutIsPoints(o: OrderFacts, sms: SmsFacts, cands: seq<OrderFacts>, settings: Settings)
    ensures 100.0 * Weighted(SignalsOf(o, sms, cands, settings))
      == PointsBeforeCut(o, sms, cands, settings.heuristicWindowMinutes)
  {
    hide AmountSignal, TimeSignal, Share, HasRival, Competes, IsPopular;
    var received := Received(sms.amount);
    AmountIsShare(o, received);
    TimeIsShare(o, sms, settings.heuristicWindowMinutes);
    RivalCompetes(o, sms, cands);
    PopularIsRound(received);
  }

  /** A score is the points over a hundred: the signals, their weights and the cut-off, in columns. */
  lemma ScoreIsPoints(o: OrderFacts, sms: SmsFacts, cands: seq<OrderFacts>, settings: Settings)
    ensures 100.0 * ScoreOf(o, sms, cands, settings) == Points(o, sms, cands, settings.heuristicWindowMinutes)
  {
    hide Weighted, SignalsOf, PointsBeforeCut;
    UncutIsPoints(o, sms, cands, settings);
    AtMostHundred(o, sms, cands, settings.heuristicWindowMinutes);
  }

  lemma AtMostHundred(o: OrderFacts, sms: SmsFacts, cands: seq<OrderFacts>, windowMinutes: nat)
    ensures PointsBeforeCut(o, sms, cands, windowMinutes) <= 100.0
  {
    hide Share;
  }

  /**
   * What each column is worth. Between any two situations the uncut score moves by 0.45 for the whole tolerance, 0.15
   * for the whole window, 0.30 for the sender, 0.10 for the provider (0.05 when the order names none), and loses 0.30
   * to a competitor and 0.10 to a popular amount among several candidates; and a lone order that names this sender
   * and provider and is paid exactly and at once has score one.
   */
  lemma ScoreMovesBy(
      o: OrderFacts, x: SmsFacts, few: seq<OrderFacts>, p: OrderFacts, y: SmsFacts, more: seq<OrderFacts>, s: Settings)
    requires o.tolerance > 0 && p.tolerance > 0 && s.heuristicWindowMinutes > 0
    requires Abs(Received(x.amount) - o.expected) <= o.tolerance && Abs(Received(y.amount) - p.expected) <= p.tolerance
    requires 0 <= AgeMs(o, x) <= s.heuristicWindowMinutes * 60_000
    requires 0 <= AgeMs(p, y) <= s.heuristicWindowMinutes * 60_000
    ensures var w := (s.heuristicWindowMinutes * 60_000) as real;
      var d, e := Abs(Received(x.amount) - o.expected) as real, Abs(Received(y.amount) - p.expected) as real;
      Weighted(SignalsOf(p, y, more, s)) - Weighted(SignalsOf(o, x, few, s))
        == 0.45 * (d / o.tolerance as real - e / p.tolerance as real)
           + 0.15 * (AgeMs(o, x) as real / w - AgeMs(p, y) as real / w)
           + 0.30 * (Gain(NamesSender(p, y), 1) - Gain(NamesSender(o, x), 1)) as real
           + 0.05 * (ProviderHalves(p, y) - ProviderHalves(o, x)) as real
           - 0.30 * (Gain(HasCompetitor(p, y, more), 1) - Gain(HasCompetitor(o, x, few), 1)) as real
           - 0.10 * (Gain(IsPopular(Received(y.amount)) && |more| >= 2, 1)
                     - Gain(IsPopular(Received(x.amount)) && |few| >= 2, 1)) as real
    ensures few == [o] && NamesSender(o, x) && o.provider == Some(x.provider)
        && Received(x.amount) == o.expected && x.smsAt == Some(o.createdAt)
      ==> Weighted(SignalsOf(o, x, few, s)) == 1.0
  {
    hide Weighted, SignalsOf, HasCompetitor, IsPopular, NamesSender, ProviderHalves;
    UncutIs(o, x, few, s);
    UncutIs(p, y, more, s);
    if few == [o] {
      NoneBesides(o, x);
      assert NamesSender(o, x) && o.provider == Some(x.provider) ==> ProviderHalves(o, x) == 2 by {
        ExactProvider(o, x);
      }
    }
  }

  lemma ExactProvider(o: OrderFacts, sms: SmsFacts)
    ensures o.provider == Some(sms.provider) ==> ProviderHalves(o, sms) == 2
  {
  }

  /** The uncut score in its columns, inside tolerance and window. */
  lemma UncutIs(o: OrderFacts, x: SmsFacts, cands: seq<OrderFacts>, s: Settings)
    requires o.tolerance > 0 && s.heuristicWindowMinutes > 0
    requires Abs(Received(x.amount) - o.expected) <= o.tolerance
    requires 0 <= AgeMs(o, x) <= s.heuristicWindowMinutes * 60_000
    ensures Weighted(SignalsOf(o, x, cands, s))
      == 0.60 - 0.45 * (Abs(Received(x.amount) - o.expected) as real / o.tolerance as real)
         - 0.15 * (AgeMs(o, x) as real / (s.heuristicWindowMinutes * 60_000) as real)
         + 0.30 * Gain(NamesSender(o, x), 1) as real + 0.05 * ProviderHalves(o, x) as real
         - 0.30 * Gain(HasCompetitor(o, x, cands), 1) as real
         - 0.10 * Gain(IsPopular(Received(x.amount)) && |cands| >= 2, 1) as real
  {
    hide Weighted, SignalsOf, Share, Competes, IsPopular;
    UncutIsPoints(o, x, cands, s);
    ShareInside(Abs(Received(x.amount) - o.expected), o.tolerance);
    ShareInside(AgeMs(o, x), s.heuristicWindowMinutes * 60_000);
  }

  predicate HasCompetitor(o: OrderFacts, sms: SmsFacts, cands: seq<OrderFacts>) {
    exists i :: 0 <= i < |cands| && Competes(cands[i], o, sms, Received(sms.amount))
  }

  function ProviderHalves(o: OrderFacts, sms: SmsFacts): int {
    if o.provider.None? then 1 else Gain(o.provider == Some(sms.provider), 2)
  }

  lemma ShareInside(x: int, limit: int)
    requires 0 <= x <= limit && limit > 0
    ensures Share(x, limit) == x as real / limit as real
  {
  }

  lemma NoneBesides(o: OrderFacts, sms: SmsFacts)
    ensures !HasCompetitor(o, sms, [o])
  {
  }

  // ---------------------------------------------------------------- the decision

  /** Candidate `o` has the points the threshold asks for and is twenty-five ahead of every other one. */
  ghost predicate Leads(o: OrderFacts, input: MatchInput) {
    && o in input.heuristicCandidates
    && PointsIn(o, input) >= 100.0 * input.settings.autoVerifyMinConfidence
    && forall c :: c in input.heuristicCandidates && c.id != o.id ==> PointsIn(o, input) - PointsIn(c, input) >= 25.0
  }

  lemma LeadsIffWins(o: OrderFacts, input: MatchInput)
    ensures Leads(o, input) <==> Wins(o, input)
  {
    hide Points, ScoreOf;
    var cs := input.heuristicCandidates;
    ScoreIsPoints(o, input.sms, cs, input.settings);
    forall c | c in cs ensures 100.0 * ScoreOf(c, input.sms, cs, input.settings) == PointsIn(c, input) {
      ScoreIsPoints(c, input.sms, cs, input.settings);
    }
  }

  /** The stored confidence: the points rounded to the nearest hundredth of the score, halves up. */
  ghost predicate IsConfidence(confidence: real, points: real) {
    var n := 100.0 * confidence;
    n == n.Floor as real && n - 0.5 <= points < n + 0.5
  }

  lemma RoundIsConfidence(score: real)
    ensures IsConfidence(Round2(score), 100.0 * score)
  {
    var n := (score * 100.0 + 0.5).Floor;
    assert 100.0 * Round2(score) == n as real;
  }

  /** What a heuristic verification of `o` stores. */
  ghost predicate VerifiesAs(d: Decision, o: OrderFacts, input: MatchInput) {
    && d.DVerified? && d.pass.HeuristicPass? && d.orderId == o.id && !d.wasLate
    && d.delta == Received(input.sms.amount) - o.expected
    && d.flags == (if input.sms.trxId.Some? then {HeuristicDespiteTrxId} else {})
    && IsConfidence(d.confidence, PointsIn(o, input))
  }

  /** Sorting, the cap of fifty and the comparison of the best two verify exactly the candidate that leads. */
  lemma VerifiesLeader(input: MatchInput, o: OrderFacts)
    requires DistinctIds(input.heuristicCandidates) && o in input.heuristicCandidates
    ensures var d := RunHeuristic(input);
      && (d.DVerified? && d.orderId == o.id <==>
            input.settings.heuristicEnabled && |input.heuristicCandidates| < 50 && Leads(o, input))
      && (d.DVerified? && d.orderId == o.id ==> VerifiesAs(d, o, input))
  {
    hide RunHeuristic, Wins, Leads, PointsIn, ScoreOf;
    LeadsIffWins(o, input);
    if RunHeuristic(input).DVerified? {
      var w := VerifiedIsWinner(input);
      WinnerIsCandidate(w, input);
      if w.id == o.id {
        IdsIdentify(input.heuristicCandidates, w, o);
        VerifyStores(o, input);
      }
    }
    if RuleApplies(input) && Wins(o, input) {
      WinnerIsVerified(input, o);
      VerifyStores(o, input);
    }
  }

  lemma VerifyStores(o: OrderFacts, input: MatchInput)
    ensures VerifiesAs(VerifyOf(o, input), o, input)
  {
    hide Points, ScoreOf, Round2;
    ScoreIsPoints(o, input.sms, input.heuristicCandidates, input.settings);
    RoundIsConfidence(ScoreOf(o, input.sms, input.heuristicCandidates, input.settings));
  }

  /** A line of the review: what the candidate expected, what arrived, and its points over a hundred, rounded. */
  ghost predicate IsLineOf(line: ReviewCandidate, c: OrderFacts, input: MatchInput) {
    && line.orderId == c.id && line.expected == c.expected && line.received == Received(input.sms.amount)
    && line.delta == Received(input.sms.amount) - c.expected
    && line.score.Some? && IsConfidence(line.score.value, PointsIn(c, input))
  }

  ghost predicate IsLine(line: ReviewCandidate, input: MatchInput) {
    exists c :: c in input.heuristicCandidates && IsLineOf(line, c, input)
  }

  /** The review lists every candidate once, those with more points first. */
  ghost predicate ListsAll(lines: seq<ReviewCandidate>, input: MatchInput) {
    && |lines| == |input.heuristicCandidates|
    && (forall k :: 0 <= k < |lines| ==> IsLine(lines[k], input))
    && (forall j, k :: 0 <= j < k < |lines| ==> ComesBefore(lines[j], lines[k], input))
  }

  /** Two lines of different candidates, the first with at least as many points. */
  ghost predicate ComesBefore(x: ReviewCandidate, y: ReviewCandidate, input: MatchInput) {
    x.orderId != y.orderId
    && forall c, d ::
        (c in input.heuristicCandidates && c.id == x.orderId && d in input.heuristicCandidates && d.id == y.orderId) ==>
          PointsIn(c, input) >= PointsIn(d, input)
  }

  /** Everything the heuristic can answer: nothing to look at, a leader, or a review that lists all candidates. */
  lemma HeuristicAnswers(input: MatchInput)
    requires DistinctIds(input.heuristicCandidates)
    ensures var d := RunHeuristic(input);
      && (d.DUnmatched? <==> !input.settings.heuristicEnabled || input.heuristicCandidates == [])
      && (d.DVerified? <==>
            && input.settings.heuristicEnabled && |input.heuristicCandidates| < 50
            && exists o :: Leads(o, input))
      && (d.DReview? ==> d.reason.AmbiguousCandidates? && ListsAll(d.candidates, input))
      && (d.DUnmatched? || d.DVerified? || d.DReview?)
  {
    hide Wins, Leads, Ranked, ListsAll;
    VerifiesIffWins(input);
    if o :| Wins(o, input) {
      LeadsIffWins(o, input);
    }
    if o :| Leads(o, input) {
      LeadsIffWins(o, input);
      assert o in input.heuristicCandidates by { LeaderIsCandidate(o, input); }
    }
    ReviewListsAll(input);
  }

  lemma WinnerIsCandidate(o: OrderFacts, input: MatchInput)
    requires Wins(o, input)
    ensures o in input.heuristicCandidates
  {
  }

  lemma LeaderIsCandidate(o: OrderFacts, input: MatchInput)
    requires Leads(o, input)
    ensures o in input.heuristicCandidates
  {
  }

  lemma ReviewListsAll(input: MatchInput)
    requires DistinctIds(input.heuristicCandidates)
    ensures ListsAll(MapSeq(ToReviewIn(input.sms), Ranked(input)), input)
  {
    hide Ranked, ComesBefore, IsLine;
    var scored := Ranked(input);
    var lines := MapSeq(ToReviewIn(input.sms), scored);
    forall k | 0 <= k < |lines| ensures IsLine(lines[k], input) {
      RankedLine(input, k);
    }
    forall j, k | 0 <= j < k < |lines| ensures ComesBefore(lines[j], lines[k], input) {
      RankedBefore(input, j, k);
    }
  }

  lemma RankedLine(input: MatchInput, k: nat)
    requires DistinctIds(input.heuristicCandidates) && k < |Ranked(input)|
    ensures var c := Ranked(input)[k].order;
      && c in input.heuristicCandidates && IsLineOf(ToReviewCandidate(Ranked(input)[k], input.sms), c, input)
      && 100.0 * ScoreKey(Ranked(input)[k]) == PointsIn(c, input)
    ensures IsLine(ToReviewCandidate(Ranked(input)[k], input.sms), input)
  {
    hide Points, ScoreOf, Ranked, Round2;
    var r := Ranked(input)[k];
    RankedIsCandidates(input);
    ScoreIsPoints(r.order, input.sms, input.heuristicCandidates, input.settings);
    ScoredIs(r.order, input.sms, input.heuristicCandidates, input.settings);
    RoundIsConfidence(r.score);
    assert IsLineOf(ToReviewCandidate(r, input.sms), r.order, input);
  }

  lemma RankedBefore(input: MatchInput, j: nat, k: nat)
    requires DistinctIds(input.heuristicCandidates) && j < k < |Ranked(input)|
    ensures ComesBefore(
      ToReviewCandidate(Ranked(input)[j], input.sms), ToReviewCandidate(Ranked(input)[k], input.sms), input)
  {
    hide PointsIn, Ranked, Round2, IsLine, IsLineOf;
    var cs, r, q := input.heuristicCandidates, Ranked(input)[j], Ranked(input)[k];
    RankedIsCandidates(input);
    RankedLine(input, j);
    RankedLine(input, k);
    assert ScoreKey(r) >= ScoreKey(q);
    forall c, d | c in cs && c.id == r.order.id && d in cs && d.id == q.order.id
      ensures PointsIn(c, input) >= PointsIn(d, input)
    {
      IdsIdentify(cs, r.order, c);
      IdsIdentify(cs, q.order, d);
    }
  }

  lemma ScoredIs(o: OrderFacts, sms: SmsFacts, cands: seq<OrderFacts>, settings: Settings)
    ensures var r := ScoreCandidate(o, sms, cands, settings);
      r.order == o && r.score == ScoreOf(o, sms, cands, settings)
  {
  }

  // ---------------------------------------------------------------- a lone candidate, in integers

  /** A lone candidate is verified exactly when its points reach the threshold. */
  lemma LoneVerifiesIff(input: MatchInput, o: OrderFacts)
    requires input.heuristicCandidates == [o] && input.settings.heuristicEnabled
    requires 0 < o.tolerance && Abs(Received(input.sms.amount) - o.expected) <= o.tolerance
    requires 0 < input.settings.heuristicWindowMinutes
    requires 0 <= AgeMs(o, input.sms) <= input.settings.heuristicWindowMinutes * 60_000
    ensures var d, t := Abs(Received(input.sms.amount) - o.expected) as real, o.tolerance as real;
      var a, w := AgeMs(o, input.sms) as real, (input.settings.heuristicWindowMinutes * 60_000) as real;
      var fixed := 60 + Gain(NamesSender(o, input.sms), 30) + 5 * ProviderHalves(o, input.sms);
      var slack := fixed as real - 100.0 * input.settings.autoVerifyMinConfidence;
      RunHeuristic(input).DVerified? <==> 45.0 * d * w + 15.0 * a * t <= slack * t * w
  {
    hide RunHeuristic, Share, Competes, IsPopular;
    var received := Received(input.sms.amount);
    var d, t := Abs(received - o.expected), o.tolerance as int;
    var a, w := AgeMs(o, input.sms), input.settings.heuristicWindowMinutes * 60_000;
    var fixed := 60 + Gain(NamesSender(o, input.sms), 30) + 5 * ProviderHalves(o, input.sms);
    ShareInside(d, t);
    ShareInside(a, w);
    NoneBesides(o, input.sms);
    var p := PointsBeforeCut(o, input.sms, [o], input.settings.heuristicWindowMinutes);
    assert p == fixed as real - 45.0 * (d as real / t as real) - 15.0 * (a as real / w as real);
    var slack := fixed as real - 100.0 * input.settings.autoVerifyMinConfidence;
    Multiplied(d as real, t as real, a as real, w as real, slack);
    assert PointsIn(o, input) == p;
    LoneLeads(input, o);
  }

  lemma LoneLeads(input: MatchInput, o: OrderFacts)
    requires input.heuristicCandidates == [o] && input.settings.heuristicEnabled
    ensures RunHeuristic(input).DVerified? <==> PointsIn(o, input) >= 100.0 * input.settings.autoVerifyMinConfidence
  {
    hide RunHeuristic, Points;
    HeuristicAnswers(input);
    assert PointsIn(o, input) >= 100.0 * input.settings.autoVerifyMinConfidence ==> Leads(o, input);
  }

  lemma Multiplied(d: real, t: real, a: real, w: real, slack: real)
    requires t > 0.0 && w > 0.0
    ensures 45.0 * (d / t) + 15.0 * (a / w) <= slack <==> 45.0 * d * w + 15.0 * a * t <= slack * t * w
  {
    var x, y := d / t, a / w;
    assert x * t == d && y * w == a;
    var tw := t * w;
    assert 45.0 * d * w + 15.0 * a * t == (45.0 * x + 15.0 * y) * tw;
    assert slack * t * w == slack * tw;
    assert tw > 0.0;
    var left := 45.0 * x + 15.0 * y;
    if left <= slack {
      assert left * tw <= slack * tw;
    } else {
      assert left * tw > slack * tw;
    }
  }

  /**
   * The default threshold of 0.90, in integers: an order that names exactly this sender and provider and is the only
   * candidate, off by `d` of its tolerance `t` and paid `a` after it was created in a window `w`.
   */
  lemma NamedOrderVerifiesIff(input: MatchInput, o: OrderFacts, d: int, t: int, a: int, w: int)
    requires input.heuristicCandidates == [o] && input.settings.heuristicEnabled
    requires input.settings.autoVerifyMinConfidence == 0.90
    requires NamesSender(o, input.sms) && o.provider == Some(input.sms.provider)
    requires t == o.tolerance && 0 < t && d == Abs(Received(input.sms.amount) - o.expected) <= t
    requires w == input.settings.heuristicWindowMinutes * 60_000 && 0 < w && 0 <= a == AgeMs(o, input.sms) <= w
    ensures RunHeuristic(input).DVerified? <==> 9 * d * w + 3 * a * t <= 2 * t * w
  {
    hide RunHeuristic;
    LoneVerifiesIff(input, o);
    InIntegers(d, t, a, w);
  }

  lemma CastProduct(x: int, y: int)
    ensures (x * y) as real == x as real * y as real
  {
  }

  lemma InIntegers(d: int, t: int, a: int, w: int)
    ensures 45.0 * d as real * w as real + 15.0 * a as real * t as real <= 10.0 * t as real * w as real
      <==> 9 * d * w + 3 * a * t <= 2 * t * w
  {
    CastProduct(d, w);
    CastProduct(a, t);
    CastProduct(t, w);
    Scaled(45.0, d as real, w as real);
    Scaled(15.0, a as real, t as real);
    Scaled(10.0, t as real, w as real);
    ScaledInt(9, d, w);
    ScaledInt(3, a, t);
    ScaledInt(2, t, w);
  }

  lemma Scaled(k: real, x: real, y: real)
    ensures k * x * y == k * (x * y)
  {
  }

  lemma ScaledInt(k: int, x: int, y: int)
    ensures k * x * y == k * (x * y)
  {
  }
}
