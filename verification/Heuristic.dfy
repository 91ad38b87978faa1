/** The heuristic pass (heuristic/heuristic.strategy.ts): sort, cap, threshold and the 0.25-gap rule. */
module Heuristic {
  import opened Prelude
  import opened MatchTypes
  import opened Score

  const HEURISTIC_CANDIDATE_CAP := 50
  const MIN_GAP := 0.25

  function Round2(n: real): real {
    (n * 100.0 + 0.5).Floor as real / 100.0
  }

  function ScoreIn(sms: SmsFacts, all: seq<OrderFacts>, settings: Settings): OrderFacts -> Scored {
    (c: OrderFacts) => ScoreCandidate(c, sms, all, settings)
  }

  function ToReviewCandidate(s: Scored, sms: SmsFacts): ReviewCandidate {
    var received := Received(sms.amount);
    ReviewCandidate(s.order.id, s.order.expected, received, received - s.order.expected, Some(Round2(s.score)))
  }

  function ToReviewIn(sms: SmsFacts): Scored -> ReviewCandidate {
    (s: Scored) => ToReviewCandidate(s, sms)
  }

  function ScoreKey(s: Scored): real { s.score }

  /** The candidates with their scores, best first. */
  function Ranked(input: MatchInput): (r: seq<Scored>)
    ensures |r| == |input.heuristicCandidates|
  {
    SortDesc(MapSeq(ScoreIn(input.sms, input.heuristicCandidates, input.settings), input.heuristicCandidates), ScoreKey)
  }

  function RunHeuristic(input: MatchInput): Decision {
    var sms, settings, cands := input.sms, input.settings, input.heuristicCandidates;
    if !settings.heuristicEnabled || cands == [] then DUnmatched
    else
      var scored := Ranked(input);
      var review := DReview(AmbiguousCandidates, MapSeq(ToReviewIn(sms), scored));
      if |cands| >= HEURISTIC_CANDIDATE_CAP then review
      else
        var top := scored[0];
        var flags := if sms.trxId.Some? then {HeuristicDespiteTrxId} else {};
        var verify := DVerified(
          HeuristicPass, top.order.id, Round2(top.score), Received(sms.amount) - top.order.expected, false, flags);
        if |scored| == 1 then
          (if top.score >= settings.autoVerifyMinConfidence then verify else review)
        else
          var gap := top.score - scored[1].score;
          if top.score >= settings.autoVerifyMinConfidence && gap >= MIN_GAP then verify else review
  }

  // ---------------------------------------------------------------- the rule without the sort

  /** Order `o` clears the threshold and leads every other candidate by the gap. */
  ghost predicate Wins(o: OrderFacts, input: MatchInput) {
    var sms, settings, cands := input.sms, input.settings, input.heuristicCandidates;
    && o in cands
    && ScoreOf(o, sms, cands, settings) >= settings.autoVerifyMinConfidence
    && forall c :: c in cands && c.id != o.id ==>
        ScoreOf(o, sms, cands, settings) - ScoreOf(c, sms, cands, settings) >= MIN_GAP
  }

  /** What a verification of `o` looks like. */
  function VerifyOf(o: OrderFacts, input: MatchInput): Decision {
    DVerified(
      HeuristicPass, o.id,
      Round2(ScoreOf(o, input.sms, input.heuristicCandidates, input.settings)),
      Received(input.sms.amount) - o.expected, false,
      if input.sms.trxId.Some? then {HeuristicDespiteTrxId} else {})
  }

  ghost predicate RuleApplies(input: MatchInput) {
    input.settings.heuristicEnabled && 0 < |input.heuristicCandidates| < HEURISTIC_CANDIDATE_CAP
  }

  lemma IdsIdentify(cs: seq<OrderFacts>, a: OrderFacts, b: OrderFacts)
    requires DistinctIds(cs) && a in cs && b in cs && a.id == b.id
    ensures a == b
  {
  }

  /** The ranked list holds exactly the scored candidates, each once. */
  lemma RankedIsCandidates(input: MatchInput)
    requires DistinctIds(input.heuristicCandidates)
    ensures var scored := Ranked(input);
      && SortedDesc(scored, ScoreKey)
      && (forall i :: 0 <= i < |scored| ==>
            scored[i].order in input.heuristicCandidates
            && scored[i] == ScoreCandidate(scored[i].order, input.sms, input.heuristicCandidates, input.settings))
      && (forall i, j :: 0 <= i < j < |scored| ==> scored[i].order.id != scored[j].order.id)
  {
    var cs := input.heuristicCandidates;
    var raw := MapSeq(ScoreIn(input.sms, cs, input.settings), cs);
    var scored := Ranked(input);
    SameElements(raw, scored);
    assert Distinct(raw) by {
      forall i, j | 0 <= i < j < |raw| ensures raw[i] != raw[j] {
        assert raw[i].order == cs[i] && raw[j].order == cs[j];
      }
    }
    DistinctPermutation(raw, scored);
    forall i | 0 <= i < |scored|
      ensures scored[i].order in cs && scored[i] == ScoreCandidate(scored[i].order, input.sms, cs, input.settings)
    {
      assert scored[i] in raw;
      var k :| 0 <= k < |raw| && raw[k] == scored[i];
      assert scored[i].order == cs[k];
    }
    forall i, j | 0 <= i < j < |scored| ensures scored[i].order.id != scored[j].order.id {
      if scored[i].order.id == scored[j].order.id {
        IdsIdentify(cs, scored[i].order, scored[j].order);
        assert false;
      }
    }
  }

  lemma CandidateIsRanked(input: MatchInput, c: OrderFacts) returns (i: nat)
    requires c in input.heuristicCandidates
    ensures i < |Ranked(input)|
    ensures Ranked(input)[i] == ScoreCandidate(c, input.sms, input.heuristicCandidates, input.settings)
  {
    var cs := input.heuristicCandidates;
    var raw := MapSeq(ScoreIn(input.sms, cs, input.settings), cs);
    SameElements(raw, Ranked(input));
    var k :| 0 <= k < |cs| && cs[k] == c;
    assert raw[k] in Ranked(input);
    i :| 0 <= i < |Ranked(input)| && Ranked(input)[i] == raw[k];
  }

  /** A winner is always the first of the ranked list. */
  lemma WinnerIsTop(input: MatchInput, o: OrderFacts)
    requires DistinctIds(input.heuristicCandidates) && Wins(o, input)
    ensures |Ranked(input)| > 0
    ensures Ranked(input)[0] == ScoreCandidate(o, input.sms, input.heuristicCandidates, input.settings)
    ensures |Ranked(input)| > 1 ==> Ranked(input)[0].score - Ranked(input)[1].score >= MIN_GAP
  {
    RankedIsCandidates(input);
    var scored := Ranked(input);
    var k := CandidateIsRanked(input, o);
    var first := scored[0].order;
    assert k > 0 ==> ScoreKey(scored[0]) >= ScoreKey(scored[k]) && first.id != o.id;
    assert first in input.heuristicCandidates;
  }

  /** The first of the ranked list wins when it clears the threshold and leads the second by the gap. */
  lemma LeaderWins(input: MatchInput)
    requires DistinctIds(input.heuristicCandidates) && |Ranked(input)| > 0
    requires Ranked(input)[0].score >= input.settings.autoVerifyMinConfidence
    requires |Ranked(input)| > 1 ==> Ranked(input)[0].score - Ranked(input)[1].score >= MIN_GAP
    ensures var o := Ranked(input)[0].order;
      Wins(o, input) && Ranked(input)[0] == ScoreCandidate(o, input.sms, input.heuristicCandidates, input.settings)
  {
    RankedIsCandidates(input);
    var scored := Ranked(input);
    var o := scored[0].order;
    forall c | c in input.heuristicCandidates && c.id != o.id
      ensures ScoreOf(o, input.sms, input.heuristicCandidates, input.settings)
        - ScoreOf(c, input.sms, input.heuristicCandidates, input.settings) >= MIN_GAP
    {
      var k := CandidateIsRanked(input, c);
      assert k >= 1;
      assert k > 1 ==> ScoreKey(scored[1]) >= ScoreKey(scored[k]);
    }
  }

  /** A candidate that wins is what the ranked top-two test verifies. */
  lemma WinnerIsVerified(input: MatchInput, o: OrderFacts)
    requires DistinctIds(input.heuristicCandidates) && RuleApplies(input) && Wins(o, input)
    ensures RunHeuristic(input) == VerifyOf(o, input)
  {
    WinnerIsTop(input, o);
  }

  /** What the ranked top-two test verifies is a candidate that wins. */
  lemma VerifiedIsWinner(input: MatchInput) returns (o: OrderFacts)
    requires DistinctIds(input.heuristicCandidates)
    requires RunHeuristic(input).DVerified?
    ensures RuleApplies(input) && Wins(o, input) && RunHeuristic(input) == VerifyOf(o, input)
  {
    hide Ranked, Wins;
    LeaderWins(input);
    o := Ranked(input)[0].order;
  }

  /** The sorted top-two test decides exactly the order-free rule. */
  lemma VerifiesIffWins(input: MatchInput)
    requires DistinctIds(input.heuristicCandidates)
    ensures RunHeuristic(input).DVerified? <==> RuleApplies(input) && exists o :: Wins(o, input)
  {
    if RunHeuristic(input).DVerified? {
      var o := VerifiedIsWinner(input);
    } else if RuleApplies(input) && exists o :: Wins(o, input) {
      var o :| Wins(o, input);
      WinnerIsVerified(input, o);
      assert false;
    }
  }

  lemma RoundKeepsRange(n: real)
    requires 0.5 <= n <= 1.0
    ensures 0.5 <= Round2(n) <= 1.0
  {
  }

  /** Verified scores stay in the range the confidence column accepts. */
  lemma ConfidenceInRange(input: MatchInput)
    requires ValidSettings(input.settings) && DistinctIds(input.heuristicCandidates)
    ensures RunHeuristic(input).DVerified? ==> 0.5 <= RunHeuristic(input).confidence <= 1.0
  {
    if RunHeuristic(input).DVerified? {
      var o := VerifiedIsWinner(input);
      RoundKeepsRange(ScoreOf(o, input.sms, input.heuristicCandidates, input.settings));
    }
  }

  // ---------------------------------------------------------------- candidate order is irrelevant

  lemma ScoresIgnoreOrder(a: MatchInput, b: MatchInput, o: OrderFacts)
    requires b == a.(heuristicCandidates := b.heuristicCandidates)
    requires multiset(a.heuristicCandidates) == multiset(b.heuristicCandidates)
    ensures ScoreCandidate(o, a.sms, a.heuristicCandidates, a.settings)
         == ScoreCandidate(o, b.sms, b.heuristicCandidates, b.settings)
  {
    var x, y := a.heuristicCandidates, b.heuristicCandidates;
    SameElements(x, y);
    if HasRival(o, a.sms, x) {
      var i :| 0 <= i < |x| && IsRival(x[i], o, a.sms);
      assert x[i] in y;
    }
    if HasRival(o, a.sms, y) {
      var i :| 0 <= i < |y| && IsRival(y[i], o, a.sms);
      assert y[i] in x;
    }
    ScoreDependsOn(o, a.sms, x, y, a.settings);
  }

  lemma ReviewsPermute(a: MatchInput, b: MatchInput)
    requires b == a.(heuristicCandidates := b.heuristicCandidates)
    requires multiset(a.heuristicCandidates) == multiset(b.heuristicCandidates)
    requires RunHeuristic(a).DReview? && RunHeuristic(b).DReview?
    ensures multiset(RunHeuristic(a).candidates) == multiset(RunHeuristic(b).candidates)
  {
    var x, y := a.heuristicCandidates, b.heuristicCandidates;
    var fa, fb := ScoreIn(a.sms, x, a.settings), ScoreIn(b.sms, y, b.settings);
    assert MapSeq(fb, y) == MapSeq(fa, y) by {
      forall i | 0 <= i < |y| ensures MapSeq(fb, y)[i] == MapSeq(fa, y)[i] {
        ScoresIgnoreOrder(a, b, y[i]);
      }
    }
    MapPermutes(fa, x, y);
    MapPermutes(ToReviewIn(a.sms), SortDesc(MapSeq(fa, x), ScoreKey), SortDesc(MapSeq(fb, y), ScoreKey));
  }

  /** Two outcomes a caller cannot tell apart: the same decision, or reviews of the same candidates. */
  ghost predicate SameOutcome(d: Decision, e: Decision) {
    d == e
    || (d.DReview? && e.DReview? && d.reason == e.reason && multiset(d.candidates) == multiset(e.candidates))
  }

  lemma IdsSurvivePermutation(x: seq<OrderFacts>, y: seq<OrderFacts>)
    requires multiset(x) == multiset(y) && DistinctIds(x)
    ensures DistinctIds(y)
  {
    SameElements(x, y);
    assert Distinct(x);
    DistinctPermutation(x, y);
    forall i, j | 0 <= i < j < |y| ensures y[i].id != y[j].id {
      assert y[i] in x && y[j] in x;
      if y[i].id == y[j].id {
        IdsIdentify(x, y[i], y[j]);
        assert false;
      }
    }
  }

  lemma WinsIgnoresOrder(a: MatchInput, b: MatchInput, o: OrderFacts)
    requires b == a.(heuristicCandidates := b.heuristicCandidates)
    requires multiset(a.heuristicCandidates) == multiset(b.heuristicCandidates)
    requires Wins(o, a)
    ensures Wins(o, b) && VerifyOf(o, b) == VerifyOf(o, a)
  {
    SameElements(a.heuristicCandidates, b.heuristicCandidates);
    ScoresIgnoreOrder(a, b, o);
    forall c | c in b.heuristicCandidates && c.id != o.id
      ensures ScoreOf(o, b.sms, b.heuristicCandidates, b.settings)
        - ScoreOf(c, b.sms, b.heuristicCandidates, b.settings) >= MIN_GAP
    {
      ScoresIgnoreOrder(a, b, c);
    }
  }

  /** Any permutation of the candidates gives the same verification or a review of the same multiset. */
  lemma OrderIndependent(a: MatchInput, b: MatchInput)
    requires b == a.(heuristicCandidates := b.heuristicCandidates)
    requires multiset(a.heuristicCandidates) == multiset(b.heuristicCandidates)
    requires DistinctIds(a.heuristicCandidates)
    ensures SameOutcome(RunHeuristic(a), RunHeuristic(b))
  {
    SameElements(a.heuristicCandidates, b.heuristicCandidates);
    IdsSurvivePermutation(a.heuristicCandidates, b.heuristicCandidates);
    if RunHeuristic(a).DVerified? {
      var o := VerifiedIsWinner(a);
      WinsIgnoresOrder(a, b, o);
      WinnerIsVerified(b, o);
    } else if RunHeuristic(b).DVerified? {
      var o := VerifiedIsWinner(b);
      WinsIgnoresOrder(b, a, o);
      WinnerIsVerified(a, o);
      assert false;
    } else if RunHeuristic(a).DReview? {
      ReviewsPermute(a, b);
    }
  }

  // ---------------------------------------------------------------- one more candidate

  /** A rival costs at most 0.30, less than the two gaps a redirection would have to cross. */
  lemma NoRedirection(input: MatchInput, wider: MatchInput, o: OrderFacts, w: OrderFacts)
    requires wider == input.(heuristicCandidates := wider.heuristicCandidates)
    requires forall x :: x in input.heuristicCandidates ==> x in wider.heuristicCandidates
    requires |input.heuristicCandidates| > 1 && |wider.heuristicCandidates| > 1
    requires Wins(o, input) && Wins(w, wider) && w in input.heuristicCandidates
    ensures w.id == o.id
  {
    MoreCandidatesCost(o, input.sms, input.heuristicCandidates, wider.heuristicCandidates, input.settings);
    MoreCandidatesCost(w, input.sms, input.heuristicCandidates, wider.heuristicCandidates, input.settings);
    assert o in wider.heuristicCandidates;
  }

  lemma InsertKeeps(few: seq<OrderFacts>, c: OrderFacts, k: nat)
    requires k <= |few|
    ensures var many := few[..k] + [c] + few[k..];
      |many| == |few| + 1
      && (forall x :: x in few ==> x in many)
      && (forall x :: x in many ==> x == c || x in few)
  {
  }

  /** Whoever wins among more candidates is the old winner or a newcomer. */
  lemma WinnerAmongMore(input: MatchInput, wider: MatchInput, o: OrderFacts, w: OrderFacts)
    requires wider == input.(heuristicCandidates := wider.heuristicCandidates)
    requires forall x :: x in input.heuristicCandidates ==> x in wider.heuristicCandidates
    requires |wider.heuristicCandidates| > 1
    requires Wins(o, input) && Wins(w, wider)
    ensures w in input.heuristicCandidates ==> w.id == o.id
  {
    if w in input.heuristicCandidates {
      if |input.heuristicCandidates| > 1 {
        NoRedirection(input, wider, o, w);
      } else {
        assert w == input.heuristicCandidates[0] && o == input.heuristicCandidates[0];
      }
    }
  }

  lemma InsertedDistinct(few: seq<OrderFacts>, c: OrderFacts, k: nat)
    requires k <= |few| && DistinctIds(few[..k] + [c] + few[k..])
    ensures DistinctIds(few)
  {
    var many := few[..k] + [c] + few[k..];
    forall i, j | 0 <= i < j < |few| ensures few[i].id != few[j].id {
      assert many[if i < k then i else i + 1] == few[i];
      assert many[if j < k then j else j + 1] == few[j];
    }
  }

  /** A newcomer can win or spoil a verification, never hand it to another candidate already there. */
  lemma NewcomerNeverRedirects(input: MatchInput, wider: MatchInput, c: OrderFacts, k: nat)
    requires k <= |input.heuristicCandidates|
    requires wider == input.(heuristicCandidates :=
      input.heuristicCandidates[..k] + [c] + input.heuristicCandidates[k..])
    requires DistinctIds(wider.heuristicCandidates)
    requires RunHeuristic(input).DVerified?
    ensures RunHeuristic(wider).DReview?
      || (RunHeuristic(wider).DVerified? && RunHeuristic(wider).orderId in {RunHeuristic(input).orderId, c.id})
  {
    InsertKeeps(input.heuristicCandidates, c, k);
    InsertedDistinct(input.heuristicCandidates, c, k);
    var o := VerifiedIsWinner(input);
    if RunHeuristic(wider).DVerified? {
      var w := VerifiedIsWinner(wider);
      WinnerAmongMore(input, wider, o, w);
    }
  }

  // ---------------------------------------------------------------- thresholds above 0.70

  /** What the candidate query guarantees about every row it returns. */
  ghost predicate PassesQuery(input: MatchInput) {
    forall c :: c in input.heuristicCandidates ==> WithinTolerance(c, Received(input.sms.amount))
  }

  /**
   * Above 0.70 a verification names the only order compatible with the sender, that order registered
   * exactly this sender, and everyone else is so far behind that the gap test adds nothing.
   */
  lemma StrictThresholdMeansSender(input: MatchInput, o: OrderFacts)
    requires input.settings.autoVerifyMinConfidence > 0.70
    requires PassesQuery(input) && DistinctIds(input.heuristicCandidates)
    requires o in input.heuristicCandidates && RunHeuristic(input).DVerified? && RunHeuristic(input).orderId == o.id
    ensures o.sender.Some? && o.sender == input.sms.sender
    ensures forall c :: c in input.heuristicCandidates && c.id != o.id ==>
      !SenderCompatible(c, input.sms)
      && ScoreOf(c, input.sms, input.heuristicCandidates, input.settings) <= 0.40
  {
    var sms, cs, settings := input.sms, input.heuristicCandidates, input.settings;
    var w := VerifiedIsWinner(input);
    IdsIdentify(cs, w, o);
    NoSenderCapsScore(o, sms, cs, settings);
    assert SenderSignal(o, sms) == 1.0;
    assert !HasRival(o, sms, cs);
    forall c | c in cs && c.id != o.id
      ensures !SenderCompatible(c, sms) && ScoreOf(c, sms, cs, settings) <= 0.40
    {
      assert !IsRival(c, o, sms) by {
        var i :| 0 <= i < |cs| && cs[i] == c;
      }
      var j :| 0 <= j < |cs| && cs[j] == o;
      assert IsRival(cs[j], c, sms);
      NoSenderCapsScore(c, sms, cs, settings);
    }
  }

  /** Above 0.70 the threshold alone decides: the 0.25-gap is implied. */
  lemma GapIsImplied(input: MatchInput, o: OrderFacts)
    requires input.settings.autoVerifyMinConfidence > 0.70
    requires DistinctIds(input.heuristicCandidates) && PassesQuery(input) && RuleApplies(input)
    requires o in input.heuristicCandidates
    ensures RunHeuristic(input) == VerifyOf(o, input)
      <==> ScoreOf(o, input.sms, input.heuristicCandidates, input.settings) >= input.settings.autoVerifyMinConfidence
  {
    var sms, cs, settings := input.sms, input.heuristicCandidates, input.settings;
    if ScoreOf(o, sms, cs, settings) >= settings.autoVerifyMinConfidence {
      NoSenderCapsScore(o, sms, cs, settings);
      forall c | c in cs && c.id != o.id ensures ScoreOf(c, sms, cs, settings) <= 0.40 {
        assert !IsRival(c, o, sms) by {
          var i :| 0 <= i < |cs| && cs[i] == c;
        }
        var j :| 0 <= j < |cs| && cs[j] == o;
        assert IsRival(cs[j], c, sms);
        NoSenderCapsScore(c, sms, cs, settings);
      }
      WinnerIsVerified(input, o);
    }
    if RunHeuristic(input) == VerifyOf(o, input) {
      var w := VerifiedIsWinner(input);
      IdsIdentify(cs, w, o);
    }
  }

  /** 0.70 is sharp: at exactly that threshold an order with no registered sender verifies. */
  lemma SeventyIsSharp(sms: SmsFacts, settings: Settings)
    requires sms.amount == Some(100_100) && sms.smsAt.None?
    requires settings.autoVerifyMinConfidence == 0.70 && settings.heuristicEnabled
    ensures var o := OrderFacts(0, None, 100_100, 0, Pending, 0, 0, HeuristicMode, Some(sms.provider), None);
      var input := MatchInput(sms, [], [o], settings, {}, 0);
      PassesQuery(input) && RunHeuristic(input) == VerifyOf(o, input)
  {
    var o := OrderFacts(0, None, 100_100, 0, Pending, 0, 0, HeuristicMode, Some(sms.provider), None);
    var input := MatchInput(sms, [], [o], settings, {}, 0);
    assert SignalsOf(o, sms, [o], settings) == Signals(1.0, 0.0, 1.0, 1.0, 0.0, 0.0);
    WinnerIsVerified(input, o);
  }
}
