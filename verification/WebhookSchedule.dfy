/** Retry timing and outcome classes of webhook delivery (schedule.ts, classify.ts, delivery.service.ts). */
module WebhookSchedule {
  import opened Prelude

  // ---------------------------------------------------------------- classify.ts

  datatype Outcome = OutDelivered | OutRetry | OutFailed | OutCancelled

  datatype Classification = Classification(outcome: Outcome, reason: Option<string>)

  const UNSAFE_CALLBACK := Classification(OutFailed, Some("UNSAFE_CALLBACK_URL"))

  const TRANSPORT_ERROR := Classification(OutRetry, None)

  function ClassifyResponse(status: int): Classification {
    if 200 <= status < 300 then Classification(OutDelivered, None)
    else if 300 <= status < 400 then Classification(OutFailed, Some("REDIRECT_NOT_FOLLOWED"))
    else if status == 410 then Classification(OutCancelled, Some("CLIENT_GONE"))
    else if status == 408 || status == 425 || status == 429 then Classification(OutRetry, None)
    else if 400 <= status < 500 then Classification(OutFailed, Some("CLIENT_ERROR"))
    else Classification(OutRetry, None)
  }

  // ---------------------------------------------------------------- schedule.ts

  const SCHEDULE_MS: seq<int> :=
    [30_000, 120_000, 600_000, 1_800_000, 7_200_000, 21_600_000, 43_200_000, 86_400_000]

  const BREAKER_MIN_SPACING_MS := HOUR_MS

  function BaseDelayMs(attempts: int): Option<int> {
    if attempts < 1 then Some(SCHEDULE_MS[0])
    else if attempts - 1 < |SCHEDULE_MS| then Some(SCHEDULE_MS[attempts - 1])
    else None
  }

  /** A random draw: a number between zero and one, both included. */
  type Unit = u: real | 0.0 <= u <= 1.0 witness 0.0

  function RoundMs(x: real): int { (x + 0.5).Floor }

  function Jittered(base: int, u: Unit): real {
    base as real * (1.0 + (u * 2.0 - 1.0) * 0.2)
  }

  function NextAttemptAt(attempts: int, maxAttempts: int, now: int, u: Unit, breakerOpen: bool): Option<int> {
    if attempts >= maxAttempts then None
    else
      match BaseDelayMs(attempts)
      case None => None
      case Some(base) =>
        var jittered := Jittered(base, u);
        var spaced :=
          if breakerOpen && jittered < BREAKER_MIN_SPACING_MS as real then BREAKER_MIN_SPACING_MS as real else jittered;
        Some(now + RoundMs(spaced))
  }

  /** The attempts an event may complete before it is given up. */
  function Budget(maxAttempts: nat): nat {
    if maxAttempts < 9 then maxAttempts else 9
  }

  /** There is a next attempt exactly while the budget is not used up. */
  lemma RetriesWhileInBudget(attempts: nat, maxAttempts: nat, now: int, u: Unit, open: bool)
    requires attempts >= 1
    ensures NextAttemptAt(attempts, maxAttempts, now, u, open).Some? <==> attempts < Budget(maxAttempts)
  {
  }

  lemma JitterRange(base: int, u: Unit)
    requires base >= 0
    ensures 0.8 * base as real <= Jittered(base, u) <= 1.2 * base as real
  {
    var b := base as real;
    var f := 1.0 + (u * 2.0 - 1.0) * 0.2;
    assert 0.8 <= f <= 1.2;
    assert b * 0.8 <= b * f <= b * 1.2;
  }

  /**
   * With the breaker closed the next time lies within twenty percent of the table entry; with it open it lies
   * at least an hour away, and no further than that or the table entry and its jitter.
   */
  lemma NextAttemptWithin(attempts: nat, maxAttempts: nat, now: int, u: Unit, open: bool)
    requires 1 <= attempts < Budget(maxAttempts)
    ensures var wait := NextAttemptAt(attempts, maxAttempts, now, u, open).value - now;
      var base := SCHEDULE_MS[attempts - 1];
      && (!open ==> base * 8 / 10 <= wait <= base * 12 / 10)
      && (open ==>
            MaxInt(base * 8 / 10, BREAKER_MIN_SPACING_MS) <= wait <= MaxInt(base * 12 / 10, BREAKER_MIN_SPACING_MS))
  {
    hide Jittered, RoundMs;
    var base := SCHEDULE_MS[attempts - 1];
    JitterRange(base, u);
    assert base % 10 == 0;
    var lo, hi := base * 8 / 10, base * 12 / 10;
    WholeTenths(base);
    RoundStays(Jittered(base, u), lo, hi);
    if open {
      var jittered, floor := Jittered(base, u), BREAKER_MIN_SPACING_MS as real;
      var spaced := if jittered < floor then floor else jittered;
      RoundStays(spaced, MaxInt(lo, BREAKER_MIN_SPACING_MS), MaxInt(hi, BREAKER_MIN_SPACING_MS));
    }
  }

  lemma WholeTenths(base: int)
    requires base % 10 == 0
    ensures (base * 8 / 10) as real == 0.8 * base as real && (base * 12 / 10) as real == 1.2 * base as real
  {
    var t := base / 10;
    assert base == 10 * t && base * 8 == 10 * (8 * t) && base * 12 == 10 * (12 * t);
  }

  lemma RoundStays(x: real, lo: int, hi: int)
    requires lo as real <= x <= hi as real
    ensures lo <= RoundMs(x) <= hi
  {
  }

  /** The jitter spreads the wait evenly, from eight tenths of the table entry at draw 0 to twelve at draw 1. */
  lemma WaitIsSpread(attempts: nat, maxAttempts: nat, now: int, u: Unit)
    requires 1 <= attempts < Budget(maxAttempts)
    ensures var wait := (NextAttemptAt(attempts, maxAttempts, now, u, false).value - now) as real;
      var base := SCHEDULE_MS[attempts - 1] as real;
      wait - 0.5 <= base * (0.8 + 0.4 * u) < wait + 0.5
  {
    var base := SCHEDULE_MS[attempts - 1] as real;
    assert base * (1.0 + (u * 2.0 - 1.0) * 0.2) == base * (0.8 + 0.4 * u);
  }

  /** Later retries wait longer: even the longest jittered wait is shorter than the next one's shortest. */
  lemma WaitsGrow(attempts: nat, maxAttempts: nat, now: int, later: int, u: Unit, v: Unit)
    requires 1 <= attempts && attempts + 1 < Budget(maxAttempts)
    ensures NextAttemptAt(attempts, maxAttempts, now, u, false).value - now
      < NextAttemptAt(attempts + 1, maxAttempts, later, v, false).value - later
  {
  }

  /** A Retry-After header that reads as a finite number, in seconds. */
  function RetryAfterMs(seconds: Option<real>): Option<int> {
    if seconds.None? || seconds.value < 0.0 || seconds.value > 3600.0 then None
    else Some((seconds.value * 1000.0).Floor)
  }

  // ---------------------------------------------------------------- jitterRng

  const TWO32: int := 0x1_0000_0000

  function HashChars(h: int, id: string): (r: int)
    requires 0 <= h < TWO32
    ensures 0 <= r < TWO32
    decreases |id|
  {
    if id == "" then h else HashChars((h * 31 + id[0] as int) % TWO32, id[1..])
  }

  /** The seeding loop, on 32-bit unsigned values. */
  method Seed(id: string, attempt: nat) returns (h: int)
    ensures h == HashChars(attempt % TWO32, id)
  {
    h := attempt % TWO32;
    var i := 0;
    assert id[0..] == id;
    while i < |id|
      invariant 0 <= i <= |id| && 0 <= h < TWO32
      invariant HashChars(h, id[i..]) == HashChars(attempt % TWO32, id)
    {
      assert id[i..][0] == id[i] && id[i..][1..] == id[i + 1..];
      h := (h * 31 + id[i] as int) % TWO32;
      i := i + 1;
    }
  }

  /** The first draw of the generator; it is a function of the event and the attempt alone. */
  function JitterDraw(id: string, attempt: nat): Unit {
    var h := (HashChars(attempt % TWO32, id) * 1664525 + 1013904223) % TWO32;
    h as real / 0xffff_ffff as real
  }

  /** A few draws: the hash of the text in base 31 from the attempt on, and one step of the generator. */
  lemma DrawsAre()
    ensures JitterDraw("", 0) == 1013904223.0 / 4294967295.0
    ensures JitterDraw("", 1) == 1015568748.0 / 4294967295.0
    ensures JitterDraw("ab", 0) == 1887287052.0 / 4294967295.0
  {
    assert "ab"[1..] == "b" && "b"[1..] == "";
    assert HashChars(0, "") == 0 && HashChars(1, "") == 1;
    assert HashChars(97, "b") == HashChars(3105, "") == 3105;
    assert HashChars(0, "ab") == HashChars(97, "b");
  }
}
