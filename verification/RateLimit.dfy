/** The sliding-window log behind a rate-limited route (rate-limit.guard.ts). Times are milliseconds since 1970. */
module RateLimit {
  datatype Options = Options(points: nat, windowSec: nat, failClosed: bool)

  function WindowMs(o: Options): nat { o.windowSec * 1000 }

  /** The log of one key: the times it still holds, in insertion order, and the last time it was touched. */
  datatype Log = Log(scores: seq<nat>, touched: nat)

  /** What is left after removing every score up to `floor`. */
  function After(scores: seq<nat>, floor: int): (r: seq<nat>)
    ensures |r| <= |scores|
    ensures forall i :: 0 <= i < |r| ==> r[i] > floor && r[i] in scores
  {
    if scores == [] then []
    else
      var rest := After(scores[..|scores| - 1], floor);
      if scores[|scores| - 1] > floor then rest + [scores[|scores| - 1]] else rest
  }

  /** The log after one request at `now`: old scores removed, the request added, the expiry pushed back. */
  function Touch(scores: seq<nat>, now: nat, windowMs: nat): Log {
    Log(After(scores, now - windowMs) + [now], now)
  }

  datatype Verdict = Admitted(remaining: nat) | Limited(retryAfterSec: nat) | Unavailable

  function Judge(count: nat, o: Options): Verdict {
    if count > o.points then Limited(o.windowSec) else Admitted(o.points - count)
  }

  class SlidingWindow {
    var logs: map<string, Log>

    constructor ()
      ensures logs == map[]
    {
      logs := map[];
    }

    function Scores(key: string): seq<nat>
      reads this
    {
      if key in logs then logs[key].scores else []
    }

    /** The whole key goes once it was left alone for a window. */
    method Expire(key: string, now: nat, windowMs: nat)
      modifies this
      ensures var idle := key in old(logs) && old(logs)[key].touched + windowMs <= now;
        logs == if idle then old(logs) - {key} else old(logs)
    {
      if key in logs && logs[key].touched + windowMs <= now {
        logs := logs - {key};
      }
    }

    /** Every request is logged, also the refused ones; without Redis the route's policy decides. */
    method CanActivate(key: string, now: nat, o: Options, available: bool) returns (v: Verdict)
      modifies this
      ensures !available ==> logs == old(logs) && v == if o.failClosed then Unavailable else Admitted(o.points)
      ensures available ==>
        && logs == old(logs)[key := Touch(old(Scores(key)), now, WindowMs(o))]
        && v == Judge(|Scores(key)|, o)
    {
      if !available {
        return if o.failClosed then Unavailable else Admitted(o.points);
      }
      var kept := After(Scores(key), now - WindowMs(o));
      var scores := kept + [now];
      var count := |scores|;
      logs := logs[key := Log(scores, now)];
      if count > o.points {
        return Limited(o.windowSec);
      }
      return Admitted(o.points - count);
    }
  }

  // ---------------------------------------------------------------- runs of one key

  ghost predicate NonDecreasing(times: seq<nat>) {
    forall i, j :: 0 <= i <= j < |times| ==> times[i] <= times[j]
  }

  /** Redis may have dropped the idle key before the k-th request. */
  ghost predicate MayDrop(times: seq<nat>, k: nat, windowMs: nat)
    requires k < |times|
  {
    k > 0 ==> times[k - 1] + windowMs <= times[k]
  }

  /** The log left by requests at `times`, when Redis dropped the key before those marked in `drops`. */
  function LogOf(times: seq<nat>, drops: seq<bool>, windowMs: nat): seq<nat>
    requires |drops| == |times|
    decreases |times|
  {
    if times == [] then []
    else
      var n := |times| - 1;
      var before := if drops[n] then [] else LogOf(times[..n], drops[..n], windowMs);
      Touch(before, times[n], windowMs).scores
  }

  ghost predicate DropsAllowed(times: seq<nat>, drops: seq<bool>, windowMs: nat) {
    |drops| == |times| && forall k :: 0 <= k < |times| && drops[k] ==> MayDrop(times, k, windowMs)
  }

  lemma {:induction false} AfterAfter(s: seq<nat>, a: int, b: int)
    requires a <= b
    ensures After(After(s, a), b) == After(s, b)
    decreases |s|
  {
    if s != [] {
      var init, last := s[..|s| - 1], s[|s| - 1];
      AfterAfter(init, a, b);
      if last > a {
        var t := After(s, a);
        assert t[..|t| - 1] == After(init, a);
      }
    }
  }

  lemma {:induction false} AfterNone(s: seq<nat>, floor: int)
    requires forall i :: 0 <= i < |s| ==> s[i] <= floor
    ensures After(s, floor) == []
    decreases |s|
  {
    if s != [] {
      AfterNone(s[..|s| - 1], floor);
    }
  }

  lemma AfterLast(s: seq<nat>, floor: int)
    requires s != [] && s[|s| - 1] > floor
    ensures After(s, floor) == After(s[..|s| - 1], floor) + [s[|s| - 1]]
  {
  }

  lemma LogStep(times: seq<nat>, drops: seq<bool>, windowMs: nat)
    requires times != [] && |drops| == |times|
    ensures var n := |times| - 1;
      LogOf(times, drops, windowMs)
        == After(if drops[n] then [] else LogOf(times[..n], drops[..n], windowMs), times[n] - windowMs) + [times[n]]
    ensures LogOf([], [], windowMs) == []
  {
  }

  /** Nothing before an idle key's next request is inside its window. */
  lemma DroppedLog(times: seq<nat>, drops: seq<bool>, windowMs: nat)
    requires times != [] && NonDecreasing(times) && DropsAllowed(times, drops, windowMs) && drops[|times| - 1]
    ensures After(times[..|times| - 1], times[|times| - 1] - windowMs) == []
  {
    var n := |times| - 1;
    DroppedIsIdle(times, drops, windowMs);
    AfterNone(times[..n], times[n] - windowMs);
  }

  /** The log holds exactly the requests of the last window, dropped keys or not. */
  lemma {:induction false} LogIsLastWindow(times: seq<nat>, drops: seq<bool>, windowMs: nat)
    requires times != [] && windowMs > 0 && NonDecreasing(times) && DropsAllowed(times, drops, windowMs)
    ensures LogOf(times, drops, windowMs) == After(times, times[|times| - 1] - windowMs)
    decreases |times|
  {
    hide After, LogOf, DropsAllowed, MayDrop, NonDecreasing;
    var n := |times| - 1;
    DropsPrefix(times, drops, windowMs, n);
    LogStep(times, drops, windowMs);
    AfterLast(times, times[n] - windowMs);
    AfterNone([], times[n] - windowMs);
    if drops[n] {
      DroppedLog(times, drops, windowMs);
    } else if n == 0 {
      assert times[..n] == [] && drops[..n] == [];
    } else {
      OrderedPrefix(times, n);
      LogIsLastWindow(times[..n], drops[..n], windowMs);
      LogNarrows(times, drops, n, windowMs);
    }
  }

  /** The log of an earlier request, cut to a later window, is the later window. */
  lemma LogNarrows(times: seq<nat>, drops: seq<bool>, n: nat, windowMs: nat)
    requires |drops| == |times| && 0 < n < |times| && times[n - 1] <= times[n]
    requires LogOf(times[..n], drops[..n], windowMs) == After(times[..n], times[..n][n - 1] - windowMs)
    ensures After(LogOf(times[..n], drops[..n], windowMs), times[n] - windowMs)
      == After(times[..n], times[n] - windowMs)
  {
    hide After, LogOf;
    assert times[..n][n - 1] == times[n - 1];
    AfterAfter(times[..n], times[n - 1] - windowMs, times[n] - windowMs);
  }

  lemma OrderedPrefix(times: seq<nat>, n: nat)
    requires NonDecreasing(times) && n <= |times|
    ensures NonDecreasing(times[..n])
    ensures 0 < n < |times| ==> times[n - 1] <= times[n]
  {
  }

  lemma DropsPrefix(times: seq<nat>, drops: seq<bool>, windowMs: nat, n: nat)
    requires DropsAllowed(times, drops, windowMs) && n <= |times|
    ensures |drops| == |times| && DropsAllowed(times[..n], drops[..n], windowMs)
  {
  }

  lemma DroppedIsIdle(times: seq<nat>, drops: seq<bool>, windowMs: nat)
    requires times != [] && NonDecreasing(times) && DropsAllowed(times, drops, windowMs) && drops[|times| - 1]
    ensures forall i :: 0 <= i < |times| - 1 ==> times[i] <= times[|times| - 1] - windowMs
  {
  }

  /** Request `k` of a run was let through. */
  ghost predicate AdmittedAt(times: seq<nat>, drops: seq<bool>, o: Options, k: nat)
    requires |drops| == |times| && k < |times|
  {
    Judge(|LogOf(times[..k + 1], drops[..k + 1], WindowMs(o))|, o).Admitted?
  }

  /** A request is admitted exactly when it and everything before it in its window, refused or not, are few enough. */
  lemma AdmittedIff(times: seq<nat>, drops: seq<bool>, o: Options, k: nat)
    requires o.windowSec > 0 && NonDecreasing(times) && DropsAllowed(times, drops, o.windowSec * 1000) && k < |times|
    ensures AdmittedAt(times, drops, o, k) <==> |After(times[..k + 1], times[k] - o.windowSec * 1000)| <= o.points
  {
    hide After, LogOf;
    DropsPrefix(times, drops, WindowMs(o), k + 1);
    LogIsLastWindow(times[..k + 1], drops[..k + 1], WindowMs(o));
  }

  /** Admitted requests among the first `n` that fall into the half-open window from `lo`. */
  ghost function AdmittedIn(times: seq<nat>, drops: seq<bool>, o: Options, lo: int, n: nat): nat
    requires |drops| == |times| && n <= |times|
  {
    if n == 0 then 0
    else
      AdmittedIn(times, drops, o, lo, n - 1)
      + if lo <= times[n - 1] < lo + o.windowSec * 1000 && AdmittedAt(times, drops, o, n - 1) then 1 else 0
  }

  /** Requests of a window are all still in the log of any later request of the same window. */
  lemma {:induction false} WindowIsLogged(times: seq<nat>, drops: seq<bool>, o: Options, lo: int, n: nat, at: int)
    requires |drops| == |times| && n <= |times| && at < lo + WindowMs(o)
    ensures AdmittedIn(times, drops, o, lo, n) <= |After(times[..n], at - WindowMs(o))|
    decreases n
  {
    hide AdmittedAt;
    if n > 0 {
      WindowIsLogged(times, drops, o, lo, n - 1, at);
      assert times[..n][..n - 1] == times[..n - 1];
    }
  }

  /** Over any run, every half-open window contains at most `points` admitted requests of a key. */
  lemma {:induction false} WindowHoldsPoints(times: seq<nat>, drops: seq<bool>, o: Options, lo: int, n: nat)
    requires o.windowSec > 0 && NonDecreasing(times) && DropsAllowed(times, drops, o.windowSec * 1000) && n <= |times|
    ensures AdmittedIn(times, drops, o, lo, n) <= o.points
    decreases n
  {
    hide AdmittedAt, After;
    if n > 0 {
      WindowHoldsPoints(times, drops, o, lo, n - 1);
      if lo <= times[n - 1] < lo + o.windowSec * 1000 && AdmittedAt(times, drops, o, n - 1) {
        AdmittedIff(times, drops, o, n - 1);
        WindowIsLogged(times, drops, o, lo, n, times[n - 1]);
      }
    }
  }
}
