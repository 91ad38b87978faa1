/** The transactional runner (matching.service.ts) and the rescan loop (rescan.service.ts). */
module MatchingService {
  import opened Prelude
  import opened MatchTypes
  import opened Tables
  import opened Engine
  import opened Store
  import opened Spending
  import opened Steps

  /** Load, decide, apply; on a conflict the caller rolls back. */
  method DecideThenApply(t: PaymentTables, id: nat, env: Env) returns (ok: bool, d: Decision)
    requires id < |t.sms|
    modifies t
    ensures d == DecideOn(old(t.State()), id, env)
    ensures ok ==> DecideAndApply(old(t.State()), id, env) == Committed(t.State(), d)
    ensures !ok ==> DecideAndApply(old(t.State()), id, env).Conflict?
  {
    d := DecideOn(t.State(), id, env);
    DecisionNamesRow(t.State(), id, env);
    ok := t.Apply(id, d, env);
  }

  /** Forward path: up to two attempts; a unique violation ends it with the row's current status. */
  method MatchBySms(t: PaymentTables, id: nat, env: Env) returns (status: MatchStatus)
    modifies t
    ensures id < |old(t.sms)| ==>
      t.State() == MatchSms(old(t.State()), id, env) && status == MatchResult(old(t.State()), id, env)
    ensures id >= |old(t.sms)| ==> t.State() == old(t.State()) && status.StUnmatched?
  {
    if id >= |t.sms| {
      return StUnmatched;
    }
    var attempt := 0;
    while attempt < MATCH_ATTEMPTS
      invariant t.State() == old(t.State())
      invariant attempt <= env.faults
    {
      if attempt < env.faults {
        attempt := attempt + 1;
      } else {
        var saved := t.State();
        var ok, d := DecideThenApply(t, id, env);
        if !ok {
          t.Rollback(saved);
          return t.sms[id].matchStatus;
        }
        return StatusFor(d);
      }
    }
    return StUnmatched;
  }

  /** Reverse path: scan UNMATCHED SMS for this order inside one transaction. */
  method ReverseMatchOrder(t: PaymentTables, order: nat, env: Env) returns (verified: Option<Decision>)
    modifies t
    ensures (t.State(), verified) == ReverseMatch(old(t.State()), order, env)
  {
    hide DecideAndApply, DecideOn, ReverseRows;
    if env.faults > 0 {
      return None;
    }
    var found := ReverseRows(t.State(), order, env);
    if found.None? {
      return None;
    }
    var saved, rows := t.State(), found.value;
    var i := 0;
    while i < |rows|
      invariant 0 <= i <= |rows|
      invariant |t.sms| == |saved.sms|
      invariant forall k :: i <= k < |rows| ==> rows[k] < |t.sms|
      invariant ReverseLoop(t.State(), rows[i..], env) == ReverseLoop(saved, rows, env)
    {
      assert rows[i..][0] == rows[i] && rows[i..][1..] == rows[i + 1..];
      DecideKeepsLengths(t.State(), rows[i], env);
      var ok, d := DecideThenApply(t, rows[i], env);
      if !ok {
        t.Rollback(saved);
        return None;
      }
      if d.DVerified? {
        return Some(d);
      }
      i := i + 1;
    }
    return None;
  }

  // ---------------------------------------------------------------- rescan

  const CHUNK := 200

  predicate InRescan(s: Sms, company: nat, floor: int) {
    s.company == company && s.matchStatus.StUnmatched? && s.uploadedAt >= floor
  }

  /** Ids from `from` on that a rescan page may return, in id order. */
  function RescanIds(sms: seq<Sms>, company: nat, floor: int, from: nat): (r: seq<nat>)
    ensures forall k :: 0 <= k < |r| ==> from <= r[k] < |sms|
    decreases |sms| - from
  {
    if from >= |sms| then []
    else
      var rest := RescanIds(sms, company, floor, from + 1);
      if InRescan(sms[from], company, floor) then [from] + rest else rest
  }

  /** An UNMATCHED row of the company uploaded at the retention floor or later. */
  predicate IsRescanned(s: Sms, company: nat, floor: int) {
    s.company == company && s.matchStatus == StUnmatched && floor <= s.uploadedAt
  }

  /** They are exactly the eligible rows, each once. */
  lemma {:induction false} RescanIdsExact(sms: seq<Sms>, company: nat, floor: int, from: nat)
    ensures var r := RescanIds(sms, company, floor, from);
      && (forall i: nat :: i in r <==> from <= i < |sms| && IsRescanned(sms[i], company, floor))
      && (forall j, k :: 0 <= j < k < |r| ==> r[j] < r[k])
    decreases |sms| - from
  {
    if from < |sms| {
      RescanIdsExact(sms, company, floor, from + 1);
    }
  }

  function MatchIfThere(db: Db, id: nat, env: Env): Db {
    if id < |db.sms| then MatchSms(db, id, env) else db
  }

  /** Matching the rows one after another, the k-th under the k-th environment. */
  function MatchEach(db: Db, ids: seq<nat>, envs: nat -> Env, k: nat): Db
    decreases |ids|
  {
    if ids == [] then db else MatchEach(MatchIfThere(db, ids[0], envs(k)), ids[1..], envs, k + 1)
  }

  lemma {:induction false} MatchEachSplit(db: Db, a: seq<nat>, b: seq<nat>, envs: nat -> Env, k: nat)
    ensures MatchEach(db, a + b, envs, k) == MatchEach(MatchEach(db, a, envs, k), b, envs, k + |a|)
    decreases |a|
  {
    hide MatchIfThere;
    if a == [] {
      assert a + b == b;
    } else {
      assert (a + b)[1..] == a[1..] + b;
      MatchEachSplit(MatchIfThere(db, a[0], envs(k)), a[1..], b, envs, k + 1);
    }
  }

  function RematchOps(ids: seq<nat>, envs: nat -> Env, k: nat): (ops: seq<Op>)
    ensures |ops| == |ids| && forall i :: 0 <= i < |ids| ==> ops[i] == Rematch(ids[i], envs(k + i))
  {
    if ids == [] then [] else [Rematch(ids[0], envs(k))] + RematchOps(ids[1..], envs, k + 1)
  }

  /** A rescan is a run of single matches, so it keeps every invariant a run keeps. */
  lemma {:induction false} RescanIsARun(db: Db, ids: seq<nat>, envs: nat -> Env, k: nat)
    ensures MatchEach(db, ids, envs, k) == Run(db, RematchOps(ids, envs, k))
    decreases |ids|
  {
    hide MatchSms;
    if ids != [] {
      var ops := RematchOps(ids, envs, k);
      assert ops[1..] == RematchOps(ids[1..], envs, k + 1);
      RescanIsARun(MatchIfThere(db, ids[0], envs(k)), ids[1..], envs, k + 1);
    }
  }

  /** Rows a visit did not touch are paged exactly as before. */
  lemma RescanIdsSame(a: seq<Sms>, b: seq<Sms>, company: nat, floor: int, from: nat)
    requires |a| == |b| && forall i :: from <= i < |a| ==> a[i] == b[i]
    ensures RescanIds(a, company, floor, from) == RescanIds(b, company, floor, from)
    decreases |a| - from
  {
    if from < |a| {
      RescanIdsSame(a, b, company, floor, from + 1);
    }
  }

  lemma RescanStep(sms: seq<Sms>, company: nat, floor: int, from: nat)
    ensures RescanIds(sms, company, floor, from)
      == if from >= |sms| then []
         else (if InRescan(sms[from], company, floor) then [from] else []) + RescanIds(sms, company, floor, from + 1)
  {
  }

  /** Moving the cursor past the k-th row leaves the rows after it. */
  lemma {:induction false} RescanIdsAfter(sms: seq<Sms>, company: nat, floor: int, from: nat, k: nat)
    requires k < |RescanIds(sms, company, floor, from)|
    ensures RescanIds(sms, company, floor, RescanIds(sms, company, floor, from)[k] + 1)
      == RescanIds(sms, company, floor, from)[k + 1..]
    decreases |sms| - from
  {
    hide InRescan, RescanIds;
    RescanStep(sms, company, floor, from);
    var rest := RescanIds(sms, company, floor, from + 1);
    if !InRescan(sms[from], company, floor) {
      RescanIdsAfter(sms, company, floor, from + 1, k);
    } else if k > 0 {
      RescanIdsAfter(sms, company, floor, from + 1, k - 1);
      assert ([from] + rest)[k + 1..] == rest[k..];
    } else {
      assert ([from] + rest)[1..] == rest;
    }
  }

  /** One page: each row matched in its own transaction. Rows beyond the page are left alone. */
  method VisitPage(t: PaymentTables, rows: seq<nat>, envs: nat -> Env, start: nat)
    requires forall k :: 0 <= k < |rows| ==> rows[k] < |t.sms|
    modifies t
    ensures t.State() == MatchEach(old(t.State()), rows, envs, start)
    ensures |t.sms| == |old(t.sms)|
    ensures forall s :: 0 <= s < |t.sms| && s !in rows ==> t.sms[s] == old(t.sms)[s]
  {
    hide DecideAndApply, MatchSms, MatchResult;
    var i := 0;
    while i < |rows|
      invariant 0 <= i <= |rows| && |t.sms| == |old(t.sms)|
      invariant MatchEach(t.State(), rows[i..], envs, start + i) == MatchEach(old(t.State()), rows, envs, start)
      invariant forall s :: 0 <= s < |t.sms| && s !in rows ==> t.sms[s] == old(t.sms)[s]
    {
      assert rows[i..][0] == rows[i] && rows[i..][1..] == rows[i + 1..];
      RunTouchesOneSms(t.State(), rows[i], envs(start + i));
      var _ := MatchBySms(t, rows[i], envs(start + i));
      i := i + 1;
    }
  }

  /** After a page, the cursor leaves exactly the rest of what there was to visit. */
  lemma NextPage(before: seq<Sms>, after: seq<Sms>, company: nat, floor: int, cursor: nat, n: nat)
    requires 0 < n <= |RescanIds(before, company, floor, cursor)| && |before| == |after|
    requires var r := RescanIds(before, company, floor, cursor);
      forall s :: 0 <= s < |after| && s !in r[..n] ==> after[s] == before[s]
    ensures var r := RescanIds(before, company, floor, cursor);
      RescanIds(after, company, floor, r[n - 1] + 1) == r[n..]
  {
    hide InRescan, RescanIds;
    var r := RescanIds(before, company, floor, cursor);
    RescanIdsAfter(before, company, floor, cursor, n - 1);
    BeyondPage(before, company, floor, cursor, n);
    RescanIdsSame(before, after, company, floor, r[n - 1] + 1);
  }

  /** Rows behind the cursor of a page are not on it. */
  lemma BeyondPage(sms: seq<Sms>, company: nat, floor: int, cursor: nat, n: nat)
    requires 0 < n <= |RescanIds(sms, company, floor, cursor)|
    ensures var r := RescanIds(sms, company, floor, cursor);
      forall s :: r[n - 1] < s ==> s !in r[..n]
  {
    hide InRescan, RescanIds;
    RescanIdsExact(sms, company, floor, cursor);
    var r := RescanIds(sms, company, floor, cursor);
    assert forall k :: 0 <= k < n ==> r[k] <= r[n - 1];
  }

  /** One turn of the paging loop: the next page in id order, and the cursor behind it. */
  method RescanPage(t: PaymentTables, company: nat, floor: int, cursor: nat, envs: nat -> Env, start: nat)
    returns (n: nat, next: nat)
    modifies t
    ensures |t.sms| == |old(t.sms)|
    ensures var left := RescanIds(old(t.sms), company, floor, cursor);
      && n == MinInt(|left|, 200)
      && MatchEach(t.State(), left[n..], envs, start + n) == MatchEach(old(t.State()), left, envs, start)
      && RescanIds(t.sms, company, floor, next) == left[n..]
    ensures n == 0 ==> next == cursor
    ensures n > 0 ==> cursor < next <= |t.sms|
  {
    hide InRescan, MatchIfThere, MatchEach, RescanIds;
    var left := RescanIds(t.sms, company, floor, cursor);
    n := MinInt(|left|, CHUNK);
    if n == 0 {
      assert left[0..] == left;
      return 0, cursor;
    }
    var rows := left[..n];
    ghost var paged := t.sms;
    MatchEachSplit(t.State(), rows, left[n..], envs, start);
    assert rows + left[n..] == left;
    VisitPage(t, rows, envs, start);
    NextPage(paged, t.sms, company, floor, cursor, n);
    next := rows[n - 1] + 1;
  }

  /**
   * The keyset-paginated rescan visits exactly the rows that were UNMATCHED and inside retention when it
   * started, each once and in id order, although every visit may change the row under the cursor.
   */
  method RescanCompany(t: PaymentTables, company: nat, floor: int, acquired: bool, envs: nat -> Env)
    returns (examined: int)
    modifies t
    ensures acquired ==>
      var ids := RescanIds(old(t.sms), company, floor, 0);
      examined == |ids| && t.State() == MatchEach(old(t.State()), ids, envs, 0)
    ensures !acquired ==> examined == -1 && t.State() == old(t.State())
  {
    hide *;
    if !acquired {
      return -1;
    }
    examined := 0;
    ghost var ids := RescanIds(t.sms, company, floor, 0);
    ghost var end := MatchEach(t.State(), ids, envs, 0);
    ghost var left := ids;
    var cursor := 0;
    while true
      invariant examined + |left| == |ids| && 0 <= examined
      invariant cursor <= |t.sms| == |old(t.sms)|
      invariant MatchEach(t.State(), left, envs, examined) == end
      invariant RescanIds(t.sms, company, floor, cursor) == left
      decreases |t.sms| - cursor
    {
      var n, next := RescanPage(t, company, floor, cursor, envs, examined);
      PageIs(|left|, n);
      left := left[n..];
      examined := examined + n;
      cursor := next;
      if n < CHUNK {
        break;
      }
    }
    assert left == [];
    MatchEachEnd(t.State(), envs, examined);
  }

  lemma PageIs(left: nat, n: nat)
    requires n == MinInt(left, 200)
    ensures n <= left && (n < CHUNK ==> n == left) && (n == 0 ==> n < CHUNK)
  {
  }

  lemma MatchEachEnd(db: Db, envs: nat -> Env, start: nat)
    ensures MatchEach(db, [], envs, start) == db
  {
  }
}
