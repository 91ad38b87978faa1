/**
 * The phone's upload queue: the per-row state machine (SyncStateMachine.kt), settlement of a batch reply
 * (Settlement.kt), retry timing (BackoffCalculator.kt) and the statements over the row table (Daos.kt).
 */
module DeviceQueue {
  import opened Prelude
  import opened Tables
  import opened Lifecycle

  datatype SyncStatus = QPending | QUploading | QUploaded | QRejected | QFailed

  datatype SyncState = SyncState(
    status: SyncStatus,
    attempts: nat,
    nextAttemptAt: Option<int>,
    lastError: Option<string>,
    serverLog: Option<nat>,
    serverMatch: Option<MatchStatus>)

  /** A captured message; `msg` is what goes on the wire and its client hash is the unique key. */
  datatype Row = Row(msg: Message, smsTimestamp: int, receivedAt: int, createdAt: int, state: SyncState) {
    function Hash(): string { msg.clientHash }
  }

  // ---------------------------------------------------------------- BackoffCalculator.kt

  const BASE_MS := 30_000
  const MAX_MS := HOUR_MS

  function Pow2(n: nat): (r: nat)
    ensures r >= 1
  {
    if n == 0 then 1 else 2 * Pow2(n - 1)
  }

  /** The queue passes no random source, so the jitter factor is exactly one. */
  function DelayMs(attempt: int): int {
    MinInt(BASE_MS * Pow2(if attempt >= 1 then attempt - 1 else 0), MAX_MS)
  }

  const TWO63 := 0x8000_0000_0000_0000
  const TWO64 := 0x1_0000_0000_0000_0000

  /** Two's-complement wrap-around of a 64-bit product. */
  function Wrap64(x: int): (r: int)
    ensures -TWO63 <= r < TWO63
    ensures -TWO63 <= x < TWO63 ==> r == x
  {
    (x + TWO63) % TWO64 - TWO63
  }

  function RetryAfterMs(seconds: Option<int>): int {
    if seconds.None? || seconds.value < 0 then BASE_MS else MinInt(Wrap64(seconds.value * 1000), MAX_MS)
  }

  /** The delays double from thirty seconds, never shrink, and stay between thirty seconds and an hour. */
  lemma {:induction false} DelayDoubles(n: nat)
    requires n >= 1
    ensures DelayMs(0) == DelayMs(1) == 30_000 <= DelayMs(n) <= 3_600_000
    ensures DelayMs(n + 1) == MinInt(2 * DelayMs(n), MAX_MS)
    ensures n >= 8 <==> DelayMs(n) == MAX_MS
  {
    Pow2At(n);
    assert Pow2(n) == 2 * Pow2(n - 1);
  }

  lemma {:induction false} Pow2At(n: nat)
    requires n >= 1
    ensures n >= 8 <==> Pow2(n - 1) >= 120
  {
    if n >= 9 {
      Pow2At(n - 1);
    } else {
      assert Pow2(0) == 1 && Pow2(1) == 2 && Pow2(2) == 4 && Pow2(3) == 8;
      assert Pow2(4) == 16 && Pow2(5) == 32 && Pow2(6) == 64 && Pow2(7) == 128;
    }
  }

  /** A server-given wait stays within the hour exactly when its conversion to milliseconds does not wrap. */
  lemma RetryAfterBoundedIff(seconds: int)
    ensures 0 <= RetryAfterMs(Some(seconds)) <= MAX_MS <==> seconds < 0 || seconds * 1000 % TWO64 < TWO63
    ensures 0 <= seconds * 1000 < TWO63 ==> RetryAfterMs(Some(seconds)) == MinInt(seconds * 1000, MAX_MS)
    ensures RetryAfterMs(Some(9_223_372_036_854_776)) < 0
  {
    hide Wrap64;
    WrapSignIs(seconds * 1000);
    WrapSignIs(9_223_372_036_854_776_000);
    assert 9_223_372_036_854_776_000 % TWO64 == 9_223_372_036_854_776_000;
  }

  /** The wrapped product is negative exactly when its low 64 bits are at least two to the 63rd. */
  lemma WrapSignIs(x: int)
    ensures Wrap64(x) == (if x % TWO64 < TWO63 then x % TWO64 else x % TWO64 - TWO64)
  {
    var r := x % TWO64;
    var q := x / TWO64;
    assert x == q * TWO64 + r;
    if r < TWO63 {
      assert x + TWO63 == q * TWO64 + (r + TWO63);
    } else {
      assert x + TWO63 == (q + 1) * TWO64 + (r - TWO63);
    }
  }

  // ---------------------------------------------------------------- SyncStateMachine.kt

  datatype SyncEvent =
    | Enqueue | Claim
    | Accepted(log: Option<nat>, serverMatch: Option<MatchStatus>)
    | Duplicate(log: Option<nat>, serverMatch: Option<MatchStatus>)
    | RejectedBy(reason: string)
    | Unauthenticated | Forbidden
    | RateLimited(retryAfter: Option<int>)
    | TransportFailure(error: string)
    | StaleClaimReclaimed

  datatype DeviceEffect = NoEffect | NeedsReenroll | BackOffHourly | PauseUntilRetryAfter

  datatype Transition = Transition(state: SyncState, effect: DeviceEffect)

  const MAX_ATTEMPTS := 10
  const STALE_CLAIM_MS := 5 * 60 * 1000

  function Next(s: SyncState, e: SyncEvent, now: int): Transition {
    match e
    case Enqueue => Transition(s.(status := QPending, nextAttemptAt := Some(now)), NoEffect)
    case Claim => Transition(if s.status.QPending? then s.(status := QUploading) else s, NoEffect)
    case Accepted(log, m) => Transition(Arrived(s, log, m), NoEffect)
    case Duplicate(log, m) => Transition(Arrived(s, log, m), NoEffect)
    case RejectedBy(reason) =>
      Transition(s.(status := QRejected, lastError := Some(reason), nextAttemptAt := None), NoEffect)
    case Unauthenticated => Transition(s.(status := QPending), NeedsReenroll)
    case Forbidden => Transition(s.(status := QPending, nextAttemptAt := Some(now + HOUR_MS)), BackOffHourly)
    case RateLimited(after) =>
      Transition(s.(status := QPending, nextAttemptAt := Some(now + RetryAfterMs(after))), PauseUntilRetryAfter)
    case TransportFailure(error) =>
      var n := s.attempts + 1;
      Transition(s.(
        status := if n > MAX_ATTEMPTS then QFailed else QPending, attempts := n, lastError := Some(error),
        nextAttemptAt := Some(now + DelayMs(n))), NoEffect)
    case StaleClaimReclaimed =>
      Transition(if s.status.QUploading? then s.(status := QPending, nextAttemptAt := Some(now)) else s, NoEffect)
  }

  /** A duplicate is success: the server already holds the message. */
  function Arrived(s: SyncState, log: Option<nat>, m: Option<MatchStatus>): SyncState {
    s.(status := QUploaded, serverLog := log, serverMatch := m, lastError := None, nextAttemptAt := None)
  }

  datatype ApiError =
    | ApiUnauthenticated | ApiDeviceBlocked | ApiDeviceRetired | ApiCompanySuspended
    | ApiRateLimited(retryAfter: Option<int>) | ApiNetwork(cause: string) | ApiOther(name: string)

  function EventOf(error: ApiError): SyncEvent {
    match error
    case ApiUnauthenticated => Unauthenticated
    case ApiDeviceBlocked => Forbidden
    case ApiDeviceRetired => Forbidden
    case ApiCompanySuspended => Forbidden
    case ApiRateLimited(after) => RateLimited(after)
    case ApiNetwork(cause) => TransportFailure(cause)
    case ApiOther(name) => TransportFailure(name)
  }

  /** Failing a claimed row never loses it: it waits again, or after its eleventh transport failure is FAILED. */
  lemma FailedRowWaits(s: SyncState, error: ApiError, now: int)
    ensures var s' := Next(s, EventOf(error), now).state;
      && (s'.status.QFailed? <==> EventOf(error).TransportFailure? && s.attempts >= MAX_ATTEMPTS)
      && (!s'.status.QFailed? ==> s'.status.QPending?)
      && s'.attempts == s.attempts + (if EventOf(error).TransportFailure? then 1 else 0)
      && (EventOf(error).TransportFailure? ==>
            s'.nextAttemptAt.Some? && now + BASE_MS <= s'.nextAttemptAt.value <= now + MAX_MS)
  {
  }

  // ---------------------------------------------------------------- Settlement.kt

  datatype ReplyStatus = RepAccepted | RepDuplicate | RepRejected | RepUnknown

  datatype Reply = Reply(
    hash: string, status: ReplyStatus, log: Option<nat>, matchStatus: Option<MatchStatus>, reason: Option<string>)

  /** One row write: the key and the state to store. */
  datatype Write = Write(hash: string, state: SyncState)

  function ReplyEvent(r: Reply): Option<SyncEvent> {
    match r.status
    case RepAccepted => Some(Accepted(r.log, r.matchStatus))
    case RepDuplicate => Some(Duplicate(r.log, r.matchStatus))
    case RepRejected => Some(RejectedBy(r.reason.GetOr("REJECTED")))
    case RepUnknown => None
  }

  /** The state the row had when it was claimed. */
  function SentState(batch: seq<Row>, hash: string): (r: Option<SyncState>)
    ensures r.Some? <==> HasHash(batch, hash)
    ensures r.Some? ==> exists k :: 0 <= k < |batch| && batch[k].Hash() == hash && r == Some(batch[k].state)
  {
    if batch == [] then None
    else
      assert batch == [batch[0]] + batch[1..];
      if batch[0].Hash() == hash then Some(batch[0].state) else SentState(batch[1..], hash)
  }

  predicate HasHash(rows: seq<Row>, hash: string) {
    exists k :: 0 <= k < |rows| && rows[k].Hash() == hash
  }

  function SettleWrite(batch: seq<Row>, r: Reply, now: int): Option<Write> {
    match SentState(batch, r.hash)
    case None => None
    case Some(s) =>
      match ReplyEvent(r)
      case None => None
      case Some(e) => Some(Write(r.hash, Next(s, e, now).state))
  }

  /** A settled row is UPLOADED or REJECTED. */
  lemma SettleWriteIs(batch: seq<Row>, r: Reply, now: int)
    ensures SettleWrite(batch, r, now).Some? ==>
      var w := SettleWrite(batch, r, now).value;
      && w.hash == r.hash && HasHash(batch, r.hash)
      && (if r.status.RepRejected? then w.state.status.QRejected? else w.state.status.QUploaded?)
    ensures SettleWrite(batch, r, now).None? <==> !HasHash(batch, r.hash) || r.status.RepUnknown?
  {
  }

  /** A rejected row keeps its attempts, stores the reason given, or the word itself, and is not tried again. */
  lemma RejectionStores(batch: seq<Row>, r: Reply, now: int)
    requires SettleWrite(batch, r, now).Some? && r.status.RepRejected?
    ensures var s := SettleWrite(batch, r, now).value.state;
      && s.status == QRejected && s.nextAttemptAt == None
      && s.lastError == Some(if r.reason.Some? then r.reason.value else "REJECTED")
      && exists k :: 0 <= k < |batch| && batch[k].Hash() == r.hash && s.attempts == batch[k].state.attempts
          && s.serverLog == batch[k].state.serverLog
  {
  }

  function SettleWrites(batch: seq<Row>, results: seq<Reply>, now: int): (r: seq<Write>) {
    if results == [] then []
    else
      var before := SettleWrites(batch, results[..|results| - 1], now);
      match SettleWrite(batch, results[|results| - 1], now)
      case None => before
      case Some(w) => before + [w]
  }

  predicate Mentioned(results: seq<Reply>, hash: string) {
    exists k :: 0 <= k < |results| && results[k].hash == hash
  }

  /** Rows the reply says nothing about go back to PENDING as they were claimed. */
  function MissedWrites(batch: seq<Row>, results: seq<Reply>): (r: seq<Write>)
    ensures forall k :: 0 <= k < |r| ==> r[k].state.status.QPending? && !Mentioned(results, r[k].hash)
    ensures forall j :: 0 <= j < |batch| && !Mentioned(results, batch[j].Hash()) ==>
      Write(batch[j].Hash(), batch[j].state.(status := QPending)) in r
    ensures forall k :: 0 <= k < |r| ==>
      exists j :: 0 <= j < |batch| && r[k] == Write(batch[j].Hash(), batch[j].state.(status := QPending))
  {
    if batch == [] then []
    else
      var last := batch[|batch| - 1];
      var before := MissedWrites(batch[..|batch| - 1], results);
      if Mentioned(results, last.Hash()) then before
      else before + [Write(last.Hash(), last.state.(status := QPending))]
  }

  // ---------------------------------------------------------------- Daos.kt

  ghost predicate DistinctHashes(rows: seq<Row>) {
    forall i, j :: 0 <= i < j < |rows| ==> rows[i].Hash() != rows[j].Hash()
  }

  /** The statements that claim, reclaim and requeue rows make the transitions of the state machine. */
  lemma StatementsFollowMachine(r: Row, now: int, staleBefore: int)
    ensures var claimed := MarkIn({r.Hash()})(r);
      r.state.status.QPending? ==> claimed == r.(state := Next(r.state, Claim, now).state)
    ensures var reclaimed := ReclaimAt(now, staleBefore)(r);
      r.receivedAt < staleBefore ==> reclaimed == r.(state := Next(r.state, StaleClaimReclaimed, now).state)
    ensures var requeued := RequeueAt(now)(r);
      r.state.status.QFailed? ==> requeued == r.(state := Next(r.state, Enqueue, now).state.(attempts := 0))
  {
  }

  /** A row the server accepted or already had keeps its attempts and takes the server's id and status. */
  lemma ReplyHeals(batch: seq<Row>, r: Reply, now: int)
    requires SettleWrite(batch, r, now).Some? && !r.status.RepRejected?
    ensures var s := SettleWrite(batch, r, now).value.state;
      && s.status.QUploaded? && s.serverLog == r.log && s.serverMatch == r.matchStatus
      && s.lastError.None? && s.nextAttemptAt.None?
      && exists k :: 0 <= k < |batch| && batch[k].Hash() == r.hash && s.attempts == batch[k].state.attempts
  {
  }

  function InsertIgnore(rows: seq<Row>, row: Row): (seq<Row>, bool) {
    if HasHash(rows, row.Hash()) then (rows, false) else (rows + [row], true)
  }

  function Select(rows: seq<Row>, keep: Row -> bool): (r: seq<Row>)
    ensures forall x :: x in r <==> x in rows && keep(x)
    ensures DistinctHashes(rows) ==> DistinctHashes(r)
    ensures |r| <= |rows|
  {
    if rows == [] then []
    else
      assert rows == [rows[0]] + rows[1..];
      var rest := Select(rows[1..], keep);
      if keep(rows[0]) then
        assert DistinctHashes(rows) ==> DistinctHashes(rows[1..]);
        assert DistinctHashes(rows) ==> forall k :: 0 <= k < |rest| ==> rest[k] in rows[1..];
        [rows[0]] + rest
      else rest
  }

  predicate IsDueRow(r: Row, now: int) {
    r.state.status.QPending? && (r.state.nextAttemptAt.None? || r.state.nextAttemptAt.value <= now)
  }

  function DueAt(now: int): Row -> bool { (r: Row) => IsDueRow(r, now) }

  function OldestKey(r: Row): real { -(r.smsTimestamp as real) }

  /** Due rows, oldest SMS first, at most `limit`. */
  function ClaimBatch(rows: seq<Row>, now: int, limit: nat): (r: seq<Row>)
    ensures |r| <= limit && |r| <= |rows|
    ensures forall k :: 0 <= k < |r| ==> r[k] in rows && IsDueRow(r[k], now)
    ensures |r| < limit ==> forall x :: x in rows && IsDueRow(x, now) ==> x in r
  {
    FirstDueRows(rows, now, limit);
    Take(SortDesc(Select(rows, DueAt(now)), OldestKey), limit)
  }

  lemma FirstDueRows(rows: seq<Row>, now: int, limit: nat)
    ensures var r := Take(SortDesc(Select(rows, DueAt(now)), OldestKey), limit);
      && |r| <= limit && |r| <= |rows|
      && (forall k :: 0 <= k < |r| ==> r[k] in rows && IsDueRow(r[k], now))
      && (|r| < limit ==> forall x :: x in rows && IsDueRow(x, now) ==> x in r)
  {
    hide SortDesc, IsDueRow;
    var due := Select(rows, DueAt(now));
    var sorted := SortDesc(due, OldestKey);
    SameElements(due, sorted);
    var r := Take(sorted, limit);
    forall k | 0 <= k < |r| ensures r[k] in rows && IsDueRow(r[k], now) {
      assert r[k] == sorted[k] && sorted[k] in due && DueAt(now)(sorted[k]);
    }
    assert |r| < limit ==> r == sorted;
    forall x | x in rows && IsDueRow(x, now) ensures x in sorted {
      assert DueAt(now)(x);
    }
  }

  /** A batch is oldest first. */
  lemma ClaimIsOldestFirst(rows: seq<Row>, now: int, limit: nat, j: nat, k: nat)
    requires j < k < |ClaimBatch(rows, now, limit)|
    ensures ClaimBatch(rows, now, limit)[j].smsTimestamp <= ClaimBatch(rows, now, limit)[k].smsTimestamp
  {
    hide Select;
    var sorted := SortDesc(Select(rows, DueAt(now)), OldestKey);
    assert OldestKey(sorted[j]) >= OldestKey(sorted[k]);
  }

  /** No waiting row outside a full batch is older than one inside it. */
  lemma ClaimTakesOldest(rows: seq<Row>, now: int, limit: nat, x: Row, k: nat)
    requires x in rows && IsDueRow(x, now)
    requires k < |ClaimBatch(rows, now, limit)|
    ensures var r := ClaimBatch(rows, now, limit);
      x in r || (|r| == limit && r[k].smsTimestamp <= x.smsTimestamp)
  {
    var due := Select(rows, DueAt(now));
    var sorted := SortDesc(due, OldestKey);
    SameElements(due, sorted);
    assert DueAt(now)(x) && x in due;
    var j :| 0 <= j < |sorted| && sorted[j] == x;
    if j >= limit {
      assert OldestKey(sorted[k]) >= OldestKey(sorted[j]);
    }
  }

  lemma ClaimIsDistinct(rows: seq<Row>, now: int, limit: nat)
    requires DistinctHashes(rows)
    ensures DistinctHashes(ClaimBatch(rows, now, limit))
  {
    var due := Select(rows, DueAt(now));
    var sorted := SortDesc(due, OldestKey);
    DistinctRows(due, sorted);
  }

  lemma DistinctRows(a: seq<Row>, b: seq<Row>)
    requires multiset(a) == multiset(b) && DistinctHashes(a)
    ensures DistinctHashes(b)
  {
    assert Distinct(a);
    DistinctPermutation(a, b);
    forall i, j | 0 <= i < j < |b| ensures b[i].Hash() != b[j].Hash() {
      assert b[i] in multiset(a) && b[j] in multiset(a);
      var k :| 0 <= k < |a| && a[k] == b[i];
      var l :| 0 <= l < |a| && a[l] == b[j];
      assert k != l;
    }
  }

  function Hashes(rows: seq<Row>): (r: set<string>)
    ensures forall h :: h in r <==> HasHash(rows, h)
  {
    set k | 0 <= k < |rows| :: rows[k].Hash()
  }

  function MarkIn(hashes: set<string>): Row -> Row {
    (r: Row) => if r.Hash() in hashes then r.(state := r.state.(status := QUploading)) else r
  }

  function MarkUploading(rows: seq<Row>, hashes: set<string>): (r: seq<Row>)
    ensures |r| == |rows|
  {
    MapSeq(MarkIn(hashes), rows)
  }

  function WriteTo(w: Write): Row -> Row {
    (r: Row) => if r.Hash() == w.hash then r.(state := w.state) else r
  }

  function WriteRow(rows: seq<Row>, w: Write): seq<Row> {
    MapSeq(WriteTo(w), rows)
  }

  function WriteAll(rows: seq<Row>, ws: seq<Write>): (r: seq<Row>)
    ensures |r| == |rows|
    decreases |ws|
  {
    if ws == [] then rows else WriteRow(WriteAll(rows, ws[..|ws| - 1]), ws[|ws| - 1])
  }

  function ReclaimAt(now: int, staleBefore: int): Row -> Row {
    (r: Row) =>
      if r.state.status.QUploading? && r.receivedAt < staleBefore
      then r.(state := r.state.(status := QPending, nextAttemptAt := Some(now)))
      else r
  }

  function ReclaimStale(rows: seq<Row>, now: int, staleBefore: int): seq<Row> {
    MapSeq(ReclaimAt(now, staleBefore), rows)
  }

  function RequeueAt(now: int): Row -> Row {
    (r: Row) =>
      if r.state.status.QFailed?
      then r.(state := r.state.(status := QPending, nextAttemptAt := Some(now), attempts := 0))
      else r
  }

  function RequeueFailed(rows: seq<Row>, now: int): seq<Row> {
    MapSeq(RequeueAt(now), rows)
  }

  function NotPurged(cutoff: int): Row -> bool {
    (r: Row) => !(r.state.status.QUploaded? && r.createdAt < cutoff)
  }

  function PurgeUploaded(rows: seq<Row>, cutoff: int): seq<Row> {
    Select(rows, NotPurged(cutoff))
  }

  function PendingCount(rows: seq<Row>): nat {
    if rows == [] then 0 else PendingCount(rows[1..]) + if rows[0].state.status.QPending? then 1 else 0
  }

  lemma {:induction false} PendingCountLast(rows: seq<Row>)
    requires rows != []
    ensures PendingCount(rows)
      == PendingCount(rows[..|rows| - 1]) + if rows[|rows| - 1].state.status == QPending then 1 else 0
    decreases |rows|
  {
    if |rows| > 1 {
      PendingCountLast(rows[1..]);
      assert rows[1..][..|rows| - 2] == rows[..|rows| - 1][1..];
    }
  }

  /** The number of PENDING rows. */
  lemma {:induction false} PendingCountIs(rows: seq<Row>)
    ensures PendingCount(rows) == |set i | 0 <= i < |rows| && rows[i].state.status == QPending|
    decreases |rows|
  {
    if rows != [] {
      var n := |rows| - 1;
      PendingCountLast(rows);
      PendingCountIs(rows[..n]);
      var before, all := set i | 0 <= i < n && rows[..n][i].state.status == QPending,
        set i | 0 <= i < |rows| && rows[i].state.status == QPending;
      assert all == if rows[n].state.status == QPending then before + {n} else before;
    }
  }

  lemma {:induction false} PendingCountFalls(a: seq<Row>, b: seq<Row>)
    requires |a| == |b|
    requires forall i :: 0 <= i < |a| && b[i].state.status.QPending? ==> a[i].state.status.QPending?
    ensures PendingCount(b) <= PendingCount(a)
    ensures (exists i :: 0 <= i < |a| && a[i].state.status.QPending? && !b[i].state.status.QPending?) ==>
      PendingCount(b) < PendingCount(a)
  {
    if a != [] {
      PendingCountFalls(a[1..], b[1..]);
      if i :| 0 < i < |a| && a[i].state.status.QPending? && !b[i].state.status.QPending? {
        assert a[1..][i - 1] == a[i] && b[1..][i - 1] == b[i];
      }
    }
  }

  lemma WriteAllStep(rows: seq<Row>, ws: seq<Write>, i: nat)
    requires i < |rows|
    ensures WriteAll(rows, ws)[i] ==
      if ws == [] then rows[i] else WriteTo(ws[|ws| - 1])(WriteAll(rows, ws[..|ws| - 1])[i])
  {
  }

  /** What a list of writes leaves in a row: the last write to its key, if any. */
  lemma {:induction false} WriteAllAt(rows: seq<Row>, ws: seq<Write>, i: nat)
    requires i < |rows|
    ensures var r := WriteAll(rows, ws)[i];
      && r == rows[i].(state := r.state)
      && ((forall k :: 0 <= k < |ws| ==> ws[k].hash != rows[i].Hash()) ==> r == rows[i])
      && ((exists k :: 0 <= k < |ws| && ws[k].hash == rows[i].Hash()) ==>
            exists k :: 0 <= k < |ws| && ws[k].hash == rows[i].Hash() && r.state == ws[k].state
              && forall l :: k < l < |ws| ==> ws[l].hash != rows[i].Hash())
    decreases |ws|
  {
    hide WriteAll;
    WriteAllStep(rows, ws, i);
    if ws != [] {
      var init, last := ws[..|ws| - 1], ws[|ws| - 1];
      WriteAllAt(rows, init, i);
      var r := WriteAll(rows, ws)[i];
      if last.hash == rows[i].Hash() {
        assert ws[|ws| - 1].hash == rows[i].Hash() && r.state == ws[|ws| - 1].state;
      } else {
        assert r == WriteAll(rows, init)[i];
        if k :| 0 <= k < |ws| && ws[k].hash == rows[i].Hash() {
          assert init[k].hash == rows[i].Hash();
          var m :| 0 <= m < |init| && init[m].hash == rows[i].Hash() && r.state == init[m].state
            && forall l :: m < l < |init| ==> init[l].hash != rows[i].Hash();
          assert ws[m] == init[m];
          assert forall l :: m < l < |ws| ==> l == |init| || ws[l] == init[l];
        }
      }
    }
  }

  /** Every write of a settlement answers one of the replies ... */
  lemma {:induction false} WriteComesFrom(batch: seq<Row>, results: seq<Reply>, now: int, w: Write) returns (j: nat)
    requires w in SettleWrites(batch, results, now)
    ensures j < |results| && SettleWrite(batch, results[j], now) == Some(w)
    decreases |results|
  {
    hide SettleWrite;
    if SettleWrite(batch, results[|results| - 1], now) == Some(w) {
      j := |results| - 1;
    } else {
      j := WriteComesFrom(batch, results[..|results| - 1], now, w);
    }
  }

  /** ... and every missed write one of the rows sent. */
  lemma {:induction false} MissComesFrom(batch: seq<Row>, results: seq<Reply>, w: Write) returns (j: nat)
    requires w in MissedWrites(batch, results)
    ensures j < |batch| && w == Write(batch[j].Hash(), batch[j].state.(status := QPending))
    decreases |batch|
  {
    var last := batch[|batch| - 1];
    if w == Write(last.Hash(), last.state.(status := QPending)) {
      j := |batch| - 1;
    } else {
      j := MissComesFrom(batch[..|batch| - 1], results, w);
    }
  }

  /** And every known reply to a sent hash is written. */
  lemma {:induction false} KnownRepliesAreWritten(batch: seq<Row>, results: seq<Reply>, now: int, j: nat)
    requires j < |results| && SettleWrite(batch, results[j], now).Some?
    ensures SettleWrite(batch, results[j], now).value in SettleWrites(batch, results, now)
    decreases |results|
  {
    hide SettleWrite;
    if j < |results| - 1 {
      KnownRepliesAreWritten(batch, results[..|results| - 1], now, j);
    }
  }
}
