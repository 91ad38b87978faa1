/** What a failed upload does to the rows of its batch, and for how long they stay out of the next one. */
module UploadFailure {
  import opened Prelude
  import opened Tables
  import opened Lifecycle
  import opened DeviceQueue
  import opened UploadPending
  import opened UploadProgress

  // ---------------------------------------------------------------- the wait, in columns

  predicate IsTransport(error: ApiError) { error.ApiNetwork? || error.ApiOther? }

  predicate IsForbidden(error: ApiError) {
    error.ApiDeviceBlocked? || error.ApiDeviceRetired? || error.ApiCompanySuspended?
  }

  /** The wait a rate-limited server asked for is a number whose milliseconds fit 64 bits, or no number at all. */
  predicate AsksSanely(error: ApiError) {
    error.ApiRateLimited? && error.retryAfter.Some? ==> error.retryAfter.value * 1000 < 0x8000_0000_0000_0000
  }

  /** Thirty seconds, doubled with every attempt before, up to an hour. */
  function BackoffMs(attempts: nat): int {
    if attempts >= 7 then 3_600_000 else [30_000, 60_000, 120_000, 240_000, 480_000, 960_000, 1_920_000][attempts]
  }

  /** How long a row waits after this error; a device that must enrol again does not wait for a time. */
  function WaitMs(error: ApiError, attempts: nat): int
    requires error != ApiUnauthenticated
  {
    if IsForbidden(error) then 3_600_000
    else if error.ApiRateLimited? then
      if error.retryAfter.None? || error.retryAfter.value < 0 then 30_000
      else if error.retryAfter.value <= 3600 then error.retryAfter.value * 1000
      else 3_600_000
    else BackoffMs(attempts)
  }

  lemma BackoffIs(attempts: nat)
    ensures DelayMs(attempts + 1) == BackoffMs(attempts)
  {
    if attempts >= 7 {
      DelayDoubles(attempts + 1);
    } else {
      assert Pow2(0) == 1 && Pow2(1) == 2 && Pow2(2) == 4 && Pow2(3) == 8;
      assert Pow2(4) == 16 && Pow2(5) == 32 && Pow2(6) == 64;
    }
  }

  /** The whole transition of a failed row, error by error. */
  predicate FailedAs(s: SyncState, s': SyncState, error: ApiError, now: int) {
    && s'.serverLog == s.serverLog && s'.serverMatch == s.serverMatch
    && s'.attempts == s.attempts + (if IsTransport(error) then 1 else 0)
    && s'.status == (if IsTransport(error) && s.attempts >= 10 then QFailed else QPending)
    && s'.lastError == (match error
                        case ApiNetwork(cause) => Some(cause)
                        case ApiOther(name) => Some(name)
                        case _ => s.lastError)
    && s'.nextAttemptAt ==
      if error == ApiUnauthenticated then s.nextAttemptAt else Some(now + WaitMs(error, s.attempts))
  }

  /** FAILED after ten transport failures, else waiting again; and for exactly how long. */
  lemma ErrorSetsState(s: SyncState, error: ApiError, now: int)
    requires AsksSanely(error)
    ensures FailedAs(s, Next(s, EventOf(error), now).state, error, now)
  {
    BackoffIs(s.attempts);
  }

  // ---------------------------------------------------------------- over the table

  predicate FailsWith(x: Exchange, error: ApiError) {
    x.answer == HttpError(error) || x.answer == Thrown(error)
  }

  /** A failed call fails exactly the rows of its batch, each from the state it was claimed in. */
  lemma FailedPassIs(rows: seq<Row>, c: Counters, x: Exchange, maxBatch: nat, error: ApiError, i: nat)
    requires DistinctHashes(rows) && FailsWith(x, error) && AsksSanely(error) && i < |rows|
    ensures var batch := ClaimBatch(rows, x.claimAt, maxBatch);
      var p := Pass(rows, c, x, maxBatch);
      && p.Stop? && |p.rows| == |rows| && p.counters == c
      && p.rows[i] == rows[i].(state := p.rows[i].state)
      && (if rows[i] in batch then FailedAs(rows[i].state, p.rows[i].state, error, x.settleAt)
          else p.rows[i] == rows[i])
      && p.outcome == (if batch == [] then Drained
                       else if x.answer.HttpError? && error == ApiUnauthenticated then ReenrollNeeded else RetryLater)
  {
    hide ClaimBatch, WriteAll, FailedAs, DistinctHashes, FailWrites, MarkUploading;
    FailedTableIs(rows, x.claimAt, x.settleAt, maxBatch, error, i);
    EmptyWritesNothing(rows, x.claimAt, x.settleAt, maxBatch, error);
  }

  /** The table after a failed call. */
  function FailedTable(rows: seq<Row>, claimAt: int, settleAt: int, maxBatch: nat, error: ApiError): seq<Row> {
    var batch := ClaimBatch(rows, claimAt, maxBatch);
    WriteAll(MarkUploading(rows, Hashes(batch)), FailWrites(batch, error, settleAt))
  }

  lemma EmptyWritesNothing(rows: seq<Row>, claimAt: int, settleAt: int, maxBatch: nat, error: ApiError)
    ensures ClaimBatch(rows, claimAt, maxBatch) == [] ==> FailedTable(rows, claimAt, settleAt, maxBatch, error) == rows
  {
    hide ClaimBatch;
  }

  lemma FailedTableIs(rows: seq<Row>, claimAt: int, settleAt: int, maxBatch: nat, error: ApiError, i: nat)
    requires DistinctHashes(rows) && AsksSanely(error) && i < |rows|
    ensures var t := FailedTable(rows, claimAt, settleAt, maxBatch, error);
      && |t| == |rows| && t[i] == rows[i].(state := t[i].state)
      && (if rows[i] in ClaimBatch(rows, claimAt, maxBatch) then FailedAs(rows[i].state, t[i].state, error, settleAt)
          else t[i] == rows[i])
  {
    hide ClaimBatch, WriteAll, Next, FailedAs, DistinctHashes, FailWrites;
    var batch := ClaimBatch(rows, claimAt, maxBatch);
    var ws := FailWrites(batch, error, settleAt);
    var claimed := MarkUploading(rows, Hashes(batch));
    FailWritesAre(batch, error, settleAt);
    BatchRowIs(rows, claimAt, maxBatch, i);
    WriteAllAt(claimed, ws, i);
    ErrorSetsState(rows[i].state, error, settleAt);
    if rows[i] in batch {
      var k :| 0 <= k < |batch| && batch[k] == rows[i];
      assert ws[k].hash == claimed[i].Hash();
      var m :| 0 <= m < |ws| && ws[m].hash == claimed[i].Hash() && WriteAll(claimed, ws)[i].state == ws[m].state;
      assert batch[m].Hash() == rows[i].Hash();
      SameKeyInBatch(rows, claimAt, maxBatch, i, m);
    } else {
      forall k | 0 <= k < |ws| ensures ws[k].hash != claimed[i].Hash() {
        assert HasHash(batch, batch[k].Hash());
      }
      assert claimed[i] == rows[i];
    }
  }

  lemma SameKeyInBatch(rows: seq<Row>, now: int, limit: nat, i: nat, m: nat)
    requires DistinctHashes(rows) && i < |rows| && m < |ClaimBatch(rows, now, limit)|
    requires ClaimBatch(rows, now, limit)[m].Hash() == rows[i].Hash()
    ensures ClaimBatch(rows, now, limit)[m] == rows[i]
  {
    assert ClaimBatch(rows, now, limit)[m] in rows;
  }

  /** Until its time comes no row of a failed batch is claimed again, unless the device has to enrol first. */
  lemma FailedRowsStayOut(
      rows: seq<Row>, c: Counters, x: Exchange, maxBatch: nat, error: ApiError, i: nat, now: int, limit: nat)
    requires DistinctHashes(rows) && FailsWith(x, error) && AsksSanely(error) && error != ApiUnauthenticated
    requires i < |rows| && rows[i] in ClaimBatch(rows, x.claimAt, maxBatch)
    requires now < x.settleAt + WaitMs(error, rows[i].state.attempts)
    ensures var rows' := Pass(rows, c, x, maxBatch).rows;
      i < |rows'| && rows'[i] !in ClaimBatch(rows', now, limit)
  {
    hide Pass, WaitMs, ClaimBatch;
    FailedPassIs(rows, c, x, maxBatch, error, i);
  }

  /** And from then on it is due, unless it is FAILED. */
  lemma FailedRowsComeBack(rows: seq<Row>, c: Counters, x: Exchange, maxBatch: nat, error: ApiError, i: nat, now: int)
    requires DistinctHashes(rows) && FailsWith(x, error) && AsksSanely(error) && error != ApiUnauthenticated
    requires i < |rows| && rows[i] in ClaimBatch(rows, x.claimAt, maxBatch)
    requires x.settleAt + WaitMs(error, rows[i].state.attempts) <= now
    ensures var rows' := Pass(rows, c, x, maxBatch).rows;
      i < |rows'| && (IsDueRow(rows'[i], now) <==> !(IsTransport(error) && rows[i].state.attempts >= 10))
  {
    hide Pass, WaitMs, ClaimBatch;
    FailedPassIs(rows, c, x, maxBatch, error, i);
  }
}
