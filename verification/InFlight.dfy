/** Which rows a drain leaves UPLOADING (UploadPending.kt, Settlement.kt). */
module InFlight {
  import opened DeviceQueue
  import opened UploadPending
  import opened UploadProgress

  /** The reply names the hash, and every time with a status the app does not know. */
  predicate UnknownAlone(results: seq<Reply>, hash: string) {
    && Mentioned(results, hash)
    && forall k :: 0 <= k < |results| && results[k].hash == hash ==> results[k].status.RepUnknown?
  }

  predicate UnknownOneOf(batch: seq<Row>, results: seq<Reply>) {
    exists k :: 0 <= k < |batch| && UnknownAlone(results, batch[k].Hash())
  }

  /** A row the pass claimed is named in its reply with unknown statuses alone. */
  predicate LeavesInFlight(rows: seq<Row>, x: Exchange, maxBatch: nat) {
    x.answer.Results? && UnknownOneOf(ClaimBatch(rows, x.claimAt, maxBatch), x.answer.results)
  }

  ghost predicate SomeUploading(rows: seq<Row>) {
    exists i :: 0 <= i < |rows| && rows[i].state.status.QUploading?
  }

  // ---------------------------------------------------------------- one pass

  /** A claimed row is still UPLOADING after the settlement writes exactly when no reply to it is known. */
  lemma WritesLeaveUploadingIff(rows: seq<Row>, batch: seq<Row>, results: seq<Reply>, now: int, i: nat)
    requires i < |rows| && HasHash(batch, rows[i].Hash()) && rows[i].state.status.QUploading?
    ensures WriteAll(rows, SettleWrites(batch, results, now))[i].state.status.QUploading?
      <==> forall k :: 0 <= k < |results| && results[k].hash == rows[i].Hash() ==> results[k].status.RepUnknown?
  {
    hide SettleWrite, SettleWrites, WriteAll;
    var ws := SettleWrites(batch, results, now);
    forall k | 0 <= k < |ws|
      ensures exists j :: 0 <= j < |results| && results[j].hash == ws[k].hash && !results[j].status.RepUnknown?
      ensures !ws[k].state.status.QUploading?
    {
      var j := WriteComesFrom(batch, results, now, ws[k]);
      SettleWriteIs(batch, results[j], now);
    }
    WriteAllAt(rows, ws, i);
    if j :| 0 <= j < |results| && results[j].hash == rows[i].Hash() && !results[j].status.RepUnknown? {
      SettleWriteIs(batch, results[j], now);
      KnownRepliesAreWritten(batch, results, now, j);
    }
  }

  /** Row by row: an answered pass leaves UPLOADING what was, and the claimed rows with unknown replies alone. */
  lemma SettledUploadingIff(rows: seq<Row>, x: Exchange, maxBatch: nat, i: nat)
    requires DistinctHashes(rows) && i < |rows| && x.answer.Results?
    ensures var batch := ClaimBatch(rows, x.claimAt, maxBatch);
      var settled := Settled(MarkUploading(rows, Hashes(batch)), batch, x.answer.results, x.settleAt);
      && |settled| == |rows|
      && (settled[i].state.status.QUploading? <==>
            if rows[i] in batch then UnknownAlone(x.answer.results, rows[i].Hash())
            else rows[i].state.status.QUploading?)
  {
    hide ClaimBatch, WriteAll, DistinctHashes, Mentioned, MissedWrites, SettleWrites;
    var batch := ClaimBatch(rows, x.claimAt, maxBatch);
    var claimed := MarkUploading(rows, Hashes(batch));
    var mid := WriteAll(claimed, SettleWrites(batch, x.answer.results, x.settleAt));
    BatchRowIs(rows, x.claimAt, maxBatch, i);
    SettledAt(rows, x, maxBatch, i);
    if rows[i] in batch {
      MidAt(rows, x, maxBatch, i);
      MissedAt(rows, mid, x.claimAt, maxBatch, x.answer.results, i);
      assert claimed[i].Hash() == rows[i].Hash() && claimed[i].state.status.QUploading?;
      WritesLeaveUploadingIff(claimed, batch, x.answer.results, x.settleAt, i);
    }
  }

  lemma PassUploadingIff(rows: seq<Row>, c: Counters, x: Exchange, maxBatch: nat)
    requires DistinctHashes(rows)
    requires var p := Pass(rows, c, x, maxBatch); p.Go? || p.outcome.Drained?
    ensures var rows' := Pass(rows, c, x, maxBatch).rows;
      SomeUploading(rows') <==> SomeUploading(rows) || LeavesInFlight(rows, x, maxBatch)
  {
    hide ClaimBatch, Settled, MarkUploading, UnknownAlone, DistinctHashes;
    var batch := ClaimBatch(rows, x.claimAt, maxBatch);
    if batch != [] {
      var rows' := Pass(rows, c, x, maxBatch).rows;
      assert rows' == Settled(MarkUploading(rows, Hashes(batch)), batch, x.answer.results, x.settleAt);
      forall i | 0 <= i < |rows|
        ensures rows'[i].state.status.QUploading? <==>
          if rows[i] in batch then UnknownAlone(x.answer.results, rows[i].Hash())
          else rows[i].state.status.QUploading?
      {
        SettledUploadingIff(rows, x, maxBatch, i);
      }
      UploadingCarries(rows, rows', batch, x.answer.results);
    }
  }

  lemma UploadingCarries(rows: seq<Row>, rows': seq<Row>, batch: seq<Row>, results: seq<Reply>)
    requires |rows'| == |rows| && forall k :: 0 <= k < |batch| ==> batch[k] in rows && batch[k].state.status.QPending?
    requires forall i :: 0 <= i < |rows| ==>
      (rows'[i].state.status.QUploading? <==>
        if rows[i] in batch then UnknownAlone(results, rows[i].Hash()) else rows[i].state.status.QUploading?)
    ensures SomeUploading(rows') <==> SomeUploading(rows) || UnknownOneOf(batch, results)
  {
    hide UnknownAlone;
    if i :| 0 <= i < |rows| && rows[i].state.status.QUploading? {
      assert rows'[i].state.status.QUploading?;
    }
    if k :| 0 <= k < |batch| && UnknownAlone(results, batch[k].Hash()) {
      assert batch[k] in rows;
      var i :| 0 <= i < |rows| && rows[i] == batch[k];
      assert rows'[i].state.status.QUploading?;
    }
    if i :| 0 <= i < |rows'| && rows'[i].state.status.QUploading? {
      if rows[i] in batch {
        var k :| 0 <= k < |batch| && batch[k] == rows[i];
        assert UnknownAlone(results, batch[k].Hash());
      }
    }
  }

  // ---------------------------------------------------------------- the whole loop

  /** Pass `j` of the loop is reached, and leaves a row it claimed in flight. */
  ghost predicate LeftAt(rows: seq<Row>, world: nat -> Exchange, j: nat, maxBatch: nat) {
    var p := Passes(rows, ZERO, world, 0, j, maxBatch);
    p.Go? && LeavesInFlight(p.rows, world(j), maxBatch)
  }

  lemma {:induction false} GoingUploadingIff(rows: seq<Row>, world: nat -> Exchange, n: nat, maxBatch: nat)
    requires DistinctHashes(rows) && Passes(rows, ZERO, world, 0, n, maxBatch).Go?
    ensures SomeUploading(Passes(rows, ZERO, world, 0, n, maxBatch).rows)
      <==> SomeUploading(rows) || exists j: nat :: j < n && LeftAt(rows, world, j, maxBatch)
    decreases n
  {
    hide Pass, Passes, DistinctHashes, SomeUploading, LeavesInFlight;
    if n == 0 {
      PassesUnfold(rows, ZERO, world, 0, 0, maxBatch);
    } else {
      RowsStayDistinct(rows, world, n, maxBatch);
      RowsStayDistinct(rows, world, n - 1, maxBatch);
      GoingUploadingIff(rows, world, n - 1, maxBatch);
      var p := Passes(rows, ZERO, world, 0, n - 1, maxBatch);
      PassUploadingIff(p.rows, p.counters, world(n - 1), maxBatch);
      assert LeftAt(rows, world, n - 1, maxBatch) <==> LeavesInFlight(p.rows, world(n - 1), maxBatch);
    }
  }

  lemma {:induction false} FirstStop(rows: seq<Row>, world: nat -> Exchange, n: nat, maxBatch: nat) returns (m: nat)
    requires Passes(rows, ZERO, world, 0, n, maxBatch).Stop?
    ensures Passes(rows, ZERO, world, 0, m, maxBatch).Go? && Passes(rows, ZERO, world, 0, m + 1, maxBatch).Stop?
    decreases n
  {
    hide Pass, Passes;
    PassesUnfold(rows, ZERO, world, 0, n, maxBatch);
    if Passes(rows, ZERO, world, 0, n - 1, maxBatch).Stop? {
      m := FirstStop(rows, world, n - 1, maxBatch);
    } else {
      m := n - 1;
    }
  }

  /**
   * A loop that ends drained leaves some row UPLOADING exactly when one was UPLOADING at its start, or one of its
   * passes claimed a row that its reply named with unknown statuses alone.
   */
  lemma EndUploadingIff(rows: seq<Row>, world: nat -> Exchange, maxBatch: nat, end: PassOutcome)
    requires DistinctHashes(rows) && Finishes(rows, world, maxBatch) && EndsAs(rows, world, maxBatch, end)
    requires end.Stop? && end.outcome.Drained?
    ensures SomeUploading(end.rows) <==> SomeUploading(rows) || exists j: nat :: LeftAt(rows, world, j, maxBatch)
  {
    hide Pass, Passes, DistinctHashes, SomeUploading, LeavesInFlight;
    var n: nat :| Passes(rows, ZERO, world, 0, n, maxBatch).Stop?;
    var m := FirstStop(rows, world, n, maxBatch);
    LastPass(rows, ZERO, world, 0, m, maxBatch);
    RowsStayDistinct(rows, world, m, maxBatch);
    GoingUploadingIff(rows, world, m, maxBatch);
    var p := Passes(rows, ZERO, world, 0, m, maxBatch);
    PassUploadingIff(p.rows, p.counters, world(m), maxBatch);
    assert LeftAt(rows, world, m, maxBatch) <==> LeavesInFlight(p.rows, world(m), maxBatch);
    forall j: nat | LeftAt(rows, world, j, maxBatch) ensures j <= m {
      if j > m {
        EarlierPassesGo(rows, world, m + 1, j, maxBatch);
      }
    }
  }
}
