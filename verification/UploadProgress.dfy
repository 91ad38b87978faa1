/** When the drain loop ends, and when it goes round for ever (UploadPending.kt). */
module UploadProgress {
  import opened Prelude
  import opened DeviceQueue
  import opened UploadPending

  // ---------------------------------------------------------------- what one answered pass does

  ghost predicate SameKeys(a: seq<Row>, b: seq<Row>) {
    |a| == |b| && forall i :: 0 <= i < |a| ==> b[i] == a[i].(state := b[i].state)
  }

  lemma KeysStayDistinct(a: seq<Row>, b: seq<Row>)
    requires SameKeys(a, b) && DistinctHashes(a)
    ensures DistinctHashes(b)
  {
  }

  lemma WriteAllKeepsKeys(rows: seq<Row>, ws: seq<Write>)
    ensures SameKeys(rows, WriteAll(rows, ws))
  {
  }

  /** A batch row sits in the table under its own key. */
  lemma BatchRowIs(rows: seq<Row>, now: int, limit: nat, i: nat)
    requires DistinctHashes(rows) && i < |rows|
    ensures HasHash(ClaimBatch(rows, now, limit), rows[i].Hash()) <==> rows[i] in ClaimBatch(rows, now, limit)
    ensures rows[i] in ClaimBatch(rows, now, limit) ==> rows[i].state.status.QPending?
    ensures SentState(ClaimBatch(rows, now, limit), rows[i].Hash()).Some? ==>
      SentState(ClaimBatch(rows, now, limit), rows[i].Hash()) == Some(rows[i].state)
  {
  }

  /** Where the settlement writes of a batch leave one of its rows. */
  lemma SettledWriteAt(rows: seq<Row>, batch: seq<Row>, results: seq<Reply>, now: int, i: nat)
    requires i < |rows| && HasHash(batch, rows[i].Hash())
    ensures var r := WriteAll(rows, SettleWrites(batch, results, now))[i];
      (!Mentioned(results, rows[i].Hash()) ==> r == rows[i])
      && (r == rows[i] || r.state.status.QUploaded? || r.state.status.QRejected?)
  {
    hide SettleWrite, SettleWrites, WriteAll;
    var ws := SettleWrites(batch, results, now);
    forall k | 0 <= k < |ws|
      ensures Mentioned(results, ws[k].hash) && (ws[k].state.status.QUploaded? || ws[k].state.status.QRejected?)
    {
      var j := WriteComesFrom(batch, results, now, ws[k]);
      SettleWriteIs(batch, results[j], now);
    }
    WriteAllAt(rows, ws, i);
  }

  predicate OnItsWay(s: SyncStatus) {
    s.QUploading? || s.QUploaded? || s.QRejected?
  }

  /** After the settlement writes: rows outside the batch are untouched, rows inside are on their way. */
  lemma MidAt(rows: seq<Row>, x: Exchange, maxBatch: nat, i: nat)
    requires DistinctHashes(rows) && i < |rows| && x.answer.Results?
    ensures var batch := ClaimBatch(rows, x.claimAt, maxBatch);
      var mid := WriteAll(
        MarkUploading(rows, Hashes(batch)), SettleWrites(batch, x.answer.results, x.settleAt));
      && mid[i] == rows[i].(state := mid[i].state)
      && (rows[i] !in batch ==> mid[i] == rows[i])
      && (rows[i] in batch ==> OnItsWay(mid[i].state.status))
      && (rows[i] in batch && !Mentioned(x.answer.results, rows[i].Hash()) ==>
            mid[i].state == rows[i].state.(status := QUploading))
  {
    hide ClaimBatch, SettleWrite, SettleWrites, WriteAll, DistinctHashes;
    var batch := ClaimBatch(rows, x.claimAt, maxBatch);
    var results := x.answer.results;
    var claimed := MarkUploading(rows, Hashes(batch));
    var ws := SettleWrites(batch, results, x.settleAt);
    BatchRowIs(rows, x.claimAt, maxBatch, i);
    WriteAllAt(claimed, ws, i);
    if rows[i] in batch {
      SettledWriteAt(claimed, batch, results, x.settleAt, i);
    } else {
      forall k | 0 <= k < |ws| ensures HasHash(batch, ws[k].hash) {
        var j := WriteComesFrom(batch, results, x.settleAt, ws[k]);
        SettleWriteIs(batch, results[j], x.settleAt);
      }
    }
  }

  lemma MissedStateIs(rows: seq<Row>, now: int, limit: nat, results: seq<Reply>, i: nat)
    requires DistinctHashes(rows) && i < |rows|
    ensures var missed := MissedWrites(ClaimBatch(rows, now, limit), results);
      forall k :: 0 <= k < |missed| && missed[k].hash == rows[i].Hash() ==> missed[k].state == rows[i].state
  {
  }

  lemma MissedAt(rows: seq<Row>, mid: seq<Row>, now: int, limit: nat, results: seq<Reply>, i: nat)
    requires DistinctHashes(rows) && i < |rows| == |mid| && mid[i].Hash() == rows[i].Hash()
    ensures var batch := ClaimBatch(rows, now, limit);
      var r := WriteAll(mid, MissedWrites(batch, results))[i];
      && r == mid[i].(state := r.state)
      && (if rows[i] in batch && !Mentioned(results, rows[i].Hash()) then r.state == rows[i].state else r == mid[i])
  {
    hide ClaimBatch, WriteAll, DistinctHashes, Mentioned;
    var batch := ClaimBatch(rows, now, limit);
    var missed := MissedWrites(batch, results);
    WriteAllAt(mid, missed, i);
    BatchRowIs(rows, now, limit, i);
    if rows[i] in batch && !Mentioned(results, rows[i].Hash()) {
      var j :| 0 <= j < |batch| && batch[j] == rows[i];
      assert Write(batch[j].Hash(), batch[j].state.(status := QPending)) in missed;
      MissedStateIs(rows, now, limit, results, i);
    } else {
      forall k | 0 <= k < |missed| ensures missed[k].hash != rows[i].Hash() {
        assert HasHash(batch, missed[k].hash) && !Mentioned(results, missed[k].hash);
      }
    }
  }

  /** Row by row: mentioned rows leave PENDING, the others are as they were claimed. */
  lemma SettledAt(rows: seq<Row>, x: Exchange, maxBatch: nat, i: nat)
    requires DistinctHashes(rows) && i < |rows| && x.answer.Results?
    ensures var batch := ClaimBatch(rows, x.claimAt, maxBatch);
      var settled := Settled(MarkUploading(rows, Hashes(batch)), batch, x.answer.results, x.settleAt);
      && |settled| == |rows|
      && (rows[i] !in batch ==> settled[i] == rows[i])
      && (rows[i] in batch && !Mentioned(x.answer.results, rows[i].Hash()) ==> settled[i] == rows[i])
      && (rows[i] in batch && Mentioned(x.answer.results, rows[i].Hash()) ==>
            settled[i] == rows[i].(state := settled[i].state) && OnItsWay(settled[i].state.status))
  {
    hide ClaimBatch, WriteAll, DistinctHashes, Mentioned, MissedWrites, SettleWrites, MarkUploading;
    var batch := ClaimBatch(rows, x.claimAt, maxBatch);
    var results := x.answer.results;
    var mid := WriteAll(MarkUploading(rows, Hashes(batch)), SettleWrites(batch, results, x.settleAt));
    MidAt(rows, x, maxBatch, i);
    MissedAt(rows, mid, x.claimAt, maxBatch, results, i);
  }

  predicate MentionsOneOf(batch: seq<Row>, results: seq<Reply>) {
    exists k :: 0 <= k < |batch| && Mentioned(results, batch[k].Hash())
  }

  predicate MentionsSent(rows: seq<Row>, x: Exchange, maxBatch: nat) {
    x.answer.Results? && MentionsOneOf(ClaimBatch(rows, x.claimAt, maxBatch), x.answer.results)
  }

  /** A pass that goes round again has taken rows out of PENDING exactly when its reply mentioned a sent hash. */
  lemma PassShrinksIff(rows: seq<Row>, c: Counters, x: Exchange, maxBatch: nat)
    requires DistinctHashes(rows) && Pass(rows, c, x, maxBatch).Go?
    ensures var rows' := Pass(rows, c, x, maxBatch).rows;
      && SameKeys(rows, rows')
      && (MentionsSent(rows, x, maxBatch) ==> PendingCount(rows') < PendingCount(rows))
      && (!MentionsSent(rows, x, maxBatch) ==> rows' == rows)
  {
    var batch := ClaimBatch(rows, x.claimAt, maxBatch);
    var rows' := Pass(rows, c, x, maxBatch).rows;
    hide ClaimBatch, Settled, MarkUploading, Mentioned;
    forall i | 0 <= i < |rows|
      ensures |rows'| == |rows|
      ensures rows'[i] == rows[i].(state := rows'[i].state)
      ensures rows'[i].state.status.QPending? ==> rows[i].state.status.QPending?
      ensures rows[i] in batch && Mentioned(x.answer.results, rows[i].Hash()) ==> !rows'[i].state.status.QPending?
      ensures rows[i] !in batch || !Mentioned(x.answer.results, rows[i].Hash()) ==> rows'[i] == rows[i]
    {
      SettledAt(rows, x, maxBatch, i);
      BatchRowIs(rows, x.claimAt, maxBatch, i);
    }
    PendingCountFalls(rows, rows');
    if MentionsSent(rows, x, maxBatch) {
      var k :| 0 <= k < |batch| && Mentioned(x.answer.results, batch[k].Hash());
      assert batch[k] in rows;
      var i :| 0 <= i < |rows| && rows[i] == batch[k];
      assert rows[i].state.status.QPending? && !rows'[i].state.status.QPending?;
    } else {
      forall i | 0 <= i < |rows| ensures rows'[i] == rows[i] {
        if rows[i] in batch {
          var k :| 0 <= k < |batch| && batch[k] == rows[i];
        }
      }
      assert rows' == rows;
    }
  }

  // ---------------------------------------------------------------- termination

  /** Every reply to a full batch the loop gets to see mentions at least one of the hashes sent. */
  ghost predicate ServerAnswers(rows: seq<Row>, world: nat -> Exchange, maxBatch: nat) {
    forall n: nat :: var p := Passes(rows, ZERO, world, 0, n, maxBatch);
      p.Go? && Pass(p.rows, p.counters, world(n), maxBatch).Go? ==> MentionsSent(p.rows, world(n), maxBatch)
  }

  /** The last of `n + 1` passes, when the first `n` did not stop. */
  lemma {:induction false} LastPass(rows: seq<Row>, c: Counters, world: nat -> Exchange, i: nat, n: nat, maxBatch: nat)
    ensures var p := Passes(rows, c, world, i, n, maxBatch);
      Passes(rows, c, world, i, n + 1, maxBatch)
        == if p.Go? then Pass(p.rows, p.counters, world(i + n), maxBatch) else p
    decreases n
  {
    hide Pass;
    PassesUnfold(rows, c, world, i, n + 1, maxBatch);
    match Pass(rows, c, world(i), maxBatch)
    case Stop(_, _, _) => PassesUnfold(rows, c, world, i, n, maxBatch);
    case Go(rows', c') =>
      if n == 0 {
        assert Passes(rows', c', world, i + 1, 0, maxBatch) == Go(rows', c');
      } else {
        LastPass(rows', c', world, i + 1, n - 1, maxBatch);
      }
  }

  lemma AnswerAt(rows: seq<Row>, world: nat -> Exchange, n: nat, maxBatch: nat)
    requires ServerAnswers(rows, world, maxBatch)
    ensures var p := Passes(rows, ZERO, world, 0, n, maxBatch);
      p.Go? && Pass(p.rows, p.counters, world(n), maxBatch).Go? ==> MentionsSent(p.rows, world(n), maxBatch)
  {
  }

  /** Each pass that does not stop takes at least one row out of PENDING. */
  lemma {:induction false} EachPassShrinks(rows: seq<Row>, world: nat -> Exchange, n: nat, maxBatch: nat)
    requires DistinctHashes(rows) && ServerAnswers(rows, world, maxBatch)
    ensures var p := Passes(rows, ZERO, world, 0, n, maxBatch);
      p.Go? ==> DistinctHashes(p.rows) && PendingCount(p.rows) + n <= PendingCount(rows)
    decreases n
  {
    hide Pass, Passes, ServerAnswers, MentionsSent, PendingCount, DistinctHashes;
    PassesUnfold(rows, ZERO, world, 0, n, maxBatch);
    if n > 0 {
      AnswerAt(rows, world, n - 1, maxBatch);
      EachPassShrinks(rows, world, n - 1, maxBatch);
      LastPass(rows, ZERO, world, 0, n - 1, maxBatch);
      var p := Passes(rows, ZERO, world, 0, n - 1, maxBatch);
      if p.Go? && Pass(p.rows, p.counters, world(n - 1), maxBatch).Go? {
        PassShrinksIff(p.rows, p.counters, world(n - 1), maxBatch);
        KeysStayDistinct(p.rows, Pass(p.rows, p.counters, world(n - 1), maxBatch).rows);
      }
    }
  }

  /** With an answering server the loop ends within one pass more than there are PENDING rows. */
  lemma DrainTerminates(rows: seq<Row>, world: nat -> Exchange, maxBatch: nat)
    requires DistinctHashes(rows) && ServerAnswers(rows, world, maxBatch)
    ensures Passes(rows, ZERO, world, 0, PendingCount(rows) + 1, maxBatch).Stop?
    ensures Finishes(rows, world, maxBatch)
  {
    hide Pass, Passes;
    EachPassShrinks(rows, world, PendingCount(rows) + 1, maxBatch);
  }

  lemma FullBatchGoesOn(rows: seq<Row>, c: Counters, x: Exchange, maxBatch: nat)
    requires maxBatch > 0 && x.answer.Results? && |ClaimBatch(rows, x.claimAt, maxBatch)| == maxBatch
    ensures Pass(rows, c, x, maxBatch).Go?
  {
  }

  /** Without it the loop need not end: a full batch and silent 2xx replies repeat the same pass for ever. */
  lemma {:induction false} SilentServerNeverEnds(rows: seq<Row>, world: nat -> Exchange, n: nat, maxBatch: nat)
    requires DistinctHashes(rows) && maxBatch > 0
    requires forall k: nat :: world(k).answer.Results? && !MentionsSent(rows, world(k), maxBatch)
    requires forall k: nat :: |ClaimBatch(rows, world(k).claimAt, maxBatch)| == maxBatch
    ensures Passes(rows, ZERO, world, 0, n, maxBatch).Go? && Passes(rows, ZERO, world, 0, n, maxBatch).rows == rows
    decreases n
  {
    hide Passes, Pass, ClaimBatch, MentionsSent, DistinctHashes, PendingCount;
    PassesUnfold(rows, ZERO, world, 0, n, maxBatch);
    if n > 0 {
      SilentServerNeverEnds(rows, world, n - 1, maxBatch);
      LastPass(rows, ZERO, world, 0, n - 1, maxBatch);
      var p := Passes(rows, ZERO, world, 0, n - 1, maxBatch);
      FullBatchGoesOn(p.rows, p.counters, world(n - 1), maxBatch);
      PassShrinksIff(p.rows, p.counters, world(n - 1), maxBatch);
    }
  }

  // ---------------------------------------------------------------- exactly when it never ends

  /** One pass that fills its batch, gets a 2xx reply, and hears nothing about what it sent. */
  ghost predicate SpinsOn(rows: seq<Row>, x: Exchange, maxBatch: nat) {
    && x.answer.Results? && |ClaimBatch(rows, x.claimAt, maxBatch)| == maxBatch && !MentionsSent(rows, x, maxBatch)
  }

  /** From pass `n` on, over the table that pass finds, every pass is of that kind. */
  ghost predicate StuckFrom(rows: seq<Row>, world: nat -> Exchange, n: nat, maxBatch: nat) {
    var p := Passes(rows, ZERO, world, 0, n, maxBatch);
    p.Go? && forall k: nat :: k >= n ==> SpinsOn(p.rows, world(k), maxBatch)
  }

  lemma GoesOnMeans(rows: seq<Row>, c: Counters, x: Exchange, maxBatch: nat)
    requires Pass(rows, c, x, maxBatch).Go?
    ensures x.answer.Results? && |ClaimBatch(rows, x.claimAt, maxBatch)| == maxBatch
  {
    hide ClaimBatch, Settled, MarkUploading;
  }

  /** A stuck loop repeats the same pass over the same table. */
  lemma {:induction false} StuckStays(rows: seq<Row>, world: nat -> Exchange, n: nat, k: nat, maxBatch: nat)
    requires DistinctHashes(rows) && maxBatch > 0 && StuckFrom(rows, world, n, maxBatch) && k >= n
    ensures var p := Passes(rows, ZERO, world, 0, k, maxBatch);
      p.Go? && p.rows == Passes(rows, ZERO, world, 0, n, maxBatch).rows
    decreases k
  {
    hide Pass, Passes, DistinctHashes, ClaimBatch, MentionsSent, PendingCount;
    if k > n {
      StuckStays(rows, world, n, k - 1, maxBatch);
      LastPass(rows, ZERO, world, 0, k - 1, maxBatch);
      var p := Passes(rows, ZERO, world, 0, k - 1, maxBatch);
      assert SpinsOn(p.rows, world(k - 1), maxBatch);
      FullBatchGoesOn(p.rows, p.counters, world(k - 1), maxBatch);
      RowsStayDistinct(rows, world, k - 1, maxBatch);
      PassShrinksIff(p.rows, p.counters, world(k - 1), maxBatch);
    }
  }

  /** While the loop goes on the keys stay distinct and no row comes back to PENDING. */
  lemma {:induction false} RowsStayDistinct(rows: seq<Row>, world: nat -> Exchange, n: nat, maxBatch: nat)
    requires DistinctHashes(rows) && Passes(rows, ZERO, world, 0, n, maxBatch).Go?
    ensures DistinctHashes(Passes(rows, ZERO, world, 0, n, maxBatch).rows)
    ensures n > 0 ==>
      var p := Passes(rows, ZERO, world, 0, n - 1, maxBatch);
      p.Go? && Pass(p.rows, p.counters, world(n - 1), maxBatch) == Passes(rows, ZERO, world, 0, n, maxBatch)
    decreases n
  {
    hide Pass, Passes, DistinctHashes, MentionsSent, PendingCount;
    if n > 0 {
      LastPass(rows, ZERO, world, 0, n - 1, maxBatch);
      RowsStayDistinct(rows, world, n - 1, maxBatch);
      var p := Passes(rows, ZERO, world, 0, n - 1, maxBatch);
      PassShrinksIff(p.rows, p.counters, world(n - 1), maxBatch);
      KeysStayDistinct(p.rows, Pass(p.rows, p.counters, world(n - 1), maxBatch).rows);
    } else {
      PassesUnfold(rows, ZERO, world, 0, 0, maxBatch);
    }
  }

  ghost predicate NeverStops(rows: seq<Row>, world: nat -> Exchange, maxBatch: nat) {
    forall n: nat :: Passes(rows, ZERO, world, 0, n, maxBatch).Go?
  }

  ghost function RowsAt(rows: seq<Row>, world: nat -> Exchange, n: nat, maxBatch: nat): seq<Row> {
    Passes(rows, ZERO, world, 0, n, maxBatch).rows
  }

  /** One more pass of a loop that never stops: it fills its batch, and shrinks PENDING or changes nothing. */
  lemma NextPassIs(rows: seq<Row>, world: nat -> Exchange, k: nat, maxBatch: nat)
    requires DistinctHashes(rows) && NeverStops(rows, world, maxBatch)
    ensures var now, next := RowsAt(rows, world, k, maxBatch), RowsAt(rows, world, k + 1, maxBatch);
      && world(k).answer.Results? && |ClaimBatch(now, world(k).claimAt, maxBatch)| == maxBatch
      && (if MentionsSent(now, world(k), maxBatch) then PendingCount(next) < PendingCount(now) else next == now)
  {
    hide Pass, Passes, DistinctHashes, MentionsSent, PendingCount, ClaimBatch;
    assert Passes(rows, ZERO, world, 0, k, maxBatch).Go? && Passes(rows, ZERO, world, 0, k + 1, maxBatch).Go?;
    RowsStayDistinct(rows, world, k, maxBatch);
    RowsStayDistinct(rows, world, k + 1, maxBatch);
    var p := Passes(rows, ZERO, world, 0, k, maxBatch);
    GoesOnMeans(p.rows, p.counters, world(k), maxBatch);
    PassShrinksIff(p.rows, p.counters, world(k), maxBatch);
  }

  lemma {:induction false} PendingNeverGrows(rows: seq<Row>, world: nat -> Exchange, n: nat, k: nat, maxBatch: nat)
    requires DistinctHashes(rows) && NeverStops(rows, world, maxBatch) && k >= n
    ensures PendingCount(RowsAt(rows, world, k, maxBatch)) <= PendingCount(RowsAt(rows, world, n, maxBatch))
    decreases k
  {
    hide RowsAt, DistinctHashes, NeverStops, PendingCount, MentionsSent, ClaimBatch;
    if k > n {
      PendingNeverGrows(rows, world, n, k - 1, maxBatch);
      NextPassIs(rows, world, k - 1, maxBatch);
    }
  }

  /** A loop that never stops hears nothing any more from some pass on: PENDING cannot shrink for ever. */
  lemma {:induction false} GoesQuiet(rows: seq<Row>, world: nat -> Exchange, n: nat, maxBatch: nat) returns (m: nat)
    requires DistinctHashes(rows) && NeverStops(rows, world, maxBatch)
    ensures forall k: nat :: k >= m ==> !MentionsSent(RowsAt(rows, world, k, maxBatch), world(k), maxBatch)
    decreases PendingCount(RowsAt(rows, world, n, maxBatch))
  {
    hide RowsAt, DistinctHashes, NeverStops, PendingCount, MentionsSent, ClaimBatch;
    if k: nat :| k >= n && MentionsSent(RowsAt(rows, world, k, maxBatch), world(k), maxBatch) {
      PendingNeverGrows(rows, world, n, k, maxBatch);
      NextPassIs(rows, world, k, maxBatch);
      m := GoesQuiet(rows, world, k + 1, maxBatch);
    } else {
      m := n;
    }
  }

  lemma {:induction false} QuietIsFixed(rows: seq<Row>, world: nat -> Exchange, m: nat, k: nat, maxBatch: nat)
    requires DistinctHashes(rows) && NeverStops(rows, world, maxBatch) && k >= m
    requires forall j: nat :: j >= m ==> !MentionsSent(RowsAt(rows, world, j, maxBatch), world(j), maxBatch)
    ensures RowsAt(rows, world, k, maxBatch) == RowsAt(rows, world, m, maxBatch)
    ensures SpinsOn(RowsAt(rows, world, m, maxBatch), world(k), maxBatch)
    decreases k
  {
    hide RowsAt, DistinctHashes, NeverStops, PendingCount, MentionsSent, ClaimBatch;
    if k > m {
      QuietIsFixed(rows, world, m, k - 1, maxBatch);
      NextPassIs(rows, world, k - 1, maxBatch);
    }
    NextPassIs(rows, world, k, maxBatch);
  }

  /**
   * The drain loop never ends exactly when from some pass on, over one fixed table, every batch is full and every
   * reply is a 2xx that mentions none of the hashes sent.
   */
  lemma NeverEndsIff(rows: seq<Row>, world: nat -> Exchange, maxBatch: nat)
    requires DistinctHashes(rows)
    ensures !Finishes(rows, world, maxBatch)
      <==> maxBatch > 0 && exists n: nat :: StuckFrom(rows, world, n, maxBatch)
  {
    hide Pass, Passes, DistinctHashes, SpinsOn;
    if maxBatch == 0 {
      NothingToClaim(rows, world);
    } else {
      NeverEndsWhenStuck(rows, world, maxBatch);
    }
  }

  lemma NothingToClaim(rows: seq<Row>, world: nat -> Exchange)
    ensures Finishes(rows, world, 0)
  {
    PassesUnfold(rows, ZERO, world, 0, 1, 0);
  }

  lemma NeverEndsWhenStuck(rows: seq<Row>, world: nat -> Exchange, maxBatch: nat)
    requires DistinctHashes(rows) && maxBatch > 0
    ensures !Finishes(rows, world, maxBatch) <==> exists n: nat :: StuckFrom(rows, world, n, maxBatch)
  {
    hide Pass, Passes, DistinctHashes, SpinsOn;
    if !Finishes(rows, world, maxBatch) {
      assert NeverStops(rows, world, maxBatch);
      var m := GoesQuiet(rows, world, 0, maxBatch);
      forall k: nat | k >= m ensures SpinsOn(RowsAt(rows, world, m, maxBatch), world(k), maxBatch) {
        QuietIsFixed(rows, world, m, k, maxBatch);
      }
      assert StuckFrom(rows, world, m, maxBatch);
    }
    if n: nat :| StuckFrom(rows, world, n, maxBatch) {
      forall k: nat ensures Passes(rows, ZERO, world, 0, k, maxBatch).Go? {
        if k >= n {
          StuckStays(rows, world, n, k, maxBatch);
        } else {
          EarlierPassesGo(rows, world, k, n, maxBatch);
        }
      }
    }
  }

  lemma {:induction false} EarlierPassesGo(rows: seq<Row>, world: nat -> Exchange, k: nat, n: nat, maxBatch: nat)
    requires Passes(rows, ZERO, world, 0, n, maxBatch).Go? && k <= n
    ensures Passes(rows, ZERO, world, 0, k, maxBatch).Go?
    decreases n
  {
    hide Pass, Passes;
    if k < n {
      LastPass(rows, ZERO, world, 0, n - 1, maxBatch);
      EarlierPassesGo(rows, world, k, n - 1, maxBatch);
    }
  }
}
