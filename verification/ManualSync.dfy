/** Capture and the manual recovery run (CaptureSms.kt, RunManualSync.kt), and what its summary means. */
module ManualSync {
  import opened Prelude
  import opened Lifecycle
  import opened DeviceQueue
  import opened UploadPending
  import opened UploadProgress
  import opened InFlight

  datatype InboxMessage = InboxMessage(msg: Message, smsTimestamp: int)

  function CapturedRow(m: InboxMessage, now: int): Row {
    Row(m.msg, m.smsTimestamp, now, now, SyncState(QPending, 0, None, None, None, None))
  }

  /** The row of a new message: waiting, never attempted, received and created now. */
  predicate IsNewRow(r: Row, m: InboxMessage, now: int) {
    && r.msg == m.msg && r.smsTimestamp == m.smsTimestamp && r.receivedAt == now && r.createdAt == now
    && r.state.status == QPending && r.state.attempts == 0 && r.state.nextAttemptAt == None
    && r.state.lastError == None && r.state.serverLog == None && r.state.serverMatch == None
  }

  /** Stores the message once; true when an upload was scheduled. */
  method Capture(t: MessageTable, m: InboxMessage, connected: bool, now: int) returns (scheduled: bool)
    modifies t
    ensures connected ==> (t.rows, scheduled) == InsertIgnore(old(t.rows), CapturedRow(m, now))
    ensures scheduled <==> connected && !HasHash(old(t.rows), m.msg.clientHash)
    ensures !scheduled ==> t.rows == old(t.rows)
    ensures scheduled ==>
      && |t.rows| == |old(t.rows)| + 1 && t.rows[..|old(t.rows)|] == old(t.rows)
      && IsNewRow(t.rows[|old(t.rows)|], m, now)
  {
    if !connected {
      return false;
    }
    if HasHash(t.rows, m.msg.clientHash) {
      return false;
    }
    t.rows := t.rows + [CapturedRow(m, now)];
    return true;
  }

  function ScanInbox(rows: seq<Row>, inbox: seq<InboxMessage>, clock: nat -> int): seq<Row>
    decreases |inbox|
  {
    if inbox == [] then rows
    else
      var n := |inbox| - 1;
      InsertIgnore(ScanInbox(rows, inbox[..n], clock), CapturedRow(inbox[n], clock(n))).0
  }

  /** After a scan every message of the inbox is a row, and rows that were there are unchanged. */
  lemma {:induction false} ScanCoversInbox(rows: seq<Row>, inbox: seq<InboxMessage>, clock: nat -> int)
    ensures var r := ScanInbox(rows, inbox, clock);
      && rows <= r
      && (DistinctHashes(rows) ==> DistinctHashes(r))
      && (forall k :: 0 <= k < |inbox| ==> HasHash(r, inbox[k].msg.clientHash))
      && (forall i :: |rows| <= i < |r| ==> r[i].state.status.QPending?)
    decreases |inbox|
  {
    if inbox != [] {
      var n := |inbox| - 1;
      var before := ScanInbox(rows, inbox[..n], clock);
      ScanCoversInbox(rows, inbox[..n], clock);
      var r := ScanInbox(rows, inbox, clock);
      assert HasHash(r, inbox[n].msg.clientHash) by {
        if !HasHash(before, inbox[n].msg.clientHash) {
          assert r[|r| - 1].Hash() == inbox[n].msg.clientHash;
        }
      }
      forall k | 0 <= k < n ensures HasHash(r, inbox[k].msg.clientHash) {
        assert inbox[..n][k] == inbox[k];
        var j :| 0 <= j < |before| && before[j].Hash() == inbox[k].msg.clientHash;
        assert r[j] == before[j];
      }
    }
  }

  datatype SyncError = NotConnected | ReconnectNeeded | SomeNotSent

  datatype SyncSummary = SyncSummary(
    scanned: nat, alreadyKnown: nat, newlyFound: nat, counters: Counters, stillPending: nat, error: Option<SyncError>)
  {
    predicate FullySynced() { stillPending == 0 && error.None? }
  }

  /** The row table the drainer of a manual sync starts from. */
  function BeforeDrain(rows: seq<Row>, inbox: seq<InboxMessage>, clock: nat -> int): seq<Row> {
    var n := |inbox|;
    ReclaimStale(RequeueFailed(ScanInbox(rows, inbox, clock), clock(n)), clock(n + 1), clock(n + 1) - STALE_CLAIM_MS)
  }

  const DRAIN_BATCH := 50

  method Scan(t: MessageTable, inbox: seq<InboxMessage>, clock: nat -> int) returns (alreadyKnown: nat, newlyFound: nat)
    modifies t
    ensures t.rows == ScanInbox(old(t.rows), inbox, clock)
    ensures alreadyKnown + newlyFound == |inbox|
    ensures newlyFound == |t.rows| - |old(t.rows)|
  {
    alreadyKnown, newlyFound := 0, 0;
    var i := 0;
    while i < |inbox|
      invariant 0 <= i <= |inbox| && alreadyKnown + newlyFound == i
      invariant t.rows == ScanInbox(old(t.rows), inbox[..i], clock)
      invariant newlyFound == |t.rows| - |old(t.rows)|
    {
      assert inbox[..i + 1][..i] == inbox[..i];
      if HasHash(t.rows, inbox[i].msg.clientHash) {
        alreadyKnown := alreadyKnown + 1;
      } else {
        var _ := Capture(t, inbox[i], true, clock(i));
        newlyFound := newlyFound + 1;
      }
      i := i + 1;
    }
    assert inbox[..|inbox|] == inbox;
  }

  /** Scan, requeue what failed, drain, and summarise. */
  method RunManualSync(
      t: MessageTable, connected: bool, enrolled: bool, inbox: seq<InboxMessage>, clock: nat -> int,
      world: nat -> Exchange) returns (s: SyncSummary)
    requires Finishes(BeforeDrain(t.rows, inbox, clock), world, 50)
    modifies t
    ensures !connected ==> t.rows == old(t.rows) && s.error == Some(NotConnected)
    ensures connected ==>
      && s.scanned == |inbox| == s.alreadyKnown + s.newlyFound
      && s.newlyFound == |ScanInbox(old(t.rows), inbox, clock)| - |old(t.rows)|
    ensures connected && enrolled ==>
      && s.stillPending == PendingCount(t.rows)
      && (s.error.None? ==> EndsAs(BeforeDrain(old(t.rows), inbox, clock), world, 50,
            Stop(t.rows, Drained, s.counters)))
    ensures connected && !enrolled ==> s.error == Some(ReconnectNeeded)
    ensures connected && enrolled && DistinctHashes(old(t.rows)) && s.FullySynced() ==>
      && AllOnTheirWay(t.rows)
      && (QueueIsEmpty(t.rows) <==> NothingInFlight(old(t.rows), inbox, clock, world))
  {
    hide Finishes, EndsAs, ReclaimStale, RequeueFailed, ScanInbox, PendingCount, DistinctHashes, AllOnTheirWay;
    hide QueueIsEmpty, NothingInFlight;
    ghost var before := t.rows;
    if !connected {
      return SyncSummary(0, 0, 0, ZERO, 0, Some(NotConnected));
    }
    var alreadyKnown, newlyFound := Scan(t, inbox, clock);
    t.rows := RequeueFailed(t.rows, clock(|inbox|));
    var report := t.Drain(enrolled, clock(|inbox| + 1), world, DRAIN_BATCH);
    var error := match report.outcome
      case ReenrollNeeded => Some(ReconnectNeeded)
      case RetryLater => Some(SomeNotSent)
      case Drained => None;
    s := SyncSummary(|inbox|, alreadyKnown, newlyFound, report.counters, report.stillPending, error);
    if enrolled && DistinctHashes(before) && s.FullySynced() {
      FullySyncedIff(before, inbox, clock, world, Stop(t.rows, Drained, s.counters));
    }
  }

  // ---------------------------------------------------------------- "fully synced"

  ghost predicate NoneFailed(rows: seq<Row>) {
    forall i :: 0 <= i < |rows| ==> !rows[i].state.status.QFailed?
  }

  lemma PassFailsNone(rows: seq<Row>, c: Counters, x: Exchange, maxBatch: nat)
    requires DistinctHashes(rows) && NoneFailed(rows)
    requires var p := Pass(rows, c, x, maxBatch); p.Go? || p.outcome.Drained?
    ensures var rows' := Pass(rows, c, x, maxBatch).rows; DistinctHashes(rows') && NoneFailed(rows')
  {
    var rows' := Pass(rows, c, x, maxBatch).rows;
    var batch := ClaimBatch(rows, x.claimAt, maxBatch);
    if batch != [] {
      hide ClaimBatch, Settled, MarkUploading, Mentioned;
      assert rows' == Settled(MarkUploading(rows, Hashes(batch)), batch, x.answer.results, x.settleAt);
      forall i | 0 <= i < |rows|
        ensures rows'[i] == rows[i].(state := rows'[i].state) && !rows'[i].state.status.QFailed?
      {
        SettledAt(rows, x, maxBatch, i);
      }
      KeysStayDistinct(rows, rows');
    }
  }

  lemma {:induction false} PassesFailNone(
      rows: seq<Row>, c: Counters, world: nat -> Exchange, i: nat, n: nat, maxBatch: nat)
    requires DistinctHashes(rows) && NoneFailed(rows)
    ensures var p := Passes(rows, c, world, i, n, maxBatch);
      p.Stop? && p.outcome.Drained? ==> DistinctHashes(p.rows) && NoneFailed(p.rows)
    decreases n
  {
    hide Pass, NoneFailed, DistinctHashes;
    PassesUnfold(rows, c, world, i, n, maxBatch);
    if n > 0 {
      var p := Pass(rows, c, world(i), maxBatch);
      if p.Go? || p.outcome.Drained? {
        PassFailsNone(rows, c, world(i), maxBatch);
      }
      if p.Go? {
        PassesFailNone(p.rows, p.counters, world, i + 1, n - 1, maxBatch);
      }
    }
  }

  lemma {:induction false} NonePending(rows: seq<Row>)
    requires PendingCount(rows) == 0
    ensures forall i :: 0 <= i < |rows| ==> !rows[i].state.status.QPending?
  {
    if rows != [] {
      NonePending(rows[1..]);
      forall i | 0 <= i < |rows| ensures !rows[i].state.status.QPending? {
        if i > 0 {
          assert rows[i] == rows[1..][i - 1];
        }
      }
    }
  }

  ghost predicate AllOnTheirWay(rows: seq<Row>) {
    forall i :: 0 <= i < |rows| ==> OnItsWay(rows[i].state.status)
  }

  /**
   * A sync that calls itself complete left every row UPLOADED, REJECTED or UPLOADING. The comment promises an
   * empty queue; UPLOADING rows are the gap.
   */
  lemma FullySyncedMeans(
      rows: seq<Row>, inbox: seq<InboxMessage>, clock: nat -> int, world: nat -> Exchange, end: PassOutcome)
    requires DistinctHashes(rows) && Finishes(BeforeDrain(rows, inbox, clock), world, DRAIN_BATCH)
    requires EndsAs(BeforeDrain(rows, inbox, clock), world, DRAIN_BATCH, end)
    requires end.Stop? && end.outcome.Drained? && PendingCount(end.rows) == 0
    ensures AllOnTheirWay(end.rows)
  {
    hide Passes;
    ScanCoversInbox(rows, inbox, clock);
    var start := BeforeDrain(rows, inbox, clock);
    KeysStayDistinct(ScanInbox(rows, inbox, clock), start);
    assert NoneFailed(start);
    var n: nat :| Passes(start, ZERO, world, 0, n, DRAIN_BATCH).Stop?;
    PassesFailNone(start, ZERO, world, 0, n, DRAIN_BATCH);
    NonePending(end.rows);
  }

  // ---------------------------------------------------------------- when the queue is empty

  /** Every row is on the server or refused by it: nothing is left to send. */
  ghost predicate QueueIsEmpty(rows: seq<Row>) {
    forall i :: 0 <= i < |rows| ==> rows[i].state.status.QUploaded? || rows[i].state.status.QRejected?
  }

  /** A row left UPLOADING whose message was received too recently for the reclaim. */
  ghost predicate YoungClaim(rows: seq<Row>, staleBefore: int) {
    exists i :: 0 <= i < |rows| && rows[i].state.status.QUploading? && rows[i].receivedAt >= staleBefore
  }

  /** No young claim at the start, and no pass whose reply names a claimed row with unknown statuses alone. */
  ghost predicate NothingInFlight(
      rows: seq<Row>, inbox: seq<InboxMessage>, clock: nat -> int, world: nat -> Exchange)
  {
    && !YoungClaim(rows, clock(|inbox| + 1) - 300_000)
    && forall j: nat :: !LeftAt(BeforeDrain(rows, inbox, clock), world, j, 50)
  }

  lemma BeforeDrainUploadingIff(rows: seq<Row>, inbox: seq<InboxMessage>, clock: nat -> int)
    ensures SomeUploading(BeforeDrain(rows, inbox, clock))
      <==> YoungClaim(rows, clock(|inbox| + 1) - 300_000)
  {
    ScanCoversInbox(rows, inbox, clock);
    var scanned, start := ScanInbox(rows, inbox, clock), BeforeDrain(rows, inbox, clock);
    var staleBefore := clock(|inbox| + 1) - 300_000;
    forall i | 0 <= i < |start|
      ensures start[i].state.status.QUploading? <==>
        i < |rows| && rows[i].state.status.QUploading? && rows[i].receivedAt >= staleBefore
    {
      assert i < |rows| ==> scanned[i] == rows[i];
    }
    if i :| 0 <= i < |rows| && rows[i].state.status.QUploading? && rows[i].receivedAt >= staleBefore {
      assert start[i].state.status.QUploading?;
    }
  }

  /** A sync that calls itself complete emptied the queue exactly when nothing was, and nothing was left, in flight. */
  lemma FullySyncedIff(
      rows: seq<Row>, inbox: seq<InboxMessage>, clock: nat -> int, world: nat -> Exchange, end: PassOutcome)
    requires DistinctHashes(rows) && Finishes(BeforeDrain(rows, inbox, clock), world, DRAIN_BATCH)
    requires EndsAs(BeforeDrain(rows, inbox, clock), world, DRAIN_BATCH, end)
    requires end.Stop? && end.outcome.Drained? && PendingCount(end.rows) == 0
    ensures AllOnTheirWay(end.rows)
    ensures QueueIsEmpty(end.rows) <==> NothingInFlight(rows, inbox, clock, world)
  {
    hide Finishes, EndsAs, LeftAt, BeforeDrain, YoungClaim;
    FullySyncedMeans(rows, inbox, clock, world, end);
    var start := BeforeDrain(rows, inbox, clock);
    StartIsDistinct(rows, inbox, clock);
    EndUploadingIff(start, world, DRAIN_BATCH, end);
    BeforeDrainUploadingIff(rows, inbox, clock);
  }

  lemma StartIsDistinct(rows: seq<Row>, inbox: seq<InboxMessage>, clock: nat -> int)
    requires DistinctHashes(rows)
    ensures DistinctHashes(BeforeDrain(rows, inbox, clock))
  {
    ScanCoversInbox(rows, inbox, clock);
    KeysStayDistinct(ScanInbox(rows, inbox, clock), BeforeDrain(rows, inbox, clock));
  }

  /**
   * The commoner failing input: a worker was killed with the message UPLOADING less than five minutes after it came
   * in. The sync then finds nothing to send, changes nothing, and calls itself complete.
   */
  lemma YoungClaimIsOverlooked(rows: seq<Row>, inbox: seq<InboxMessage>, clock: nat -> int, world: nat -> Exchange)
    requires forall k :: 0 <= k < |inbox| ==> HasHash(rows, inbox[k].msg.clientHash)
    requires forall i :: 0 <= i < |rows| ==> OnItsWay(rows[i].state.status)
    requires forall i :: 0 <= i < |rows| && rows[i].state.status.QUploading? ==>
      rows[i].receivedAt >= clock(|inbox| + 1) - 300_000
    ensures var start := BeforeDrain(rows, inbox, clock);
      && EndsAs(start, world, DRAIN_BATCH, Stop(rows, Drained, ZERO)) && Finishes(start, world, DRAIN_BATCH)
      && PendingCount(rows) == 0
    ensures SomeUploading(rows) ==> !QueueIsEmpty(rows)
  {
    hide Passes, EndsAs, BeforeDrain, ClaimBatch;
    NothingToReclaim(rows, inbox, clock);
    NoneToCount(rows);
    BatchIsPending(rows, world(0).claimAt);
    PassesUnfold(rows, ZERO, world, 0, 1, DRAIN_BATCH);
    AllEndAs(rows, world, 1, DRAIN_BATCH);
  }

  lemma NothingToReclaim(rows: seq<Row>, inbox: seq<InboxMessage>, clock: nat -> int)
    requires forall k :: 0 <= k < |inbox| ==> HasHash(rows, inbox[k].msg.clientHash)
    requires forall i :: 0 <= i < |rows| ==> OnItsWay(rows[i].state.status)
    requires forall i :: 0 <= i < |rows| && rows[i].state.status.QUploading? ==>
      rows[i].receivedAt >= clock(|inbox| + 1) - 300_000
    ensures BeforeDrain(rows, inbox, clock) == rows
  {
    hide ScanInbox;
    KnownInboxAddsNothing(rows, inbox, clock);
  }

  lemma BatchIsPending(rows: seq<Row>, now: int)
    ensures ClaimBatch(rows, now, DRAIN_BATCH) == [] || exists i :: 0 <= i < |rows| && rows[i].state.status.QPending?
  {
    var batch := ClaimBatch(rows, now, DRAIN_BATCH);
    if batch != [] {
      assert batch[0] in rows;
    }
  }

  lemma {:induction false} KnownInboxAddsNothing(rows: seq<Row>, inbox: seq<InboxMessage>, clock: nat -> int)
    requires forall k :: 0 <= k < |inbox| ==> HasHash(rows, inbox[k].msg.clientHash)
    ensures ScanInbox(rows, inbox, clock) == rows
    decreases |inbox|
  {
    if inbox != [] {
      KnownInboxAddsNothing(rows, inbox[..|inbox| - 1], clock);
    }
  }

  lemma {:induction false} NoneToCount(rows: seq<Row>)
    requires forall i :: 0 <= i < |rows| ==> !rows[i].state.status.QPending?
    ensures PendingCount(rows) == 0
  {
    if rows != [] {
      NoneToCount(rows[1..]);
    }
  }

  /** The other one: a new message is answered with a status the app does not know, on an otherwise empty phone. */
  lemma UnknownReplyIsOverlooked(m: InboxMessage, clock: nat -> int, world: nat -> Exchange)
    requires world(0).answer == Results([Reply(m.msg.clientHash, RepUnknown, None, None, None)])
    ensures var start := BeforeDrain([], [m], clock);
      var end := Passes(start, ZERO, world, 0, 1, DRAIN_BATCH);
      && Finishes(start, world, DRAIN_BATCH) && EndsAs(start, world, DRAIN_BATCH, end)
      && end.Stop? && end.outcome.Drained? && PendingCount(end.rows) == 0
      && |end.rows| == 1 && end.rows[0].state.status.QUploading?
  {
    var row := CapturedRow(m, clock(0));
    assert ScanInbox([], [m], clock) == [row] by {
      assert [m][..0] == [];
    }
    var start := BeforeDrain([], [m], clock);
    assert start == [row];
    OneUnknownReply(row, world(0));
    PassesUnfold(start, ZERO, world, 0, 1, DRAIN_BATCH);
    AllEndAs(start, world, 1, DRAIN_BATCH);
  }

  lemma OneUnknownReply(row: Row, x: Exchange)
    requires IsDueRow(row, x.claimAt) && x.answer == Results([Reply(row.Hash(), RepUnknown, None, None, None)])
    ensures var p := Pass([row], ZERO, x, DRAIN_BATCH);
      && p.Stop? && p.outcome.Drained? && PendingCount(p.rows) == 0
      && |p.rows| == 1 && p.rows[0].state.status.QUploading?
  {
    hide Settled, ClaimBatch, MarkUploading;
    var rows, results := [row], x.answer.results;
    var batch := ClaimBatch(rows, x.claimAt, DRAIN_BATCH);
    assert row in rows;
    assert row in batch;
    assert results[0].hash == row.Hash();
    assert UnknownAlone(results, row.Hash());
    SettledUploadingIff(rows, x, DRAIN_BATCH, 0);
    NoneToCount(Pass(rows, ZERO, x, DRAIN_BATCH).rows);
  }
}
