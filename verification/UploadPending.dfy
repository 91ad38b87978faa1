/** The queue drainer and the use cases around it (UploadPending.kt, CaptureSms.kt, RunManualSync.kt). */
module UploadPending {
  import opened Prelude
  import opened DeviceQueue

  // ---------------------------------------------------------------- one pass of the drain loop

  /** How an upload call ended: a reply, an error status, or an exception. */
  datatype Answer = Results(results: seq<Reply>) | HttpError(error: ApiError) | Thrown(error: ApiError)

  /** The clock readings of one pass and what the server answered in it. */
  datatype Exchange = Exchange(claimAt: int, answer: Answer, settleAt: int)

  datatype DrainOutcome = Drained | RetryLater | ReenrollNeeded

  datatype Counters = Counters(uploaded: nat, duplicates: nat, rejected: nat)

  const ZERO := Counters(0, 0, 0)

  datatype DrainReport = DrainReport(outcome: DrainOutcome, counters: Counters, stillPending: nat)

  datatype PassOutcome =
    | Stop(rows: seq<Row>, outcome: DrainOutcome, counters: Counters)
    | Go(rows: seq<Row>, counters: Counters)

  function FailWrite(error: ApiError, now: int): Row -> Write {
    (r: Row) => Write(r.Hash(), Next(r.state, EventOf(error), now).state)
  }

  function FailWrites(batch: seq<Row>, error: ApiError, now: int): seq<Write> {
    MapSeq(FailWrite(error, now), batch)
  }

  function CountState(ws: seq<Write>, status: SyncStatus): nat {
    if ws == [] then 0
    else CountState(ws[..|ws| - 1], status) + if ws[|ws| - 1].state.status == status then 1 else 0
  }

  function CountReplies(results: seq<Reply>, status: ReplyStatus): nat {
    if results == [] then 0
    else CountReplies(results[..|results| - 1], status) + if results[|results| - 1].status == status then 1 else 0
  }

  /** The rows after a reply: what it settles, then what it misses. */
  function Settled(rows: seq<Row>, batch: seq<Row>, results: seq<Reply>, now: int): (r: seq<Row>)
    ensures |r| == |rows|
  {
    WriteAll(WriteAll(rows, SettleWrites(batch, results, now)), MissedWrites(batch, results))
  }

  function Tally(c: Counters, batch: seq<Row>, results: seq<Reply>, now: int): Counters {
    var ws := SettleWrites(batch, results, now);
    Counters(c.uploaded + CountState(ws, QUploaded), c.duplicates + CountReplies(results, RepDuplicate),
      c.rejected + CountState(ws, QRejected))
  }

  function Pass(rows: seq<Row>, c: Counters, x: Exchange, maxBatch: nat): PassOutcome {
    var batch := ClaimBatch(rows, x.claimAt, maxBatch);
    if batch == [] then Stop(rows, Drained, c)
    else
      var claimed := MarkUploading(rows, Hashes(batch));
      match x.answer
      case Thrown(error) => Stop(WriteAll(claimed, FailWrites(batch, error, x.settleAt)), RetryLater, c)
      case HttpError(error) =>
        Stop(WriteAll(claimed, FailWrites(batch, error, x.settleAt)),
          if EventOf(error).Unauthenticated? then ReenrollNeeded else RetryLater, c)
      case Results(results) =>
        var settled := Settled(claimed, batch, results, x.settleAt);
        var c' := Tally(c, batch, results, x.settleAt);
        if |batch| < maxBatch then Stop(settled, Drained, c') else Go(settled, c')
  }

  /** At most `n` passes, the i-th against the i-th exchange; Go when none of them stopped. */
  function Passes(rows: seq<Row>, c: Counters, world: nat -> Exchange, i: nat, n: nat, maxBatch: nat): PassOutcome
    decreases n
  {
    if n == 0 then Go(rows, c)
    else
      match Pass(rows, c, world(i), maxBatch)
      case Stop(rows', outcome, c') => Stop(rows', outcome, c')
      case Go(rows', c') => Passes(rows', c', world, i + 1, n - 1, maxBatch)
  }

  /** A loop that stops does so in one way, however many passes it is allowed. */
  lemma {:induction false} StopIsUnique(
      rows: seq<Row>, c: Counters, world: nat -> Exchange, i: nat, m: nat, n: nat, maxBatch: nat)
    requires Passes(rows, c, world, i, m, maxBatch).Stop? && Passes(rows, c, world, i, n, maxBatch).Stop?
    ensures Passes(rows, c, world, i, m, maxBatch) == Passes(rows, c, world, i, n, maxBatch)
    decreases m
  {
    hide Pass;
    match Pass(rows, c, world(i), maxBatch)
    case Stop(_, _, _) =>
    case Go(rows', c') => StopIsUnique(rows', c', world, i + 1, m - 1, n - 1, maxBatch);
  }

  /** The loop ends against this world. */
  ghost predicate Finishes(rows: seq<Row>, world: nat -> Exchange, maxBatch: nat) {
    exists n :: Passes(rows, Counters(0, 0, 0), world, 0, n, maxBatch).Stop?
  }

  /** Wherever the loop stops, it stops as `end`. */
  ghost predicate EndsAs(rows: seq<Row>, world: nat -> Exchange, maxBatch: nat, end: PassOutcome) {
    forall n ::
      var p := Passes(rows, Counters(0, 0, 0), world, 0, n, maxBatch);
      p.Stop? ==> p == end
  }

  lemma AllEndAs(rows: seq<Row>, world: nat -> Exchange, limit: nat, maxBatch: nat)
    requires Passes(rows, ZERO, world, 0, limit, maxBatch).Stop?
    ensures EndsAs(rows, world, maxBatch, Passes(rows, ZERO, world, 0, limit, maxBatch))
  {
    hide Pass, Passes;
    forall n | Passes(rows, ZERO, world, 0, n, maxBatch).Stop?
      ensures Passes(rows, ZERO, world, 0, n, maxBatch) == Passes(rows, ZERO, world, 0, limit, maxBatch)
    {
      StopIsUnique(rows, ZERO, world, 0, n, limit, maxBatch);
    }
  }

  lemma PassesUnfold(rows: seq<Row>, c: Counters, world: nat -> Exchange, i: nat, n: nat, maxBatch: nat)
    ensures n == 0 ==> Passes(rows, c, world, i, n, maxBatch) == Go(rows, c)
    ensures n > 0 ==>
      match Pass(rows, c, world(i), maxBatch)
      case Stop(rows', outcome, c') => Passes(rows, c, world, i, n, maxBatch) == Stop(rows', outcome, c')
      case Go(rows', c') =>
        Passes(rows, c, world, i, n, maxBatch) == Passes(rows', c', world, i + 1, n - 1, maxBatch)
  {
  }

  lemma AllWritten(rows: seq<Row>, ws: seq<Write>, n: nat)
    requires n <= |ws|
    ensures WriteAll(rows, ws[..n]) == if n == 0 then rows else WriteRow(WriteAll(rows, ws[..n - 1]), ws[n - 1])
  {
    if n > 0 {
      assert ws[..n][..n - 1] == ws[..n - 1];
    }
  }

  lemma FailWritesAre(batch: seq<Row>, error: ApiError, now: int)
    ensures var ws := FailWrites(batch, error, now);
      && |ws| == |batch|
      && forall i :: 0 <= i < |batch| ==>
        ws[i] == Write(batch[i].Hash(), Next(batch[i].state, EventOf(error), now).state)
  {
    hide Next;
    assert forall i :: 0 <= i < |batch| ==> FailWrites(batch, error, now)[i] == FailWrite(error, now)(batch[i]);
  }

  // ---------------------------------------------------------------- the drainer, over the row table

  class MessageTable {
    var rows: seq<Row>

    constructor ()
      ensures rows == []
    {
      rows := [];
    }

    method Persist(hash: string, state: SyncState)
      modifies this
      ensures rows == WriteRow(old(rows), Write(hash, state))
    {
      rows := WriteRow(rows, Write(hash, state));
    }

    /** Every row of the batch takes the transition of the error; the last effect is reported. */
    method FailWholeBatch(batch: seq<Row>, error: ApiError, now: int) returns (effect: DeviceEffect)
      modifies this
      ensures rows == WriteAll(old(rows), FailWrites(batch, error, now))
      ensures batch != [] ==> (effect.NeedsReenroll? <==> EventOf(error).Unauthenticated?)
    {
      hide WriteAll, WriteRow, FailWrites;
      effect := NoEffect;
      ghost var ws := FailWrites(batch, error, now);
      FailWritesAre(batch, error, now);
      AllWritten(rows, ws, 0);
      var i := 0;
      while i < |batch|
        invariant 0 <= i <= |batch|
        invariant rows == WriteAll(old(rows), ws[..i])
        invariant i > 0 ==> (effect.NeedsReenroll? <==> EventOf(error).Unauthenticated?)
      {
        var t := Next(batch[i].state, EventOf(error), now);
        Persist(batch[i].Hash(), t.state);
        effect := t.effect;
        AllWritten(old(rows), ws, i + 1);
        i := i + 1;
      }
      assert ws[..|batch|] == ws;
    }

    /** The settlement loop: replies to sent hashes with a known status, in reply order. */
    method SettleBatch(batch: seq<Row>, results: seq<Reply>, now: int) returns (outcomes: seq<Write>)
      ensures outcomes == SettleWrites(batch, results, now)
    {
      outcomes := [];
      var i := 0;
      while i < |results|
        invariant 0 <= i <= |results|
        invariant outcomes == SettleWrites(batch, results[..i], now)
      {
        assert results[..i + 1][..i] == results[..i];
        var r := results[i];
        i := i + 1;
        var current := SentState(batch, r.hash);
        if current.None? {
          continue;
        }
        var event := ReplyEvent(r);
        if event.None? {
          continue;
        }
        outcomes := outcomes + [Write(r.hash, Next(current.value, event.value, now).state)];
      }
      assert results[..|results|] == results;
    }

    method CountDuplicates(results: seq<Reply>) returns (n: nat)
      ensures n == CountReplies(results, RepDuplicate)
    {
      n := 0;
      var i := 0;
      while i < |results|
        invariant 0 <= i <= |results| && n == CountReplies(results[..i], RepDuplicate)
      {
        assert results[..i + 1][..i] == results[..i];
        n := n + if results[i].status.RepDuplicate? then 1 else 0;
        i := i + 1;
      }
      assert results[..|results|] == results;
    }

    /** Stores the outcomes and counts them. */
    method PersistOutcomes(outcomes: seq<Write>) returns (uploaded: nat, rejected: nat)
      modifies this
      ensures rows == WriteAll(old(rows), outcomes)
      ensures uploaded == CountState(outcomes, QUploaded) && rejected == CountState(outcomes, QRejected)
    {
      uploaded, rejected := 0, 0;
      var i := 0;
      while i < |outcomes|
        invariant 0 <= i <= |outcomes|
        invariant rows == WriteAll(old(rows), outcomes[..i])
        invariant uploaded == CountState(outcomes[..i], QUploaded) && rejected == CountState(outcomes[..i], QRejected)
      {
        assert outcomes[..i + 1][..i] == outcomes[..i];
        Persist(outcomes[i].hash, outcomes[i].state);
        match outcomes[i].state.status {
          case QUploaded => uploaded := uploaded + 1;
          case QRejected => rejected := rejected + 1;
          case _ =>
        }
        i := i + 1;
      }
      assert outcomes[..|outcomes|] == outcomes;
    }

    /** One turn of the drain loop; None means go round again. */
    method DrainOnce(c: Counters, x: Exchange, maxBatch: nat) returns (stop: Option<DrainOutcome>, c': Counters)
      modifies this
      ensures stop.Some? ==> Pass(old(rows), c, x, maxBatch) == Stop(rows, stop.value, c')
      ensures stop.None? ==> Pass(old(rows), c, x, maxBatch) == Go(rows, c')
    {
      hide ClaimBatch, SettleWrites, MissedWrites, MarkUploading, WriteAll, CountState, CountReplies, FailWrites;
      c' := c;
      var batch := ClaimBatch(rows, x.claimAt, maxBatch);
      if batch == [] {
        return Some(Drained), c';
      }
      rows := MarkUploading(rows, Hashes(batch));
      match x.answer
      case Thrown(error) =>
        var _ := FailWholeBatch(batch, error, x.settleAt);
        return Some(RetryLater), c';
      case HttpError(error) =>
        var effect := FailWholeBatch(batch, error, x.settleAt);
        return Some(if effect.NeedsReenroll? then ReenrollNeeded else RetryLater), c';
      case Results(results) =>
        var outcomes := SettleBatch(batch, results, x.settleAt);
        var uploaded, rejected := PersistOutcomes(outcomes);
        var duplicates := CountDuplicates(results);
        var _, _ := PersistOutcomes(MissedWrites(batch, results));
        c' := Counters(c.uploaded + uploaded, c.duplicates + duplicates, c.rejected + rejected);
        stop := if |batch| < maxBatch then Some(Drained) else None;
    }

    /** The loop: where it stops is where its passes stop, however many they are allowed. */
    method DrainLoop(world: nat -> Exchange, maxBatch: nat) returns (outcome: DrainOutcome, c: Counters)
      requires Finishes(rows, world, maxBatch)
      modifies this
      ensures EndsAs(old(rows), world, maxBatch, Stop(rows, outcome, c))
    {
      hide Pass, Passes, EndsAs;
      ghost var limit: nat :| Passes(rows, ZERO, world, 0, limit, maxBatch).Stop?;
      ghost var end := Passes(rows, ZERO, world, 0, limit, maxBatch);
      AllEndAs(rows, world, limit, maxBatch);
      c := ZERO;
      var stop: Option<DrainOutcome> := None;
      var i := 0;
      while stop.None?
        invariant i <= limit
        invariant stop.None? ==> Passes(rows, c, world, i, limit - i, maxBatch) == end
        invariant stop.Some? ==> Stop(rows, stop.value, c) == end
        decreases stop.None?, limit - i
      {
        PassesUnfold(rows, c, world, i, limit - i, maxBatch);
        stop, c := DrainOnce(c, world(i), maxBatch);
        i := i + 1;
      }
      outcome := stop.value;
    }

    /** Reclaim what a killed worker left behind, run the loop, and report. */
    method Drain(enrolled: bool, startAt: int, world: nat -> Exchange, maxBatch: nat) returns (report: DrainReport)
      requires Finishes(ReclaimStale(rows, startAt, startAt - 300_000), world, maxBatch)
      modifies this
      ensures !enrolled ==> rows == old(rows) && report == DrainReport(ReenrollNeeded, ZERO, 0)
      ensures enrolled ==>
        && EndsAs(ReclaimStale(old(rows), startAt, startAt - 300_000), world, maxBatch,
            Stop(rows, report.outcome, report.counters))
        && report.stillPending == PendingCount(rows)
        && report.stillPending == |set i | 0 <= i < |rows| && rows[i].state.status == QPending|
    {
      if !enrolled {
        return DrainReport(ReenrollNeeded, ZERO, 0);
      }
      hide Finishes, EndsAs, ReclaimStale;
      rows := ReclaimStale(rows, startAt, startAt - STALE_CLAIM_MS);
      var outcome, c := DrainLoop(world, maxBatch);
      PendingCountIs(rows);
      report := DrainReport(outcome, c, PendingCount(rows));
    }
  }
}
