/**
 * The phone and the server over a network that loses requests and replies, and a worker that can die at any
 * point. One drainer runs at a time; the server may process any request it was ever sent, as often as it
 * likes, and may stop in the middle of one.
 */
module UploadProtocol {
  import opened Prelude
  import opened MatchTypes
  import opened Tables
  import opened Lifecycle
  import opened Invariants
  import opened Steps
  import opened ServerLogs
  import opened DeviceQueue
  import opened UploadPending
  import opened UploadProgress
  import opened ManualSync

  // ---------------------------------------------------------------- state and steps

  datatype Worker =
    | Idle
    | ClaimedBatch(batch: seq<Row>)
    | Waiting(batch: seq<Row>, answer: Option<seq<UploadResult>>)

  /** `captured` remembers every message ever captured: its client hash and the content it was computed from. */
  datatype World = World(
    rows: seq<Row>, worker: Worker, wire: set<seq<Row>>, db: Db, captured: map<string, string>)

  datatype Event =
    | CaptureOne(m: InboxMessage, now: int)
    | BeginDrain(now: int)
    | ClaimRows(now: int, limit: nat)
    | SendBatch
    | Serve(request: seq<Row>, parsed: seq<Message>, n: nat, device: nat, env: Env)
    | Deliver(now: int, n: nat)
    | FailBatch(error: ApiError, now: int, n: nat)
    | Die
    | Requeue(now: int)
    | Purge(cutoff: int)
    | ServerStep(op: Op)

  function ToReply(r: UploadResult): Reply {
    Reply(r.clientHash,
      match r.status case UpAccepted => RepAccepted case UpDuplicate => RepDuplicate case UpRejected => RepRejected,
      r.smsLogId, r.matchStatus, None)
  }

  function Replies(results: seq<UploadResult>): seq<Reply> {
    MapSeq(ToReply, results)
  }

  /** The server reads the same hashes and contents as were sent; what it parses out of them is up to it. */
  predicate Reads(request: seq<Row>, parsed: seq<Message>) {
    |parsed| == |request| && forall k :: 0 <= k < |parsed| ==>
      parsed[k].clientHash == request[k].Hash() && parsed[k].contentHash == request[k].msg.contentHash
  }

  /** A client hash determines its content; settings are valid; a message is captured under its own hash. */
  predicate Enabled(w: World, e: Event) {
    match e
    case CaptureOne(m, _) =>
      m.msg.clientHash in w.captured ==> w.captured[m.msg.clientHash] == m.msg.contentHash
    case BeginDrain(_) => w.worker.Idle?
    case ClaimRows(_, _) => w.worker.Idle?
    case SendBatch => w.worker.ClaimedBatch?
    case Serve(request, parsed, n, _, env) =>
      request in w.wire && Reads(request, parsed) && n <= |parsed| && ValidSettings(env.settings)
    case Deliver(_, _) => w.worker.Waiting? && w.worker.answer.Some?
    case FailBatch(_, _, _) => w.worker.Waiting?
    case Die => true
    case Requeue(_) => true
    case Purge(_) => true
    case ServerStep(op) => ValidOp(op)
  }

  /** The row writes of a reply; a worker that dies has made only the first `n` of them. */
  function ReplyWrites(batch: seq<Row>, results: seq<UploadResult>, now: int): seq<Write> {
    SettleWrites(batch, Replies(results), now) + MissedWrites(batch, Replies(results))
  }

  function FirstWrites(ws: seq<Write>, n: nat): seq<Write> {
    if n <= |ws| then ws[..n] else ws
  }

  function Move(w: World, e: Event, company: nat): World
    requires Enabled(w, e)
  {
    match e
    case CaptureOne(m, now) =>
      w.(rows := InsertIgnore(w.rows, CapturedRow(m, now)).0,
         captured := w.captured[m.msg.clientHash := m.msg.contentHash])
    case BeginDrain(now) => w.(rows := ReclaimStale(w.rows, now, now - STALE_CLAIM_MS))
    case ClaimRows(now, limit) =>
      var batch := ClaimBatch(w.rows, now, limit);
      w.(rows := MarkUploading(w.rows, Hashes(batch)), worker := ClaimedBatch(batch))
    case SendBatch => w.(worker := Waiting(w.worker.batch, None), wire := w.wire + {w.worker.batch})
    case Serve(request, parsed, n, device, env) =>
      var served := Serving(w, parsed[..n], company, device, env);
      if n == |parsed| && w.worker.Waiting? && w.worker.batch == request
      then served.(worker := w.worker.(answer := Some(IngestAll(w.db, company, device, parsed, env, {}).1)))
      else served
    case Deliver(now, n) =>
      w.(rows := WriteAll(w.rows, FirstWrites(ReplyWrites(w.worker.batch, w.worker.answer.value, now), n)),
         worker := Idle)
    case FailBatch(error, now, n) =>
      w.(rows := WriteAll(w.rows, FirstWrites(FailWrites(w.worker.batch, error, now), n)), worker := Idle)
    case Die => w.(worker := Idle)
    case Requeue(now) => w.(rows := RequeueFailed(w.rows, now))
    case Purge(cutoff) => w.(rows := PurgeUploaded(w.rows, cutoff))
    case ServerStep(op) => w.(db := Step(w.db, op))
  }

  function Serving(w: World, msgs: seq<Message>, company: nat, device: nat, env: Env): World {
    w.(db := Step(w.db, Upload(company, device, msgs, env)))
  }

  // ---------------------------------------------------------------- invariants

  ghost predicate KnownRows(rows: seq<Row>, captured: map<string, string>) {
    forall i :: 0 <= i < |rows| ==> rows[i].Hash() in captured && captured[rows[i].Hash()] == rows[i].msg.contentHash
  }

  /** Nothing captured is lost: it is a row on the phone, or the server holds it. */
  ghost predicate NothingLost(w: World, company: nat) {
    forall h :: h in w.captured ==> HasHash(w.rows, h) || Held(w.db, company, h, w.captured[h])
  }

  /** UPLOADED is only said of what the server holds, REJECTED only of a malformed hash. */
  ghost predicate StatusSound(r: Row, db: Db, company: nat) {
    && (r.state.status.QUploaded? ==> Held(db, company, r.Hash(), r.msg.contentHash))
    && (r.state.status.QRejected? ==> !IsHex64(r.Hash()))
  }

  ghost predicate StatusesSound(w: World, company: nat) {
    forall i :: 0 <= i < |w.rows| ==> StatusSound(w.rows[i], w.db, company)
  }

  /** While a batch is out, its rows are on the phone and UPLOADING: nobody else touches them. */
  ghost predicate BatchIsOut(rows: seq<Row>, batch: seq<Row>) {
    && (forall k :: 0 <= k < |batch| ==> HasHash(rows, batch[k].Hash()))
    && forall i :: 0 <= i < |rows| && HasHash(batch, rows[i].Hash()) ==> rows[i].state.status.QUploading?
  }

  ghost predicate WorkerSound(w: World, company: nat) {
    && (!w.worker.Idle? ==> KnownRows(w.worker.batch, w.captured) && BatchIsOut(w.rows, w.worker.batch))
    && (w.worker.Waiting? && w.worker.answer.Some? ==>
          forall k :: 0 <= k < |w.worker.answer.value| ==>
            ResultSound(w.db, company, w.captured, w.worker.answer.value[k]))
  }

  ghost predicate WireKnown(w: World) {
    forall b :: b in w.wire ==> KnownRows(b, w.captured)
  }

  ghost predicate Safe(w: World, company: nat) {
    && DistinctHashes(w.rows) && KnownRows(w.rows, w.captured)
    && NothingLost(w, company) && StatusesSound(w, company)
    && WorkerSound(w, company) && WireKnown(w)
    && Inv(w.db) && ContentSpaced(w.db)
  }

  // ---------------------------------------------------------------- when the server moves

  /** The server's tables only gain logs, so everything said about them stays true. */
  lemma ServerMoves(w: World, db: Db, company: nat)
    requires Safe(w, company) && LogsGrow(w.db, db) && Inv(db) && ContentSpaced(db)
    ensures Safe(w.(db := db), company)
  {
    hide Inv, ContentSpaced, LogsGrow, Held, IsHex64, ResultSound, KnownRows, DistinctHashes, BatchIsOut;
    var w' := w.(db := db);
    forall h | h in w'.captured ensures HasHash(w'.rows, h) || Held(db, company, h, w'.captured[h]) {
      if !HasHash(w.rows, h) {
        HeldStays(w.db, db, company, h, w.captured[h]);
      }
    }
    forall i | 0 <= i < |w.rows| ensures StatusSound(w.rows[i], db, company) {
      assert StatusSound(w.rows[i], w.db, company);
      if w.rows[i].state.status.QUploaded? {
        HeldStays(w.db, db, company, w.rows[i].Hash(), w.rows[i].msg.contentHash);
      }
    }
    if w.worker.Waiting? && w.worker.answer.Some? {
      forall k | 0 <= k < |w.worker.answer.value|
        ensures ResultSound(db, company, w.captured, w.worker.answer.value[k])
      {
        SoundStays(w.db, db, company, w.captured, w.worker.answer.value[k]);
      }
    }
  }

  lemma StepMoves(w: World, op: Op, company: nat)
    requires Safe(w, company) && ValidOp(op)
    ensures Safe(w.(db := Step(w.db, op)), company)
  {
    hide Inv, ContentSpaced, LogsGrow, Step;
    StepKeeps(w.db, op);
    StepKeepsLogs(w.db, op);
    ServerMoves(w, Step(w.db, op), company);
  }

  lemma ServeKeeps(w: World, e: Event, company: nat)
    requires Safe(w, company) && e.Serve? && Enabled(w, e)
    ensures Safe(Move(w, e, company), company)
  {
    hide Inv, ContentSpaced, LogsGrow, Step, IngestAll, StatusesSound, NothingLost, DistinctHashes, ResultSound;
    var msgs := e.parsed[..e.n];
    var op := Upload(company, e.device, msgs, e.env);
    StepMoves(w, op, company);
    if e.n == |e.parsed| {
      assert msgs == e.parsed;
      assert KnownRows(e.request, w.captured);
      IngestAllLogs(w.db, company, e.device, e.parsed, e.env, {}, w.captured);
      UploadIs(w.db, op);
      var w1 := Serving(w, msgs, company, e.device, e.env);
      assert Safe(w1, company);
      if w.worker.Waiting? && w.worker.batch == e.request {
        AnswerArrives(w1, IngestAll(w.db, company, e.device, e.parsed, e.env, {}).1, company);
      }
    }
  }

  lemma AnswerArrives(w: World, results: seq<UploadResult>, company: nat)
    requires Safe(w, company) && w.worker.Waiting?
    requires forall k :: 0 <= k < |results| ==> ResultSound(w.db, company, w.captured, results[k])
    ensures Safe(w.(worker := w.worker.(answer := Some(results))), company)
  {
  }

  lemma UploadIs(db: Db, op: Op)
    requires op.Upload?
    ensures Step(db, op) == IngestAll(db, op.company, op.device, op.msgs, op.env, {}).0
  {
    hide IngestAll;
  }

  // ---------------------------------------------------------------- when the phone moves

  /** Changing only row states keeps keys, contents and what was captured. */
  lemma StatesMove(w: World, rows: seq<Row>, worker: Worker, company: nat)
    requires Safe(w, company) && SameKeys(w.rows, rows)
    requires forall i :: 0 <= i < |rows| ==> StatusSound(rows[i], w.db, company)
    requires WorkerSound(w.(rows := rows, worker := worker), company)
    ensures Safe(w.(rows := rows, worker := worker), company)
  {
  }

  lemma CaptureKeeps(w: World, e: Event, company: nat)
    requires Safe(w, company) && e.CaptureOne? && Enabled(w, e)
    ensures Safe(Move(w, e, company), company)
  {
    hide Inv, ContentSpaced, Held, IsHex64;
    var w' := Move(w, e, company);
    var row := CapturedRow(e.m, e.now);
    forall h | h in w'.captured ensures HasHash(w'.rows, h) || Held(w'.db, company, h, w'.captured[h]) {
      if h == row.Hash() {
        assert HasHash(w.rows, h) || w'.rows[|w.rows|].Hash() == h;
        if HasHash(w.rows, h) {
          assert w'.rows == w.rows;
        }
      } else if HasHash(w.rows, h) {
        var j :| 0 <= j < |w.rows| && w.rows[j].Hash() == h;
        assert w'.rows[j].Hash() == h;
      }
    }
    assert KnownRows(w'.rows, w'.captured);
    CaptureKeepsWorker(w, e, company);
  }

  lemma CaptureKeepsWorker(w: World, e: Event, company: nat)
    requires KnownRows(w.rows, w.captured) && WorkerSound(w, company) && WireKnown(w)
    requires e.CaptureOne? && Enabled(w, e)
    ensures WorkerSound(Move(w, e, company), company) && WireKnown(Move(w, e, company))
  {
    hide Held, IsHex64;
    var w' := Move(w, e, company);
    if !w.worker.Idle? {
      forall k | 0 <= k < |w.worker.batch| ensures HasHash(w'.rows, w.worker.batch[k].Hash()) {
        assert HasHash(w.rows, w.worker.batch[k].Hash());
        var j :| 0 <= j < |w.rows| && w.rows[j].Hash() == w.worker.batch[k].Hash();
        assert w'.rows[j] == w.rows[j];
      }
    }
  }

  lemma ReclaimKeeps(w: World, e: Event, company: nat)
    requires Safe(w, company) && e.BeginDrain? && Enabled(w, e)
    ensures Safe(Move(w, e, company), company)
  {
    hide Inv, ContentSpaced, Held, IsHex64, KnownRows, DistinctHashes, NothingLost, WireKnown;
    var rows := ReclaimStale(w.rows, e.now, e.now - STALE_CLAIM_MS);
    forall i | 0 <= i < |rows| ensures StatusSound(rows[i], w.db, company) {
      assert StatusSound(w.rows[i], w.db, company);
    }
    StatesMove(w, rows, w.worker, company);
  }

  lemma RequeueKeeps(w: World, e: Event, company: nat)
    requires Safe(w, company) && e.Requeue?
    ensures Safe(Move(w, e, company), company)
  {
    hide Inv, ContentSpaced, Held, IsHex64, KnownRows, DistinctHashes, NothingLost, WireKnown, ResultSound;
    var rows := RequeueFailed(w.rows, e.now);
    forall i | 0 <= i < |rows| ensures StatusSound(rows[i], w.db, company) {
      assert StatusSound(w.rows[i], w.db, company);
    }
    if !w.worker.Idle? {
      SameKeysHas(w.rows, rows, w.worker.batch);
      assert BatchIsOut(rows, w.worker.batch);
    }
    StatesMove(w, rows, w.worker, company);
  }

  /** Tables with the same keys have the same hashes. */
  lemma SameKeysHas(a: seq<Row>, b: seq<Row>, batch: seq<Row>)
    requires SameKeys(a, b)
    requires forall k :: 0 <= k < |batch| ==> HasHash(a, batch[k].Hash())
    ensures forall k :: 0 <= k < |batch| ==> HasHash(b, batch[k].Hash())
  {
  }

  lemma ClaimKeeps(w: World, e: Event, company: nat)
    requires Safe(w, company) && e.ClaimRows? && Enabled(w, e)
    ensures Safe(Move(w, e, company), company)
  {
    hide Inv, ContentSpaced, Held, IsHex64, DistinctHashes, NothingLost, WireKnown, ClaimBatch;
    var batch := ClaimBatch(w.rows, e.now, e.limit);
    var rows := MarkUploading(w.rows, Hashes(batch));
    forall i | 0 <= i < |rows| ensures StatusSound(rows[i], w.db, company) {
      assert StatusSound(w.rows[i], w.db, company);
    }
    assert forall k :: 0 <= k < |batch| ==> batch[k] in w.rows;
    assert SameKeys(w.rows, rows);
    assert forall k :: 0 <= k < |batch| ==> HasHash(w.rows, batch[k].Hash());
    SameKeysHas(w.rows, rows, batch);
    assert BatchIsOut(rows, batch);
    assert KnownRows(batch, w.captured);
    StatesMove(w, rows, ClaimedBatch(batch), company);
  }

  lemma SendKeeps(w: World, e: Event, company: nat)
    requires Safe(w, company) && e.SendBatch? && Enabled(w, e)
    ensures Safe(Move(w, e, company), company)
  {
    hide Inv, ContentSpaced, DistinctHashes, KnownRows, StatusSound, BatchIsOut, Held;
  }

  /** Every write a true reply causes says what the server holds. */
  lemma ReplyWriteSound(w: World, now: int, x: Write, r: Row, company: nat)
    requires w.worker.Waiting? && w.worker.answer.Some? && WorkerSound(w, company)
    requires x in ReplyWrites(w.worker.batch, w.worker.answer.value, now) && x.hash == r.Hash()
    requires r.Hash() in w.captured && w.captured[r.Hash()] == r.msg.contentHash
    ensures StatusSound(r.(state := x.state), w.db, company)
  {
    hide Held, IsHex64, SettleWrite, SettleWrites, MissedWrites, KnownRows, BatchIsOut;
    var batch, results := w.worker.batch, w.worker.answer.value;
    if x in MissedWrites(batch, Replies(results)) {
    } else {
      var j := WriteComesFrom(batch, Replies(results), now, x);
      SettleWriteIs(batch, Replies(results)[j], now);
      assert ResultSound(w.db, company, w.captured, results[j]);
    }
  }

  lemma DeliverKeeps(w: World, e: Event, company: nat)
    requires Safe(w, company) && e.Deliver? && Enabled(w, e)
    ensures Safe(Move(w, e, company), company)
  {
    hide Inv, ContentSpaced, IsHex64, DistinctHashes, NothingLost, WireKnown;
    hide ReplyWrites, WriteAll, StatusSound, BatchIsOut, ResultSound;
    var all := ReplyWrites(w.worker.batch, w.worker.answer.value, e.now);
    var ws := FirstWrites(all, e.n);
    var rows := WriteAll(w.rows, ws);
    WriteAllKeepsKeys(w.rows, ws);
    forall i | 0 <= i < |rows| ensures StatusSound(rows[i], w.db, company) {
      WriteAllAt(w.rows, ws, i);
      if rows[i] != w.rows[i] {
        var k :| 0 <= k < |ws| && ws[k].hash == w.rows[i].Hash() && rows[i].state == ws[k].state;
        assert ws[k] == all[k];
        ReplyWriteSound(w, e.now, all[k], w.rows[i], company);
      }
    }
    StatesMove(w, rows, Idle, company);
  }

  lemma FailKeeps(w: World, e: Event, company: nat)
    requires Safe(w, company) && e.FailBatch? && Enabled(w, e)
    ensures Safe(Move(w, e, company), company)
  {
    hide Inv, ContentSpaced, IsHex64, DistinctHashes, NothingLost, WireKnown;
    hide WriteAll, BatchIsOut, ResultSound, Held, KnownRows, Next;
    var all := FailWrites(w.worker.batch, e.error, e.now);
    var ws := FirstWrites(all, e.n);
    var rows := WriteAll(w.rows, ws);
    WriteAllKeepsKeys(w.rows, ws);
    forall i | 0 <= i < |rows| ensures StatusSound(rows[i], w.db, company) {
      WriteAllAt(w.rows, ws, i);
      assert StatusSound(w.rows[i], w.db, company);
      if rows[i] != w.rows[i] {
        var k :| 0 <= k < |ws| && ws[k].hash == w.rows[i].Hash() && rows[i].state == ws[k].state;
        FailedIsOpen(w.worker.batch[k], e.error, e.now);
      }
    }
    StatesMove(w, rows, Idle, company);
  }

  /** A failed row is neither UPLOADED nor REJECTED. */
  lemma FailedIsOpen(r: Row, error: ApiError, now: int)
    ensures var s := FailWrite(error, now)(r).state.status; s.QPending? || s.QFailed?
  {
    FailedRowWaits(r.state, error, now);
  }

  lemma PurgeKeepsRows(w: World, cutoff: int, company: nat)
    requires KnownRows(w.rows, w.captured) && StatusesSound(w, company) && NothingLost(w, company)
    ensures var w' := w.(rows := PurgeUploaded(w.rows, cutoff));
      KnownRows(w'.rows, w.captured) && StatusesSound(w', company) && NothingLost(w', company)
  {
    hide IsHex64, Held;
    var rows := PurgeUploaded(w.rows, cutoff);
    var keep := NotPurged(cutoff);
    forall h | HasHash(w.rows, h) ensures HasHash(rows, h) || Held(w.db, company, h, w.captured[h]) {
      var j :| 0 <= j < |w.rows| && w.rows[j].Hash() == h;
      if keep(w.rows[j]) {
        assert w.rows[j] in rows;
      } else {
        assert StatusSound(w.rows[j], w.db, company);
      }
    }
    forall i | 0 <= i < |rows|
      ensures StatusSound(rows[i], w.db, company)
      ensures rows[i].Hash() in w.captured && w.captured[rows[i].Hash()] == rows[i].msg.contentHash
    {
      assert rows[i] in w.rows;
      var j :| 0 <= j < |w.rows| && w.rows[j] == rows[i];
      assert StatusSound(w.rows[j], w.db, company);
    }
  }

  lemma PurgeKeeps(w: World, e: Event, company: nat)
    requires Safe(w, company) && e.Purge?
    ensures Safe(Move(w, e, company), company)
  {
    hide Inv, ContentSpaced, KnownRows, StatusesSound, NothingLost, ResultSound, DistinctHashes, BatchIsOut;
    PurgeKeepsRows(w, e.cutoff, company);
    if !w.worker.Idle? {
      PurgeLeavesBatch(w.rows, w.worker.batch, e.cutoff);
    }
  }

  lemma PurgeLeavesBatch(rows: seq<Row>, batch: seq<Row>, cutoff: int)
    requires BatchIsOut(rows, batch)
    ensures BatchIsOut(PurgeUploaded(rows, cutoff), batch)
  {
    var keep := NotPurged(cutoff);
    var kept := PurgeUploaded(rows, cutoff);
    forall k | 0 <= k < |batch| ensures HasHash(kept, batch[k].Hash()) {
      assert HasHash(rows, batch[k].Hash());
      var j :| 0 <= j < |rows| && rows[j].Hash() == batch[k].Hash();
      assert HasHash(batch, rows[j].Hash());
      assert keep(rows[j]) && rows[j] in kept;
    }
    forall i | 0 <= i < |kept| && HasHash(batch, kept[i].Hash()) ensures kept[i].state.status.QUploading? {
      assert kept[i] in rows;
    }
  }

  // ---------------------------------------------------------------- the theorems

  lemma MoveKeeps(w: World, e: Event, company: nat)
    requires Safe(w, company) && Enabled(w, e)
    ensures Safe(Move(w, e, company), company)
  {
    hide Safe, Inv;
    match e
    case CaptureOne(_, _) => CaptureKeeps(w, e, company);
    case BeginDrain(_) => ReclaimKeeps(w, e, company);
    case ClaimRows(_, _) => ClaimKeeps(w, e, company);
    case SendBatch => SendKeeps(w, e, company);
    case Serve(_, _, _, _, _) => ServeKeeps(w, e, company);
    case Deliver(_, _) => DeliverKeeps(w, e, company);
    case FailBatch(_, _, _) => FailKeeps(w, e, company);
    case Die => DieKeeps(w, e, company);
    case Requeue(_) => RequeueKeeps(w, e, company);
    case Purge(_) => PurgeKeeps(w, e, company);
    case ServerStep(op) => StepMoves(w, op, company);
  }

  lemma DieKeeps(w: World, e: Event, company: nat)
    requires Safe(w, company) && e.Die?
    ensures Safe(Move(w, e, company), company)
  {
    hide Inv, ContentSpaced, StatusSound, KnownRows, DistinctHashes, Held;
  }

  /** A run of the protocol, every event enabled when it happens. */
  ghost predicate Unfolds(w: World, events: seq<Event>, company: nat, end: World)
    decreases |events|
  {
    if events == [] then end == w
    else Enabled(w, events[0]) && Unfolds(Move(w, events[0], company), events[1..], company, end)
  }

  ghost predicate Fresh(w: World) {
    w.rows == [] && w.worker.Idle? && w.wire == {} && w.captured == map[] && Reachable(w.db)
  }

  lemma {:induction false} UnfoldsKeeps(w: World, events: seq<Event>, company: nat, end: World)
    requires Safe(w, company) && Unfolds(w, events, company, end)
    ensures Safe(end, company)
    decreases |events|
  {
    hide Safe, Move;
    if events != [] {
      MoveKeeps(w, events[0], company);
      UnfoldsKeeps(Move(w, events[0], company), events[1..], company, end);
    }
  }

  /**
   * Whatever the network, the worker and the server do: every captured message is on the phone or held by the
   * server, what the phone calls UPLOADED the server holds, only malformed hashes are REJECTED, and the server
   * has at most one log per client hash and none of the same content within seven days.
   */
  lemma ExactlyOnceStorage(w: World, events: seq<Event>, company: nat, end: World)
    requires Fresh(w) && Unfolds(w, events, company, end)
    ensures NothingLost(end, company) && StatusesSound(end, company)
    ensures ClientHashesUnique(end.db) && ContentSpaced(end.db)
  {
    hide Inv, Unfolds, ContentSpaced;
    ReachableSafe(w.db);
    ReachableSpaced(w.db);
    UnfoldsKeeps(w, events, company, end);
    assert ClientHashesUnique(end.db) by { UniqueFrom(end.db); }
  }

  lemma UniqueFrom(db: Db)
    requires Inv(db)
    ensures ClientHashesUnique(db)
  {
  }

  /** UPLOADED and REJECTED are final: the row keeps its state, until retention purges an UPLOADED one. */
  lemma TerminalRowsStay(w: World, e: Event, company: nat, i: nat)
    requires Safe(w, company) && Enabled(w, e) && i < |w.rows|
    requires w.rows[i].state.status.QUploaded? || w.rows[i].state.status.QRejected?
    ensures w.rows[i] in Move(w, e, company).rows
      || (e.Purge? && w.rows[i].state.status.QUploaded? && w.rows[i].createdAt < e.cutoff)
  {
    hide Inv, ContentSpaced, Held, IsHex64, DistinctHashes, NothingLost, KnownRows;
    hide ReplyWrites, WriteAll, ClaimBatch, Step, StatusSound, ResultSound;
    var w' := Move(w, e, company);
    match e
    case Deliver(now, n) =>
      var all := ReplyWrites(w.worker.batch, w.worker.answer.value, now);
      ReplyWritesInBatch(w.worker.batch, w.worker.answer.value, now);
      UntouchedRow(w.rows, w.worker.batch, FirstWrites(all, n), i);
    case FailBatch(error, now, n) =>
      var all := FailWrites(w.worker.batch, error, now);
      assert forall k :: 0 <= k < |all| ==> all[k].hash == w.worker.batch[k].Hash();
      UntouchedRow(w.rows, w.worker.batch, FirstWrites(all, n), i);
    case ClaimRows(now, limit) =>
      NotClaimed(w.rows, now, limit, i);
      assert w'.rows[i] == w.rows[i];
    case Purge(cutoff) =>
      assert NotPurged(cutoff)(w.rows[i]) || (w.rows[i].state.status.QUploaded? && w.rows[i].createdAt < cutoff);
    case _ =>
      assert w'.rows[i] == w.rows[i];
  }

  lemma NotClaimed(rows: seq<Row>, now: int, limit: nat, i: nat)
    requires DistinctHashes(rows) && i < |rows| && !rows[i].state.status.QPending?
    ensures !HasHash(ClaimBatch(rows, now, limit), rows[i].Hash())
  {
  }

  lemma ReplyWritesInBatch(batch: seq<Row>, results: seq<UploadResult>, now: int)
    ensures forall k :: 0 <= k < |ReplyWrites(batch, results, now)| ==>
      HasHash(batch, ReplyWrites(batch, results, now)[k].hash)
  {
    hide SettleWrite, SettleWrites, MissedWrites;
    var settle, missed := SettleWrites(batch, Replies(results), now), MissedWrites(batch, Replies(results));
    var all := ReplyWrites(batch, results, now);
    forall k | 0 <= k < |all| ensures HasHash(batch, all[k].hash) {
      if k < |settle| {
        var j := WriteComesFrom(batch, Replies(results), now, settle[k]);
        SettleWriteIs(batch, Replies(results)[j], now);
      } else {
        var j := MissComesFrom(batch, Replies(results), missed[k - |settle|]);
      }
    }
  }

  lemma UntouchedRow(rows: seq<Row>, batch: seq<Row>, ws: seq<Write>, i: nat)
    requires BatchIsOut(rows, batch) && i < |rows|
    requires forall k :: 0 <= k < |ws| ==> HasHash(batch, ws[k].hash)
    requires !rows[i].state.status.QUploading?
    ensures WriteAll(rows, ws)[i] == rows[i]
  {
  }

  /** Nothing is stranded: between drains, a requeue and a late enough reclaim make every open row claimable. */
  lemma EveryOpenRowIsReclaimed(rows: seq<Row>, requeueAt: int, drainAt: int, i: nat)
    requires i < |rows| && requeueAt <= drainAt && rows[i].receivedAt < drainAt - 300_000
    requires !rows[i].state.status.QUploaded? && !rows[i].state.status.QRejected?
    ensures var r := ReclaimStale(RequeueFailed(rows, requeueAt), drainAt, drainAt - 300_000)[i];
      && r.Hash() == rows[i].Hash() && r.state.status.QPending?
      && (!rows[i].state.status.QPending? ==> IsDueRow(r, drainAt))
  {
  }

  // ---------------------------------------------------------------- the drain loop is these moves

  lemma {:induction false} WriteAllAppend(rows: seq<Row>, a: seq<Write>, b: seq<Write>)
    ensures WriteAll(rows, a + b) == WriteAll(WriteAll(rows, a), b)
    decreases |b|
  {
    if b == [] {
      assert a + b == a;
    } else {
      assert (a + b)[..|a + b| - 1] == a + b[..|b| - 1];
      WriteAllAppend(rows, a, b[..|b| - 1]);
    }
  }

  /** The phone between sending a batch claimed from `rows` and hearing back. */
  ghost predicate IsOut(w: World, rows: seq<Row>, now: int, limit: nat) {
    && w.worker.Waiting? && w.worker.batch == ClaimBatch(rows, now, limit) != []
    && w.rows == MarkUploading(rows, Hashes(w.worker.batch))
  }

  lemma SentIsOut(w: World, now: int, limit: nat, company: nat)
    requires w.worker.Idle? && ClaimBatch(w.rows, now, limit) != []
    ensures var out := Move(Move(w, ClaimRows(now, limit), company), SendBatch, company);
      IsOut(out, w.rows, now, limit) && out.wire == w.wire + {ClaimBatch(w.rows, now, limit)} && out.db == w.db
  {
    hide ClaimBatch, MarkUploading;
  }

  /** One turn of the drain loop is claim and send, and then a delivered reply ... */
  lemma PassDelivers(w: World, rows: seq<Row>, c: Counters, x: Exchange, limit: nat)
    requires IsOut(w, rows, x.claimAt, limit) && w.worker.answer.Some?
    requires x.answer == Results(Replies(w.worker.answer.value))
    ensures UploadPending.Pass(rows, c, x, limit).rows
      == WriteAll(w.rows, ReplyWrites(w.worker.batch, w.worker.answer.value, x.settleAt))
  {
    hide ClaimBatch, WriteAll, SettleWrites, MissedWrites, MarkUploading;
    var batch, replies := w.worker.batch, Replies(w.worker.answer.value);
    WriteAllAppend(w.rows, SettleWrites(batch, replies, x.settleAt), MissedWrites(batch, replies));
  }

  /** ... or a failed call. */
  lemma PassFails(w: World, rows: seq<Row>, c: Counters, x: Exchange, limit: nat)
    requires IsOut(w, rows, x.claimAt, limit) && !x.answer.Results?
    ensures UploadPending.Pass(rows, c, x, limit).rows
      == WriteAll(w.rows, FailWrites(w.worker.batch, x.answer.error, x.settleAt))
  {
    hide ClaimBatch, WriteAll, MarkUploading, FailWrites;
  }

  // ---------------------------------------------------------------- the attempt budget of a row

  predicate AttemptsFit(s: SyncState) {
    && (s.status.QPending? || s.status.QUploading? ==> s.attempts <= 10)
    && (s.status.QFailed? ==> s.attempts == 11)
  }

  /** A row is FAILED exactly by its eleventh transport failure since it was captured or requeued. */
  ghost predicate AttemptsBounded(w: World) {
    && (forall i :: 0 <= i < |w.rows| ==> AttemptsFit(w.rows[i].state))
    && (!w.worker.Idle? ==> forall k :: 0 <= k < |w.worker.batch| ==> w.worker.batch[k].state.attempts <= 10)
  }

  lemma MoveKeepsAttempts(w: World, e: Event, company: nat)
    requires AttemptsBounded(w) && DistinctHashes(w.rows) && Enabled(w, e)
    ensures AttemptsBounded(Move(w, e, company))
  {
    hide ReplyWrites, WriteAll, ClaimBatch, Step, IngestAll, IsHex64;
    var w' := Move(w, e, company);
    match e
    case Deliver(now, n) =>
      var all := ReplyWrites(w.worker.batch, w.worker.answer.value, now);
      forall k | 0 <= k < |all| ensures AttemptsFit(all[k].state) {
        ReplyWriteFits(w.worker.batch, w.worker.answer.value, now, k);
      }
      WritesFit(w.rows, FirstWrites(all, n));
    case FailBatch(error, now, n) =>
      var all := FailWrites(w.worker.batch, error, now);
      forall k | 0 <= k < |all| ensures AttemptsFit(all[k].state) {
        FailedRowWaits(w.worker.batch[k].state, error, now);
      }
      WritesFit(w.rows, FirstWrites(all, n));
    case ClaimRows(now, limit) =>
      var batch := ClaimBatch(w.rows, now, limit);
      forall k | 0 <= k < |batch| ensures batch[k].state.attempts <= 10 {
        assert batch[k] in w.rows;
      }
      forall i | 0 <= i < |w.rows| ensures AttemptsFit(w'.rows[i].state) {
        BatchRowIs(w.rows, now, limit, i);
      }
    case Purge(cutoff) =>
      assert forall i :: 0 <= i < |w'.rows| ==> w'.rows[i] in w.rows;
    case _ =>
  }

  lemma DistinctFrom(w: World, company: nat)
    requires Safe(w, company)
    ensures DistinctHashes(w.rows)
  {
  }

  lemma {:induction false} UnfoldsKeepsAttempts(w: World, events: seq<Event>, company: nat, end: World)
    requires Safe(w, company) && AttemptsBounded(w) && Unfolds(w, events, company, end)
    ensures AttemptsBounded(end)
    decreases |events|
  {
    hide Safe, Move, AttemptsBounded, DistinctHashes;
    if events != [] {
      DistinctFrom(w, company);
      MoveKeepsAttempts(w, events[0], company);
      MoveKeeps(w, events[0], company);
      UnfoldsKeepsAttempts(Move(w, events[0], company), events[1..], company, end);
    }
  }

  /** Over any run a waiting row has at most ten attempts behind it, and a FAILED row exactly eleven. */
  lemma AttemptsStayBounded(w: World, events: seq<Event>, company: nat, end: World)
    requires Fresh(w) && Unfolds(w, events, company, end)
    ensures AttemptsBounded(end)
  {
    hide Inv, Unfolds, ContentSpaced;
    ReachableSafe(w.db);
    ReachableSpaced(w.db);
    UnfoldsKeepsAttempts(w, events, company, end);
  }

  lemma WritesFit(rows: seq<Row>, ws: seq<Write>)
    requires forall i :: 0 <= i < |rows| ==> AttemptsFit(rows[i].state)
    requires forall k :: 0 <= k < |ws| ==> AttemptsFit(ws[k].state)
    ensures forall i :: 0 <= i < |rows| ==> AttemptsFit(WriteAll(rows, ws)[i].state)
  {
  }

  lemma ReplyWriteFits(batch: seq<Row>, results: seq<UploadResult>, now: int, k: nat)
    requires forall j :: 0 <= j < |batch| ==> batch[j].state.attempts <= 10
    requires k < |ReplyWrites(batch, results, now)|
    ensures AttemptsFit(ReplyWrites(batch, results, now)[k].state)
  {
    hide SettleWrite, SettleWrites, MissedWrites;
    var settle, missed := SettleWrites(batch, Replies(results), now), MissedWrites(batch, Replies(results));
    if k < |settle| {
      var j := WriteComesFrom(batch, Replies(results), now, settle[k]);
      SettleWriteIs(batch, Replies(results)[j], now);
    } else {
      var j := MissComesFrom(batch, Replies(results), missed[k - |settle|]);
    }
  }
}
