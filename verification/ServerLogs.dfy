/** What every step of the payment tables keeps about the stored SMS logs, and what an upload adds. */
module ServerLogs {
  import opened Tables
  import opened Engine
  import opened Lifecycle
  import opened Steps

  // ---------------------------------------------------------------- logs are only ever added

  predicate SameLog(a: Sms, b: Sms) {
    a.company == b.company && a.clientHash == b.clientHash && a.contentHash == b.contentHash
    && a.uploadedAt == b.uploadedAt
  }

  /** No log is dropped, and the columns deduplication reads never change. */
  ghost predicate LogsGrow(a: Db, b: Db) {
    |a.sms| <= |b.sms| && forall s :: 0 <= s < |a.sms| ==> SameLog(a.sms[s], b.sms[s])
  }

  ghost predicate LogsKept(a: Db, b: Db) {
    |a.sms| == |b.sms| && LogsGrow(a, b)
  }

  /** The server holds a log of the company with this client hash or this content. */
  ghost predicate Held(db: Db, company: nat, clientHash: string, contentHash: string) {
    exists s :: 0 <= s < |db.sms| && db.sms[s].company == company
      && (db.sms[s].clientHash == clientHash || db.sms[s].contentHash == contentHash)
  }

  lemma HeldStays(a: Db, b: Db, company: nat, clientHash: string, contentHash: string)
    requires LogsGrow(a, b) && Held(a, company, clientHash, contentHash)
    ensures Held(b, company, clientHash, contentHash)
  {
  }

  predicate SameText(a: Sms, b: Sms) {
    a.company == b.company && a.contentHash == b.contentHash
  }

  /** Two logs of one content in one company are more than seven days apart. */
  ghost predicate ContentSpaced(db: Db) {
    forall i, j :: 0 <= i < j < |db.sms| && SameText(db.sms[i], db.sms[j]) ==>
      db.sms[i].uploadedAt + CONTENT_DEDUPE_WINDOW_MS < db.sms[j].uploadedAt
  }

  lemma KeptStaysSpaced(a: Db, b: Db)
    requires LogsKept(a, b) && ContentSpaced(a)
    ensures ContentSpaced(b)
  {
  }

  // ---------------------------------------------------------------- matching keeps the logs

  lemma DecideKeepsLogs(db: Db, id: nat, env: Env)
    requires id < |db.sms| && DecideAndApply(db, id, env).Committed?
    ensures LogsKept(db, DecideAndApply(db, id, env).db)
  {
    hide DecideOn;
    DecisionNamesRow(db, id, env);
    AppliedStatus(db, id, DecideOn(db, id, env), env);
  }

  lemma MatchKeepsLogs(db: Db, id: nat, env: Env)
    requires id < |db.sms|
    ensures LogsKept(db, MatchSms(db, id, env))
  {
    hide DecideAndApply;
    if DecideAndApply(db, id, env).Committed? {
      DecideKeepsLogs(db, id, env);
    }
  }

  lemma {:induction false} ReverseLoopKeepsLogs(db: Db, rows: seq<nat>, env: Env)
    requires forall k :: 0 <= k < |rows| ==> rows[k] < |db.sms|
    ensures ReverseLoop(db, rows, env).ReverseDone? ==> LogsKept(db, ReverseLoop(db, rows, env).db)
    decreases |rows|
  {
    hide DecideAndApply;
    if rows != [] && DecideAndApply(db, rows[0], env).Committed? {
      DecideKeepsLogs(db, rows[0], env);
      var next := DecideAndApply(db, rows[0], env);
      if !next.decision.DVerified? {
        ReverseLoopKeepsLogs(next.db, rows[1..], env);
        var last := ReverseLoop(next.db, rows[1..], env);
        if last.ReverseDone? {
          KeptTwice(db, next.db, last.db);
        }
      }
    }
  }

  lemma KeptTwice(a: Db, b: Db, c: Db)
    requires LogsGrow(a, b) && LogsGrow(b, c)
    ensures LogsGrow(a, c)
    ensures LogsKept(a, b) && LogsKept(b, c) ==> LogsKept(a, c)
  {
  }

  lemma ReverseKeepsLogs(db: Db, order: nat, env: Env)
    ensures LogsKept(db, ReverseMatch(db, order, env).0)
  {
    hide ReverseLoop;
    var rows := ReverseRows(db, order, env);
    if rows.Some? {
      ReverseLoopKeepsLogs(db, rows.value, env);
    }
  }

  // ---------------------------------------------------------------- ingestion adds what was not there

  /** One message: what a log it adds is, when it adds one, and what its result means. */
  lemma IngestOneLogs(db: Db, company: nat, device: nat, msg: Message, env: Env, seen: set<string>)
    requires ContentSpaced(db)
    ensures var (db', res) := IngestOne(db, company, device, msg, env, seen);
      && LogsGrow(db, db') && ContentSpaced(db')
      && res.clientHash == msg.clientHash
      && (res.status.UpRejected? <==> !IsHex64(msg.clientHash))
      && (IsHex64(msg.clientHash) && msg.clientHash !in seen ==> Held(db', company, msg.clientHash, msg.contentHash))
      && |db'.sms| == |db.sms| + (if res.status.UpAccepted? then 1 else 0)
  {
    hide IsHex64, MatchSms, MatchResult, ContentSpaced;
    var byContent := FindSms(db.sms, SameContentAs(company, msg.contentHash, env.now), |db.sms|);
    var byClient := FindSms(db.sms, SameClientAs(company, msg.clientHash), |db.sms|);
    if IsHex64(msg.clientHash) && msg.clientHash !in seen {
      if byContent.Some? {
        assert SameContent(db.sms[byContent.value], company, msg.contentHash, env.now);
      } else if byClient.Some? {
        assert SameClient(db.sms[byClient.value], company, msg.clientHash);
      } else {
        var row := NewSms(company, device, msg, env.now);
        var stored := db.(sms := db.sms + [row]);
        assert forall j :: 0 <= j < |db.sms| ==> !SameContentAs(company, msg.contentHash, env.now)(db.sms[j]);
        NewLogIsSpaced(db, row);
        var id := |db.sms|;
        MatchKeepsLogs(stored, id, env);
        var matched := MatchSms(stored, id, env);
        var done := RewriteStatus(matched, id, MatchResult(stored, id, env));
        assert LogsKept(matched, done);
        KeptTwice(stored, matched, done);
        KeptStaysSpaced(stored, done);
        assert LogsGrow(db, stored);
        KeptTwice(db, stored, done);
        assert SameLog(stored.sms[id], done.sms[id]);
      }
    }
  }

  lemma NewLogIsSpaced(db: Db, row: Sms)
    requires ContentSpaced(db)
    requires forall j :: 0 <= j < |db.sms| ==> !SameContent(db.sms[j], row.company, row.contentHash, row.uploadedAt)
    ensures ContentSpaced(db.(sms := db.sms + [row]))
  {
  }

  /** The content each client hash was computed from. */
  ghost predicate KnownMessages(msgs: seq<Message>, known: map<string, string>) {
    forall k :: 0 <= k < |msgs| ==> msgs[k].clientHash in known && known[msgs[k].clientHash] == msgs[k].contentHash
  }

  ghost predicate AllHeld(db: Db, company: nat, hashes: set<string>, known: map<string, string>) {
    forall h :: h in hashes ==> h in known && Held(db, company, h, known[h])
  }

  /** What a result promises the phone. */
  ghost predicate ResultSound(db: Db, company: nat, known: map<string, string>, res: UploadResult) {
    if res.status.UpRejected? then !IsHex64(res.clientHash)
    else res.clientHash in known && Held(db, company, res.clientHash, known[res.clientHash])
  }

  lemma SoundStays(a: Db, b: Db, company: nat, known: map<string, string>, res: UploadResult)
    requires LogsGrow(a, b) && ResultSound(a, company, known, res)
    ensures ResultSound(b, company, known, res)
  {
  }

  /** A batch: no log is lost, every result is true of the tables it leaves, and every well-formed message is held. */
  lemma {:induction false} IngestAllLogs(
      db: Db, company: nat, device: nat, msgs: seq<Message>, env: Env, seen: set<string>, known: map<string, string>)
    requires ContentSpaced(db) && KnownMessages(msgs, known) && AllHeld(db, company, seen, known)
    ensures var (db', results) := IngestAll(db, company, device, msgs, env, seen);
      && LogsGrow(db, db') && ContentSpaced(db')
      && (forall k :: 0 <= k < |msgs| ==>
            results[k].clientHash == msgs[k].clientHash && ResultSound(db', company, known, results[k]))
    decreases |msgs|
  {
    hide IngestOne, ContentSpaced, LogsGrow, Held, IsHex64;
    if msgs == [] {
      assert LogsGrow(db, db) by { GrowsItself(db); }
    } else {
      var (next, first) := IngestOne(db, company, device, msgs[0], env, seen);
      IngestOneLogs(db, company, device, msgs[0], env, seen);
      var seen' := SeenAfter(msgs[0], seen);
      forall h | h in seen' ensures h in known && Held(next, company, h, known[h]) {
        if h in seen {
          HeldStays(db, next, company, h, known[h]);
        }
      }
      IngestAllLogs(next, company, device, msgs[1..], env, seen', known);
      var (last, rest) := IngestAll(next, company, device, msgs[1..], env, seen');
      KeptTwice(db, next, last);
      assert ResultSound(next, company, known, first);
      SoundStays(next, last, company, known, first);
      var results := IngestAll(db, company, device, msgs, env, seen).1;
      forall k | 0 <= k < |msgs|
        ensures results[k].clientHash == msgs[k].clientHash && ResultSound(last, company, known, results[k])
      {
        if k > 0 {
          assert results[k] == rest[k - 1] && msgs[k] == msgs[1..][k - 1];
        }
      }
    }
  }

  lemma GrowsItself(db: Db)
    ensures LogsGrow(db, db)
  {
  }

  /** A processed request stores every well-formed message in it, whatever was stored before. */
  lemma ProcessedIsHeld(
      db: Db, company: nat, device: nat, msgs: seq<Message>, env: Env, known: map<string, string>, k: nat)
    requires ContentSpaced(db) && KnownMessages(msgs, known)
    requires k < |msgs| && IsHex64(msgs[k].clientHash)
    ensures Held(IngestAll(db, company, device, msgs, env, {}).0, company, msgs[k].clientHash, msgs[k].contentHash)
  {
    IngestAllLogs(db, company, device, msgs, env, {}, known);
    assert ResultSound(IngestAll(db, company, device, msgs, env, {}).0, company, known,
      IngestAll(db, company, device, msgs, env, {}).1[k]);
  }

  // ---------------------------------------------------------------- every step

  lemma {:induction false} IngestAllSpaced(
      db: Db, company: nat, device: nat, msgs: seq<Message>, env: Env, seen: set<string>)
    requires ContentSpaced(db)
    ensures var db' := IngestAll(db, company, device, msgs, env, seen).0; LogsGrow(db, db') && ContentSpaced(db')
    decreases |msgs|
  {
    hide IngestOne, ContentSpaced, IsHex64;
    if msgs != [] {
      var next := IngestOne(db, company, device, msgs[0], env, seen).0;
      IngestOneLogs(db, company, device, msgs[0], env, seen);
      IngestAllSpaced(next, company, device, msgs[1..], env, SeenAfter(msgs[0], seen));
      KeptTwice(db, next, IngestAll(next, company, device, msgs[1..], env, SeenAfter(msgs[0], seen)).0);
    }
  }

  /** No step of the payment tables loses a log, and none stores a content twice within seven days. */
  lemma StepKeepsLogs(db: Db, op: Op)
    requires ContentSpaced(db)
    ensures LogsGrow(db, Step(db, op)) && ContentSpaced(Step(db, op))
  {
    hide ContentSpaced, ReverseMatch, IngestAll, MatchSms, ExpireAll;
    if op.Upload? {
      IngestAllSpaced(db, op.company, op.device, op.msgs, op.env, {});
    } else {
      assert LogsKept(db, Step(db, op)) by {
        match op
        case Reverse(order, env) => ReverseKeepsLogs(db, order, env);
        case Rematch(sms, env) => if sms < |db.sms| { MatchKeepsLogs(db, sms, env); }
        case Sweep(policy) =>
          ExpireAllLeavesSms(db, Take(DueOrders(db.orders, policy.now, |db.orders|), EXPIRY_BATCH), policy);
        case _ =>
      }
      KeptStaysSpaced(db, Step(db, op));
    }
  }

  lemma {:induction false} RunKeepsLogs(db: Db, ops: seq<Op>)
    requires ContentSpaced(db)
    ensures LogsGrow(db, Run(db, ops)) && ContentSpaced(Run(db, ops))
    decreases |ops|
  {
    hide ContentSpaced, Step;
    if ops != [] {
      StepKeepsLogs(db, ops[0]);
      RunKeepsLogs(Step(db, ops[0]), ops[1..]);
      KeptTwice(db, Step(db, ops[0]), Run(Step(db, ops[0]), ops[1..]));
    }
  }

  lemma ReachableSpaced(db: Db)
    requires Reachable(db)
    ensures ContentSpaced(db)
  {
    var ops :| (forall i :: 0 <= i < |ops| ==> ValidOp(ops[i])) && db == Run(EMPTY_DB, ops);
    RunKeepsLogs(EMPTY_DB, ops);
  }
}
