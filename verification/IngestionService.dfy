/** SMS ingestion as the service runs it over the tables (ingestion.service.ts). */
module IngestionService {
  import opened Prelude
  import opened MatchTypes
  import opened Tables
  import opened Engine
  import opened Lifecycle
  import opened Steps
  import opened Spending
  import opened Store
  import opened MatchingService

  datatype Summary = Summary(accepted: nat, duplicates: nat, rejected: nat, matched: nat)

  function CountStatus(results: seq<UploadResult>, status: UploadStatus): nat {
    if results == [] then 0
    else CountStatus(results[..|results| - 1], status) + if results[|results| - 1].status == status then 1 else 0
  }

  predicate Matched(res: UploadResult) {
    res.matchStatus == Some(StMatched)
  }

  function CountMatched(results: seq<UploadResult>): nat {
    if results == [] then 0
    else CountMatched(results[..|results| - 1]) + if Matched(results[|results| - 1]) then 1 else 0
  }

  /** The row a message leaves before it is parsed. */
  function BareSms(company: nat, device: nat, msg: Message, now: int): Sms {
    Sms(company, Some(device), msg.clientHash, msg.contentHash, UnknownProvider, Unparsed, None, None, None, None, now,
      StUnmatched, {})
  }

  function WithExtraction(row: Sms, x: Extraction): Sms {
    row.(provider := x.provider, parse := x.parse, trxId := x.trxId, amount := x.amount, sender := x.sender,
      smsAt := x.smsAt, flags := x.flags)
  }

  /** One message: dedupe in the batch, by content, by client hash; then store, parse, match and restate. */
  method IngestMessage(t: PaymentTables, company: nat, device: nat, msg: Message, env: Env, seen: set<string>)
    returns (res: UploadResult, seen': set<string>)
    modifies t
    ensures (t.State(), res) == IngestOne(old(t.State()), company, device, msg, env, seen)
    ensures seen' == SeenAfter(msg, seen)
  {
    hide MatchSms, MatchResult, IsHex64;
    if !IsHex64(msg.clientHash) {
      return UploadResult(msg.clientHash, UpRejected, None, None), seen;
    }
    seen' := seen + {msg.clientHash};
    if msg.clientHash in seen {
      return UploadResult(msg.clientHash, UpDuplicate, None, None), seen';
    }
    var byContent := FindSms(t.sms, SameContentAs(company, msg.contentHash, env.now), |t.sms|);
    if byContent.Some? {
      return DuplicateOf(t.sms, msg.clientHash, byContent), seen';
    }
    var byClient := FindSms(t.sms, SameClientAs(company, msg.clientHash), |t.sms|);
    if byClient.Some? {
      return DuplicateOf(t.sms, msg.clientHash, byClient), seen';
    }
    var id := |t.sms|;
    t.sms := t.sms + [BareSms(company, device, msg, env.now)];
    t.sms := t.sms[id := WithExtraction(t.sms[id], msg.extraction)];
    ghost var stored := t.State();
    assert stored == old(t.State()).(sms := old(t.sms) + [NewSms(company, device, msg, env.now)]);
    MatchKeepsLengths(stored, id, env);
    var status := MatchBySms(t, id, env);
    if !status.StUnmatched? {
      t.SetSmsStatus(id, status, {});
    }
    return UploadResult(msg.clientHash, UpAccepted, Some(id), Some(status)), seen';
  }

  /**
   * An accepted message names the one row it added, with what was parsed and the status that row has now; a
   * duplicate names a row that was there, of the same client hash or of the same content within seven days.
   */
  lemma ResultNamesRow(db: Db, company: nat, device: nat, msg: Message, env: Env, seen: set<string>)
    requires env.faults < MATCH_ATTEMPTS
    ensures var (db', res) := IngestOne(db, company, device, msg, env, seen);
      && (res.status.UpAccepted? ==>
            && res.smsLogId == Some(|db.sms|) && |db'.sms| == |db.sms| + 1
            && SameFacts(db.(sms := db.sms + [NewSms(company, device, msg, env.now)]), db')
            && res.matchStatus == Some(db'.sms[|db.sms|].matchStatus))
      && (!res.status.UpAccepted? ==> db' == db)
      && (res.status.UpDuplicate? && res.smsLogId.Some? ==>
            && res.smsLogId.value < |db.sms| && res.matchStatus == Some(db.sms[res.smsLogId.value].matchStatus)
            && (SameClient(db.sms[res.smsLogId.value], company, msg.clientHash)
                || SameContent(db.sms[res.smsLogId.value], company, msg.contentHash, env.now)))
  {
    hide IsHex64, MatchSms, MatchResult, RewriteStatus, SameFacts;
    var stored := db.(sms := db.sms + [NewSms(company, device, msg, env.now)]);
    MatchKeepsLengths(stored, |db.sms|, env);
    RewriteChangesNothing(stored, |db.sms|, env);
    ReportedIsStored(stored, |db.sms|, env);
    RunTouchesOneSms(stored, |db.sms|, env);
    var byContent := FindSms(db.sms, SameContentAs(company, msg.contentHash, env.now), |db.sms|);
    var byClient := FindSms(db.sms, SameClientAs(company, msg.clientHash), |db.sms|);
    assert byContent.Some? ==> SameContentAs(company, msg.contentHash, env.now)(db.sms[byContent.value]);
    assert byClient.Some? ==> SameClientAs(company, msg.clientHash)(db.sms[byClient.value]);
  }

  /** Every message is accepted, a duplicate or rejected. */
  lemma {:induction false} CountsAddUp(results: seq<UploadResult>)
    ensures CountStatus(results, UpAccepted) + CountStatus(results, UpDuplicate) + CountStatus(results, UpRejected)
      == |results|
  {
    if results != [] {
      CountsAddUp(results[..|results| - 1]);
    }
  }

  /** The counters count the results that have the status. */
  lemma {:induction false} CountStatusIs(results: seq<UploadResult>, status: UploadStatus)
    ensures CountStatus(results, status) == |set i | 0 <= i < |results| && results[i].status == status|
  {
    if results != [] {
      var n := |results| - 1;
      CountStatusIs(results[..n], status);
      HavingSplits(results, n, status);
    }
  }

  lemma HavingSplits(results: seq<UploadResult>, n: nat, status: UploadStatus)
    requires |results| == n + 1
    ensures var before, all := set i | 0 <= i < n && results[..n][i].status == status,
        set i | 0 <= i < |results| && results[i].status == status;
      all == (if results[n].status == status then before + {n} else before) && n !in before
  {
  }

  lemma MatchedSplits(results: seq<UploadResult>, n: nat)
    requires |results| == n + 1
    ensures var before, all := set i | 0 <= i < n && results[..n][i].matchStatus == Some(StMatched),
        set i | 0 <= i < |results| && results[i].matchStatus == Some(StMatched);
      all == (if results[n].matchStatus == Some(StMatched) then before + {n} else before) && n !in before
  {
  }

  lemma {:induction false} CountMatchedIs(results: seq<UploadResult>)
    ensures CountMatched(results) == |set i | 0 <= i < |results| && results[i].matchStatus == Some(StMatched)|
  {
    if results != [] {
      var n := |results| - 1;
      CountMatchedIs(results[..n]);
      MatchedSplits(results, n);
    }
  }

  /** A batch: the results in the order of its messages, and a summary that counts them. */
  method Ingest(t: PaymentTables, company: nat, device: nat, msgs: seq<Message>, env: Env)
    returns (results: seq<UploadResult>, summary: Summary)
    modifies t
    ensures t.State() == IngestAll(old(t.State()), company, device, msgs, env, {}).0
    ensures results == IngestAll(old(t.State()), company, device, msgs, env, {}).1
    ensures summary == Summary(
      CountStatus(results, UpAccepted), CountStatus(results, UpDuplicate), CountStatus(results, UpRejected),
      CountMatched(results))
    ensures summary.accepted + summary.duplicates + summary.rejected == |msgs|
    ensures summary.accepted == |set i | 0 <= i < |results| && results[i].status == UpAccepted|
    ensures summary.duplicates == |set i | 0 <= i < |results| && results[i].status == UpDuplicate|
    ensures summary.rejected == |set i | 0 <= i < |results| && results[i].status == UpRejected|
    ensures summary.matched == |set i | 0 <= i < |results| && results[i].matchStatus == Some(StMatched)|
  {
    hide IngestOne;
    var seen: set<string> := {};
    var accepted, duplicates, rejected, matched := 0, 0, 0, 0;
    results := [];
    var i := 0;
    assert msgs[0..] == msgs;
    while i < |msgs|
      invariant 0 <= i <= |msgs|
      invariant IngestAll(old(t.State()), company, device, msgs, env, {}).0
        == IngestAll(t.State(), company, device, msgs[i..], env, seen).0
      invariant IngestAll(old(t.State()), company, device, msgs, env, {}).1
        == results + IngestAll(t.State(), company, device, msgs[i..], env, seen).1
      invariant accepted == CountStatus(results, UpAccepted) && duplicates == CountStatus(results, UpDuplicate)
      invariant rejected == CountStatus(results, UpRejected) && matched == CountMatched(results)
    {
      assert msgs[i..][0] == msgs[i] && msgs[i..][1..] == msgs[i + 1..];
      ghost var before := IngestAll(t.State(), company, device, msgs[i..], env, seen);
      var res: UploadResult;
      res, seen := IngestMessage(t, company, device, msgs[i], env, seen);
      assert before.1 == [res] + IngestAll(t.State(), company, device, msgs[i + 1..], env, seen).1;
      assert (results + [res])[..|results|] == results;
      results := results + [res];
      match res.status {
        case UpAccepted => accepted := accepted + 1;
        case UpDuplicate => duplicates := duplicates + 1;
        case UpRejected => rejected := rejected + 1;
      }
      if Matched(res) {
        matched := matched + 1;
      }
      i := i + 1;
    }
    CountsAddUp(results);
    CountStatusIs(results, UpAccepted);
    CountStatusIs(results, UpDuplicate);
    CountStatusIs(results, UpRejected);
    CountMatchedIs(results);
    summary := Summary(accepted, duplicates, rejected, matched);
  }
}
