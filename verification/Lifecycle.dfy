/**
 * The steps around matching: order registration, cancellation, correction and expiry, manual review,
 * un-crediting, and SMS ingestion. Each is one atomic step.
 */
module Lifecycle {
  import opened Prelude
  import opened MatchTypes
  import opened Outbox
  import opened Tables
  import opened Engine

  // ---------------------------------------------------------------- payments.service.ts: register

  const MAX_AMOUNT_PAISA := 9_999_999_999

  /** The request after field parsing: an absent field, or one that did not normalise, is None. */
  datatype RegisterRequest = RegisterRequest(
    company: nat,
    orderRef: string,
    amount: Option<Amount>,
    trxGiven: bool,
    trxId: Option<string>,
    senderGiven: bool,
    sender: Option<string>,
    provider: Option<Provider>,
    callbackUrl: Option<string>,
    callbackSafe: bool,
    metadataFits: bool)

  datatype RegisterPolicy = RegisterPolicy(ttlMinutes: nat, tolerance: Amount)

  datatype RegisterError =
    | InvalidAmount | AmountOutOfRange | InvalidTrxId | HeuristicDisabled | InvalidSender
    | ProviderRefused | CallbackMissing | CallbackUnsafe | MetadataTooLarge
    | DuplicateOrderId | DuplicateTransactionId

  datatype RegisterOutcome = Created(id: nat) | AlreadyThere(id: nat) | Refused(error: RegisterError)

  function ValidateRequest(req: RegisterRequest, settings: Settings): Option<RegisterError> {
    if req.amount.None? then Some(InvalidAmount)
    else if req.amount.value == 0 || req.amount.value > MAX_AMOUNT_PAISA then Some(AmountOutOfRange)
    else if req.trxGiven && req.trxId.None? then Some(InvalidTrxId)
    else if !req.trxGiven && !settings.heuristicEnabled then Some(HeuristicDisabled)
    else if req.senderGiven && req.sender.None? then Some(InvalidSender)
    else if req.provider.Some? && req.provider.value !in settings.allowedProviders then Some(ProviderRefused)
    else if req.callbackUrl.None? || req.callbackUrl.value == "" then Some(CallbackMissing)
    else if !req.callbackSafe then Some(CallbackUnsafe)
    else if !req.metadataFits then Some(MetadataTooLarge)
    else None
  }

  function RequestTrx(req: RegisterRequest): Option<string> {
    if req.trxGiven then req.trxId else None
  }

  function NewOrder(req: RegisterRequest, policy: RegisterPolicy, now: int): Order {
    Order(
      req.company, req.orderRef, RequestTrx(req), Received(req.amount), policy.tolerance, Pending,
      if req.trxGiven then ExactMode else HeuristicMode,
      req.provider, if req.senderGiven then req.sender else None, req.callbackUrl.GetOr(""),
      now + policy.ttlMinutes * 60_000, now, None)
  }

  /** The position of the company's order with this reference, searching the first `n`. */
  function FindOrder(orders: seq<Order>, company: nat, orderRef: string, n: nat): (r: Option<nat>)
    requires n <= |orders|
    ensures r.Some? ==> r.value < n && orders[r.value].company == company && orders[r.value].orderRef == orderRef
    ensures r.None? ==> forall i :: 0 <= i < n ==> orders[i].company != company || orders[i].orderRef != orderRef
  {
    if n == 0 then None
    else if orders[n - 1].company == company && orders[n - 1].orderRef == orderRef then Some(n - 1)
    else FindOrder(orders, company, orderRef, n - 1)
  }

  predicate IsIdenticalOrder(o: Order, req: RegisterRequest) {
    o.trxId == RequestTrx(req) && o.expected == Received(req.amount) && o.provider == req.provider
  }

  function RegisterOrder(
      db: Db, req: RegisterRequest, settings: Settings, policy: RegisterPolicy, now: int): (Db, RegisterOutcome)
  {
    match ValidateRequest(req, settings)
    case Some(e) => (db, Refused(e))
    case None =>
      match FindOrder(db.orders, req.company, req.orderRef, |db.orders|)
      case Some(i) =>
        (db, if IsIdenticalOrder(db.orders[i], req) then AlreadyThere(i) else Refused(DuplicateOrderId))
      case None =>
        var row := NewOrder(req, policy, now);
        if !IndexAdmits(db.orders, |db.orders|, row) then (db, Refused(DuplicateTransactionId))
        else (db.(orders := db.orders + [row]), Created(|db.orders|))
  }

  // ---------------------------------------------------------------- payments.service.ts: cancel, correct

  datatype OrderError = OrderNotFound | OrderNotPending | BadTrxId | TrxIdClaimed

  datatype OrderOutcome = OrderChanged(id: nat) | OrderRefused(error: OrderError)

  function SetOrder(db: Db, i: nat, row: Order): Db
    requires i < |db.orders|
  {
    db.(orders := db.orders[i := row])
  }

  function CancelOrder(db: Db, company: nat, orderRef: string): (Db, OrderOutcome) {
    match FindOrder(db.orders, company, orderRef, |db.orders|)
    case None => (db, OrderRefused(OrderNotFound))
    case Some(i) =>
      if !db.orders[i].status.Pending? then (db, OrderRefused(OrderNotPending))
      else (SetOrder(db, i, db.orders[i].(status := Cancelled)), OrderChanged(i))
  }

  const LATE_GRACE_MS := 24 * HOUR_MS

  /** PENDING, or EXPIRED for less than a day. */
  predicate MayCorrect(o: Order, now: int) {
    o.status.Pending? || (o.status.Expired? && o.expiresAt > now - LATE_GRACE_MS)
  }

  function Corrected(o: Order, trxId: Option<string>): Order {
    o.(trxId := trxId, mode := ExactMode, status := Pending)
  }

  function CorrectTrxId(db: Db, company: nat, orderRef: string, trxId: Option<string>, now: int): (Db, OrderOutcome) {
    match FindOrder(db.orders, company, orderRef, |db.orders|)
    case None => (db, OrderRefused(OrderNotFound))
    case Some(i) =>
      var o := db.orders[i];
      if !MayCorrect(o, now) then (db, OrderRefused(OrderNotPending))
      else if trxId.None? then (db, OrderRefused(BadTrxId))
      else
        var row := Corrected(o, trxId);
        if !IndexAdmits(db.orders, i, row) then (db, OrderRefused(TrxIdClaimed))
        else (SetOrder(db, i, row), OrderChanged(i))
  }

  // ---------------------------------------------------------------- expiry.service.ts

  const EXPIRY_BATCH := 500

  /** Which companies want an expiry webhook, and which are not active. */
  datatype ExpiryPolicy = ExpiryPolicy(now: int, notify: set<nat>, inactive: set<nat>)

  predicate IsDue(o: Order, now: int) {
    o.status.Pending? && o.expiresAt < now
  }

  function DueOrders(orders: seq<Order>, now: int, n: nat): (r: seq<nat>)
    requires n <= |orders|
    ensures forall k :: 0 <= k < |r| ==> r[k] < n && IsDue(orders[r[k]], now)
    ensures forall i: nat :: i < n && IsDue(orders[i], now) ==> i in r
    ensures forall j, k :: 0 <= j < k < |r| ==> r[j] < r[k]
  {
    if n == 0 then []
    else
      var r := DueOrders(orders, now, n - 1);
      if IsDue(orders[n - 1], now) then r + [n - 1] else r
  }

  function ExpiryEvent(i: nat, o: Order, policy: ExpiryPolicy): OutboxEvent {
    CreatedEvent(o.company, PaymentExpired(i, o.orderRef, o.expected, o.expiresAt), Some(o.callbackUrl), policy.now,
      o.company !in policy.inactive)
  }

  /** One order of the sweep: flipped only if it is still pending. */
  function ExpireOrder(db: Db, i: nat, policy: ExpiryPolicy): (Db, bool)
    requires i < |db.orders|
  {
    var o := db.orders[i];
    if !o.status.Pending? then (db, false)
    else
      var flipped := SetOrder(db, i, o.(status := Expired));
      if o.company !in policy.notify then (flipped, true)
      else (AddEvent(flipped, ExpiryEvent(i, o, policy)), true)
  }

  function ExpireAll(db: Db, ids: seq<nat>, policy: ExpiryPolicy): (r: (Db, nat))
    requires forall k :: 0 <= k < |ids| ==> ids[k] < |db.orders|
    ensures |r.0.orders| == |db.orders|
    decreases |ids|
  {
    if ids == [] then (db, 0)
    else
      var (next, flipped) := ExpireOrder(db, ids[0], policy);
      var (last, n) := ExpireAll(next, ids[1..], policy);
      (last, n + if flipped then 1 else 0)
  }

  function SweepExpired(db: Db, policy: ExpiryPolicy): (Db, nat) {
    var due := Take(DueOrders(db.orders, policy.now, |db.orders|), EXPIRY_BATCH);
    ExpireAll(db, due, policy)
  }

  // ---------------------------------------------------------------- resolve.service.ts

  datatype ResolveError = ReviewNotFound | ReviewClosed | SubjectNotFound | OrderNotVerifiable | AlreadyVerified

  datatype ResolveOutcome = ReviewDone | ReviewRefused(error: ResolveError)

  function LinkCredit(db: Db, sms: nat, order: nat, now: int): Crediting
    requires sms < |db.sms| && order < |db.orders|
  {
    var o := db.orders[order];
    Crediting(order, sms, ManualAdmin, 1.0, Received(db.sms[sms].amount) - o.expected, o.status.Expired?, {}, now, true)
  }

  function ResolveLink(db: Db, review: nat, sms: nat, order: nat, now: int): (Db, ResolveOutcome) {
    if review >= |db.reviews| then (db, ReviewRefused(ReviewNotFound))
    else if !db.reviews[review].status.ReviewOpen? then (db, ReviewRefused(ReviewClosed))
    else if order >= |db.orders| || sms >= |db.sms| then (db, ReviewRefused(SubjectNotFound))
    else if db.orders[order].company != db.reviews[review].company
      || db.sms[sms].company != db.reviews[review].company then
      (db, ReviewRefused(SubjectNotFound))
    else if !db.orders[order].status.Pending? && !db.orders[order].status.Expired? then
      (db, ReviewRefused(OrderNotVerifiable))
    else
      match ApplyCredit(db, LinkCredit(db, sms, order, now))
      case None => (db, ReviewRefused(AlreadyVerified))
      case Some(credited) => (CloseReview(credited, review, ReviewResolved), ReviewDone)
  }

  function CloseReview(db: Db, review: nat, status: ReviewStatus): Db
    requires review < |db.reviews|
  {
    db.(reviews := db.reviews[review := db.reviews[review].(status := status)])
  }

  function ResolveDismiss(db: Db, review: nat, notAPayment: bool): (Db, ResolveOutcome) {
    if review >= |db.reviews| then (db, ReviewRefused(ReviewNotFound))
    else if !db.reviews[review].status.ReviewOpen? then (db, ReviewRefused(ReviewClosed))
    else
      var closed := CloseReview(db, review, ReviewDismissed);
      var sms := db.reviews[review].sms;
      if sms.None? || sms.value >= |db.sms| then (closed, ReviewDone)
      else (SetSms(closed, sms.value, if notAPayment then StIgnored else StUnmatched, {}), ReviewDone)
  }

  // ---------------------------------------------------------------- void-verification.controller.ts

  datatype VoidOutcome = Voided(order: nat, sms: nat) | VerificationNotFound | VoidConflict

  function VoidVerification(db: Db, id: nat): (Db, VoidOutcome) {
    if id !in db.verifs then (db, VerificationNotFound)
    else
      var v := db.verifs[id];
      if v.order >= |db.orders| || v.sms >= |db.sms| then (db, VerificationNotFound)
      else
        var row := db.orders[v.order].(status := Pending, verifiedAt := None);
        if !IndexAdmits(db.orders, v.order, row) then (db, VoidConflict)
        else
          (SetSms(SetOrder(db.(verifs := db.verifs - {id}), v.order, row), v.sms, StUnmatched, {}),
           Voided(v.order, v.sms))
  }

  // ---------------------------------------------------------------- ingestion.service.ts

  const CONTENT_DEDUPE_WINDOW_MS := 7 * 24 * HOUR_MS

  /** What the parser reads off the message text. */
  datatype Extraction = Extraction(
    provider: Provider,
    parse: ParseStatus,
    trxId: Option<string>,
    amount: Option<Amount>,
    sender: Option<string>,
    smsAt: Option<int>,
    flags: set<Flag>)

  /** One uploaded message; `contentHash` stands for the digest of address and normalised text. */
  datatype Message = Message(clientHash: string, contentHash: string, extraction: Extraction)

  predicate IsHexDigit(c: char) {
    '0' <= c <= '9' || 'a' <= c <= 'f' || 'A' <= c <= 'F'
  }

  predicate IsHex64(s: string) {
    |s| == 64 && forall i :: 0 <= i < |s| ==> IsHexDigit(s[i])
  }

  datatype UploadStatus = UpAccepted | UpDuplicate | UpRejected

  datatype UploadResult = UploadResult(
    clientHash: string, status: UploadStatus, smsLogId: Option<nat>, matchStatus: Option<MatchStatus>)

  predicate SameContent(s: Sms, company: nat, contentHash: string, now: int) {
    s.company == company && s.contentHash == contentHash && s.uploadedAt >= now - CONTENT_DEDUPE_WINDOW_MS
  }

  predicate SameClient(s: Sms, company: nat, clientHash: string) {
    s.company == company && s.clientHash == clientHash
  }

  function SameContentAs(company: nat, contentHash: string, now: int): Sms -> bool {
    (s: Sms) => SameContent(s, company, contentHash, now)
  }

  function SameClientAs(company: nat, clientHash: string): Sms -> bool {
    (s: Sms) => SameClient(s, company, clientHash)
  }

  /** The latest row among the first `n` satisfying `p`. */
  function FindSms(sms: seq<Sms>, p: Sms -> bool, n: nat): (r: Option<nat>)
    requires n <= |sms|
    ensures r.Some? ==> r.value < n && p(sms[r.value])
    ensures r.None? ==> forall i :: 0 <= i < n ==> !p(sms[i])
  {
    if n == 0 then None else if p(sms[n - 1]) then Some(n - 1) else FindSms(sms, p, n - 1)
  }

  function NewSms(company: nat, device: nat, msg: Message, now: int): Sms {
    var x := msg.extraction;
    Sms(company, Some(device), msg.clientHash, msg.contentHash, x.provider, x.parse, x.trxId, x.amount, x.sender,
      x.smsAt, now, StUnmatched, x.flags)
  }

  function DuplicateOf(sms: seq<Sms>, clientHash: string, at: Option<nat>): UploadResult
    requires at.Some? ==> at.value < |sms|
  {
    match at
    case None => UploadResult(clientHash, UpDuplicate, None, None)
    case Some(i) => UploadResult(clientHash, UpDuplicate, Some(i), Some(sms[i].matchStatus))
  }

  /** The write that follows matching: it repeats the status the run reported. */
  function RewriteStatus(db: Db, id: nat, status: MatchStatus): Db
    requires id < |db.sms|
  {
    if status.StUnmatched? then db else SetSms(db, id, status, {})
  }

  function IngestOne(
      db: Db, company: nat, device: nat, msg: Message, env: Env, seen: set<string>): (r: (Db, UploadResult))
    ensures |db.sms| <= |r.0.sms|
  {
    if !IsHex64(msg.clientHash) then (db, UploadResult(msg.clientHash, UpRejected, None, None))
    else if msg.clientHash in seen then (db, UploadResult(msg.clientHash, UpDuplicate, None, None))
    else
      var byContent := FindSms(db.sms, SameContentAs(company, msg.contentHash, env.now), |db.sms|);
      var byClient := FindSms(db.sms, SameClientAs(company, msg.clientHash), |db.sms|);
      if byContent.Some? then (db, DuplicateOf(db.sms, msg.clientHash, byContent))
      else if byClient.Some? then (db, DuplicateOf(db.sms, msg.clientHash, byClient))
      else
        var id := |db.sms|;
        var stored := db.(sms := db.sms + [NewSms(company, device, msg, env.now)]);
        var status := MatchResult(stored, id, env);
        MatchKeepsLengths(stored, id, env);
        var done := RewriteStatus(MatchSms(stored, id, env), id, status);
        (done, UploadResult(msg.clientHash, UpAccepted, Some(id), Some(status)))
  }

  lemma MatchKeepsLengths(db: Db, id: nat, env: Env)
    requires id < |db.sms|
    ensures |MatchSms(db, id, env).sms| == |db.sms| && |MatchSms(db, id, env).orders| == |db.orders|
  {
    DecideKeepsLengths(db, id, env);
  }

  function SeenAfter(msg: Message, seen: set<string>): set<string> {
    if IsHex64(msg.clientHash) then seen + {msg.clientHash} else seen
  }

  /** A batch, message by message, sharing the set of hashes already seen in it. */
  function IngestAll(
      db: Db, company: nat, device: nat, msgs: seq<Message>, env: Env, seen: set<string>): (r: (Db, seq<UploadResult>))
    ensures |r.1| == |msgs| && |db.sms| <= |r.0.sms|
    decreases |msgs|
  {
    if msgs == [] then (db, [])
    else
      var (next, first) := IngestOne(db, company, device, msgs[0], env, seen);
      var (last, rest) := IngestAll(next, company, device, msgs[1..], env, SeenAfter(msgs[0], seen));
      (last, [first] + rest)
  }
}
