/** What each request outside matching answers and writes, column by column. */
module RequestEffects {
  import opened Prelude
  import opened MatchTypes
  import opened Outbox
  import opened Tables
  import opened Engine
  import opened Lifecycle
  import opened Invariants
  import opened Steps
  import opened MatchEffects

  /** Only order `i` differs. */
  ghost predicate OnlyOrder(a: Db, b: Db, i: nat) {
    && i < |a.orders| == |b.orders| && b == a.(orders := b.orders)
    && forall j :: 0 <= j < |a.orders| && j != i ==> b.orders[j] == a.orders[j]
  }

  predicate IsNamed(o: Order, company: nat, orderRef: string) {
    o.company == company && o.orderRef == orderRef
  }

  ghost predicate Exists(db: Db, company: nat, orderRef: string) {
    exists i :: 0 <= i < |db.orders| && IsNamed(db.orders[i], company, orderRef)
  }

  // ---------------------------------------------------------------- register

  /** The amount is between one paisa and 99,999,999.99 taka. */
  predicate AmountAllowed(req: RegisterRequest) { req.amount.Some? && 1 <= req.amount.value <= 9_999_999_999 }

  predicate TrxAllowed(req: RegisterRequest, settings: Settings) {
    if req.trxGiven then req.trxId.Some? else settings.heuristicEnabled
  }

  predicate SenderAllowed(req: RegisterRequest) { req.senderGiven ==> req.sender.Some? }

  predicate ProviderChoiceAllowed(req: RegisterRequest, settings: Settings) {
    req.provider.Some? ==> req.provider.value in settings.allowedProviders
  }

  predicate CallbackAllowed(req: RegisterRequest) {
    req.callbackUrl.Some? && req.callbackUrl.value != "" && req.callbackSafe
  }

  predicate RequestAllowed(req: RegisterRequest, settings: Settings) {
    && AmountAllowed(req) && TrxAllowed(req, settings) && SenderAllowed(req) && ProviderChoiceAllowed(req, settings)
    && CallbackAllowed(req) && req.metadataFits
  }

  /** The error names the first check that fails, in the order amount, TrxID, sender, provider, callback, metadata. */
  lemma ValidatedAs(req: RegisterRequest, settings: Settings)
    ensures ValidateRequest(req, settings) ==
      if !AmountAllowed(req) then Some(if req.amount.None? then InvalidAmount else AmountOutOfRange)
      else if !TrxAllowed(req, settings) then Some(if req.trxGiven then InvalidTrxId else HeuristicDisabled)
      else if !SenderAllowed(req) then Some(InvalidSender)
      else if !ProviderChoiceAllowed(req, settings) then Some(ProviderRefused)
      else if !CallbackAllowed(req) then
        Some(if req.callbackUrl == None || req.callbackUrl == Some("") then CallbackMissing else CallbackUnsafe)
      else if !req.metadataFits then Some(MetadataTooLarge)
      else None
  {
  }

  /** The row a registration stores: what was asked for, PENDING, for as long as the policy says. */
  predicate IsRegistered(o: Order, req: RegisterRequest, policy: RegisterPolicy, now: int) {
    && o.company == req.company && o.orderRef == req.orderRef
    && o.trxId == (if req.trxGiven then req.trxId else None)
    && o.mode == (if req.trxGiven then ExactMode else HeuristicMode)
    && Some(o.expected) == req.amount && o.tolerance == policy.tolerance && o.provider == req.provider
    && o.sender == (if req.senderGiven then req.sender else None) && Some(o.callbackUrl) == req.callbackUrl
    && o.status == Pending && o.createdAt == now && o.expiresAt == now + policy.ttlMinutes * 60_000
    && o.verifiedAt == None
  }

  /** The stored order asks for the same TrxID, amount and provider. */
  predicate AsksSame(o: Order, req: RegisterRequest) {
    && o.trxId == (if req.trxGiven then req.trxId else None) && Some(o.expected) == req.amount
    && o.provider == req.provider
  }

  /** A live order of the company holds the requested TrxID. */
  ghost predicate TrxWanted(db: Db, req: RegisterRequest) {
    && req.trxGiven && req.trxId.Some?
    && exists j :: 0 <= j < |db.orders| && IsLiveWith(db.orders[j], req.company, req.trxId)
  }

  /** The answer to a registration, and the one row it may add. */
  lemma RegisterWrites(db: Db, req: RegisterRequest, settings: Settings, policy: RegisterPolicy, now: int)
    ensures var (b, r) := RegisterOrder(db, req, settings, policy, now);
      if !RequestAllowed(req, settings) then b == db && r.Refused? && ValidateRequest(req, settings) == Some(r.error)
      else if Exists(db, req.company, req.orderRef) then
        b == db && (r == Refused(DuplicateOrderId) || (r.AlreadyThere? && r.id < |db.orders|))
        && exists i :: 0 <= i < |db.orders| && IsNamed(db.orders[i], req.company, req.orderRef)
            && (AsksSame(db.orders[i], req) <==> r == AlreadyThere(i))
      else if TrxWanted(db, req) then b == db && r == Refused(DuplicateTransactionId)
      else
        && r == Created(|db.orders|) && b == db.(orders := b.orders) && |b.orders| == |db.orders| + 1
        && b.orders[..|db.orders|] == db.orders && IsRegistered(b.orders[|db.orders|], req, policy, now)
  {
    hide ValidateRequest;
    ValidatedAs(req, settings);
    var at := FindOrder(db.orders, req.company, req.orderRef, |db.orders|);
    if RequestAllowed(req, settings) {
      var row := NewOrder(req, policy, now);
      forall j | 0 <= j < |db.orders|
        ensures LiveClash(db.orders[j], row)
          <==> req.trxGiven && req.trxId.Some? && IsLiveWith(db.orders[j], req.company, req.trxId)
      {
      }
      if at.Some? {
        assert IsNamed(db.orders[at.value], req.company, req.orderRef);
      }
    }
  }

  // ---------------------------------------------------------------- cancel, correct

  lemma CancelWrites(db: Db, company: nat, orderRef: string)
    requires OrderRefsUnique(db)
    ensures var (b, r) := CancelOrder(db, company, orderRef);
      && (r == OrderRefused(OrderNotFound) <==> !Exists(db, company, orderRef))
      && (forall i :: 0 <= i < |db.orders| && IsNamed(db.orders[i], company, orderRef) ==>
            if db.orders[i].status == Pending then
              r == OrderChanged(i) && OnlyOrder(db, b, i) && b.orders[i] == db.orders[i].(status := Cancelled)
            else r == OrderRefused(OrderNotPending))
      && (r.OrderRefused? ==> b == db)
  {
    var at := FindOrder(db.orders, company, orderRef, |db.orders|);
    assert at.Some? ==> IsNamed(db.orders[at.value], company, orderRef);
  }

  /** PENDING, or EXPIRED for less than twenty-four hours. */
  predicate IsCorrectable(o: Order, now: int) {
    o.status == Pending || (o.status == Expired && now - o.expiresAt < 86_400_000)
  }

  lemma CorrectWrites(db: Db, company: nat, orderRef: string, trxId: Option<string>, now: int)
    requires OrderRefsUnique(db)
    ensures var (b, r) := CorrectTrxId(db, company, orderRef, trxId, now);
      && (r == OrderRefused(OrderNotFound) <==> !Exists(db, company, orderRef))
      && (forall i :: 0 <= i < |db.orders| && IsNamed(db.orders[i], company, orderRef) ==>
            if !IsCorrectable(db.orders[i], now) then r == OrderRefused(OrderNotPending)
            else if trxId.None? then r == OrderRefused(BadTrxId)
            else if exists j :: 0 <= j < |db.orders| && j != i && IsLiveWith(db.orders[j], company, trxId) then
              r == OrderRefused(TrxIdClaimed)
            else
              r == OrderChanged(i) && OnlyOrder(db, b, i)
              && b.orders[i] == db.orders[i].(trxId := trxId, mode := ExactMode, status := Pending))
      && (r.OrderRefused? ==> b == db)
  {
    var at := FindOrder(db.orders, company, orderRef, |db.orders|);
    if at.Some? {
      var o := db.orders[at.value];
      assert IsNamed(o, company, orderRef);
      forall j | 0 <= j < |db.orders|
        ensures LiveClash(db.orders[j], Corrected(o, trxId))
          <==> trxId.Some? && IsLiveWith(db.orders[j], company, trxId)
      {
      }
    }
  }

  // ---------------------------------------------------------------- manual review

  /** The subjects of a link exist and belong to the company of the review. */
  predicate SubjectsBelong(db: Db, review: nat, sms: nat, order: nat)
    requires review < |db.reviews|
  {
    && order < |db.orders| && sms < |db.sms|
    && db.orders[order].company == db.reviews[review].company && db.sms[sms].company == db.reviews[review].company
  }

  /** The answer of a link, the credit it writes, and the review it closes. */
  lemma LinkWrites(db: Db, review: nat, sms: nat, order: nat, now: int)
    ensures var (b, r) := ResolveLink(db, review, sms, order, now);
      && (r.ReviewRefused? ==> b == db)
      && if review >= |db.reviews| then r == ReviewRefused(ReviewNotFound)
         else if db.reviews[review].status != ReviewOpen then r == ReviewRefused(ReviewClosed)
         else if !SubjectsBelong(db, review, sms, order) then r == ReviewRefused(SubjectNotFound)
         else if db.orders[order].status != Pending && db.orders[order].status != Expired then
           r == ReviewRefused(OrderNotVerifiable)
         else if !IsFree(db, order, sms) then r == ReviewRefused(AlreadyVerified)
         else r == ReviewDone && LinksTo(db, b, review, sms, order, now)
  {
    hide WritesCredit;
    if review < |db.reviews| && SubjectsBelong(db, review, sms, order) {
      CreditWrites(db, LinkCredit(db, sms, order, now));
      CreditKeepsReviews(db, LinkCredit(db, sms, order, now));
    }
  }

  /** A manual credit of full confidence with its exact delta, late if the order had expired; the review RESOLVED. */
  ghost predicate LinksTo(a: Db, b: Db, review: nat, sms: nat, order: nat, now: int)
    requires review < |a.reviews| && sms < |a.sms| && order < |a.orders|
  {
    && WritesCredit(a, b.(reviews := a.reviews), Crediting(order, sms, ManualAdmin, 1.0,
         Received(a.sms[sms].amount) - a.orders[order].expected, a.orders[order].status == Expired, {}, now, true))
    && b.reviews == a.reviews[review := a.reviews[review].(status := ReviewResolved)]
  }

  lemma CreditKeepsReviews(db: Db, c: Crediting)
    requires InTables(db, c)
    ensures ApplyCredit(db, c).Some? ==> ApplyCredit(db, c).value.reviews == db.reviews
  {
  }

  /** A dismissal closes an OPEN review; its SMS is IGNORED when it is no payment and UNMATCHED when it may be one. */
  lemma DismissWrites(db: Db, review: nat, notAPayment: bool)
    ensures var (b, r) := ResolveDismiss(db, review, notAPayment);
      if review >= |db.reviews| then b == db && r == ReviewRefused(ReviewNotFound)
      else if db.reviews[review].status != ReviewOpen then b == db && r == ReviewRefused(ReviewClosed)
      else
        var subject := db.reviews[review].sms;
        && r == ReviewDone && b.events == db.events
        && b.reviews == db.reviews[review := db.reviews[review].(status := ReviewDismissed)]
        && (if subject.Some? && subject.value < |db.sms| then
              Relabelled(db, b, subject.value, if notAPayment then StIgnored else StUnmatched, {})
            else b == db.(reviews := b.reviews))
  {
    if review < |db.reviews| && db.reviews[review].sms.Some? && db.reviews[review].sms.value < |db.sms| {
      var flags := db.sms[db.reviews[review].sms.value].flags;
      assert flags + {} == flags;
    }
  }

  /** A void deletes the verification, reopens its order and frees its SMS, unless a live order took the TrxID. */
  lemma VoidWrites(db: Db, id: nat)
    requires VerificationsSound(db)
    ensures var (b, r) := VoidVerification(db, id);
      if id !in db.verifs then b == db && r == VerificationNotFound
      else
        var v := db.verifs[id];
        && v.order < |db.orders| && v.sms < |db.sms|
        && if TrxHeldElsewhere(db, v.order) then b == db && r == VoidConflict
           else
             && r == Voided(v.order, v.sms) && b.verifs == db.verifs - {id} && b.nextVerif == db.nextVerif
             && b.events == db.events && b.reviews == db.reviews
             && b.orders == db.orders[v.order := db.orders[v.order].(status := Pending, verifiedAt := None)]
             && b.sms == db.sms[v.sms := db.sms[v.sms].(matchStatus := StUnmatched)]
  {
    if id in db.verifs {
      var v := db.verifs[id];
      assert Joined(db, v);
      var o := db.orders[v.order];
      var row := o.(status := Pending, verifiedAt := None);
      forall j | 0 <= j < |db.orders| && j != v.order
        ensures LiveClash(db.orders[j], row) <==> o.trxId.Some? && IsLiveWith(db.orders[j], o.company, o.trxId)
      {
      }
      assert db.sms[v.sms].flags + {} == db.sms[v.sms].flags;
    }
  }

  // ---------------------------------------------------------------- upload

  /** Sixty-four hexadecimal digits. */
  predicate IsDigest(s: string) {
    |s| == 64 && forall i :: 0 <= i < 64 ==> s[i] in "0123456789abcdefABCDEF"
  }

  /** A log of the company with the same content, uploaded within the last seven days. */
  predicate IsRecentCopy(s: Sms, company: nat, msg: Message, now: int) {
    s.company == company && s.contentHash == msg.contentHash && now - s.uploadedAt <= 604_800_000
  }

  predicate IsSameMessage(s: Sms, company: nat, msg: Message) {
    s.company == company && s.clientHash == msg.clientHash
  }

  /** A log that makes the message a duplicate. */
  predicate IsEarlier(s: Sms, company: nat, msg: Message, now: int) {
    IsRecentCopy(s, company, msg, now) || IsSameMessage(s, company, msg)
  }

  /** The row stored for a new message, before matching: as extracted, from this device, UNMATCHED. */
  predicate IsStored(s: Sms, company: nat, device: nat, msg: Message, now: int) {
    var x := msg.extraction;
    && s.company == company && s.device == Some(device) && s.clientHash == msg.clientHash
    && s.contentHash == msg.contentHash && s.provider == x.provider && s.parse == x.parse && s.trxId == x.trxId
    && s.amount == x.amount && s.sender == x.sender && s.smsAt == x.smsAt && s.uploadedAt == now
    && s.matchStatus == StUnmatched && s.flags == x.flags
  }

  lemma DigestIs(s: string)
    ensures IsHex64(s) <==> IsDigest(s)
  {
    forall c: char ensures IsHexDigit(c) <==> c in "0123456789abcdefABCDEF" {
      HexDigitIs(c);
    }
  }

  lemma HexDigitIs(c: char)
    ensures IsHexDigit(c) <==> c in "0123456789abcdefABCDEF"
  {
    var digits := "0123456789abcdefABCDEF";
    if '0' <= c <= '9' {
      assert digits[c as int - '0' as int] == c;
    } else if 'a' <= c <= 'f' {
      assert digits[10 + c as int - 'a' as int] == c;
    } else if 'A' <= c <= 'F' {
      assert digits[16 + c as int - 'A' as int] == c;
    }
  }

  /** What one message becomes: rejected, a duplicate of an earlier log or of one in the batch, or a new log. */
  lemma MessageBecomes(db: Db, company: nat, device: nat, msg: Message, env: Env, seen: set<string>)
    ensures var (b, r) := IngestOne(db, company, device, msg, env, seen);
      && r.clientHash == msg.clientHash
      && if !IsDigest(msg.clientHash) then b == db && r.status == UpRejected && r.smsLogId == None
         else if msg.clientHash in seen then b == db && r.status == UpDuplicate && r.smsLogId == None
         else if exists s :: 0 <= s < |db.sms| && IsEarlier(db.sms[s], company, msg, env.now) then
           && b == db && r.status == UpDuplicate && r.smsLogId.Some? && r.smsLogId.value < |db.sms|
           && IsEarlier(db.sms[r.smsLogId.value], company, msg, env.now)
           && ((exists s :: 0 <= s < |db.sms| && IsRecentCopy(db.sms[s], company, msg, env.now)) ==>
                 IsRecentCopy(db.sms[r.smsLogId.value], company, msg, env.now))
           && r.matchStatus == Some(db.sms[r.smsLogId.value].matchStatus)
         else
           && r.status == UpAccepted && r.smsLogId == Some(|db.sms|)
           && exists row :: IsStored(row, company, device, msg, env.now)
               && IsMatchedFrom(db.(sms := db.sms + [row]), b, |db.sms|, env, r)
  {
    hide MatchSms, MatchResult, RewriteStatus, IsHex64;
    DigestIs(msg.clientHash);
    var byContent := FindSms(db.sms, SameContentAs(company, msg.contentHash, env.now), |db.sms|);
    var byClient := FindSms(db.sms, SameClientAs(company, msg.clientHash), |db.sms|);
    forall s: Sms
      ensures IsEarlier(s, company, msg, env.now)
        <==> SameContentAs(company, msg.contentHash, env.now)(s) || SameClientAs(company, msg.clientHash)(s)
    {
    }
    var row := NewSms(company, device, msg, env.now);
    assert IsStored(row, company, device, msg, env.now);
    var stored := db.(sms := db.sms + [row]);
    MatchKeepsLengths(stored, |db.sms|, env);
    RewriteChangesNothing(stored, |db.sms|, env);
    ReportedIsHeld(stored, |db.sms|, env);
    assert byContent.Some? ==> SameContentAs(company, msg.contentHash, env.now)(db.sms[byContent.value]);
  }

  lemma ReportedIsHeld(db: Db, id: nat, env: Env)
    requires id < |db.sms| && db.sms[id].matchStatus == StUnmatched
    ensures |MatchSms(db, id, env).sms| == |db.sms|
    ensures MatchSms(db, id, env).sms[id].matchStatus == MatchResult(db, id, env)
  {
    hide DecideOn;
    MatchKeepsLengths(db, id, env);
    if env.faults < 2 {
      ReportedIsStored(db, id, env);
    }
  }

  /** The new log was matched once, and the answer is the status it has now. */
  predicate IsMatchedFrom(stored: Db, b: Db, id: nat, env: Env, r: UploadResult)
    requires id < |stored.sms|
  {
    && b == MatchSms(stored, id, env) && |b.sms| == |stored.sms|
    && r.matchStatus == Some(b.sms[id].matchStatus)
  }
}
