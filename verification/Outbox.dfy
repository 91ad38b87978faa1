/** The webhook outbox row, shared by the code that creates events and the code that delivers them. */
module Outbox {
  import opened Prelude
  import opened MatchTypes

  datatype VerificationMethod = ExactTxnId | HeuristicAmountWindow | ManualAdmin

  /** The announced facts; frozen when the row is created. */
  datatype EventBody =
    | PaymentVerified(
        order: nat, orderRef: string, trxId: Option<string>, amount: Amount, expected: Amount,
        provider: Provider, sender: Option<string>, verifiedAt: int,
        verifiedBy: VerificationMethod, confidence: real, wasLate: bool)
    | ReviewRequired(order: nat, orderRef: string, reason: ReviewReason, amount: Amount)
    | PaymentExpired(order: nat, orderRef: string, amount: Amount, expiresAt: int)

  datatype EventStatus = EvPending | EvDelivered | EvFailed | EvCancelled | EvDead

  datatype OutboxEvent = OutboxEvent(
    company: nat,
    raw: EventBody,
    callbackUrl: Option<string>,
    createdAt: int,
    status: EventStatus,
    attemptCount: nat,
    nextAttemptAt: Option<int>,
    paused: bool,
    deliveredAt: Option<int>,
    reason: Option<string>)

  /** A pending row, held back when the company is not active. */
  function PendingEvent(company: nat, raw: EventBody, url: string, now: int, active: bool): OutboxEvent {
    OutboxEvent(
      company, raw, Some(url), now, EvPending, 0, if active then Some(now) else None, !active, None, None)
  }

  /** What `createInTx` stores: without a callback URL the event is cancelled at birth. */
  function CreatedEvent(company: nat, raw: EventBody, url: Option<string>, now: int, active: bool): OutboxEvent {
    if url.None? || url.value == "" then
      OutboxEvent(company, raw, None, now, EvCancelled, 0, None, false, None, Some("NO_CALLBACK_URL"))
    else PendingEvent(company, raw, url.value, now, active)
  }

  /** The row as it is when it enters the outbox: pending or held back, or cancelled for want of a callback URL. */
  predicate JustCreated(e: OutboxEvent) {
    e == if e.callbackUrl.Some? then PendingEvent(e.company, e.raw, e.callbackUrl.value, e.createdAt, !e.paused)
         else CreatedEvent(e.company, e.raw, None, e.createdAt, true)
  }
}
