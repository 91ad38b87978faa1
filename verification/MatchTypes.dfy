/** The facts, settings and decisions of the matching core (core/types.ts). */
module MatchTypes {
  import opened Prelude

  /** NUMERIC(14,2): 12 integer digits and 2 decimals, counted in paisa. */
  const MAX_ABS_PAISA := 99_999_999_999_999

  /** A stored, non-negative amount in paisa. Signed values only come from subtraction. */
  type Amount = a: int | 0 <= a <= MAX_ABS_PAISA

  datatype Provider = Bkash | Nagad | Upay | UnknownProvider
  datatype Direction = Credit | Debit | Info
  datatype ParseStatus = Parsed | Partial | Unparsed | ParseIgnored
  datatype PaymentStatus = Pending | Verified | ManualReview | Expired | Cancelled | Rejected
  datatype CompanyStatus = CompanyActive | CompanySuspended | CompanyDisabled
  datatype DeviceStatus = DeviceActive | DeviceBlocked | DeviceRetired
  datatype MatchMode = ExactMode | HeuristicMode
  datatype Flag = AmountOverpaid | HeuristicDespiteTrxId | DuplicateTxn | DebitMessage | FutureTimestamp

  datatype SmsFacts = SmsFacts(
    id: nat,
    provider: Provider,
    direction: Direction,
    parse: ParseStatus,
    trxId: Option<string>,
    amount: Option<Amount>,
    sender: Option<string>,
    smsAt: Option<int>,
    companyStatus: CompanyStatus,
    deviceStatus: Option<DeviceStatus>)

  datatype OrderFacts = OrderFacts(
    id: nat,
    trxId: Option<string>,
    expected: Amount,
    tolerance: Amount,
    status: PaymentStatus,
    expiresAt: int,
    createdAt: int,
    mode: MatchMode,
    provider: Option<Provider>,
    sender: Option<string>)

  /** Times are milliseconds since the epoch. */
  datatype Settings = Settings(
    allowedProviders: set<Provider>,
    lateMatchGraceHours: nat,
    notifyOnReview: bool,
    heuristicEnabled: bool,
    heuristicWindowMinutes: nat,
    requireSenderMatch: bool,
    autoVerifyMinConfidence: real)

  /** The bounds the settings endpoint enforces on the one setting the score rules depend on. */
  predicate ValidSettings(s: Settings) {
    0.5 <= s.autoVerifyMinConfidence <= 1.0
  }

  datatype MatchInput = MatchInput(
    sms: SmsFacts,
    candidates: seq<OrderFacts>,
    heuristicCandidates: seq<OrderFacts>,
    settings: Settings,
    spentTrxIds: set<string>,
    now: int)

  datatype GuardName =
    | CompanyNotActive | DeviceNotActive | DirectionNotCredit
    | ProviderNotAllowed | ParseStatusUnusable | AmountMissingOrZero

  datatype ReviewReason = AmbiguousCandidates | AmountMismatch | DuplicateTxnId | SuspiciousSms

  datatype Pass = ExactPass | HeuristicPass

  /** One line of a review: the order, what it expected, what arrived, and its score if it has one. */
  datatype ReviewCandidate = ReviewCandidate(
    orderId: nat, expected: Amount, received: Amount, delta: int, score: Option<real>)

  datatype Decision =
    | DVerified(pass: Pass, orderId: nat, confidence: real, delta: int, wasLate: bool, flags: set<Flag>)
    | DReview(reason: ReviewReason, candidates: seq<ReviewCandidate>)
    | DDuplicate(trxId: string)
    | DGuardRejected(guard: GuardName)
    | DUnmatched

  predicate DistinctIds(cs: seq<OrderFacts>) {
    forall i, j :: 0 <= i < j < |cs| ==> cs[i].id != cs[j].id
  }

  /** The received amount every comparison uses: zero when the parser found none. */
  function Received(amount: Option<Amount>): Amount {
    match amount
    case None => 0
    case Some(a) => a
  }
}
