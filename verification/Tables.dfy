/** The tables the matching engine works on, and the queries it runs over them. */
module Tables {
  import opened Prelude
  import opened MatchTypes
  import opened Heuristic
  import opened Outbox

  datatype MatchStatus = StUnmatched | StMatched | StInReview | StIgnored | StDuplicateTxn

  /** A row of payment_requests; its id is its position. */
  datatype Order = Order(
    company: nat,
    orderRef: string,
    trxId: Option<string>,
    expected: Amount,
    tolerance: Amount,
    status: PaymentStatus,
    mode: MatchMode,
    provider: Option<Provider>,
    sender: Option<string>,
    callbackUrl: string,
    expiresAt: int,
    createdAt: int,
    verifiedAt: Option<int>)

  /** A row of sms_logs; its id is its position. */
  datatype Sms = Sms(
    company: nat,
    device: Option<nat>,
    clientHash: string,
    contentHash: string,
    provider: Provider,
    parse: ParseStatus,
    trxId: Option<string>,
    amount: Option<Amount>,
    sender: Option<string>,
    smsAt: Option<int>,
    uploadedAt: int,
    matchStatus: MatchStatus,
    flags: set<Flag>)

  datatype Verification = Verification(
    company: nat,
    order: nat,
    sms: nat,
    verifiedBy: VerificationMethod,
    confidence: real,
    delta: int,
    wasLate: bool,
    verifiedAt: int)

  datatype ReviewStatus = ReviewOpen | ReviewResolved | ReviewDismissed

  datatype Review = Review(
    company: nat,
    sms: Option<nat>,
    order: Option<nat>,
    reason: ReviewReason,
    candidates: seq<ReviewCandidate>,
    status: ReviewStatus)

  datatype Db = Db(
    orders: seq<Order>,
    sms: seq<Sms>,
    verifs: map<nat, Verification>,
    nextVerif: nat,
    reviews: seq<Review>,
    events: seq<OutboxEvent>)

  const EMPTY_DB := Db([], [], map[], 0, [], [])

  /**
   * What a transaction reads besides the tables: settings, statuses and the clock; and how many of its
   * attempts the database refuses for reasons other than a unique violation.
   */
  datatype Env = Env(
    settings: Settings, companyStatus: CompanyStatus, devices: map<nat, DeviceStatus>, now: int, faults: nat)

  // ---------------------------------------------------------------- unique indexes

  /** Rows covered by the partial unique index on (company, TrxID). */
  predicate Live(o: Order) {
    o.trxId.Some? && (o.status.Pending? || o.status.Verified?)
  }

  predicate LiveClash(a: Order, b: Order) {
    Live(a) && Live(b) && a.company == b.company && a.trxId == b.trxId
  }

  /** Storing `row` at position `i` keeps the partial unique index. */
  predicate IndexAdmits(orders: seq<Order>, i: nat, row: Order) {
    forall j :: 0 <= j < |orders| && j != i ==> !LiveClash(orders[j], row)
  }

  predicate OrderTaken(db: Db, order: nat) {
    exists k :: k in db.verifs && db.verifs[k].order == order
  }

  predicate SmsTaken(db: Db, sms: nat) {
    exists k :: k in db.verifs && db.verifs[k].sms == sms
  }

  predicate OpenReviewExists(db: Db, sms: Option<nat>, order: Option<nat>) {
    exists r :: 0 <= r < |db.reviews|
      && db.reviews[r].status.ReviewOpen? && db.reviews[r].sms == sms && db.reviews[r].order == order
  }

  // ---------------------------------------------------------------- candidate.repository.ts

  function ToOrderFacts(id: nat, o: Order): OrderFacts {
    OrderFacts(id, o.trxId, o.expected, o.tolerance, o.status, o.expiresAt, o.createdAt, o.mode, o.provider, o.sender)
  }

  /** The first `n` orders satisfying `keep`, in id order. */
  function Scan(orders: seq<Order>, keep: Order -> bool, n: nat): (r: seq<OrderFacts>)
    requires n <= |orders|
    ensures forall c :: c in r ==> c.id < n && keep(orders[c.id]) && c == ToOrderFacts(c.id, orders[c.id])
    ensures forall i :: 0 <= i < n && keep(orders[i]) ==> ToOrderFacts(i, orders[i]) in r
    ensures DistinctIds(r)
  {
    if n == 0 then []
    else
      var r := Scan(orders, keep, n - 1);
      if keep(orders[n - 1]) then r + [ToOrderFacts(n - 1, orders[n - 1])] else r
  }

  function LoadSmsFacts(row: Sms, id: nat, env: Env): SmsFacts {
    var direction :=
      if row.parse.Parsed? || row.parse.Partial? then Credit
      else if DebitMessage in row.flags then Debit
      else Info;
    SmsFacts(
      id, row.provider, direction, row.parse, row.trxId, row.amount, row.sender, row.smsAt, env.companyStatus,
      if row.device.Some? && row.device.value in env.devices then Some(env.devices[row.device.value]) else None)
  }

  predicate ClaimsTrx(o: Order, company: nat, trxId: string) {
    o.company == company && o.trxId == Some(trxId) && (o.status.Pending? || o.status.Expired?)
  }

  function ClaimsTrxOf(company: nat, trxId: string): Order -> bool {
    (o: Order) => ClaimsTrx(o, company, trxId)
  }

  function LoadExactCandidates(orders: seq<Order>, company: nat, trxId: string): (r: seq<OrderFacts>)
    ensures DistinctIds(r)
  {
    Scan(orders, ClaimsTrxOf(company, trxId), |orders|)
  }

  const FIVE_MINUTES_MS := 5 * 60 * 1000

  /** The WHERE clause of the heuristic candidate query, for an SMS received at `at`. */
  predicate HeuristicQuery(o: Order, row: Sms, amount: Amount, at: int, settings: Settings) {
    && o.company == row.company
    && o.status.Pending?
    && o.trxId.None?
    && Abs(o.expected - amount) <= o.tolerance
    && o.createdAt - FIVE_MINUTES_MS <= at <= o.createdAt + settings.heuristicWindowMinutes * 60_000
    && (o.provider.None? || o.provider == Some(row.provider))
    && (!settings.requireSenderMatch || (o.sender.Some? && o.sender == row.sender))
  }

  function SmsTime(row: Sms, now: int): int {
    if row.smsAt.Some? then row.smsAt.value else now
  }

  function HeuristicQueryFor(row: Sms, amount: Amount, at: int, settings: Settings): Order -> bool {
    (o: Order) => HeuristicQuery(o, row, amount, at, settings)
  }

  function CreatedKey(c: OrderFacts): real { c.createdAt as real }

  function Take<T>(s: seq<T>, n: nat): (r: seq<T>)
    ensures r <= s && |r| <= n
  {
    if |s| <= n then s else s[..n]
  }

  function LoadHeuristicCandidates(orders: seq<Order>, row: Sms, env: Env): (r: seq<OrderFacts>) {
    if row.amount.None? || !env.settings.heuristicEnabled || !(row.parse.Parsed? || row.parse.Partial?) then []
    else
      var keep := HeuristicQueryFor(row, row.amount.value, SmsTime(row, env.now), env.settings);
      Take(SortDesc(Scan(orders, keep, |orders|), CreatedKey), HEURISTIC_CANDIDATE_CAP)
  }

  lemma HeuristicCandidatesAreRows(orders: seq<Order>, row: Sms, env: Env)
    ensures var r := LoadHeuristicCandidates(orders, row, env);
      DistinctIds(r) && forall c :: c in r ==>
        && c.id < |orders| && c == ToOrderFacts(c.id, orders[c.id]) && row.amount.Some?
        && exists at :: HeuristicQuery(orders[c.id], row, row.amount.value, at, env.settings)
  {
    var r := LoadHeuristicCandidates(orders, row, env);
    if r != [] {
      var at := SmsTime(row, env.now);
      var keep := HeuristicQueryFor(row, row.amount.value, at, env.settings);
      var found := Scan(orders, keep, |orders|);
      var sorted := SortDesc(found, CreatedKey);
      SameElements(found, sorted);
      IdsSurvivePermutation(found, sorted);
      forall c | c in r
        ensures c.id < |orders| && c == ToOrderFacts(c.id, orders[c.id])
          && HeuristicQuery(orders[c.id], row, row.amount.value, at, env.settings)
      {
        assert c in sorted && c in found;
        assert keep(orders[c.id]);
      }
    }
  }

  /** Newest orders first, so that the cap drops the oldest; and every qualifying order below the cap. */
  lemma HeuristicCandidatesAreNewest(orders: seq<Order>, row: Sms, env: Env, j: nat, k: nat)
    requires j < k < |LoadHeuristicCandidates(orders, row, env)|
    ensures var r := LoadHeuristicCandidates(orders, row, env); r[j].createdAt >= r[k].createdAt
  {
  }

  lemma HeuristicCandidatesAreAll(orders: seq<Order>, row: Sms, env: Env, i: nat)
    requires i < |orders| && row.amount.Some?
    requires env.settings.heuristicEnabled && (row.parse.Parsed? || row.parse.Partial?)
    requires HeuristicQuery(orders[i], row, row.amount.value, SmsTime(row, env.now), env.settings)
    requires |LoadHeuristicCandidates(orders, row, env)| < HEURISTIC_CANDIDATE_CAP
    ensures ToOrderFacts(i, orders[i]) in LoadHeuristicCandidates(orders, row, env)
  {
    var keep := HeuristicQueryFor(row, row.amount.value, SmsTime(row, env.now), env.settings);
    var found := Scan(orders, keep, |orders|);
    assert keep(orders[i]);
    SameElements(found, SortDesc(found, CreatedKey));
  }

  /** A verification of any kind already consumed this TrxID. */
  predicate TrxSpent(db: Db, company: nat, trxId: string) {
    exists k :: k in db.verifs && db.verifs[k].company == company
      && db.verifs[k].sms < |db.sms| && db.sms[db.verifs[k].sms].trxId == Some(trxId)
  }

  /** Everything `decide` is given for one SMS. */
  function BuildInput(db: Db, id: nat, env: Env): MatchInput
    requires id < |db.sms|
  {
    var row := db.sms[id];
    MatchInput(
      LoadSmsFacts(row, id, env),
      if row.trxId.None? then [] else LoadExactCandidates(db.orders, row.company, row.trxId.value),
      LoadHeuristicCandidates(db.orders, row, env),
      env.settings,
      if row.trxId.Some? && TrxSpent(db, row.company, row.trxId.value) then {row.trxId.value} else {},
      env.now)
  }
}
