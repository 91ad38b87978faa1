/**
 * Idempotency keys (idempotency.interceptor.ts): requests that share a key, interleaved at every database
 * call. Expired rows are not purged in these runs.
 */
module Idempotency {
  import opened Prelude

  /** The stored response; `body` stands for the JSON document. */
  datatype Response = Response(status: nat, body: string)

  datatype KeyState = InFlight | Completed(response: Response)

  datatype KeyRow = KeyRow(requestHash: string, state: KeyState)

  datatype Answer =
    | Fresh(response: Response)
    | Replayed(response: Response)
    | KeyReused
    | InProgress
    | CreateFailed
    | Errored

  /** Where a request stands between two database calls. */
  datatype Phase =
    | Arrived
    | Conflicted
    | InHandler
    | Responded(response: Response)
    | Failing
    | Answered(answer: Answer)

  datatype Request = Request(hash: string, phase: Phase)

  /** One key's row and the requests that carry it; `runs` and `deletions` count handler runs and deleted rows. */
  datatype Keyed = Keyed(row: Option<KeyRow>, requests: seq<Request>, runs: nat, deletions: nat)

  // ---------------------------------------------------------------- what the lookup answers

  function AnswerFrom(row: Option<KeyRow>, hash: string): Answer {
    match row
    case None => CreateFailed
    case Some(KeyRow(stored, Completed(response))) => if stored != hash then KeyReused else Replayed(response)
    case Some(KeyRow(_, InFlight)) => InProgress
  }

  // ---------------------------------------------------------------- steps

  datatype Action =
    | Arrive(hash: string)
    | TryCreate(k: nat)
    | LookUp(k: nat)
    | HandlerReturns(k: nat, response: Response)
    | HandlerThrows(k: nat)
    | StoreResponse(k: nat, stored: bool)
    | DropKey(k: nat, dropped: bool)

  function Subject(a: Action): nat {
    match a
    case Arrive(_) => 0
    case TryCreate(k) => k
    case LookUp(k) => k
    case HandlerReturns(k, _) => k
    case HandlerThrows(k) => k
    case StoreResponse(k, _) => k
    case DropKey(k, _) => k
  }

  predicate Possible(s: Keyed, a: Action) {
    a.Arrive? ||
    (Subject(a) < |s.requests| &&
     match a {
       case Arrive(_) => true
       case TryCreate(k) => s.requests[k].phase.Arrived?
       case LookUp(k) => s.requests[k].phase.Conflicted?
       case HandlerReturns(k, _) => s.requests[k].phase.InHandler?
       case HandlerThrows(k) => s.requests[k].phase.InHandler?
       case StoreResponse(k, _) => s.requests[k].phase.Responded?
       case DropKey(k, _) => s.requests[k].phase.Failing?
     })
  }

  function Moved(s: Keyed, k: nat, phase: Phase): Keyed
    requires k < |s.requests|
  {
    s.(requests := s.requests[k := s.requests[k].(phase := phase)])
  }

  function Act(s: Keyed, a: Action): Keyed
    requires Possible(s, a)
  {
    match a
    case Arrive(hash) => s.(requests := s.requests + [Request(hash, Arrived)])
    case TryCreate(k) =>
      if s.row.Some? then Moved(s, k, Conflicted)
      else Moved(s.(row := Some(KeyRow(s.requests[k].hash, InFlight)), runs := s.runs + 1), k, InHandler)
    case LookUp(k) => Moved(s, k, Answered(AnswerFrom(s.row, s.requests[k].hash)))
    case HandlerReturns(k, response) => Moved(s, k, Responded(response))
    case HandlerThrows(k) => Moved(s, k, Failing)
    case StoreResponse(k, stored) =>
      // Updating a row that is not there is an error, as any other failure of the update.
      if stored && s.row.Some? then
        var response := s.requests[k].phase.response;
        Moved(s.(row := Some(s.row.value.(state := Completed(response)))), k, Answered(Fresh(response)))
      else Moved(s, k, Failing)
    case DropKey(k, dropped) =>
      if dropped then Moved(s.(row := None, deletions := s.deletions + 1), k, Answered(Errored))
      else Moved(s, k, Answered(Errored))
  }

  // ---------------------------------------------------------------- invariants

  /** The request owns the row: its handler runs, or its outcome is not recorded yet. */
  predicate IsActive(r: Request) {
    r.phase.InHandler? || r.phase.Responded? || r.phase.Failing?
  }

  ghost predicate KeySafe(s: Keyed) {
    && (forall j, k :: 0 <= j < k < |s.requests| ==> !(IsActive(s.requests[j]) && IsActive(s.requests[k])))
    && (forall k :: 0 <= k < |s.requests| && IsActive(s.requests[k]) ==>
          s.row == Some(KeyRow(s.requests[k].hash, InFlight)))
    && s.runs == s.deletions + if s.row.Some? then 1 else 0
  }

  /** Moving a request that is active, or that does not become active, keeps the row's owner unique. */
  lemma MoveKeepsSafe(s: Keyed, k: nat, phase: Phase)
    requires KeySafe(s) && k < |s.requests|
    requires IsActive(s.requests[k]) || !IsActive(s.requests[k].(phase := phase))
    ensures KeySafe(Moved(s, k, phase))
  {
  }

  lemma ActKeepsSafe(s: Keyed, a: Action)
    requires KeySafe(s) && Possible(s, a)
    ensures KeySafe(Act(s, a))
  {
    match a
    case Arrive(_) =>
    case TryCreate(k) => CreateKeepsSafe(s, k);
    case LookUp(k) => MoveKeepsSafe(s, k, Answered(AnswerFrom(s.row, s.requests[k].hash)));
    case HandlerReturns(k, response) => MoveKeepsSafe(s, k, Responded(response));
    case HandlerThrows(k) => MoveKeepsSafe(s, k, Failing);
    case StoreResponse(k, stored) => StoreKeepsSafe(s, k, stored);
    case DropKey(k, dropped) => DropKeepsSafe(s, k, dropped);
  }

  lemma CreateKeepsSafe(s: Keyed, k: nat)
    requires KeySafe(s) && k < |s.requests| && s.requests[k].phase.Arrived?
    ensures KeySafe(Act(s, TryCreate(k)))
  {
  }

  lemma StoreKeepsSafe(s: Keyed, k: nat, stored: bool)
    requires KeySafe(s) && k < |s.requests| && s.requests[k].phase.Responded?
    ensures KeySafe(Act(s, StoreResponse(k, stored)))
  {
  }

  lemma DropKeepsSafe(s: Keyed, k: nat, dropped: bool)
    requires KeySafe(s) && k < |s.requests| && s.requests[k].phase.Failing?
    ensures KeySafe(Act(s, DropKey(k, dropped)))
  {
  }

  ghost predicate Steps(s: Keyed, actions: seq<Action>, end: Keyed)
    decreases |actions|
  {
    if actions == [] then end == s
    else Possible(s, actions[0]) && Steps(Act(s, actions[0]), actions[1..], end)
  }

  lemma {:induction false} StepsKeepSafe(s: Keyed, actions: seq<Action>, end: Keyed)
    requires KeySafe(s) && Steps(s, actions, end)
    ensures KeySafe(end)
    decreases |actions|
  {
    hide KeySafe, Act;
    if actions != [] {
      ActKeepsSafe(s, actions[0]);
      StepsKeepSafe(Act(s, actions[0]), actions[1..], end);
    }
  }

  const NO_REQUESTS := Keyed(None, [], 0, 0)

  /** In every interleaving at most one handler run is under way, and each further run was paid for by a deleted row. */
  lemma OneHandlerAtATime(actions: seq<Action>, end: Keyed, j: nat, k: nat)
    requires Steps(NO_REQUESTS, actions, end) && j < |end.requests| && k < |end.requests|
    requires IsActive(end.requests[j]) && IsActive(end.requests[k])
    ensures j == k
    ensures end.runs == end.deletions + 1
  {
    StepsKeepSafe(NO_REQUESTS, actions, end);
  }

  // ---------------------------------------------------------------- once completed

  /** A completed row never changes again and no handler runs any more. */
  lemma CompletedIsFinal(s: Keyed, a: Action)
    requires KeySafe(s) && Possible(s, a) && s.row.Some? && s.row.value.state.Completed?
    ensures Act(s, a).row == s.row && Act(s, a).runs == s.runs
  {
  }

  lemma {:induction false} CompletedStays(s: Keyed, actions: seq<Action>, end: Keyed)
    requires KeySafe(s) && Steps(s, actions, end) && s.row.Some? && s.row.value.state.Completed?
    ensures KeySafe(end) && end.row == s.row && end.runs == s.runs
    ensures |end.requests| >= |s.requests|
    decreases |actions|
  {
    hide KeySafe, Act;
    if actions != [] {
      ActKeepsSafe(s, actions[0]);
      CompletedIsFinal(s, actions[0]);
      assert |Act(s, actions[0]).requests| >= |s.requests| by { ActKeepsRequests(s, actions[0]); }
      CompletedStays(Act(s, actions[0]), actions[1..], end);
    }
  }

  lemma ActKeepsRequests(s: Keyed, a: Action)
    requires Possible(s, a)
    ensures |Act(s, a).requests| >= |s.requests|
    ensures forall k :: 0 <= k < |s.requests| ==> Act(s, a).requests[k].hash == s.requests[k].hash
  {
  }

  /** What a request that has not been answered yet can still be told. */
  ghost predicate WillReplay(r: Request, row: KeyRow) {
    && row.state.Completed?
    && (r.phase.Arrived? || r.phase.Conflicted?
        || r.phase == Answered(if r.hash == row.requestHash then Replayed(row.state.response) else KeyReused))
  }

  lemma ReplayStep(s: Keyed, a: Action, k: nat)
    requires KeySafe(s) && Possible(s, a) && s.row.Some? && k < |s.requests| && WillReplay(s.requests[k], s.row.value)
    ensures WillReplay(Act(s, a).requests[k], s.row.value)
  {
  }

  /**
   * Once the row is completed, a request that was not yet answered (or arrives later) is answered with the stored
   * response when its body is the same, and refused when it is not; its handler never runs.
   */
  lemma {:induction false} CompletedIsReplayed(s: Keyed, actions: seq<Action>, end: Keyed, k: nat)
    requires KeySafe(s) && Steps(s, actions, end) && s.row.Some? && k < |s.requests|
    requires WillReplay(s.requests[k], s.row.value)
    ensures k < |end.requests| && end.requests[k].hash == s.requests[k].hash
    ensures end.row == s.row && WillReplay(end.requests[k], s.row.value)
    decreases |actions|
  {
    hide KeySafe, Act;
    if actions != [] {
      ActKeepsSafe(s, actions[0]);
      CompletedIsFinal(s, actions[0]);
      ActKeepsRequests(s, actions[0]);
      ReplayStep(s, actions[0], k);
      CompletedIsReplayed(Act(s, actions[0]), actions[1..], end, k);
    }
  }

  // ---------------------------------------------------------------- the interceptor, one request at a time

  datatype HandlerOutcome = Returns(response: Response) | Throws

  /** The acts of a request that arrives as number `k` and that nothing else interrupts. */
  function Undisturbed(
      row: Option<KeyRow>, k: nat, hash: string, outcome: HandlerOutcome, stored: bool, dropped: bool): seq<Action>
  {
    [Arrive(hash), TryCreate(k)] + if row.Some? then [LookUp(k)] else HandlerActs(k, outcome, stored, dropped)
  }

  function HandlerActs(k: nat, outcome: HandlerOutcome, stored: bool, dropped: bool): seq<Action> {
    match outcome
    case Throws => [HandlerThrows(k), DropKey(k, dropped)]
    case Returns(response) =>
      if stored then [HandlerReturns(k, response), StoreResponse(k, stored)]
      else [HandlerReturns(k, response), StoreResponse(k, stored), DropKey(k, dropped)]
  }

  /** What such a request is answered, and the row it leaves. */
  function Served(row: Option<KeyRow>, hash: string, outcome: HandlerOutcome, stored: bool, dropped: bool)
    : (Answer, Option<KeyRow>)
  {
    if row.Some? then (AnswerFrom(row, hash), row)
    else if outcome.Returns? && stored then
      (Fresh(outcome.response), Some(KeyRow(hash, Completed(outcome.response))))
    else (Errored, if dropped then None else Some(KeyRow(hash, InFlight)))
  }

  /** The state with one more request, at this point of its way. */
  function With(s: Keyed, hash: string, phase: Phase): Keyed {
    s.(requests := s.requests + [Request(hash, phase)])
  }

  lemma MovedWith(s: Keyed, hash: string, from: Phase, to: Phase)
    ensures Moved(With(s, hash, from), |s.requests|, to) == With(s, hash, to)
  {
  }

  lemma StepsCons(s: Keyed, a: Action, rest: seq<Action>, end: Keyed)
    requires Possible(s, a) && Steps(Act(s, a), rest, end)
    ensures Steps(s, [a] + rest, end)
  {
    assert ([a] + rest)[1..] == rest;
  }

  lemma StepsEnd(s: Keyed)
    ensures Steps(s, [], s)
  {
  }

  lemma LastStep(s: Keyed, a: Action)
    requires Possible(s, a)
    ensures Steps(s, [a], Act(s, a))
  {
    StepsEnd(Act(s, a));
    StepsCons(s, a, [], Act(s, a));
    assert [a] + [] == [a];
  }

  /** The handler's part: from the created key to the answer. */
  lemma HandlerIsServed(s: Keyed, hash: string, outcome: HandlerOutcome, stored: bool, dropped: bool)
    returns (end: Keyed)
    requires s.row == Some(KeyRow(hash, InFlight))
    ensures var (answer, row) := Served(None, hash, outcome, stored, dropped);
      && Steps(With(s, hash, InHandler), HandlerActs(|s.requests|, outcome, stored, dropped), end)
      && end.row == row && end.requests == s.requests + [Request(hash, Answered(answer))]
  {
    hide Steps;
    var k := |s.requests|;
    var running := With(s, hash, InHandler);
    var failing := With(s, hash, Failing);
    var drop := DropKey(k, dropped);
    end := Act(failing, drop);
    LastStep(failing, drop);
    MovedWith(s, hash, InHandler, Failing);
    MovedWith(s, hash, Failing, Answered(Errored));
    match outcome
    case Throws =>
      StepsCons(running, HandlerThrows(k), [drop], end);
      assert [HandlerThrows(k)] + [drop] == HandlerActs(k, outcome, stored, dropped);
    case Returns(response) =>
      var responded := With(s, hash, Responded(response));
      var store := StoreResponse(k, stored);
      MovedWith(s, hash, InHandler, Responded(response));
      MovedWith(s, hash, Responded(response), Failing);
      if stored {
        end := Act(responded, store);
        LastStep(responded, store);
        StepsCons(running, HandlerReturns(k, response), [store], end);
        assert [HandlerReturns(k, response)] + [store] == HandlerActs(k, outcome, stored, dropped);
      } else {
        StepsCons(responded, store, [drop], end);
        StepsCons(running, HandlerReturns(k, response), [store] + [drop], end);
        assert [HandlerReturns(k, response)] + ([store] + [drop]) == HandlerActs(k, outcome, stored, dropped);
      }
  }

  /** Those acts are possible one after the other, whatever went before, and lead there. */
  lemma UndisturbedIsServed(s: Keyed, hash: string, outcome: HandlerOutcome, stored: bool, dropped: bool)
    returns (end: Keyed)
    ensures var (answer, row) := Served(s.row, hash, outcome, stored, dropped);
      && Steps(s, Undisturbed(s.row, |s.requests|, hash, outcome, stored, dropped), end)
      && end.row == row && end.requests == s.requests + [Request(hash, Answered(answer))]
  {
    hide Steps, HandlerActs;
    var k := |s.requests|;
    var arrived := With(s, hash, Arrived);
    var rest: seq<Action>;
    if s.row.Some? {
      var conflicted := With(s, hash, Conflicted);
      MovedWith(s, hash, Arrived, Conflicted);
      MovedWith(s, hash, Conflicted, Answered(AnswerFrom(s.row, hash)));
      end := Act(conflicted, LookUp(k));
      rest := [LookUp(k)];
      LastStep(conflicted, LookUp(k));
    } else {
      var created := s.(row := Some(KeyRow(hash, InFlight)), runs := s.runs + 1);
      MovedWith(created, hash, Arrived, InHandler);
      end := HandlerIsServed(created, hash, outcome, stored, dropped);
      rest := HandlerActs(k, outcome, stored, dropped);
    }
    StepsCons(arrived, TryCreate(k), rest, end);
    StepsCons(s, Arrive(hash), [TryCreate(k)] + rest, end);
    assert [Arrive(hash)] + ([TryCreate(k)] + rest) == [Arrive(hash), TryCreate(k)] + rest;
  }

  class KeyStore {
    var rows: map<string, KeyRow>

    constructor ()
      ensures rows == map[]
    {
      rows := map[];
    }

    function RowOf(key: string): Option<KeyRow>
      reads this
    {
      if key in rows then Some(rows[key]) else None
    }

    /** The unique index on (company, endpoint, key) refuses a second row. */
    method Create(key: string, hash: string) returns (created: bool)
      modifies this
      ensures created <==> key !in old(rows)
      ensures rows == if created then old(rows)[key := KeyRow(hash, InFlight)] else old(rows)
    {
      created := key !in rows;
      if created {
        rows := rows[key := KeyRow(hash, InFlight)];
      }
    }

    /** A request that carries a key, with nothing running beside it. */
    method Intercept(key: string, hash: string, outcome: HandlerOutcome, stored: bool, dropped: bool)
      returns (answer: Answer)
      modifies this
      ensures old(RowOf(key)).Some? ==> rows == old(rows) && answer == AnswerFrom(old(RowOf(key)), hash)
      ensures old(RowOf(key)).None? && outcome.Returns? && stored ==>
        && answer == Fresh(outcome.response)
        && rows == old(rows)[key := KeyRow(hash, Completed(outcome.response))]
      ensures old(RowOf(key)).None? && !(outcome.Returns? && stored) ==>
        && answer == Errored
        && rows == if dropped then old(rows) else old(rows)[key := KeyRow(hash, InFlight)]
      ensures (answer, RowOf(key)) == Served(old(RowOf(key)), hash, outcome, stored, dropped)
    {
      var created := Create(key, hash);
      if !created {
        return AnswerFrom(RowOf(key), hash);
      }
      if outcome.Returns? && stored {
        rows := rows[key := rows[key].(state := Completed(outcome.response))];
        return Fresh(outcome.response);
      }
      if dropped {
        rows := rows - {key};
      }
      return Errored;
    }
  }
}
