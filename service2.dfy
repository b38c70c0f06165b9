/** The consumer service's fetch of all books: initiate a task on the
    producer, poll its status until it reports completion, then fetch its
    result. HTTP replies are taken as already received and deserialised, and
    supplied in order by a script; the fetch records the requests it issues
    and the waits between polls as a trace. */
module Service2 {
  import opened Protocol

  /** What `JsonSerializer.Deserialize` makes of a reply body: it throws on
      malformed JSON, and yields null for the JSON literal `null`. */
  datatype Body<T> = Malformed | Null | Parsed(value: T)

  /** One reply as the client observes it: a success status with its body,
      another status with its text content, or a failure to reach the producer. */
  datatype Reply<T> = Success(body: Body<T>) | NonSuccess(content: string) | TransportFailure

  /** The exception a fetch ends with. */
  datatype FetchError =
    | InitiateFailed(content: string)  // "Error from Service 1: <content>"
    | InvalidResponse                  // "Invalid response from Service 1"
    | StatusFailed(content: string)    // "Error checking task status: <content>"
    | ResultFailed(content: string)    // "Error fetching task result: <content>"
    | UnreadableBody                   // the deserialiser's exception
    | Unreachable                      // the HTTP client's exception

  /** Requests issued and waits taken, in order. */
  datatype Event = InitiateRequest | StatusRequest(taskId: Guid) | Delay | ResultRequest(taskId: Guid)

  /** How a fetch ends: with the books, with an error, or still polling when
      the script of status replies runs out (the source would poll on). */
  datatype Outcome = Fetched(books: seq<Book>) | Failed(error: FetchError) | StillPolling

  datatype Run = Run(outcome: Outcome, trace: seq<Event>)

  // ---- The protocol as functions of the replies ----

  datatype Started = Started(taskId: Guid) | NotStarted(error: FetchError)

  /** Step 1: the task id the initiate reply yields, or the error ending the fetch. */
  function Initiate(init: Reply<TaskInfo>): (started: Started)
    ensures started.Started? <==> init.Success? && init.body.Parsed? && init.body.value.taskId != EmptyGuid
    ensures started.Started? ==> started.taskId == init.body.value.taskId
    ensures init.NonSuccess? ==> started == NotStarted(InitiateFailed(init.content))
  {
    match init
    case TransportFailure => NotStarted(Unreachable)
    case NonSuccess(content) => NotStarted(InitiateFailed(content))
    case Success(Malformed) => NotStarted(UnreadableBody)
    case Success(Null) => NotStarted(InvalidResponse)
    case Success(Parsed(info)) =>
      if info.taskId == EmptyGuid then NotStarted(InvalidResponse) else Started(info.taskId)
  }

  /** A status reply that ends polling successfully. */
  predicate ReportsCompleted(status: Reply<StatusInfo>)
  {
    status.Success? && status.body.Parsed? && status.body.value.isCompleted
  }

  /** A status reply after which the client waits and polls again: a success
      whose body is null or says not completed. */
  predicate KeepsPolling(status: Reply<StatusInfo>)
  {
    status.Success? && (status.body.Null? || (status.body.Parsed? && !status.body.value.isCompleted))
  }

  /** The error of a status reply that neither completes nor keeps polling. */
  function StatusError(status: Reply<StatusInfo>): FetchError
    requires !ReportsCompleted(status) && !KeepsPolling(status)
  {
    match status
    case TransportFailure => Unreachable
    case NonSuccess(content) => StatusFailed(content)
    case Success(_) => UnreadableBody
  }

  /** Step 3: what the result reply makes of the fetch; a null list is empty. */
  function ReadResult(result: Reply<seq<Book>>): (outcome: Outcome)
    ensures !outcome.StillPolling?
    ensures outcome.Fetched? <==> result.Success? && !result.body.Malformed?
    ensures outcome.Fetched? && result.body.Parsed? ==> outcome.books == result.body.value
  {
    match result
    case TransportFailure => Failed(Unreachable)
    case NonSuccess(content) => Failed(ResultFailed(content))
    case Success(Malformed) => Failed(UnreadableBody)
    case Success(Null) => Fetched([])
    case Success(Parsed(books)) => Fetched(books)
  }

  datatype Verdict = Completed | Aborted(error: FetchError) | ScriptExhausted

  datatype Poll = Poll(verdict: Verdict, trace: seq<Event>)

  /** Step 2, by recursion on the status replies still to come. */
  function PollStatus(taskId: Guid, statuses: seq<Reply<StatusInfo>>): Poll
  {
    if statuses == [] then Poll(ScriptExhausted, [])
    else if ReportsCompleted(statuses[0]) then Poll(Completed, [StatusRequest(taskId)])
    else if KeepsPolling(statuses[0]) then
      var rest := PollStatus(taskId, statuses[1..]);
      Poll(rest.verdict, [StatusRequest(taskId), Delay] + rest.trace)
    else Poll(Aborted(StatusError(statuses[0])), [StatusRequest(taskId)])
  }

  /** How a started fetch ends, given how polling ended. */
  function Conclude(taskId: Guid, poll: Poll, result: Reply<seq<Book>>): Run
  {
    match poll.verdict
    case Completed => Run(ReadResult(result), [InitiateRequest] + poll.trace + [ResultRequest(taskId)])
    case Aborted(e) => Run(Failed(e), [InitiateRequest] + poll.trace)
    case ScriptExhausted => Run(StillPolling, [InitiateRequest] + poll.trace)
  }

  /** The whole fetch: the outcome and the trace of requests and waits. */
  function Fetch(init: Reply<TaskInfo>, statuses: seq<Reply<StatusInfo>>, result: Reply<seq<Book>>): Run
  {
    match Initiate(init)
    case NotStarted(e) => Run(Failed(e), [InitiateRequest])
    case Started(taskId) => Conclude(taskId, PollStatus(taskId, statuses), result)
  }

  /** `n` rounds of a not-completed status followed by a wait. */
  function Waiting(taskId: Guid, n: nat): seq<Event>
  {
    if n == 0 then [] else Waiting(taskId, n - 1) + [StatusRequest(taskId), Delay]
  }

  /** The number of leading status replies that keep the client polling. */
  function LeadingPending(statuses: seq<Reply<StatusInfo>>): (k: nat)
    ensures k <= |statuses|
    ensures forall j :: 0 <= j < k ==> KeepsPolling(statuses[j])
    ensures k < |statuses| ==> !KeepsPolling(statuses[k])
  {
    if statuses == [] || !KeepsPolling(statuses[0]) then 0
    else 1 + LeadingPending(statuses[1..])
  }

  /** How often `e` occurs in a trace. */
  function Count(trace: seq<Event>, e: Event): nat
  {
    if trace == [] then 0 else (if trace[0] == e then 1 else 0) + Count(trace[1..], e)
  }

  // ---- The client as written: a loop over the scripted replies ----

  /** `GetAllBooksAsync`: initiate, poll until a status reports completion,
      fetch the result. Every exit agrees with `Fetch`. */
  method GetAllBooks(init: Reply<TaskInfo>, statuses: seq<Reply<StatusInfo>>, result: Reply<seq<Book>>)
    returns (outcome: Outcome, trace: seq<Event>)
    ensures Run(outcome, trace) == Fetch(init, statuses, result)
  {
    trace := [InitiateRequest];
    var info: TaskInfo;
    match init {
      case TransportFailure => return Failed(Unreachable), trace;
      case NonSuccess(content) => return Failed(InitiateFailed(content)), trace;
      case Success(body) =>
        if body.Malformed? {
          return Failed(UnreadableBody), trace;
        }
        if body.Null? || body.value.taskId == EmptyGuid {
          return Failed(InvalidResponse), trace;
        }
        info := body.value;
    }
    var taskId := info.taskId;

    var isCompleted := false;
    var i := 0;
    while !isCompleted
      invariant 0 <= i <= |statuses|
      invariant forall j :: 0 <= j < i && (!isCompleted || j < i - 1) ==> KeepsPolling(statuses[j])
      invariant !isCompleted ==> trace == [InitiateRequest] + Waiting(taskId, i)
      invariant isCompleted ==>
                  0 < i && ReportsCompleted(statuses[i - 1])
                  && trace == [InitiateRequest] + Waiting(taskId, i - 1) + [StatusRequest(taskId)]
      decreases |statuses| - i
    {
      if i == |statuses| {
        LeadingPendingIs(statuses, i);
        FetchExhaustsScript(init, statuses, result);
        return StillPolling, trace;
      }
      trace := trace + [StatusRequest(taskId)];
      var status := statuses[i];
      i := i + 1;
      match status {
        case TransportFailure =>
          LeadingPendingIs(statuses, i - 1);
          FetchStatusFails(init, statuses, result);
          return Failed(Unreachable), trace;
        case NonSuccess(content) =>
          LeadingPendingIs(statuses, i - 1);
          FetchStatusFails(init, statuses, result);
          return Failed(StatusFailed(content)), trace;
        case Success(body) =>
          if body.Malformed? {
            LeadingPendingIs(statuses, i - 1);
            FetchStatusFails(init, statuses, result);
            return Failed(UnreadableBody), trace;
          }
          if body.Parsed? && body.value.isCompleted {
            isCompleted := true;
          } else {
            trace := trace + [Delay];
          }
      }
    }
    LeadingPendingIs(statuses, i - 1);
    FetchReachesResult(init, statuses, result);

    trace := trace + [ResultRequest(taskId)];
    match result {
      case TransportFailure => outcome := Failed(Unreachable);
      case NonSuccess(content) => outcome := Failed(ResultFailed(content));
      case Success(body) =>
        if body.Malformed? {
          outcome := Failed(UnreadableBody);
        } else if body.Null? {
          outcome := Fetched([]);
        } else {
          outcome := Fetched(body.value);
        }
    }
  }

  // ---- Properties of the protocol functions ----

  /** `LeadingPending` is the only index with its two defining properties. */
  lemma LeadingPendingIs(statuses: seq<Reply<StatusInfo>>, k: nat)
    requires k <= |statuses|
    requires forall j :: 0 <= j < k ==> KeepsPolling(statuses[j])
    requires k < |statuses| ==> !KeepsPolling(statuses[k])
    ensures LeadingPending(statuses) == k
  {
  }

  /** A round of waiting can be taken off the front as well as the back. */
  lemma {:induction false} WaitingFront(taskId: Guid, n: nat)
    ensures Waiting(taskId, n + 1) == [StatusRequest(taskId), Delay] + Waiting(taskId, n)
  {
    if n > 0 {
      WaitingFront(taskId, n - 1);
    }
  }

  /** Polling over statuses that keep the client polling only adds rounds of waiting. */
  lemma {:induction false} PollStatusSkipsPending(taskId: Guid, statuses: seq<Reply<StatusInfo>>, k: nat)
    requires k <= |statuses|
    requires forall j :: 0 <= j < k ==> KeepsPolling(statuses[j])
    ensures PollStatus(taskId, statuses).verdict == PollStatus(taskId, statuses[k..]).verdict
    ensures PollStatus(taskId, statuses).trace == Waiting(taskId, k) + PollStatus(taskId, statuses[k..]).trace
  {
    if k > 0 {
      var rest := PollStatus(taskId, statuses[1..]);
      var tail := PollStatus(taskId, statuses[k..]);
      assert KeepsPolling(statuses[0]) && !ReportsCompleted(statuses[0]);
      assert PollStatus(taskId, statuses) == Poll(rest.verdict, [StatusRequest(taskId), Delay] + rest.trace);
      PollStatusSkipsPending(taskId, statuses[1..], k - 1);
      assert statuses[1..][k - 1..] == statuses[k..];
      assert rest.trace == Waiting(taskId, k - 1) + tail.trace;
      WaitingFront(taskId, k - 1);
      Regroup([StatusRequest(taskId), Delay], Waiting(taskId, k - 1), tail.trace, []);
    }
  }

  /** Polling in closed form: one round of waiting per leading status that
      keeps the client polling, then the first other status decides. */
  lemma PollCharacterized(taskId: Guid, statuses: seq<Reply<StatusInfo>>)
    ensures var k := LeadingPending(statuses);
            PollStatus(taskId, statuses) ==
              if k == |statuses| then Poll(ScriptExhausted, Waiting(taskId, k))
              else if ReportsCompleted(statuses[k]) then Poll(Completed, Waiting(taskId, k) + [StatusRequest(taskId)])
              else Poll(Aborted(StatusError(statuses[k])), Waiting(taskId, k) + [StatusRequest(taskId)])
  {
    var k := LeadingPending(statuses);
    PollStatusSkipsPending(taskId, statuses, k);
    var rest := statuses[k..];
    if k == |statuses| {
      assert rest == [];
      assert Waiting(taskId, k) + [] == Waiting(taskId, k);
    } else {
      assert rest[0] == statuses[k];
    }
  }

  /** Associativity of concatenation, in the two groupings the trace lemmas need. */
  lemma Regroup(a: seq<Event>, b: seq<Event>, c: seq<Event>, d: seq<Event>)
    ensures a + (b + c) + d == a + b + (c + d)
    ensures a + (b + c) == a + b + c
  {
  }

  // The whole fetch in closed form, one lemma per way it can end once the
  // task was started: each leading status that keeps the client polling adds
  // a round of waiting, then the first other status decides.

  /** The script runs out while every status said not completed. */
  lemma FetchExhaustsScript(init: Reply<TaskInfo>, statuses: seq<Reply<StatusInfo>>, result: Reply<seq<Book>>)
    requires Initiate(init).Started? && LeadingPending(statuses) == |statuses|
    ensures Fetch(init, statuses, result) ==
              Run(StillPolling, [InitiateRequest] + Waiting(Initiate(init).taskId, |statuses|))
  {
    var taskId := Initiate(init).taskId;
    PollCharacterized(taskId, statuses);
    assert Fetch(init, statuses, result) == Conclude(taskId, PollStatus(taskId, statuses), result);
  }

  /** A status reports completion: the result is requested and decides the outcome. */
  lemma FetchReachesResult(init: Reply<TaskInfo>, statuses: seq<Reply<StatusInfo>>, result: Reply<seq<Book>>)
    requires Initiate(init).Started?
    requires LeadingPending(statuses) < |statuses| && ReportsCompleted(statuses[LeadingPending(statuses)])
    ensures var taskId := Initiate(init).taskId;
            Fetch(init, statuses, result) ==
              Run(ReadResult(result),
                  [InitiateRequest] + Waiting(taskId, LeadingPending(statuses)) + [StatusRequest(taskId), ResultRequest(taskId)])
  {
    var taskId, k := Initiate(init).taskId, LeadingPending(statuses);
    var poll := PollStatus(taskId, statuses);
    PollCharacterized(taskId, statuses);
    var w := Waiting(taskId, k);
    assert poll == Poll(Completed, w + [StatusRequest(taskId)]);
    assert Fetch(init, statuses, result) == Conclude(taskId, poll, result);
    assert [StatusRequest(taskId)] + [ResultRequest(taskId)] == [StatusRequest(taskId), ResultRequest(taskId)];
    Regroup([InitiateRequest], w, [StatusRequest(taskId)], [ResultRequest(taskId)]);
  }

  /** A status fails: the fetch ends with its error right after that request. */
  lemma FetchStatusFails(init: Reply<TaskInfo>, statuses: seq<Reply<StatusInfo>>, result: Reply<seq<Book>>)
    requires Initiate(init).Started?
    requires LeadingPending(statuses) < |statuses| && !ReportsCompleted(statuses[LeadingPending(statuses)])
    ensures var taskId, k := Initiate(init).taskId, LeadingPending(statuses);
            Fetch(init, statuses, result) ==
              Run(Failed(StatusError(statuses[k])), [InitiateRequest] + Waiting(taskId, k) + [StatusRequest(taskId)])
  {
    var taskId, k := Initiate(init).taskId, LeadingPending(statuses);
    var poll := PollStatus(taskId, statuses);
    PollCharacterized(taskId, statuses);
    var w := Waiting(taskId, k);
    assert poll == Poll(Aborted(StatusError(statuses[k])), w + [StatusRequest(taskId)]);
    assert Fetch(init, statuses, result) == Conclude(taskId, poll, result);
    Regroup([InitiateRequest], w, [StatusRequest(taskId)], []);
  }

  /** Once a status reports completion, the result reply alone decides the
      outcome: a non-success is an error carrying its content, a null list is
      the empty list, and a parsed list is returned unchanged. */
  lemma ResultStepDecides(init: Reply<TaskInfo>, statuses: seq<Reply<StatusInfo>>, result: Reply<seq<Book>>)
    requires Initiate(init).Started?
    requires LeadingPending(statuses) < |statuses| && ReportsCompleted(statuses[LeadingPending(statuses)])
    ensures result.NonSuccess? ==> Fetch(init, statuses, result).outcome == Failed(ResultFailed(result.content))
    ensures result == Success(Null) ==> Fetch(init, statuses, result).outcome == Fetched([])
    ensures result.Success? && result.body.Parsed? ==> Fetch(init, statuses, result).outcome == Fetched(result.body.value)
  {
    FetchReachesResult(init, statuses, result);
  }

  /** A rejected initiate reply ends the fetch at once: no status or result
      request follows. A non-success reply is reported with its content; a
      missing body or a `Guid.Empty` task id is an invalid response. */
  lemma InitiateFailureEndsFetch(init: Reply<TaskInfo>, statuses: seq<Reply<StatusInfo>>, result: Reply<seq<Book>>)
    requires init.NonSuccess? || init == Success(Null) || init == Success(Parsed(TaskInfo(EmptyGuid)))
    ensures Fetch(init, statuses, result).trace == [InitiateRequest]
    ensures init.NonSuccess? ==> Fetch(init, statuses, result).outcome == Failed(InitiateFailed(init.content))
    ensures !init.NonSuccess? ==> Fetch(init, statuses, result).outcome == Failed(InvalidResponse)
  {
  }

  lemma {:induction false} WaitingCarriesTaskId(taskId: Guid, n: nat)
    ensures forall e :: e in Waiting(taskId, n) ==> e == Delay || e == StatusRequest(taskId)
  {
    if n > 0 {
      WaitingCarriesTaskId(taskId, n - 1);
    }
  }

  /** Every status request and the result request carry the task id the
      initiate step returned. */
  lemma RequestsCarryTaskId(init: Reply<TaskInfo>, statuses: seq<Reply<StatusInfo>>, result: Reply<seq<Book>>)
    requires Initiate(init).Started?
    ensures forall e :: e in Fetch(init, statuses, result).trace && (e.StatusRequest? || e.ResultRequest?) ==>
              e.taskId == Initiate(init).taskId
  {
    WaitingCarriesTaskId(Initiate(init).taskId, LeadingPending(statuses));
    var k := LeadingPending(statuses);
    if k == |statuses| {
      FetchExhaustsScript(init, statuses, result);
    } else if ReportsCompleted(statuses[k]) {
      FetchReachesResult(init, statuses, result);
    } else {
      FetchStatusFails(init, statuses, result);
    }
  }

  /** A failing status reply, once reached, aborts the fetch with its error
      and no result request is issued; a result request is issued only after
      a status reporting completion. */
  lemma StatusFailureSkipsResult(init: Reply<TaskInfo>, statuses: seq<Reply<StatusInfo>>, result: Reply<seq<Book>>)
    requires Initiate(init).Started?
    ensures var k := LeadingPending(statuses);
            k < |statuses| && !ReportsCompleted(statuses[k]) ==>
              Fetch(init, statuses, result).outcome == Failed(StatusError(statuses[k]))
              && ResultRequest(Initiate(init).taskId) !in Fetch(init, statuses, result).trace
    ensures ResultRequest(Initiate(init).taskId) in Fetch(init, statuses, result).trace ==>
              LeadingPending(statuses) < |statuses| && ReportsCompleted(statuses[LeadingPending(statuses)])
  {
    WaitingCarriesTaskId(Initiate(init).taskId, LeadingPending(statuses));
    var k := LeadingPending(statuses);
    if k == |statuses| {
      FetchExhaustsScript(init, statuses, result);
    } else if ReportsCompleted(statuses[k]) {
      FetchReachesResult(init, statuses, result);
    } else {
      FetchStatusFails(init, statuses, result);
    }
  }

  /** Counting distributes over concatenation. */
  lemma {:induction false} CountAppend(a: seq<Event>, b: seq<Event>, e: Event)
    ensures Count(a + b, e) == Count(a, e) + Count(b, e)
  {
    if a == [] {
      assert a + b == b;
    } else {
      CountAppend(a[1..], b, e);
      assert (a + b)[1..] == a[1..] + b;
    }
  }

  /** Counting in a one-event trace. */
  lemma CountSingle(x: Event, e: Event)
    ensures Count([x], e) == if x == e then 1 else 0
  {
    assert [x][1..] == [];
  }

  lemma {:induction false} WaitingCounts(taskId: Guid, n: nat)
    ensures Count(Waiting(taskId, n), Delay) == n
    ensures Count(Waiting(taskId, n), StatusRequest(taskId)) == n
    ensures Count(Waiting(taskId, n), ResultRequest(taskId)) == 0
  {
    if n > 0 {
      WaitingCounts(taskId, n - 1);
      var round := [StatusRequest(taskId), Delay];
      assert round == [StatusRequest(taskId)] + [Delay];
      forall e | e in {Delay, StatusRequest(taskId), ResultRequest(taskId)}
        ensures Count(Waiting(taskId, n), e) == Count(Waiting(taskId, n - 1), e) + Count([StatusRequest(taskId)], e) + Count([Delay], e)
      {
        CountAppend(Waiting(taskId, n - 1), round, e);
        CountAppend([StatusRequest(taskId)], [Delay], e);
      }
      CountSingle(StatusRequest(taskId), Delay);
      CountSingle(Delay, Delay);
      CountSingle(StatusRequest(taskId), StatusRequest(taskId));
      CountSingle(Delay, StatusRequest(taskId));
      CountSingle(StatusRequest(taskId), ResultRequest(taskId));
      CountSingle(Delay, ResultRequest(taskId));
    }
  }

  lemma CountPair(x: Event, y: Event, e: Event)
    ensures Count([x, y], e) == (if x == e then 1 else 0) + (if y == e then 1 else 0)
  {
    assert [x, y] == [x] + [y];
    CountAppend([x], [y], e);
    CountSingle(x, e);
    CountSingle(y, e);
  }

  /** Occurrences in a trace of the fetch's shape. */
  lemma CountFetchTrace(taskId: Guid, k: nat, tail: seq<Event>, e: Event)
    ensures Count([InitiateRequest] + Waiting(taskId, k) + tail, e)
            == (if e == InitiateRequest then 1 else 0) + Count(Waiting(taskId, k), e) + Count(tail, e)
  {
    CountAppend([InitiateRequest] + Waiting(taskId, k), tail, e);
    CountAppend([InitiateRequest], Waiting(taskId, k), e);
    CountSingle(InitiateRequest, e);
  }

  /** The trace of a fetch that reached its result request after k
      not-completed statuses holds k + 1 status requests, k waits and exactly
      one result request. */
  lemma SuccessTraceCounts(taskId: Guid, k: nat)
    ensures var trace := [InitiateRequest] + Waiting(taskId, k) + [StatusRequest(taskId), ResultRequest(taskId)];
            && Count(trace, StatusRequest(taskId)) == k + 1
            && Count(trace, Delay) == k
            && Count(trace, ResultRequest(taskId)) == 1
  {
    var tail := [StatusRequest(taskId), ResultRequest(taskId)];
    WaitingCounts(taskId, k);
    CountFetchTrace(taskId, k, tail, Delay);
    CountFetchTrace(taskId, k, tail, StatusRequest(taskId));
    CountFetchTrace(taskId, k, tail, ResultRequest(taskId));
    CountPair(StatusRequest(taskId), ResultRequest(taskId), Delay);
    CountPair(StatusRequest(taskId), ResultRequest(taskId), StatusRequest(taskId));
    CountPair(StatusRequest(taskId), ResultRequest(taskId), ResultRequest(taskId));
  }

  /** Books are delivered only after the task was started and the status
      polling ended on a reply reporting completion. */
  lemma FetchedOnlyAfterCompletion(init: Reply<TaskInfo>, statuses: seq<Reply<StatusInfo>>, result: Reply<seq<Book>>)
    ensures Fetch(init, statuses, result).outcome.Fetched? ==>
              Initiate(init).Started?
              && LeadingPending(statuses) < |statuses| && ReportsCompleted(statuses[LeadingPending(statuses)])
  {
    if Initiate(init).Started? {
      var k := LeadingPending(statuses);
      if k == |statuses| {
        FetchExhaustsScript(init, statuses, result);
      } else if !ReportsCompleted(statuses[k]) {
        FetchStatusFails(init, statuses, result);
      }
    }
  }

  /** A successful fetch: one initiate request, then k + 1 status requests of
      which only the last reported completion, with one wait after each of the
      k others (counted by `SuccessTraceCounts`), then the result request; and
      the books are the result body, a null body giving the empty list. */
  lemma SuccessfulFetch(init: Reply<TaskInfo>, statuses: seq<Reply<StatusInfo>>, result: Reply<seq<Book>>)
    requires Fetch(init, statuses, result).outcome.Fetched?
    ensures Initiate(init).Started?
    ensures var taskId, k, run := Initiate(init).taskId, LeadingPending(statuses), Fetch(init, statuses, result);
            && k < |statuses| && ReportsCompleted(statuses[k])
            && run.trace == [InitiateRequest] + Waiting(taskId, k) + [StatusRequest(taskId), ResultRequest(taskId)]
    ensures result.Success?
    ensures result.body.Null? ==> Fetch(init, statuses, result).outcome.books == []
    ensures result.body.Parsed? ==> Fetch(init, statuses, result).outcome.books == result.body.value
  {
    FetchedOnlyAfterCompletion(init, statuses, result);
    FetchReachesResult(init, statuses, result);
  }

  /** Every wait follows a status that kept the client polling: whatever the
      outcome, once the task was started the trace holds one wait per leading
      not-completed status reply. */
  lemma WaitsMatchPendingStatuses(init: Reply<TaskInfo>, statuses: seq<Reply<StatusInfo>>, result: Reply<seq<Book>>)
    requires Initiate(init).Started?
    ensures Count(Fetch(init, statuses, result).trace, Delay) == LeadingPending(statuses)
  {
    var taskId, k := Initiate(init).taskId, LeadingPending(statuses);
    if k == |statuses| {
      FetchExhaustsScript(init, statuses, result);
    } else if ReportsCompleted(statuses[k]) {
      FetchReachesResult(init, statuses, result);
    } else {
      FetchStatusFails(init, statuses, result);
    }
    WaitingCounts(taskId, k);
    var tail := if k == |statuses| then []
                else if ReportsCompleted(statuses[k]) then [StatusRequest(taskId), ResultRequest(taskId)]
                else [StatusRequest(taskId)];
    CountFetchTrace(taskId, k, tail, Delay);
    CountPair(StatusRequest(taskId), ResultRequest(taskId), Delay);
    CountSingle(StatusRequest(taskId), Delay);
    if k == |statuses| {
      assert [InitiateRequest] + Waiting(taskId, k) + tail == [InitiateRequest] + Waiting(taskId, k);
    }
  }
}
