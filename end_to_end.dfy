/** The two services together: producer responses delivered to the client,
    and two end-to-end runs, a completed task and the injected fault. */
module EndToEnd {
  import opened Protocol
  import Service1
  import opened Service2

  /** How a producer response reaches the client: a 200 arrives with its
      body serialised and parsed back intact; any other status arrives as a
      non-success with its text. */
  function Delivered<T>(response: HttpResponse<T>): Reply<T>
  {
    match response
    case Ok(body) => Success(Parsed(body))
    case Error(_, message) => NonSuccess(message)
  }

  /** Accept, one poll while the worker is still busy, the worker completes,
      a second poll sees completion, the result is fetched: the client gets
      the five books after exactly one wait, and a second result query gives
      the same data. `bookIds` and `taskId` stand for the identifiers the
      producer draws. */
  method CompletedTaskScenario(bookIds: seq<Guid>, taskId: Guid)
    returns (outcome: Outcome, trace: seq<Event>, again: HttpResponse<seq<Book>>)
    requires |bookIds| == 5 && taskId != EmptyGuid
    ensures outcome == Fetched(Service1.Catalogue(bookIds))
    ensures |outcome.books| == 5 && outcome.books[0].title == "Diuna"
    ensures trace == [InitiateRequest, StatusRequest(taskId), Delay, StatusRequest(taskId), ResultRequest(taskId)]
    ensures again == Ok(outcome.books)
  {
    var producer := new Service1.BookController(bookIds);
    var accepted := producer.GetAll(taskId);
    assert accepted == Ok(TaskInfo(taskId));
    var pending := producer.GetStatus(taskId);
    assert pending == Ok(StatusInfo(taskId, false));
    producer.Complete(taskId);
    var done := producer.GetStatus(taskId);
    assert done == Ok(StatusInfo(taskId, true));
    var result := producer.GetResult(taskId);
    assert result == Ok(Service1.Catalogue(bookIds));
    var init, statuses := Success(Parsed(TaskInfo(taskId))), [Success(Parsed(StatusInfo(taskId, false))), Success(Parsed(StatusInfo(taskId, true)))];
    assert Delivered(accepted) == init && [Delivered(pending), Delivered(done)] == statuses;
    LeadingPendingIs(statuses, 1);
    FetchReachesResult(init, statuses, Delivered(result));
    assert Waiting(taskId, 1) == [StatusRequest(taskId), Delay];
    outcome, trace := GetAllBooks(init, statuses, Delivered(result));
    again := producer.GetResult(taskId);
  }

  /** Ten accepts from process start: the first nine register their tasks,
      the tenth is the injected 500 and registers nothing, and a client whose
      initiate request is that tenth one fails with the fault's text without
      polling. `taskIds` stand for the identifiers the producer draws. */
  method TenthRequestScenario(bookIds: seq<Guid>, taskIds: seq<Guid>)
    returns (responses: seq<HttpResponse<TaskInfo>>, outcome: Outcome, trace: seq<Event>)
    requires |bookIds| == 5 && |taskIds| == 10
    requires forall i :: 0 <= i < 10 ==> taskIds[i] != EmptyGuid
    requires forall i, j :: 0 <= i < j < 10 ==> taskIds[i] != taskIds[j]
    ensures |responses| == 10
    ensures forall i :: 0 <= i < 9 ==> responses[i] == Ok(TaskInfo(taskIds[i]))
    ensures responses[9] == Error(500, Service1.FaultMessage)
    ensures outcome == Failed(InitiateFailed(Service1.FaultMessage))
    ensures trace == [InitiateRequest]
  {
    var producer := new Service1.BookController(bookIds);
    responses := [];
    while |responses| < 9
      invariant |responses| <= 9
      invariant producer.Valid() && producer.requestCounter == |responses|
      invariant forall id :: id in producer.taskResults ==> id in taskIds[..|responses|]
      invariant forall i :: 0 <= i < |responses| ==> responses[i] == Ok(TaskInfo(taskIds[i]))
    {
      var response := producer.GetAll(taskIds[|responses|]);
      responses := responses + [response];
    }
    var tenth := producer.GetAll(taskIds[9]);
    responses := responses + [tenth];
    outcome, trace := GetAllBooks(Delivered(tenth), [], TransportFailure);
  }
}
