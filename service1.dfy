/** The producer service: a request counter that injects a fault on every
    tenth accept, a registry of asynchronous tasks, the worker's two ways of
    finishing a task, and the read-only status and result queries.
    The lock, the concurrent dictionaries and the fire-and-forget worker are
    flattened into atomic steps: each method below is one such step. */
module Service1 {
  import opened Protocol

  /** Text of the injected 500 answer. */
  const FaultMessage: string := "Service error - request failed!"

  /** Every request whose number is a multiple of this fails. */
  const FaultPeriod: nat := 10

  /** The fixed book collection the worker publishes; `ids` are the five
      identifiers drawn once when the collection is built. */
  function Catalogue(ids: seq<Guid>): (books: seq<Book>)
    requires |ids| == 5
    ensures |books| == 5
    ensures forall i :: 0 <= i < 5 ==> books[i].id == ids[i]
    ensures books[0] == Book(ids[0], "Diuna", "Frank Herbert", 1965, "Fantasy")
  {
    [ Book(ids[0], "Diuna", "Frank Herbert", 1965, "Fantasy"),
      Book(ids[1], "Władca Pierścieni", "J.R.R. Tolkien", 1954, "Fantasy"),
      Book(ids[2], "1984", "George Orwell", 1949, "Dystopia"),
      Book(ids[3], "Mistrz i Małgorzata", "Michaił Bułhakow", 1967, "Powieść fantastyczna"),
      Book(ids[4], "Solaris", "Stanisław Lem", 1961, "Science Fiction") ]
  }

  /** The state of a task's completion source. */
  datatype Completion = Pending | Succeeded(books: seq<Book>) | Faulted(message: string)

  function NotFoundMessage(taskId: Guid): string {
    "Task with ID " + GuidText(taskId) + " not found"
  }

  function StillProcessingMessage(taskId: Guid): string {
    "Task " + GuidText(taskId) + " is still processing. Use the Status endpoint to check readiness."
  }

  /** How a registry may evolve in one step: no task disappears, a task that
      left Pending keeps its terminal state, and a raised flag stays raised. */
  ghost predicate Progresses(results0: map<Guid, Completion>, status0: map<Guid, bool>,
                             results1: map<Guid, Completion>, status1: map<Guid, bool>)
  {
    && (forall id :: id in results0 ==> id in results1 && (results0[id] != Pending ==> results1[id] == results0[id]))
    && (forall id :: id in status0 && status0[id] ==> id in status1 && status1[id])
  }

  class BookController {
    /** Identifiers of the five books, drawn when the collection is built. */
    const bookIds: seq<Guid>
    /** The static book collection. */
    const books: seq<Book>
    /** Number of accept requests received since the process started. */
    var requestCounter: nat
    /** Completion source of every task created so far. */
    var taskResults: map<Guid, Completion>
    /** Completed flag of every task created so far. */
    var taskStatus: map<Guid, bool>

    /** The registry invariant kept by every step: both maps know the same
        tasks, no task is `Guid.Empty`, a flag is raised exactly when the
        task's result was published, and a published result is the catalogue. */
    ghost predicate Valid()
      reads this
    {
      && |bookIds| == 5 && books == Catalogue(bookIds)
      && taskResults.Keys == taskStatus.Keys
      && EmptyGuid !in taskResults
      && (forall id :: id in taskStatus ==> (taskStatus[id] <==> taskResults[id].Succeeded?))
      && (forall id :: id in taskResults && taskResults[id].Succeeded? ==> taskResults[id].books == books)
    }

    /** Process start: counter zero, no tasks. */
    constructor (bookIds: seq<Guid>)
      requires |bookIds| == 5
      ensures Valid()
      ensures this.bookIds == bookIds && books == Catalogue(bookIds)
      ensures requestCounter == 0 && taskResults == map[] && taskStatus == map[]
    {
      this.bookIds := bookIds;
      books := Catalogue(bookIds);
      requestCounter := 0;
      taskResults := map[];
      taskStatus := map[];
    }

    /** The stored completed flag, `false` when there is none. */
    function Flag(taskId: Guid): bool
      reads this
    {
      if taskId in taskStatus then taskStatus[taskId] else false
    }

    /** `GET /Book/GetAll`: count the request, fail every tenth one, otherwise
        register a pending task under `freshId` and hand its id back.
        `freshId` stands for `Guid.NewGuid()`. */
    method GetAll(freshId: Guid) returns (response: HttpResponse<TaskInfo>)
      requires Valid()
      requires freshId != EmptyGuid && freshId !in taskResults
      modifies this
      ensures Valid()
      ensures requestCounter == old(requestCounter) + 1
      ensures response.Error? <==> requestCounter % FaultPeriod == 0
      ensures response.Error? ==>
                response == Error(500, FaultMessage)
                && taskResults == old(taskResults) && taskStatus == old(taskStatus)
      ensures response.Ok? ==>
                response.body == TaskInfo(freshId)
                && taskResults == old(taskResults)[freshId := Pending]
                && taskStatus == old(taskStatus)[freshId := false]
      ensures Progresses(old(taskResults), old(taskStatus), taskResults, taskStatus)
    {
      requestCounter := requestCounter + 1;
      var currentRequestNumber := requestCounter;
      if currentRequestNumber % FaultPeriod == 0 {
        return Error(500, FaultMessage);
      }
      taskResults := taskResults[freshId := Pending];
      taskStatus := taskStatus[freshId := false];
      response := Ok(TaskInfo(freshId));
    }

    /** The worker's normal end: publish the book collection, then raise the flag. */
    method Complete(taskId: Guid)
      requires Valid()
      requires taskId in taskResults && taskResults[taskId].Pending?
      modifies this
      ensures Valid()
      ensures requestCounter == old(requestCounter)
      ensures taskResults == old(taskResults)[taskId := Succeeded(books)]
      ensures taskStatus == old(taskStatus)[taskId := true]
      ensures Progresses(old(taskResults), old(taskStatus), taskResults, taskStatus)
    {
      taskResults := taskResults[taskId := Succeeded(books)];
      taskStatus := taskStatus[taskId := true];
    }

    /** The worker's exception path: record the failure; the flag is left alone. */
    method Fail(taskId: Guid, message: string)
      requires Valid()
      requires taskId in taskResults && taskResults[taskId].Pending?
      modifies this
      ensures Valid()
      ensures requestCounter == old(requestCounter)
      ensures taskResults == old(taskResults)[taskId := Faulted(message)]
      ensures taskStatus == old(taskStatus)
      ensures Progresses(old(taskResults), old(taskStatus), taskResults, taskStatus)
    {
      taskResults := taskResults[taskId := Faulted(message)];
    }

    /** `GET /Book/Status/{taskId}`: 404 for an unknown task, otherwise the
        task's id and its stored flag. */
    function GetStatus(taskId: Guid): (response: HttpResponse<StatusInfo>)
      reads this
      ensures response.Error? <==> taskId !in taskResults
      ensures response.Error? ==> response.statusCode == 404
      ensures response.Ok? ==> response.body.taskId == taskId && response.body.isCompleted == Flag(taskId)
    {
      if taskId !in taskResults then Error(404, NotFoundMessage(taskId))
      else Ok(StatusInfo(taskId, Flag(taskId)))
    }

    /** `GET /Book/Result/{taskId}`: 404 for an unknown task, 400 while the
        flag is down, otherwise what the completion source holds (a failure
        becomes a 500). The requires leaves out a raised flag over a pending
        source, on which the action would block; `Valid` rules it out. */
    function GetResult(taskId: Guid): (response: HttpResponse<seq<Book>>)
      reads this
      requires taskId in taskResults && Flag(taskId) ==> !taskResults[taskId].Pending?
      ensures taskId !in taskResults ==> response == Error(404, NotFoundMessage(taskId))
      ensures taskId in taskResults && !Flag(taskId) ==> response == Error(400, StillProcessingMessage(taskId))
      ensures response.Ok? <==> taskId in taskResults && Flag(taskId) && taskResults[taskId].Succeeded?
      ensures response.Ok? ==> response.body == taskResults[taskId].books
    {
      if taskId !in taskResults then Error(404, NotFoundMessage(taskId))
      else if !Flag(taskId) then Error(400, StillProcessingMessage(taskId))
      else if taskResults[taskId].Faulted? then Error(500, "Error retrieving result: " + taskResults[taskId].message)
      else Ok(taskResults[taskId].books)
    }
  }

  /** In a valid registry the status of a known task is completed exactly
      when its result was published; a failed task reads as not completed. */
  lemma StatusReflectsPublication(c: BookController, taskId: Guid)
    requires c.Valid() && taskId in c.taskResults
    ensures c.GetStatus(taskId).Ok?
    ensures c.GetStatus(taskId).body.isCompleted <==> c.taskResults[taskId].Succeeded?
    ensures c.taskResults[taskId].Faulted? ==> !c.GetStatus(taskId).body.isCompleted
  {
  }

  /** In a valid registry a result query answers 404, 400 or the catalogue;
      the 500 branch is never taken, and a failed task answers 400. */
  lemma ResultNeverServerError(c: BookController, taskId: Guid)
    requires c.Valid()
    ensures taskId in c.taskResults && c.Flag(taskId) ==> !c.taskResults[taskId].Pending?
    ensures c.GetResult(taskId).Error? ==> c.GetResult(taskId).statusCode in {404, 400}
    ensures c.GetResult(taskId).Ok? ==> c.GetResult(taskId).body == c.books
    ensures taskId in c.taskResults && c.taskResults[taskId].Faulted? ==>
              c.GetResult(taskId) == Error(400, StillProcessingMessage(taskId))
  {
  }

  /** `Progresses` composes, so over any run of steps a raised flag is never
      lowered and a terminal result never changes. */
  lemma ProgressesTransitive(r0: map<Guid, Completion>, s0: map<Guid, bool>,
                             r1: map<Guid, Completion>, s1: map<Guid, bool>,
                             r2: map<Guid, Completion>, s2: map<Guid, bool>)
    requires Progresses(r0, s0, r1, s1) && Progresses(r1, s1, r2, s2)
    ensures Progresses(r0, s0, r2, s2)
  {
  }

  // ---- The request counter as written: a C# `int` incremented unchecked ----

  /** Two's-complement wrap-around of an unbounded integer to 32 bits. */
  function WrapInt32(x: int): (r: int)
    ensures -0x8000_0000 <= r < 0x8000_0000
    ensures (x - r) % 0x1_0000_0000 == 0
  {
    (x + 0x8000_0000) % 0x1_0000_0000 - 0x8000_0000
  }

  /** C#'s `%`, which truncates toward zero: the remainder differs from the
      dividend by a multiple of the divisor, takes the dividend's sign and is
      smaller than the divisor in magnitude. */
  function TruncRem(a: int, b: int): (r: int)
    requires b > 0
    ensures exists q :: a == q * b + r
    ensures a >= 0 ==> 0 <= r < b
    ensures a < 0 ==> -b < r <= 0
  {
    if a >= 0 then
      assert a == (a / b) * b + a % b;
      a % b
    else
      var q := (-a) / b;
      assert -a == q * b + (-a) % b;
      assert a == (-q) * b + -((-a) % b);
      -((-a) % b)
  }

  /** Value of the 32-bit counter after `calls` increments from zero. */
  function CounterAsWritten(calls: nat): int
  {
    if calls == 0 then 0 else WrapInt32(CounterAsWritten(calls - 1) + 1)
  }

  /** Whether the `calls`-th accept fails when the counter is a C# `int`. */
  predicate FaultsAsWritten(calls: nat)
  {
    TruncRem(CounterAsWritten(calls), FaultPeriod) == 0
  }

  /** Two integers in the 32-bit range that differ by a multiple of 2^32 are equal. */
  lemma WrapUnique(x: int, r: int)
    requires -0x8000_0000 <= r < 0x8000_0000
    requires (x - r) % 0x1_0000_0000 == 0
    ensures WrapInt32(x) == r
  {
    var w := WrapInt32(x);
    var q := (x - r) / 0x1_0000_0000;
    var p := (x - w) / 0x1_0000_0000;
    assert x - r == q * 0x1_0000_0000;
    assert x - w == p * 0x1_0000_0000;
    assert w - r == (q - p) * 0x1_0000_0000;
  }

  /** The step-by-step counter is the wrapped number of calls. */
  lemma {:induction false} CounterAsWrittenIsWrapped(calls: nat)
    ensures CounterAsWritten(calls) == WrapInt32(calls)
  {
    if calls > 0 {
      CounterAsWrittenIsWrapped(calls - 1);
      var prev := WrapInt32(calls - 1);
      WrapUnique(calls, WrapInt32(prev + 1));
    }
  }

  /** Until the counter overflows, the 32-bit counter faults on exactly the
      tenth, twentieth, ... request. */
  lemma FaultsAsWrittenBeforeOverflow(calls: nat)
    requires calls < 0x8000_0000
    ensures FaultsAsWritten(calls) <==> calls % FaultPeriod == 0
  {
    CounterAsWrittenIsWrapped(calls);
  }

  /** After the overflow, through the next 2^31 requests, the 32-bit counter
      faults on the requests whose number ends in 6 instead of 0: request
      2147483650 succeeds and request 2147483656 fails. */
  lemma FaultScheduleDriftsAfterOverflow(calls: nat)
    requires 0x8000_0000 <= calls < 0x1_0000_0000
    ensures FaultsAsWritten(calls) <==> calls % FaultPeriod == 6
  {
    CounterAsWrittenIsWrapped(calls);
    WrapUnique(calls, calls - 0x1_0000_0000);
  }
}
