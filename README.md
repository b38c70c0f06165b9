# MilleSystem task-lifecycle protocol in Dafny

MilleSystem moves slow work off the request path. There are two services:

- **Service 1, the producer.** It accepts a `GET /Book/GetAll`. Every tenth accept fails with a 500. Otherwise it registers a task and answers with the task's id. A background worker then publishes the fixed collection of five books. The producer answers `Status/{taskId}` and `Result/{taskId}` queries over its registry.
- **Service 2, the consumer.** Its `GetAllBooksAsync` runs a three-step client: initiate a task, poll the task's status until it reports completion, then fetch the result.

The project models both sides and the path between them:

- `protocol.dfy` (module `Protocol`) holds the shared values: `Guid` with its `Guid.Empty`, the `Book` record, the JSON bodies of the producer's endpoints, the HTTP responses its actions return, and the "D" text form of a Guid that appears in the producer's messages.
- `service1.dfy` (module `Service1`) models the producer as the class `BookController`:
  - its fields are the request counter and the two task dictionaries (completion sources and completed flags);
  - the methods `GetAll`, `Complete` and `Fail` are the accept action and the worker's two ways of ending a task;
  - the functions `GetStatus` and `GetResult` are the read-only queries;
  - every step keeps the registry invariant `Valid()` and the monotonicity relation `Progresses`.

  The lock, the concurrent dictionaries and `Task.Run` are flattened into atomic steps.
- `service2.dfy` (module `Service2`) models the consumer:
  - `GetAllBooks` is the client's loop, run over a finite script of already-deserialised replies, and it records a trace of the requests it issues and the waits it takes;
  - `Fetch` is the same protocol written as recursive functions;
  - the method is proved equal to `Fetch` on every input;
  - the promised properties are proved about `Fetch`.
- `end_to_end.dfy` (module `EndToEnd`) delivers producer responses to the consumer. It runs two complete scenarios:
  - an accepted task that is polled, completed and fetched;
  - the tenth accept from process start, which is the injected fault.

Two places where the code behaves differently from what one would expect of such a protocol. The model follows the code in both:

- One would expect a read-through cache in front of the consumer's client. The code only registers a memory cache (`MilleSystem.Service2/Program.cs:26`) and never reads or writes it, so the model has no cache.
- One would expect a failed task to report failure, and its result to surface as a 500. In the code, the worker's exception path never raises the completed flag. A failed task therefore reads as not completed forever, and its result query answers 400. `Service1.ResultNeverServerError` proves that the 500 branch of `GetResult` cannot be reached.

## Model

| member | source | states |
|---|---|---|
| Protocol.GuidText | MilleSystem.Service1/Controllers/BookController.cs:89 | The text form of a task id in a message is 36 characters, with hyphens at positions 8, 13, 18 and 23 and a lower-case hex digit at every other position. |
| Protocol.HexValueOfDigits | MilleSystem.Service1/Controllers/BookController.cs:89 | Reading back the w hex digits written for a number below 16^w gives that number. |
| Protocol.GuidTextSpellsId | MilleSystem.Service1/Controllers/BookController.cs:89 | The 32 digits of a task id's text form, hyphens removed, spell the id. |
| Protocol.GuidTextInjective | MilleSystem.Service1/Controllers/BookController.cs:89 | Two task ids have the same text form exactly when they are equal, so the 404 and 400 messages identify the task. |
| Service1.Catalogue | MilleSystem.Service1/Controllers/BookController.cs:10-21 | The static collection holds exactly five books, each with its own drawn id, and the first is "Diuna" by Frank Herbert, 1965, Fantasy. |
| Service1.BookController.constructor | MilleSystem.Service1/Controllers/BookController.cs:24-29 | At process start the counter is zero, both dictionaries are empty and the registry invariant holds. |
| Service1.BookController.GetAll | MilleSystem.Service1/Controllers/BookController.cs:39-81 | The counter grows by exactly one on every call. The answer is the 500 "Service error - request failed!" exactly when the new count is a multiple of 10, and then neither dictionary changes. Otherwise the fresh id is registered in both dictionaries, as Pending with its flag false, and the same id is returned. The invariant is kept, and no task is lost, changed or un-flagged. |
| Service1.BookController.Complete | MilleSystem.Service1/Controllers/BookController.cs:63-72 | The worker's normal end stores the five-book collection in the task's completion source and raises its flag. Nothing else changes and the invariant is kept. |
| Service1.BookController.Fail | MilleSystem.Service1/Controllers/BookController.cs:74-78 | The worker's exception path stores the failure and leaves every flag, the counter and every other task unchanged. |
| Service1.BookController.GetStatus | MilleSystem.Service1/Controllers/BookController.cs:85-95 | The answer is 404 exactly when the id is unknown. For a known id, the answer carries that id and the stored flag, false when absent. |
| Service1.BookController.GetResult | MilleSystem.Service1/Controllers/BookController.cs:98-119 | An unknown id gives 404 with its message, and a known id whose flag is down gives 400 "still processing". The answer is 200 exactly when the flag is up and the source holds books, and then it carries those books. |
| Service1.StatusReflectsPublication | MilleSystem.Service1/Controllers/BookController.cs:63-94 | In a valid registry a known task's status says completed exactly when its result was published, so a failed task always reads as not completed. |
| Service1.ResultNeverServerError | MilleSystem.Service1/Controllers/BookController.cs:100-118 | In a valid registry the result query never blocks and never answers 500. Its errors are 404 or 400, a success carries the catalogue, and a failed task answers 400. |
| Service1.ProgressesTransitive | MilleSystem.Service1/Controllers/BookController.cs:60-71 | Over any sequence of steps no task disappears, a terminal result never changes and a raised flag is never lowered. |
| Service1.WrapInt32 | MilleSystem.Service1/Controllers/BookController.cs:24 | A 32-bit wrap-around lands in the `int` range and differs from its input by a multiple of 2^32. |
| Service1.TruncRem | MilleSystem.Service1/Controllers/BookController.cs:51 | C#'s `%` truncates toward zero: the remainder differs from the dividend by a multiple of the divisor, takes the dividend's sign and is smaller than the divisor in magnitude, which fixes it uniquely. |
| Service1.CounterAsWritten | MilleSystem.Service1/Controllers/BookController.cs:45-46 | Computes the value of the C# `int` counter after a number of increments from zero, each increment wrapping to 32 bits. `CounterAsWrittenIsWrapped` states its closed form. |
| Service1.FaultsAsWritten | MilleSystem.Service1/Controllers/BookController.cs:51 | Computes whether the n-th accept faults with the `int` counter and C#'s `%`. The two lemmas below characterise it before and after the overflow. |
| Service1.CounterAsWrittenIsWrapped | MilleSystem.Service1/Controllers/BookController.cs:43-47 | The `int` counter incremented step by step equals the number of calls wrapped to 32 bits. |
| Service1.FaultsAsWrittenBeforeOverflow | MilleSystem.Service1/Controllers/BookController.cs:43-55 | Before the counter overflows, the `int` counter faults exactly on the requests whose number is a multiple of 10. |
| Service1.FaultScheduleDriftsAfterOverflow | MilleSystem.Service1/Controllers/BookController.cs:43-55 | For the next 2^31 requests after the overflow, the `int` counter faults exactly on the requests whose number ends in 6. |
| Service2.Initiate | MilleSystem.Service2/Services/BookService.cs:39-59 | The fetch starts exactly when the initiate reply is a success whose body parses to a non-empty task id, and then it carries that id. A non-success reply gives `InitiateFailed` with its content. |
| Service2.PollStatus | MilleSystem.Service2/Services/BookService.cs:63-90 | Computes the polling verdict (completed, aborted with an error, or script exhausted) and the status requests and waits issued, reply by reply. `PollCharacterized` states its closed form. |
| Service2.ReadResult | MilleSystem.Service2/Services/BookService.cs:93-106 | The result step never leaves the fetch polling. It yields books exactly when the reply is a success with a readable body, and a parsed list is returned unchanged. |
| Service2.Fetch | MilleSystem.Service2/Services/BookService.cs:32-106 | Computes the whole fetch as initiate, poll, fetch, giving the outcome and the trace. It is the reference that `GetAllBooks` is proved equal to, and the Service2 lemmas below characterise it. |
| Service2.GetAllBooks | MilleSystem.Service2/Services/BookService.cs:32-113 | The client's loop, over every reply script, ends with the same outcome and issues the same requests and waits as the protocol function `Fetch`. |
| Service2.LeadingPending | MilleSystem.Service2/Services/BookService.cs:63-90 | This counts the status replies the loop waits on. Every reply before that count keeps the client polling, and the reply at that count (if any) does not. |
| Service2.LeadingPendingIs | MilleSystem.Service2/Services/BookService.cs:63-90 | The count of replies waited on is the only index with those two properties. |
| Service2.PollStatusSkipsPending | MilleSystem.Service2/Services/BookService.cs:80-89 | A null or not-completed status only adds one status request and one wait, then polls on. |
| Service2.PollCharacterized | MilleSystem.Service2/Services/BookService.cs:63-90 | Polling gives one round of waiting per leading not-completed reply. The first other reply then decides: completion, an error, or the script running out. |
| Service2.FetchExhaustsScript | MilleSystem.Service2/Services/BookService.cs:63-90 | When every status says not completed, the client is still polling after one request and one wait per status. |
| Service2.FetchReachesResult | MilleSystem.Service2/Services/BookService.cs:80-106 | Once a status reports completion, one result request follows and the result reply decides the outcome. |
| Service2.FetchStatusFails | MilleSystem.Service2/Services/BookService.cs:69-78 | A status reply that is a non-success, unreachable or unreadable ends the fetch with its error right after that request. |
| Service2.ResultStepDecides | MilleSystem.Service2/Services/BookService.cs:94-106 | A non-success result is an error carrying its content, a null list becomes the empty list, and a parsed list is returned unchanged. |
| Service2.InitiateFailureEndsFetch | MilleSystem.Service2/Services/BookService.cs:41-57 | A non-success initiate reply fails with its content. A null body or `Guid.Empty` fails as an invalid response. In both cases no status or result request is issued. |
| Service2.WaitingCarriesTaskId | MilleSystem.Service2/Services/BookService.cs:68 | Every event in the rounds of waiting is a wait or a status request for the task id. |
| Service2.RequestsCarryTaskId | MilleSystem.Service2/Services/BookService.cs:59-93 | Every status request and the result request carry the id that the initiate step returned. |
| Service2.StatusFailureSkipsResult | MilleSystem.Service2/Services/BookService.cs:69-98 | A failing status aborts the fetch with its error and no result request. A result request appears only after a status that reported completion. |
| Service2.WaitingCounts | MilleSystem.Service2/Services/BookService.cs:85-89 | n rounds of waiting hold n waits, n status requests and no result request. |
| Service2.SuccessTraceCounts | MilleSystem.Service2/Services/BookService.cs:39-93 | After k not-completed statuses, a fetch that reached its result request issued k + 1 status requests, took k waits and made exactly one result request. |
| Service2.FetchedOnlyAfterCompletion | MilleSystem.Service2/Services/BookService.cs:63-93 | Books are returned only if the task was started and polling ended on a reply that reported completion. |
| Service2.SuccessfulFetch | MilleSystem.Service2/Services/BookService.cs:32-106 | The trace of a successful fetch is one initiate request, then k + 1 status requests (only the last reporting completion) with a wait after each of the first k, then the result request. The books are the result body, or empty for a null body. |
| Service2.WaitsMatchPendingStatuses | MilleSystem.Service2/Services/BookService.cs:63-90 | Whatever the outcome of a started fetch, the number of waits equals the number of leading not-completed statuses. |
| EndToEnd.CompletedTaskScenario | MilleSystem.Service2/Services/BookService.cs:32-106 | The run is: accept, a poll while the worker is busy, the worker completes, a poll sees completion, the result is fetched. The client gets the five-book catalogue after exactly one wait, with trace initiate, status, wait, status, result, and a repeated result query gives the same data. |
| EndToEnd.TenthRequestScenario | MilleSystem.Service1/Controllers/BookController.cs:43-61 | From process start, the first nine accepts register their tasks and the tenth is the 500 fault. A client whose initiate hits that fault fails with the fault's text and issues nothing more. |

## Left out

- Concurrency is flattened into atomic steps. This covers the counter's lock, the thread-safety of the dictionaries and the fire-and-forget worker. Interleavings inside a step are not modelled, for example a status query that runs between `SetResult` and the raising of the flag.
- Time is not modelled: the worker's 60-second delay and the client's 5-second wait appear only as an explicit `Complete` call and a `Delay` trace event.
- `Guid.NewGuid()` is a parameter, with freshness as a precondition. A collision, which would overwrite a registered task, is therefore not modelled. A Guid is a 128-bit number whose hex digits spell its text form, so .NET's byte order is not modelled.
- Logging, HTTP transport and JSON (de)serialisation are not modelled. Replies reach the client already deserialised, as a malformed body, a null body or a parsed value. Exceptions carry their cause (`FetchError`) rather than the exact message text.
- The consumer's read-through cache is not modelled, because the code does not have one (see above).
- `MilleSystem.Service2/Controllers/BookController.cs`, `MilleSystem.Service2/Program.cs` and `MilleSystem.Frontend/src/App.tsx` are left out: they are wiring, an exception-to-500 wrapper and a UI, with no protocol logic.
- Service2.GetAllBooks: the source loops without bound, but the model polls over a finite script of status replies. When the script runs out it ends as `StillPolling`, which stands for "the source would poll on".
- Service1.BookController.GetResult: its precondition leaves out a raised flag over a pending completion source. There the source's `await` would block, and the invariant `Valid` rules that state out.
- Service1.BookController.GetAll: the counter is an unbounded `nat`, as the fault schedule intends. The 32-bit C# counter is modelled separately (see Findings).

## Findings

| source | as written | input that shows it | evidently intended | confidence | as-written member | corrected member |
|---|---|---|---|---|---|---|
| MilleSystem.Service1/Controllers/BookController.cs:24-51 | `_requestCounter` is a C# `int` incremented without overflow checks. After 2^31 - 1 accepts it wraps to -2^31, and C#'s `%` truncates toward zero, so the fault lands on requests whose number ends in 6. | Request 2147483650 succeeds and request 2147483656 fails with 500. | Every tenth request fails. | not executed; the proof covers all requests from 2^31 to 2^32 - 1 | Service1.FaultScheduleDriftsAfterOverflow | Service1.BookController.GetAll |
