/**
 A bulk action over documents: `runDocumentBulk` sent through `sendPaced`, which
 runs its requests on a bounded pool of workers. A run is a sequence of steps in
 any order; a step is what happens between two awaits.
 */
module PacedBulk {
  import opened Options

  const BULK_REQUEST_CONCURRENCY: nat := 4
  const MAX_BULK_RETRY_AFTER_SECONDS := 10
  const MAX_BULK_RETRIES: nat := 3
  const MAX_RETRY_AFTER_SECONDS := 3600
  const TOO_MANY_REQUESTS := 429

  /** A `Retry-After` header as read: unusable, a number of seconds, or a date. */
  datatype RetryAfter = Unusable | Delay(seconds: real) | Date(instant: real)

  /** What `perRow` can reject with; an HTTP failure with status 429 is a rate limit. */
  datatype Failure = Http(status: nat, retryAfter: RetryAfter) | NoAnswer | Thrown(message: Message)

  /** The one message the run tells apart, and every other one. */
  datatype Message = Abandoned | Other(text: string)

  datatype RowResult = Done | Unchanged

  /** How one call of `perRow` ends. */
  datatype Answer = Returned(result: RowResult) | Failed(failure: Failure)

  /** A settled request; `NotSent` is the wrapper's own error, which `perRow` cannot throw. */
  datatype Settled = Fulfilled(result: RowResult) | NotSent | Rejected(failure: Failure)

  datatype StopReason = ServerStopped | VaultLocked

  datatype Worker =
    | Idle
    | Calling(row: nat, retries: nat)
    | Waiting(row: nat, retries: nat)
    | Finished

  /** A run in progress; `calls` counts the `perRow` calls begun for each row. */
  datatype Bulk = Bulk(
    cursor: nat,
    workers: seq<Worker>,
    results: seq<Option<Settled>>,
    rateLimited: seq<nat>,
    calls: seq<nat>,
    stopReason: Option<StopReason>,
    generationMoved: bool
  )

  function Ceil(x: real): int { -((-x).Floor) }

  function MinInt(a: int, b: int): int { if a <= b then a else b }

  /** The wait a 429 asks for, read at `now`. */
  function RetryAfterSeconds(header: RetryAfter, now: real): Option<int> {
    match header
    case Unusable => None
    case Delay(seconds) =>
      if seconds <= 0.0 then None else Some(MinInt(Ceil(seconds), MAX_RETRY_AFTER_SECONDS))
    case Date(instant) =>
      var delta := Ceil((instant - now) / 1000.0);
      if delta <= 0 then None else Some(MinInt(delta, MAX_RETRY_AFTER_SECONDS))
  }

  predicate IsRateLimited(failure: Failure) {
    failure.Http? && failure.status == TOO_MANY_REQUESTS
  }

  /** A wait the sender is willing to sit out. */
  predicate ShortWait(failure: Failure, now: real)
    requires IsRateLimited(failure)
  {
    var seconds := RetryAfterSeconds(failure.retryAfter, now);
    seconds.Some? && seconds.value <= MAX_BULK_RETRY_AFTER_SECONDS
  }

  predicate StopsTheRun(failure: Failure, shortWaits: nat, now: real) {
    if IsRateLimited(failure) then !ShortWait(failure, now) || shortWaits > MAX_BULK_RETRIES
    else failure.NoAnswer? || (failure.Http? && failure.status >= 500)
  }

  /** `sendPaced` settles the request rather than sending it again. */
  predicate GivesUp(failure: Failure, retries: nat, now: real) {
    !IsRateLimited(failure) || !ShortWait(failure, now) || retries >= MAX_BULK_RETRIES
  }

  // ---------- The steps ----------

  datatype Step =
    | Next(worker: nat)                                             // an idle worker takes the next row, or ends
    | Answers(worker: nat, answer: Answer, rowNow: real, senderNow: real) // `perRow` settles; both `Retry-After` readings
    | Resume(worker: nat)                                           // the wait of a short 429 is over
    | MoveGeneration                                                // a lock or a sign-out clears the store

  function PoolSize(rows: nat): nat {
    if rows == 0 then 1 else if rows < BULK_REQUEST_CONCURRENCY then rows else BULK_REQUEST_CONCURRENCY
  }

  function Start(rows: nat): Bulk {
    Bulk(0, seq(PoolSize(rows), _ => Idle), seq(rows, _ => None), seq(rows, _ => 0), seq(rows, _ => 0), None, false)
  }

  predicate Sized(b: Bulk) {
    |b.results| == |b.rateLimited| == |b.calls|
  }

  predicate Enabled(b: Bulk, step: Step) {
    match step
    case Next(w) => w < |b.workers| && b.workers[w].Idle?
    case Answers(w, _, _, _) => w < |b.workers| && b.workers[w].Calling?
    case Resume(w) => w < |b.workers| && b.workers[w].Waiting?
    case MoveGeneration => true
  }

  predicate RowsInRange(b: Bulk) {
    Sized(b) && forall w :: 0 <= w < |b.workers| && Held(b.workers[w]).Some? ==> Held(b.workers[w]).value < |b.results|
  }

  function Held(worker: Worker): Option<nat> {
    match worker
    case Calling(row, _) => Some(row)
    case Waiting(row, _) => Some(row)
    case _ => None
  }

  function Settle(b: Bulk, w: nat, row: nat, result: Settled): Bulk
    requires w < |b.workers| && row < |b.results|
  {
    b.(results := b.results[row := Some(result)], workers := b.workers[w := Idle])
  }

  /** One turn of the sender's loop: the generation check, then the row's wrapper up to its first await. */
  function Attempt(b: Bulk, w: nat, row: nat, retries: nat): Bulk
    requires Sized(b) && w < |b.workers| && row < |b.results|
  {
    if b.generationMoved then Settle(b, w, row, Rejected(Thrown(Abandoned)))
    else if b.stopReason.Some? then Settle(b, w, row, NotSent)
    else b.(calls := b.calls[row := b.calls[row] + 1], workers := b.workers[w := Calling(row, retries)])
  }

  /** `perRow` failed: the wrapper's handler, then the sender's. */
  function Fail(b: Bulk, w: nat, row: nat, retries: nat, failure: Failure, rowNow: real, senderNow: real): Bulk
    requires Sized(b) && w < |b.workers| && row < |b.results|
  {
    var count := if IsRateLimited(failure) then b.rateLimited[row] + 1 else b.rateLimited[row];
    var counted := b.(rateLimited := b.rateLimited[row := count]);
    var judged := if StopsTheRun(failure, count, rowNow) && b.stopReason.None?
                  then counted.(stopReason := Some(ServerStopped)) else counted;
    if GivesUp(failure, retries, senderNow) then Settle(judged, w, row, Rejected(failure))
    else judged.(workers := b.workers[w := Waiting(row, retries)])
  }

  function Do(b: Bulk, step: Step): Bulk
    requires RowsInRange(b) && Enabled(b, step)
  {
    match step
    case Next(w) =>
      if b.cursor < |b.results|
      then Attempt(b.(cursor := b.cursor + 1), w, b.cursor, 0)
      else b.(cursor := b.cursor + 1, workers := b.workers[w := Finished])
    case Answers(w, answer, rowNow, senderNow) =>
      var row, retries := b.workers[w].row, b.workers[w].retries;
      assert Held(b.workers[w]) == Some(row);
      (match answer
       case Returned(result) => Settle(b, w, row, Fulfilled(result))
       case Failed(failure) => Fail(b, w, row, retries, failure, rowNow, senderNow))
    case Resume(w) =>
      assert Held(b.workers[w]) == Some(b.workers[w].row);
      Attempt(b, w, b.workers[w].row, b.workers[w].retries + 1)
    case MoveGeneration => b.(generationMoved := true)
  }
}
