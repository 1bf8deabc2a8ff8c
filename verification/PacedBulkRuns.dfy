/** What every interleaving of a paced bulk run keeps. */
module PacedBulkRuns {
  import opened Options
  import opened PacedBulk

  ghost predicate Legal(b: Bulk, steps: seq<Step>)
    decreases |steps|
  {
    steps == [] || (RowsInRange(b) && Enabled(b, steps[0]) && Legal(Do(b, steps[0]), steps[1..]))
  }

  ghost function After(b: Bulk, steps: seq<Step>): Bulk
    requires Legal(b, steps)
    decreases |steps|
  {
    if steps == [] then b else After(Do(b, steps[0]), steps[1..])
  }

  // ---------- The invariant ----------

  /** A row's 429 counter is the sender's retry counter, one ahead while a wait is on. */
  predicate WorkerOk(b: Bulk, worker: Worker)
    requires Sized(b)
  {
    match worker
    case Idle => true
    case Calling(row, retries) =>
      && row < |b.results| && row < b.cursor && b.results[row].None?
      && retries <= MAX_BULK_RETRIES && b.rateLimited[row] == retries && b.calls[row] == retries + 1
    case Waiting(row, retries) =>
      && row < |b.results| && row < b.cursor && b.results[row].None?
      && retries < MAX_BULK_RETRIES && b.rateLimited[row] == retries + 1 && b.calls[row] == retries + 1
    case Finished => |b.results| <= b.cursor
  }

  predicate RowOk(b: Bulk, i: nat)
    requires Sized(b) && i < |b.results|
  {
    && (b.cursor <= i ==> b.results[i].None? && b.calls[i] == 0 && b.rateLimited[i] == 0)
    && (b.results[i] == Some(NotSent) ==> b.stopReason.Some? && b.calls[i] == b.rateLimited[i])
    && (b.results[i] == Some(Rejected(Thrown(Abandoned))) && b.calls[i] == b.rateLimited[i] ==> b.generationMoved)
    && (b.results[i] == Some(Rejected(Thrown(Abandoned))) ==> b.rateLimited[i] <= b.calls[i] <= b.rateLimited[i] + 1)
    && (b.results[i].Some? && b.results[i].value.Fulfilled? ==> b.calls[i] == b.rateLimited[i] + 1)
    && (b.results[i].Some? && b.calls[i] == 0 ==> IsNotSent(b.results[i].value))
    && (b.results[i].Some? && IsNotSent(b.results[i].value) ==> b.stopReason.Some? || b.generationMoved || 1 <= b.calls[i])
    && b.calls[i] <= MAX_BULK_RETRIES + 1
  }

  /** How the outcome's sort reads a row that was never sent, or sent no more. */
  predicate IsNotSent(result: Settled) {
    result == NotSent || result == Rejected(Thrown(Abandoned))
  }

  ghost predicate HeldBySome(b: Bulk, i: nat) {
    exists w :: 0 <= w < |b.workers| && Held(b.workers[w]) == Some(i)
  }

  ghost predicate Inv(b: Bulk) {
    && RowsInRange(b)
    && 1 <= |b.workers| <= BULK_REQUEST_CONCURRENCY
    && (forall w :: 0 <= w < |b.workers| ==> WorkerOk(b, b.workers[w]))
    && (forall v, w :: 0 <= v < w < |b.workers| && Held(b.workers[v]).Some? ==> Held(b.workers[v]) != Held(b.workers[w]))
    && (forall i :: 0 <= i < |b.results| ==> RowOk(b, i))
    && (forall i :: 0 <= i < |b.results| && i < b.cursor && b.results[i].None? ==> HeldBySome(b, i))
  }

  lemma StartInv(rows: nat)
    ensures Inv(Start(rows))
  {
  }

  /** A step of worker `w` on `row` that leaves the rest alone keeps the invariant if it keeps it for those two. */
  lemma Frame(b: Bulk, d: Bulk, w: nat, row: nat)
    requires Inv(b) && w < |b.workers| && row < |b.results|
    requires Held(b.workers[w]) == Some(row) || (Held(b.workers[w]).None? && b.cursor <= row)
    requires |d.workers| == |b.workers| && d.workers == b.workers[w := d.workers[w]]
    requires Held(d.workers[w]) in {None, Some(row)}
    requires Sized(d) && |d.results| == |b.results|
    requires forall i :: 0 <= i < |b.results| && i != row ==>
               d.results[i] == b.results[i] && d.calls[i] == b.calls[i] && d.rateLimited[i] == b.rateLimited[i]
    requires d.cursor == b.cursor || (d.cursor == b.cursor + 1 && row == b.cursor)
    requires (b.stopReason.Some? ==> d.stopReason == b.stopReason) && (b.generationMoved ==> d.generationMoved)
    requires WorkerOk(d, d.workers[w]) && RowOk(d, row)
    requires row < d.cursor && (d.results[row].None? ==> Held(d.workers[w]) == Some(row))
    ensures Inv(d)
  {
    forall v | 0 <= v < |b.workers| && v != w
      ensures d.workers[v] == b.workers[v] && Held(b.workers[v]) != Some(row) && WorkerOk(d, d.workers[v])
    {
      assert WorkerOk(b, b.workers[v]);
    }
    forall i | 0 <= i < |d.results| ensures RowOk(d, i) {
      assert RowOk(b, i);
    }
    forall i | 0 <= i < |d.results| && i < d.cursor && d.results[i].None? ensures HeldBySome(d, i) {
      if i == row {
        assert Held(d.workers[w]) == Some(i);
      } else {
        assert HeldBySome(b, i);
        var v :| 0 <= v < |b.workers| && Held(b.workers[v]) == Some(i);
        assert v != w && Held(d.workers[v]) == Some(i);
      }
    }
  }

  lemma TakeRow(b: Bulk, w: nat)
    requires Inv(b) && Enabled(b, Next(w)) && b.cursor < |b.results|
    ensures Inv(Do(b, Next(w)))
  {
    assert RowOk(b, b.cursor);
    Frame(b, Do(b, Next(w)), w, b.cursor);
  }

  lemma ReturnRow(b: Bulk, w: nat, result: RowResult, rowNow: real, senderNow: real)
    requires Inv(b) && Enabled(b, Answers(w, Returned(result), rowNow, senderNow))
    ensures Inv(Do(b, Answers(w, Returned(result), rowNow, senderNow)))
  {
    var row := b.workers[w].row;
    assert WorkerOk(b, b.workers[w]) && RowOk(b, row);
    assert Held(b.workers[w]) == Some(row);
    Frame(b, Do(b, Answers(w, Returned(result), rowNow, senderNow)), w, row);
  }

  lemma FailRow(b: Bulk, w: nat, failure: Failure, rowNow: real, senderNow: real)
    requires Inv(b) && Enabled(b, Answers(w, Failed(failure), rowNow, senderNow))
    ensures Inv(Do(b, Answers(w, Failed(failure), rowNow, senderNow)))
  {
    var d := Do(b, Answers(w, Failed(failure), rowNow, senderNow));
    var row := b.workers[w].row;
    assert WorkerOk(b, b.workers[w]) && RowOk(b, row);
    assert Held(b.workers[w]) == Some(row);
    FailLocally(b, d, w, failure, rowNow, senderNow);
    Frame(b, d, w, row);
  }

  lemma FailLocally(b: Bulk, d: Bulk, w: nat, failure: Failure, rowNow: real, senderNow: real)
    requires Inv(b) && Enabled(b, Answers(w, Failed(failure), rowNow, senderNow))
    requires d == Do(b, Answers(w, Failed(failure), rowNow, senderNow))
    ensures Sized(d) && |d.results| == |b.results| && |d.workers| == |b.workers| && b.workers[w].row < |d.results|
    ensures WorkerOk(d, d.workers[w]) && RowOk(d, b.workers[w].row)
  {
    assert WorkerOk(b, b.workers[w]) && RowOk(b, b.workers[w].row);
  }

  lemma ResumeRow(b: Bulk, w: nat)
    requires Inv(b) && Enabled(b, Resume(w))
    ensures Inv(Do(b, Resume(w)))
  {
    var row := b.workers[w].row;
    assert WorkerOk(b, b.workers[w]) && RowOk(b, row);
    assert Held(b.workers[w]) == Some(row);
    Frame(b, Do(b, Resume(w)), w, row);
  }

  lemma GenerationMoves(b: Bulk)
    requires Inv(b)
    ensures Inv(Do(b, MoveGeneration))
  {
    var d := Do(b, MoveGeneration);
    forall i | 0 <= i < |d.results| ensures RowOk(d, i) {
      assert RowOk(b, i);
    }
    forall w | 0 <= w < |d.workers| ensures WorkerOk(d, d.workers[w]) {
      assert WorkerOk(b, b.workers[w]);
    }
    forall i | 0 <= i < |d.results| && i < d.cursor && d.results[i].None? ensures HeldBySome(d, i) {
      assert HeldBySome(b, i);
    }
  }

  lemma DoInv(b: Bulk, step: Step)
    requires Inv(b) && Enabled(b, step)
    ensures Inv(Do(b, step)) && |Do(b, step).workers| == |b.workers| && |Do(b, step).results| == |b.results|
  {
    match step
    case Next(w) =>
      if b.cursor < |b.results| {
        TakeRow(b, w);
      } else {
        EndWorker(b, w);
      }
    case Answers(w, Returned(result), rowNow, senderNow) => ReturnRow(b, w, result, rowNow, senderNow);
    case Answers(w, Failed(failure), rowNow, senderNow) => FailRow(b, w, failure, rowNow, senderNow);
    case Resume(w) => ResumeRow(b, w);
    case MoveGeneration => GenerationMoves(b);
  }

  lemma EndWorker(b: Bulk, w: nat)
    requires Inv(b) && Enabled(b, Next(w)) && |b.results| <= b.cursor
    ensures Inv(Do(b, Next(w)))
  {
    var d := Do(b, Next(w));
    forall v | 0 <= v < |d.workers| ensures WorkerOk(d, d.workers[v]) {
      assert WorkerOk(b, b.workers[v]);
    }
    forall i | 0 <= i < |d.results| ensures RowOk(d, i) {
      assert RowOk(b, i);
    }
    forall i | 0 <= i < |d.results| && i < d.cursor && d.results[i].None? ensures HeldBySome(d, i) {
      assert HeldBySome(b, i);
      var v :| 0 <= v < |b.workers| && Held(b.workers[v]) == Some(i);
      assert Held(d.workers[v]) == Some(i);
    }
  }

  /** Every interleaving keeps the invariant: at most four workers, each row held once, counters in step. */
  lemma {:induction false} EveryInterleavingKeepsInv(b: Bulk, steps: seq<Step>)
    requires Inv(b) && Legal(b, steps)
    ensures Inv(After(b, steps)) && |After(b, steps).workers| == |b.workers| && |After(b, steps).results| == |b.results|
    decreases |steps|
  {
    if steps != [] {
      DoInv(b, steps[0]);
      EveryInterleavingKeepsInv(Do(b, steps[0]), steps[1..]);
    }
  }

  // ---------- Pacing ----------

  ghost function InFlight(b: Bulk): set<nat> {
    set w | 0 <= w < |b.workers| && b.workers[w].Calling? :: b.workers[w].row
  }

  lemma {:induction false} CallersAreWorkers(workers: seq<Worker>)
    ensures |set w | 0 <= w < |workers| && workers[w].Calling? :: workers[w].row| <= |workers|
  {
    if workers != [] {
      var last := |workers| - 1;
      var rest := workers[..last];
      CallersAreWorkers(rest);
      var all := set w | 0 <= w < |workers| && workers[w].Calling? :: workers[w].row;
      var before := set w | 0 <= w < |rest| && rest[w].Calling? :: rest[w].row;
      if workers[last].Calling? {
        assert all == before + {workers[last].row};
      } else {
        assert all == before;
      }
    }
  }

  /** Whatever the interleaving, at most four documents' requests are in flight, and no row is called more than four times. */
  lemma EveryRunIsPaced(rows: nat, steps: seq<Step>, i: nat)
    requires Legal(Start(rows), steps) && i < rows
    ensures |InFlight(After(Start(rows), steps))| <= 4
    ensures |After(Start(rows), steps).workers| == if rows == 0 then 1 else if rows < 4 then rows else 4
    ensures |After(Start(rows), steps).calls| == rows && After(Start(rows), steps).calls[i] <= 4
  {
    StartInv(rows);
    EveryInterleavingKeepsInv(Start(rows), steps);
    var b := After(Start(rows), steps);
    CallersAreWorkers(b.workers);
    assert RowOk(b, i);
  }

  // ---------- The two 429 counters ----------

  /**
   A 429 stops the run on exactly the attempt the sender will not repeat, when and
   only when the two readings of its `Retry-After` agree or the retries are spent.
   */
  lemma CountersAgree(b: Bulk, w: nat, failure: Failure, rowNow: real, senderNow: real)
    requires Inv(b) && w < |b.workers| && b.workers[w].Calling? && IsRateLimited(failure)
    ensures Held(b.workers[w]) == Some(b.workers[w].row)
    ensures var row, retries := b.workers[w].row, b.workers[w].retries;
            (StopsTheRun(failure, b.rateLimited[row] + 1, rowNow) <==> GivesUp(failure, retries, senderNow))
            <==>
            (retries == 3 || (ShortWait(failure, rowNow) <==> ShortWait(failure, senderNow)))
  {
    assert WorkerOk(b, b.workers[w]);
  }

  /** Between these readings a date came within ten seconds, or ran out. */
  predicate Crosses(instant: real, from: real, to: real) {
    || from < instant - 10_000.0 <= to < instant
    || instant - 10_000.0 <= from < instant <= to
  }

  /**
   The readings can differ only for a date that runs out, or comes within ten
   seconds, between them, whichever of the two the clock puts first.
   */
  lemma ReadingsAgreeIff(failure: Failure, rowNow: real, senderNow: real)
    requires IsRateLimited(failure)
    ensures (ShortWait(failure, rowNow) <==> ShortWait(failure, senderNow)) <==>
            !(failure.retryAfter.Date?
              && (Crosses(failure.retryAfter.instant, rowNow, senderNow) || Crosses(failure.retryAfter.instant, senderNow, rowNow)))
  {
    if failure.retryAfter.Date? {
      ShortDate(failure, rowNow);
      ShortDate(failure, senderNow);
    }
  }

  lemma ShortDate(failure: Failure, now: real)
    requires IsRateLimited(failure) && failure.retryAfter.Date?
    ensures ShortWait(failure, now) <==> failure.retryAfter.instant - 10_000.0 <= now < failure.retryAfter.instant
  {
  }

  /** A date that comes within ten seconds between the readings: the run stops, yet the row is sent to wait. */
  lemma DateReadTwiceDisagrees()
    ensures var failure := Http(TOO_MANY_REQUESTS, Date(20_000.0));
            StopsTheRun(failure, 1, 9_999.0) && !GivesUp(failure, 0, 10_001.0)
  {
    ShortDate(Http(TOO_MANY_REQUESTS, Date(20_000.0)), 9_999.0);
    ShortDate(Http(TOO_MANY_REQUESTS, Date(20_000.0)), 10_001.0);
  }

  // ---------- Stopping ----------

  /**
   Once a stop reason is set or the store's generation has moved, no call ever begins
   again, and a reason never changes; a lock is what the rows left over are told.
   */
  lemma {:induction false} StoppedRunCallsNothing(b: Bulk, steps: seq<Step>)
    requires Inv(b) && Legal(b, steps)
    requires b.stopReason.Some? || b.generationMoved
    ensures After(b, steps).calls == b.calls
    ensures b.generationMoved ==> NotSentOnlyWhere(After(b, steps), b)
    ensures b.stopReason.Some? ==> After(b, steps).stopReason == b.stopReason
    ensures b.generationMoved ==> After(b, steps).generationMoved
    decreases |steps|
  {
    if steps != [] {
      DoInv(b, steps[0]);
      StoppedRunCallsNothing(Do(b, steps[0]), steps[1..]);
    }
  }

  /** No row has been held back by the stopped run that was not so before. */
  predicate NotSentOnlyWhere(after: Bulk, before: Bulk) {
    && |after.results| == |before.results|
    && forall i :: 0 <= i < |after.results| && after.results[i] == Some(NotSent) ==> before.results[i] == Some(NotSent)
  }

  predicate Agreeing(step: Step) {
    step.Answers? && step.answer.Failed? && IsRateLimited(step.answer.failure) ==>
      (ShortWait(step.answer.failure, step.rowNow) <==> ShortWait(step.answer.failure, step.senderNow))
  }

  /** The server, not the row, is the problem. */
  predicate ServerFault(failure: Failure) {
    failure.NoAnswer? || IsRateLimited(failure) || (failure.Http? && failure.status >= 500)
  }

  predicate FaultAt(b: Bulk, i: nat)
    requires i < |b.results|
  {
    b.results[i].Some? && b.results[i].value.Rejected? && ServerFault(b.results[i].value.failure)
  }

  predicate HasFault(b: Bulk) {
    exists i :: 0 <= i < |b.results| && FaultAt(b, i)
  }

  ghost predicate Explained(b: Bulk) {
    && b.stopReason in {None, Some(ServerStopped)}
    && (b.stopReason.Some? <==> HasFault(b))
  }

  lemma NextIsExplained(b: Bulk, w: nat)
    requires Inv(b) && Enabled(b, Next(w)) && Explained(b)
    ensures Explained(Do(b, Next(w)))
  {
    var d := Do(b, Next(w));
    if b.cursor < |b.results| {
      assert RowOk(b, b.cursor);
      SameFaults(b, d, b.cursor);
    } else {
      assert forall i :: 0 <= i < |b.results| ==> FaultAt(b, i) == FaultAt(d, i);
    }
  }

  lemma AnswerIsExplained(b: Bulk, w: nat, answer: Answer, rowNow: real, senderNow: real)
    requires var step := Answers(w, answer, rowNow, senderNow);
             Inv(b) && Enabled(b, step) && Agreeing(step) && Explained(b)
    ensures Explained(Do(b, Answers(w, answer, rowNow, senderNow)))
  {
    var d := Do(b, Answers(w, answer, rowNow, senderNow));
    var row := b.workers[w].row;
    assert Held(b.workers[w]) == Some(row) && WorkerOk(b, b.workers[w]);
    if answer.Failed? && IsRateLimited(answer.failure) {
      CountersAgree(b, w, answer.failure, rowNow, senderNow);
    }
    assert FaultAt(d, row) <==> d.stopReason.Some? && answer.Failed? && ServerFault(answer.failure)
                                && GivesUp(answer.failure, b.workers[w].retries, senderNow);
    SameFaults(b, d, row);
  }

  lemma ResumeIsExplained(b: Bulk, w: nat)
    requires Inv(b) && Enabled(b, Resume(w)) && Explained(b)
    ensures Explained(Do(b, Resume(w)))
  {
    var row := b.workers[w].row;
    assert Held(b.workers[w]) == Some(row) && WorkerOk(b, b.workers[w]);
    SameFaults(b, Do(b, Resume(w)), row);
  }

  lemma StepIsExplained(b: Bulk, step: Step)
    requires Inv(b) && Enabled(b, step) && Agreeing(step) && Explained(b)
    ensures Explained(Do(b, step))
  {
    match step
    case Next(w) => NextIsExplained(b, w);
    case Answers(w, answer, rowNow, senderNow) => AnswerIsExplained(b, w, answer, rowNow, senderNow);
    case Resume(w) => ResumeIsExplained(b, w);
    case MoveGeneration =>
      assert forall i :: 0 <= i < |b.results| ==> FaultAt(b, i) == FaultAt(Do(b, step), i);
  }

  /** Rows other than `row` keep their fault, so whether there is one is decided by `row` alone. */
  lemma SameFaults(b: Bulk, d: Bulk, row: nat)
    requires |b.results| == |d.results|
    requires forall i :: 0 <= i < |b.results| && i != row ==> d.results[i] == b.results[i]
    requires row < |b.results| && b.results[row] != d.results[row] ==> b.results[row].None?
    ensures HasFault(d) <==> HasFault(b) || (row < |d.results| && FaultAt(d, row))
  {
    forall i | 0 <= i < |b.results| && FaultAt(b, i) ensures FaultAt(d, i) {
    }
    forall i | 0 <= i < |d.results| && FaultAt(d, i) && i != row ensures FaultAt(b, i) {
    }
  }

  /** When both readings of every 429 agree, the run has stopped if and only if some row failed because of the server. */
  lemma {:induction false} StopReasonIsAServerFault(b: Bulk, steps: seq<Step>)
    requires Inv(b) && Explained(b) && Legal(b, steps)
    requires forall step :: step in steps ==> Agreeing(step)
    ensures Explained(After(b, steps))
    decreases |steps|
  {
    if steps != [] {
      StepIsExplained(b, steps[0]);
      DoInv(b, steps[0]);
      StopReasonIsAServerFault(Do(b, steps[0]), steps[1..]);
    }
  }

  // ---------- What a row went through ----------

  /** This step is an answer of row `i`'s call. */
  predicate AnswersRow(b: Bulk, step: Step, i: nat) {
    step.Answers? && step.worker < |b.workers| && b.workers[step.worker].Calling? && b.workers[step.worker].row == i
  }

  predicate IsRefusal(answer: Answer) {
    answer.Failed? && IsRateLimited(answer.failure)
  }

  /** How many 429s row `i` is answered with in these steps. */
  ghost function RefusalsOf(b: Bulk, steps: seq<Step>, i: nat): nat
    requires Legal(b, steps)
    decreases |steps|
  {
    if steps == [] then 0
    else (if AnswersRow(b, steps[0], i) && IsRefusal(steps[0].answer) then 1 else 0)
         + RefusalsOf(Do(b, steps[0]), steps[1..], i)
  }

  /** In these steps row `i`'s own code throws the sender's message for a locked vault. */
  ghost predicate Throws(b: Bulk, steps: seq<Step>, i: nat)
    requires Legal(b, steps)
    decreases |steps|
  {
    steps != [] && ((AnswersRow(b, steps[0], i) && steps[0].answer == Failed(Thrown(Abandoned)))
                    || Throws(Do(b, steps[0]), steps[1..], i))
  }

  /** Row `i` ended with that message while a call of it was still unanswered by a 429. */
  predicate ThrewIt(b: Bulk, i: nat)
    requires Sized(b) && i < |b.results|
  {
    b.results[i] == Some(Rejected(Thrown(Abandoned))) && b.calls[i] == b.rateLimited[i] + 1
  }

  /** What a step does to row `i`'s 429 counter and to how it ended. */
  predicate RecordedOn(b: Bulk, step: Step, d: Bulk, i: nat)
    requires Sized(b) && i < |b.results|
  {
    && Sized(d) && |d.results| == |b.results|
    && d.rateLimited[i] == b.rateLimited[i] + (if AnswersRow(b, step, i) && IsRefusal(step.answer) then 1 else 0)
    && (ThrewIt(d, i) <==> ThrewIt(b, i) || (AnswersRow(b, step, i) && step.answer == Failed(Thrown(Abandoned))))
  }

  lemma NextOnRow(b: Bulk, w: nat, i: nat)
    requires Inv(b) && Enabled(b, Next(w)) && i < |b.results|
    ensures RecordedOn(b, Next(w), Do(b, Next(w)), i)
  {
    assert RowOk(b, i);
  }

  lemma ReturnOnRow(b: Bulk, step: Step, i: nat)
    requires Inv(b) && Enabled(b, step) && step.Answers? && step.answer.Returned? && i < |b.results|
    ensures RecordedOn(b, step, Do(b, step), i)
  {
    var worker := b.workers[step.worker];
    assert Held(worker) == Some(worker.row) && WorkerOk(b, worker);
  }

  lemma FailOnRow(b: Bulk, step: Step, i: nat)
    requires Inv(b) && Enabled(b, step) && step.Answers? && step.answer.Failed? && i < |b.results|
    ensures RecordedOn(b, step, Do(b, step), i)
  {
    var worker := b.workers[step.worker];
    assert Held(worker) == Some(worker.row) && WorkerOk(b, worker);
  }

  lemma ResumeOnRow(b: Bulk, w: nat, i: nat)
    requires Inv(b) && Enabled(b, Resume(w)) && i < |b.results|
    ensures RecordedOn(b, Resume(w), Do(b, Resume(w)), i)
  {
    assert Held(b.workers[w]) == Some(b.workers[w].row) && WorkerOk(b, b.workers[w]);
  }

  lemma StepOnRow(b: Bulk, step: Step, i: nat)
    requires Inv(b) && Enabled(b, step) && i < |b.results|
    ensures RecordedOn(b, step, Do(b, step), i)
  {
    match step
    case Next(w) => NextOnRow(b, w, i);
    case Answers(_, Returned(_), _, _) => ReturnOnRow(b, step, i);
    case Answers(_, Failed(_), _, _) => FailOnRow(b, step, i);
    case Resume(w) => ResumeOnRow(b, w, i);
    case MoveGeneration =>
  }

  /** A row's counter is how many 429s it was answered with, and its end tells whether its own code threw the message. */
  lemma {:induction false} RowHistory(b: Bulk, steps: seq<Step>, i: nat)
    requires Inv(b) && Legal(b, steps) && i < |b.results|
    ensures var d := After(b, steps);
            && Sized(d) && |d.results| == |b.results|
            && d.rateLimited[i] == b.rateLimited[i] + RefusalsOf(b, steps, i)
            && (ThrewIt(d, i) <==> ThrewIt(b, i) || Throws(b, steps, i))
    decreases |steps|
  {
    if steps != [] {
      StepOnRow(b, steps[0], i);
      DoInv(b, steps[0]);
      RowHistory(Do(b, steps[0]), steps[1..], i);
    }
  }

  // ---------- Ending ----------

  predicate Over(b: Bulk) {
    forall w :: 0 <= w < |b.workers| ==> b.workers[w].Finished?
  }

  /** A run is over only when every row has settled; until then some worker has something to do. */
  lemma RunIsNeverStuck(b: Bulk)
    requires Inv(b)
    ensures Over(b) ==> forall i :: 0 <= i < |b.results| ==> b.results[i].Some?
    ensures !Over(b) ==> exists step :: step != MoveGeneration && Enabled(b, step)
  {
    if Over(b) {
      assert WorkerOk(b, b.workers[0]);
      forall i | 0 <= i < |b.results| ensures b.results[i].Some? {
        assert b.results[i].None? ==> HeldBySome(b, i);
      }
    } else {
      var w :| 0 <= w < |b.workers| && !b.workers[w].Finished?;
      match b.workers[w]
      case Idle => assert Enabled(b, Next(w));
      case Calling(_, _) => assert Enabled(b, Answers(w, Returned(Done), 0.0, 0.0));
      case Waiting(_, _) => assert Enabled(b, Resume(w));
    }
  }

  /** The steps a worker can still take with the row it holds, and the one that ends it. */
  function WorkerLoad(worker: Worker): nat {
    match worker
    case Idle => 1
    case Calling(_, retries) => if retries <= 3 then 8 - 2 * retries else 2
    case Waiting(_, retries) => if retries <= 2 then 7 - 2 * retries else 2
    case Finished => 0
  }

  function Load(workers: seq<Worker>): nat {
    if workers == [] then 0 else WorkerLoad(workers[0]) + Load(workers[1..])
  }

  function Work(b: Bulk): nat {
    Load(b.workers) + if b.cursor < |b.results| then 9 * (|b.results| - b.cursor) else 0
  }

  lemma {:induction false} LoadUpdate(workers: seq<Worker>, w: nat, worker: Worker)
    requires w < |workers|
    ensures Load(workers[w := worker]) + WorkerLoad(workers[w]) == Load(workers) + WorkerLoad(worker)
  {
    if w == 0 {
      assert workers[w := worker] == [worker] + workers[1..];
    } else {
      assert workers[w := worker] == [workers[0]] + workers[1..][w - 1 := worker];
      LoadUpdate(workers[1..], w - 1, worker);
    }
  }

  lemma NextUsesWork(b: Bulk, w: nat)
    requires Inv(b) && Enabled(b, Next(w))
    ensures Work(Do(b, Next(w))) < Work(b)
  {
    LoadUpdate(b.workers, w, Do(b, Next(w)).workers[w]);
  }

  lemma AnswerUsesWork(b: Bulk, w: nat, answer: Answer, rowNow: real, senderNow: real)
    requires Inv(b) && Enabled(b, Answers(w, answer, rowNow, senderNow))
    ensures Work(Do(b, Answers(w, answer, rowNow, senderNow))) < Work(b)
  {
    var d := Do(b, Answers(w, answer, rowNow, senderNow));
    assert WorkerOk(b, b.workers[w]);
    assert d.workers == b.workers[w := d.workers[w]];
    assert WorkerLoad(d.workers[w]) < WorkerLoad(b.workers[w]);
    LoadUpdate(b.workers, w, d.workers[w]);
  }

  lemma ResumeUsesWork(b: Bulk, w: nat)
    requires Inv(b) && Enabled(b, Resume(w))
    ensures Work(Do(b, Resume(w))) < Work(b)
  {
    var d := Do(b, Resume(w));
    assert WorkerOk(b, b.workers[w]);
    assert d.workers == b.workers[w := d.workers[w]];
    assert WorkerLoad(d.workers[w]) < WorkerLoad(b.workers[w]);
    LoadUpdate(b.workers, w, d.workers[w]);
  }

  lemma StepUsesWork(b: Bulk, step: Step)
    requires Inv(b) && Enabled(b, step)
    ensures step == MoveGeneration ==> Work(Do(b, step)) == Work(b)
    ensures step != MoveGeneration ==> Work(Do(b, step)) < Work(b)
  {
    match step
    case Next(w) => NextUsesWork(b, w);
    case Answers(w, answer, rowNow, senderNow) => AnswerUsesWork(b, w, answer, rowNow, senderNow);
    case Resume(w) => ResumeUsesWork(b, w);
    case MoveGeneration =>
  }

  function WorkSteps(steps: seq<Step>): nat {
    if steps == [] then 0 else (if steps[0] == MoveGeneration then 0 else 1) + WorkSteps(steps[1..])
  }

  lemma {:induction false} WorkBoundsSteps(b: Bulk, steps: seq<Step>)
    requires Inv(b) && Legal(b, steps)
    ensures WorkSteps(steps) + Work(After(b, steps)) <= Work(b)
    decreases |steps|
  {
    if steps != [] {
      StepUsesWork(b, steps[0]);
      DoInv(b, steps[0]);
      WorkBoundsSteps(Do(b, steps[0]), steps[1..]);
    }
  }

  lemma {:induction false} IdleLoad(workers: seq<Worker>)
    requires forall w :: 0 <= w < |workers| ==> workers[w].Idle?
    ensures Load(workers) == |workers|
  {
    if workers != [] {
      IdleLoad(workers[1..]);
    }
  }

  /** Every interleaving ends: nine steps a row and one for each worker are all there are. */
  lemma EveryRunEnds(rows: nat, steps: seq<Step>)
    requires Legal(Start(rows), steps)
    ensures WorkSteps(steps) <= 9 * rows + 4
  {
    StartInv(rows);
    WorkBoundsSteps(Start(rows), steps);
    IdleLoad(Start(rows).workers);
  }
}
