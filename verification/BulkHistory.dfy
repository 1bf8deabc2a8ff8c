/** What became of each row of a bulk run, told from the steps of the run alone. */
module BulkHistory {
  import opened Options
  import opened PacedBulk
  import opened PacedBulkRuns
  import opened BulkOutcome

  // ---------- Reading the steps ----------

  /** How many times a worker has gone for another row. */
  function Taken(steps: seq<Step>): nat {
    if steps == [] then 0 else Taken(steps[..|steps| - 1]) + if steps[|steps| - 1].Next? then 1 else 0
  }

  /** The row a worker took last: rows are taken in the order they were selected in. */
  function RowOf(steps: seq<Step>, w: nat): Option<nat> {
    if steps == [] then None
    else if steps[|steps| - 1] == Next(w) then Some(Taken(steps[..|steps| - 1]))
    else RowOf(steps[..|steps| - 1], w)
  }

  /** An answer of a row's call, and when the sender read its `Retry-After`. */
  datatype Reply = Reply(answer: Answer, senderNow: real)

  /** A row's last answer, and how many it was given. */
  datatype Story = Story(last: Option<Reply>, answers: nat)

  function StoryOf(steps: seq<Step>, i: nat): Story {
    if steps == [] then Story(None, 0)
    else
      var before, step := StoryOf(steps[..|steps| - 1], i), steps[|steps| - 1];
      if step.Answers? && RowOf(steps[..|steps| - 1], step.worker) == Some(i)
      then Story(Some(Reply(step.answer, step.senderNow)), before.answers + 1)
      else before
  }

  /** The row's last call returned this. */
  predicate Returns(story: Story, result: RowResult) {
    story.last.Some? && story.last.value.answer == Returned(result)
  }

  /** The row's last answer was a 429 with a wait of ten seconds at most, and it may be sent again. */
  predicate MayTryAgain(story: Story) {
    && story.last.Some? && story.last.value.answer.Failed? && IsRateLimited(story.last.value.answer.failure)
    && ShortWait(story.last.value.answer.failure, story.last.value.senderNow) && story.answers <= 3
  }

  /** The row's last call failed, and that was that: it may not be sent again, nor is it the message of a locked vault. */
  predicate FailsFor(story: Story, failure: Failure) {
    && story.last.Some? && story.last.value.answer == Failed(failure)
    && failure != Thrown(Abandoned) && !MayTryAgain(story)
  }

  /** The row has had no final answer. */
  predicate StillGoing(story: Story) {
    story == Story(None, 0) || MayTryAgain(story)
  }

  // ---------- Runs a step at a time ----------

  lemma {:induction false} LegalPrefix(b: Bulk, steps: seq<Step>)
    requires Legal(b, steps) && steps != []
    ensures var before := steps[..|steps| - 1];
            && Legal(b, before) && RowsInRange(After(b, before)) && Enabled(After(b, before), steps[|steps| - 1])
            && After(b, steps) == Do(After(b, before), steps[|steps| - 1])
    decreases |steps|
  {
    if |steps| > 1 {
      var rest := steps[1..];
      LegalPrefix(Do(b, steps[0]), rest);
      assert rest[..|rest| - 1] == steps[..|steps| - 1][1..];
    }
  }

  // ---------- The state is what the steps say ----------

  /** A worker holds the row it took last, and the row's answers are counted by its retries. */
  predicate WorkerTraced(worker: Worker, row: Option<nat>, steps: seq<Step>) {
    match worker
    case Calling(r, retries) => row == Some(r) && StoryOf(steps, r).answers == retries && StillGoing(StoryOf(steps, r))
    case Waiting(r, retries) => row == Some(r) && StoryOf(steps, r).answers == retries + 1 && MayTryAgain(StoryOf(steps, r))
    case _ => true
  }

  predicate RowTraced(result: Option<Settled>, story: Story) {
    match result
    case None => StillGoing(story)
    case Some(Fulfilled(r)) => Returns(story, r)
    case Some(NotSent) => StillGoing(story)
    case Some(Rejected(failure)) =>
      if failure == Thrown(Abandoned)
      then StillGoing(story) || (story.last.Some? && story.last.value.answer == Failed(failure))
      else FailsFor(story, failure)
  }

  ghost predicate Traced(b: Bulk, steps: seq<Step>) {
    && Inv(b) && b.cursor == Taken(steps)
    && (forall w: nat :: w < |b.workers| ==> WorkerTraced(b.workers[w], RowOf(steps, w), steps))
    && (forall i: nat :: i < |b.results| ==> RowTraced(b.results[i], StoryOf(steps, i)))
    && (forall i: nat :: b.cursor <= i < |b.results| ==> StoryOf(steps, i) == Story(None, 0))
  }

  /** A step of worker `w` on `row` keeps the trace if it keeps it for those two. */
  lemma TraceFrame(b: Bulk, d: Bulk, steps: seq<Step>, all: seq<Step>, w: nat, row: nat)
    requires Traced(b, steps) && Inv(d) && |d.results| == |b.results| && w < |b.workers| == |d.workers|
    requires forall v: nat :: v < |b.workers| && v != w ==>
               d.workers[v] == b.workers[v] && Held(b.workers[v]) != Some(row) && RowOf(all, v) == RowOf(steps, v)
    requires forall i: nat :: i < |b.results| && i != row ==> d.results[i] == b.results[i]
    requires forall i: nat :: i != row ==> StoryOf(all, i) == StoryOf(steps, i)
    requires d.cursor == Taken(all) && b.cursor <= d.cursor && row < d.cursor
    requires WorkerTraced(d.workers[w], RowOf(all, w), all)
    requires row < |b.results| ==> RowTraced(d.results[row], StoryOf(all, row))
    ensures Traced(d, all)
  {
    forall v: nat | v < |d.workers| && v != w ensures WorkerTraced(d.workers[v], RowOf(all, v), all) {
      assert WorkerTraced(b.workers[v], RowOf(steps, v), steps);
      assert Held(b.workers[v]) != Some(row);
    }
  }

  lemma OthersHoldOthers(b: Bulk, w: nat, row: nat)
    requires Inv(b) && w < |b.workers| && (Held(b.workers[w]) == Some(row) || b.cursor <= row)
    ensures forall v: nat :: v < |b.workers| && v != w ==> Held(b.workers[v]) != Some(row)
  {
    forall v: nat | v < |b.workers| && v != w ensures Held(b.workers[v]) != Some(row) {
      assert WorkerOk(b, b.workers[v]);
    }
  }

  lemma QuietStep(steps: seq<Step>, all: seq<Step>, step: Step)
    requires all == steps + [step] && !step.Answers?
    ensures forall i: nat :: StoryOf(all, i) == StoryOf(steps, i)
    ensures forall v: nat :: step != Next(v) ==> RowOf(all, v) == RowOf(steps, v)
    ensures Taken(all) == Taken(steps) + if step.Next? then 1 else 0
    ensures step.Next? ==> RowOf(all, step.worker) == Some(Taken(steps))
  {
    assert all[..|all| - 1] == steps;
  }

  lemma AnswerStep(steps: seq<Step>, all: seq<Step>, step: Step, row: nat)
    requires all == steps + [step] && step.Answers? && RowOf(steps, step.worker) == Some(row)
    ensures forall i: nat :: i != row ==> StoryOf(all, i) == StoryOf(steps, i)
    ensures StoryOf(all, row) == Story(Some(Reply(step.answer, step.senderNow)), StoryOf(steps, row).answers + 1)
    ensures forall v: nat :: RowOf(all, v) == RowOf(steps, v)
    ensures Taken(all) == Taken(steps)
  {
    assert all[..|all| - 1] == steps;
  }

  lemma NextKeepsTrace(b: Bulk, steps: seq<Step>, all: seq<Step>, w: nat)
    requires Traced(b, steps) && Enabled(b, Next(w)) && all == steps + [Next(w)]
    ensures Traced(Do(b, Next(w)), all)
  {
    QuietStep(steps, all, Next(w));
    DoInv(b, Next(w));
    OthersHoldOthers(b, w, b.cursor);
    TraceFrame(b, Do(b, Next(w)), steps, all, w, b.cursor);
  }

  lemma AnswerKeepsTrace(b: Bulk, steps: seq<Step>, all: seq<Step>, step: Step)
    requires Traced(b, steps) && Enabled(b, step) && step.Answers? && all == steps + [step]
    ensures Traced(Do(b, step), all)
  {
    var d, w := Do(b, step), step.worker;
    var row := b.workers[w].row;
    assert Held(b.workers[w]) == Some(row) && WorkerOk(b, b.workers[w]);
    assert WorkerTraced(b.workers[w], RowOf(steps, w), steps);
    AnswerStep(steps, all, step, row);
    DoInv(b, step);
    OthersHoldOthers(b, w, row);
    AnswerTraced(b, step, StoryOf(steps, row), StoryOf(all, row));
    assert WorkerTraced(d.workers[w], RowOf(all, w), all);
    TraceFrame(b, d, steps, all, w, row);
  }

  /** What an answer makes of its own row and worker. */
  lemma AnswerTraced(b: Bulk, step: Step, before: Story, after: Story)
    requires Inv(b) && Enabled(b, step) && step.Answers?
    requires before.answers == b.workers[step.worker].retries
    requires after == Story(Some(Reply(step.answer, step.senderNow)), before.answers + 1)
    ensures Held(b.workers[step.worker]) == Some(b.workers[step.worker].row)
    ensures var d, row, retries := Do(b, step), b.workers[step.worker].row, b.workers[step.worker].retries;
            && |d.workers| == |b.workers| && |d.results| == |b.results| && d.cursor == b.cursor
            && d.workers == b.workers[step.worker := d.workers[step.worker]]
            && (forall i: nat :: i < |b.results| && i != row ==> d.results[i] == b.results[i])
            && RowTraced(d.results[row], after)
            && (d.workers[step.worker] == Idle
                || (d.workers[step.worker] == Waiting(row, retries) && after.answers == retries + 1 && MayTryAgain(after)))
  {
    assert WorkerOk(b, b.workers[step.worker]);
  }

  lemma ResumeKeepsTrace(b: Bulk, steps: seq<Step>, all: seq<Step>, w: nat)
    requires Traced(b, steps) && Enabled(b, Resume(w)) && all == steps + [Resume(w)]
    ensures Traced(Do(b, Resume(w)), all)
  {
    var row := b.workers[w].row;
    assert Held(b.workers[w]) == Some(row) && WorkerOk(b, b.workers[w]);
    assert WorkerTraced(b.workers[w], RowOf(steps, w), steps);
    QuietStep(steps, all, Resume(w));
    DoInv(b, Resume(w));
    OthersHoldOthers(b, w, row);
    TraceFrame(b, Do(b, Resume(w)), steps, all, w, row);
  }

  lemma MoveKeepsTrace(b: Bulk, steps: seq<Step>, all: seq<Step>)
    requires Traced(b, steps) && all == steps + [MoveGeneration]
    ensures Traced(Do(b, MoveGeneration), all)
  {
    QuietStep(steps, all, MoveGeneration);
    DoInv(b, MoveGeneration);
    var d := Do(b, MoveGeneration);
    forall v: nat | v < |d.workers| ensures WorkerTraced(d.workers[v], RowOf(all, v), all) {
      assert WorkerTraced(b.workers[v], RowOf(steps, v), steps);
    }
  }

  /** In every interleaving rows are taken in order, and each ends as its own answers say, and in no other way. */
  lemma {:induction false} EveryRunIsTraced(rows: nat, steps: seq<Step>)
    requires Legal(Start(rows), steps)
    ensures Traced(After(Start(rows), steps), steps) && |After(Start(rows), steps).results| == rows
    decreases |steps|
  {
    if steps == [] {
      StartInv(rows);
    } else {
      var before, step := steps[..|steps| - 1], steps[|steps| - 1];
      LegalPrefix(Start(rows), steps);
      EveryRunIsTraced(rows, before);
      var b := After(Start(rows), before);
      assert steps == before + [step];
      DoInv(b, step);
      match step
      case Next(w) => NextKeepsTrace(b, before, steps, w);
      case Answers(_, _, _, _) => AnswerKeepsTrace(b, before, steps, step);
      case Resume(w) => ResumeKeepsTrace(b, before, steps, w);
      case MoveGeneration => MoveKeepsTrace(b, before, steps);
    }
  }

  /** In every interleaving a row is fulfilled with exactly what its last call returned, and rejected with exactly what it failed with for good. */
  lemma ResultIsTheLastAnswer(rows: nat, steps: seq<Step>, i: nat, result: RowResult, failure: Failure)
    requires Legal(Start(rows), steps) && i < rows
    ensures |After(Start(rows), steps).results| == rows
    ensures After(Start(rows), steps).results[i] == Some(Fulfilled(result)) <==> Returns(StoryOf(steps, i), result)
    ensures After(Start(rows), steps).results[i] == Some(Rejected(failure)) && failure != Thrown(Abandoned) <==>
            FailsFor(StoryOf(steps, i), failure)
  {
    EveryRunIsTraced(rows, steps);
    assert RowTraced(After(Start(rows), steps).results[i], StoryOf(steps, i));
  }

  // ---------- The outcome is what the steps say ----------

  /** The rows, of the first `n`, whose last call returned `result`. */
  function RowsReturning(ids: seq<string>, steps: seq<Step>, n: nat, result: RowResult): seq<string>
    requires n <= |ids|
  {
    if n == 0 then []
    else RowsReturning(ids, steps, n - 1, result) + if Returns(StoryOf(steps, n - 1), result) then [ids[n - 1]] else []
  }

  function FailureOf(story: Story): Option<Failure> {
    if story.last.Some? && story.last.value.answer.Failed? && FailsFor(story, story.last.value.answer.failure)
    then Some(story.last.value.answer.failure) else None
  }

  /** The rows, of the first `n`, whose last call failed for good, each with that failure. */
  function RowsFailing(ids: seq<string>, steps: seq<Step>, n: nat): seq<(string, Failure)>
    requires n <= |ids|
  {
    if n == 0 then []
    else
      var failure := FailureOf(StoryOf(steps, n - 1));
      RowsFailing(ids, steps, n - 1) + if failure.Some? then [(ids[n - 1], failure.value)] else []
  }

  /** The row was never sent, was still to be sent again, or found the vault locked. */
  predicate LeftOver(story: Story) {
    StillGoing(story) || (story.last.Some? && story.last.value.answer == Failed(Thrown(Abandoned)))
  }

  function RowsLeft(ids: seq<string>, steps: seq<Step>, n: nat): seq<string>
    requires n <= |ids|
  {
    if n == 0 then []
    else RowsLeft(ids, steps, n - 1) + if LeftOver(StoryOf(steps, n - 1)) then [ids[n - 1]] else []
  }

  /** A settled row's kind is what its story says. */
  lemma KindIsTheStory(result: Option<Settled>, story: Story)
    requires result.Some? && RowTraced(result, story)
    ensures KindOf(result) == WasDone <==> Returns(story, Done)
    ensures KindOf(result) == WasUnchanged <==> Returns(story, Unchanged)
    ensures KindOf(result) == HasFailed <==> FailureOf(story).Some?
    ensures KindOf(result) == HasFailed ==> result.value.failure == FailureOf(story).value
    ensures KindOf(result) == WasNotSent <==> LeftOver(story)
  {
  }

  lemma {:induction false} ListsAreTheStories(ids: seq<string>, results: seq<Option<Settled>>, steps: seq<Step>, n: nat)
    requires n <= |ids| == |results|
    requires forall i: nat :: i < n ==> results[i].Some? && RowTraced(results[i], StoryOf(steps, i))
    ensures Rows(ids[..n], results[..n], WasDone) == RowsReturning(ids, steps, n, Done)
    ensures Rows(ids[..n], results[..n], WasUnchanged) == RowsReturning(ids, steps, n, Unchanged)
    ensures Refusals(ids[..n], results[..n]) == RowsFailing(ids, steps, n)
    ensures Rows(ids[..n], results[..n], WasNotSent) == RowsLeft(ids, steps, n)
  {
    if n > 0 {
      ListsAreTheStories(ids, results, steps, n - 1);
      assert ids[..n][..n - 1] == ids[..n - 1] && results[..n][..n - 1] == results[..n - 1];
      KindIsTheStory(results[n - 1], StoryOf(steps, n - 1));
    }
  }

  /**
   The outcome of a finished run, list by list and in order, from the steps alone: done
   and unchanged as each row's last call returned, failed with its last failure, and
   not sent for every row with no final answer of its own.
   */
  lemma OutcomeIsTheHistory(ids: seq<string>, steps: seq<Step>)
    requires Legal(Start(|ids|), steps) && Over(After(Start(|ids|), steps))
    ensures var b := After(Start(|ids|), steps);
            && |b.results| == |ids|
            && (var o := Sorted(ids, b.results, b.stopReason);
                && o.done == RowsReturning(ids, steps, |ids|, Done)
                && o.unaltered == RowsReturning(ids, steps, |ids|, Unchanged)
                && o.failed == RowsFailing(ids, steps, |ids|)
                && o.notSent == RowsLeft(ids, steps, |ids|))
  {
    FinishedRunIsSettled(|ids|, steps);
    EveryRunIsTraced(|ids|, steps);
    var b := After(Start(|ids|), steps);
    ListsAreTheStories(ids, b.results, steps, |ids|);
    assert ids[..|ids|] == ids && b.results[..|ids|] == b.results;
  }

  // ---------- Why the run stopped ----------

  /**
   When both readings of every 429 agree, the reason given is on the lists themselves:
   the server's if some row failed because of it, else the lock's if a row is left
   over, else none.
   */
  lemma ReasonIsOnTheLists(ids: seq<string>, steps: seq<Step>)
    requires Legal(Start(|ids|), steps) && Over(After(Start(|ids|), steps))
    requires forall step :: step in steps ==> Agreeing(step)
    ensures var b := After(Start(|ids|), steps);
            && |b.results| == |ids|
            && (var o := Sorted(ids, b.results, b.stopReason);
                o.stopReason == if NamesServerFault(o.failed) then Some(ServerStopped)
                                else if o.notSent != [] then Some(VaultLocked) else None)
  {
    var b := After(Start(|ids|), steps);
    FinishedRunSaysWhyItStopped(ids, steps);
    FinishedRunIsSettled(|ids|, steps);
    StartInv(|ids|);
    StopReasonIsAServerFault(Start(|ids|), steps);
    if b.stopReason.None? {
      LeftOverOfAnUnstoppedRun(ids, b);
    }
  }

  lemma LeftOverIsAbandoned(ids: seq<string>, b: Bulk)
    requires Inv(b) && |ids| == |b.results| && b.stopReason.None? && Rows(ids, b.results, WasNotSent) != []
    ensures Some(Rejected(Thrown(Abandoned))) in b.results
  {
    RowsAreAtPositions(ids, b.results, WasNotSent);
    var i := Positions(b.results, WasNotSent)[0];
    PositionsAreExact(b.results, WasNotSent, i);
    assert RowOk(b, i);
    assert b.results[i] == Some(Rejected(Thrown(Abandoned)));
  }

  lemma AbandonedIsLeftOver(ids: seq<string>, results: seq<Option<Settled>>, i: nat)
    requires |ids| == |results| && i < |results| && results[i] == Some(Rejected(Thrown(Abandoned)))
    ensures Rows(ids, results, WasNotSent) != []
  {
    RowsAreAtPositions(ids, results, WasNotSent);
    PositionsAreExact(results, WasNotSent, i);
  }

  lemma LeftOverOfAnUnstoppedRun(ids: seq<string>, b: Bulk)
    requires Inv(b) && |ids| == |b.results| && b.stopReason.None?
    ensures Rows(ids, b.results, WasNotSent) != [] <==> Some(Rejected(Thrown(Abandoned))) in b.results
  {
    if Rows(ids, b.results, WasNotSent) != [] {
      LeftOverIsAbandoned(ids, b);
    }
    if i: nat :| i < |b.results| && b.results[i] == Some(Rejected(Thrown(Abandoned))) {
      AbandonedIsLeftOver(ids, b.results, i);
    }
  }

  lemma {:induction false} AfterAppend(b: Bulk, steps: seq<Step>, more: seq<Step>)
    requires Legal(b, steps + more)
    ensures Legal(b, steps) && Legal(After(b, steps), more) && After(b, steps + more) == After(After(b, steps), more)
    decreases |steps|
  {
    if steps == [] {
      assert steps + more == more;
    } else {
      assert (steps + more)[1..] == steps[1..] + more;
      AfterAppend(Do(b, steps[0]), steps[1..], more);
    }
  }

  lemma OneStep(b: Bulk, step: Step)
    requires Legal(b, [step])
    ensures RowsInRange(b) && Enabled(b, step) && After(b, [step]) == Do(b, step)
  {
    assert [step][1..] == [];
  }

  /** Whatever follows a lock or a sign-out, no row is sent after it. */
  lemma LockEndsTheSending(rows: nat, before: seq<Step>, after: seq<Step>)
    requires Legal(Start(rows), before + ([MoveGeneration] + after))
    ensures Legal(Start(rows), before)
    ensures After(Start(rows), before + ([MoveGeneration] + after)).calls == After(Start(rows), before).calls
  {
    StepEndsTheSending(rows, before, MoveGeneration, after);
  }

  /** The server did not answer, broke, or asked for a wait of more than ten seconds. */
  predicate ServerGivesOut(step: Step) {
    && step.Answers? && step.answer.Failed?
    && match step.answer.failure
       case NoAnswer => true
       case Http(status, _) => status >= 500 || (status == 429 && !ShortWait(step.answer.failure, step.rowNow))
       case Thrown(_) => false
  }

  /** Whatever follows a server that gives out, no row is sent after it, and the reason stays. */
  lemma ServerEndsTheSending(rows: nat, before: seq<Step>, step: Step, after: seq<Step>)
    requires Legal(Start(rows), before + ([step] + after)) && ServerGivesOut(step)
    ensures Legal(Start(rows), before)
    ensures After(Start(rows), before + ([step] + after)).calls == After(Start(rows), before).calls
    ensures After(Start(rows), before + ([step] + after)).stopReason == Some(ServerStopped)
  {
    StepEndsTheSending(rows, before, step, after);
  }

  lemma StepEndsTheSending(rows: nat, before: seq<Step>, step: Step, after: seq<Step>)
    requires Legal(Start(rows), before + ([step] + after)) && (step == MoveGeneration || ServerGivesOut(step))
    ensures Legal(Start(rows), before)
    ensures After(Start(rows), before + ([step] + after)).calls == After(Start(rows), before).calls
    ensures step != MoveGeneration ==> After(Start(rows), before + ([step] + after)).stopReason == Some(ServerStopped)
  {
    AfterAppend(Start(rows), before, [step] + after);
    var b := After(Start(rows), before);
    AfterAppend(b, [step], after);
    OneStep(b, step);
    StartInv(rows);
    EveryInterleavingKeepsInv(Start(rows), before);
    DoInv(b, step);
    ReasonIsServers(rows, before);
    StopsThere(b, step);
    StoppedRunCallsNothing(Do(b, step), after);
  }

  lemma StopsThere(b: Bulk, step: Step)
    requires Inv(b) && Enabled(b, step) && (step == MoveGeneration || ServerGivesOut(step))
    requires b.stopReason in {None, Some(ServerStopped)}
    ensures Do(b, step).calls == b.calls
    ensures step == MoveGeneration ==> Do(b, step).generationMoved
    ensures step != MoveGeneration ==> Do(b, step).stopReason == Some(ServerStopped)
  {
  }

  lemma {:induction false} ReasonIsServers(rows: nat, steps: seq<Step>)
    requires Legal(Start(rows), steps)
    ensures After(Start(rows), steps).stopReason in {None, Some(ServerStopped)}
    decreases |steps|
  {
    if steps != [] {
      LegalPrefix(Start(rows), steps);
      ReasonIsServers(rows, steps[..|steps| - 1]);
    }
  }

  // ---------- Trying again ----------

  /** A header in seconds is waited out exactly when it asks for ten at most; one that cannot be read never is. */
  lemma ShortHeaderIff(retryAfter: RetryAfter, now: real)
    ensures ShortWait(Http(429, retryAfter), now) <==>
            match retryAfter
            case Unusable => false
            case Delay(seconds) => 0.0 < seconds <= 10.0
            case Date(instant) => 0.0 < instant - now <= 10_000.0
  {
    if retryAfter.Delay? {
      CeilWithin(retryAfter.seconds, 10);
      CeilWithin(retryAfter.seconds, 0);
    } else if retryAfter.Date? {
      CeilWithin((retryAfter.instant - now) / 1000.0, 10);
      CeilWithin((retryAfter.instant - now) / 1000.0, 0);
    }
  }

  lemma CeilWithin(x: real, bound: int)
    ensures Ceil(x) <= bound <==> x <= bound as real
  {
  }

  /**
   In a run that is neither stopped nor overtaken by a lock, a row answered with a
   short 429 for the first, second or third time is sent again after its wait, and
   stops nothing; the fourth time it fails with that 429 and stops the run.
   */
  lemma ShortRefusalIsSentAgain(b: Bulk, w: nat, retryAfter: RetryAfter, rowNow: real, senderNow: real)
    requires Inv(b) && w < |b.workers| && b.workers[w].Calling? && b.stopReason.None? && !b.generationMoved
    requires ShortWait(Http(429, retryAfter), rowNow) && ShortWait(Http(429, retryAfter), senderNow)
    ensures Held(b.workers[w]) == Some(b.workers[w].row)
    ensures var row, retries := b.workers[w].row, b.workers[w].retries;
            var refused := Do(b, Answers(w, Failed(Http(429, retryAfter)), rowNow, senderNow));
            && Inv(refused)
            && (retries < 3 ==>
                  && Enabled(refused, Resume(w)) && refused.stopReason.None?
                  && Do(refused, Resume(w)).workers[w] == Calling(row, retries + 1)
                  && Do(refused, Resume(w)).calls == b.calls[row := b.calls[row] + 1])
            && (retries >= 3 ==>
                  refused.results[row] == Some(Rejected(Http(429, retryAfter))) && refused.stopReason == Some(ServerStopped))
  {
    assert WorkerOk(b, b.workers[w]);
    DoInv(b, Answers(w, Failed(Http(429, retryAfter)), rowNow, senderNow));
  }
}
