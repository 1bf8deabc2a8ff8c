/** Sorting a finished bulk run's rows into its outcome, and what the outcome then says of every run. */
module BulkOutcome {
  import opened Options
  import opened PacedBulk
  import opened PacedBulkRuns

  datatype Outcome = Outcome(
    done: seq<string>,
    unaltered: seq<string>,
    failed: seq<(string, Failure)>,
    notSent: seq<string>,
    stopReason: Option<StopReason>
  )

  datatype Kind = WasDone | WasUnchanged | HasFailed | WasNotSent | IsMissing

  function KindOf(result: Option<Settled>): Kind {
    match result
    case None => IsMissing
    case Some(Fulfilled(r)) => if r == Done then WasDone else WasUnchanged
    case Some(settled) => if IsNotSent(settled) then WasNotSent else HasFailed
  }

  /** The rows of one kind, in the order they were selected in. */
  function Rows(ids: seq<string>, results: seq<Option<Settled>>, kind: Kind): seq<string>
    requires |ids| == |results|
  {
    if ids == [] then []
    else
      var last := |ids| - 1;
      Rows(ids[..last], results[..last], kind) + if KindOf(results[last]) == kind then [ids[last]] else []
  }

  /** The rows that failed, each with what it failed with. */
  function Refusals(ids: seq<string>, results: seq<Option<Settled>>): seq<(string, Failure)>
    requires |ids| == |results|
  {
    if ids == [] then []
    else
      var last := |ids| - 1;
      Refusals(ids[..last], results[..last]) +
      if KindOf(results[last]) == HasFailed then [(ids[last], results[last].value.failure)] else []
  }

  function FinalReason(stopReason: Option<StopReason>, results: seq<Option<Settled>>): Option<StopReason> {
    if stopReason.None? && Some(Rejected(Thrown(Abandoned))) in results then Some(VaultLocked) else stopReason
  }

  lemma OneMoreResult(stopReason: Option<StopReason>, results: seq<Option<Settled>>, result: Option<Settled>)
    ensures FinalReason(stopReason, results + [result]) ==
            var soFar := FinalReason(stopReason, results);
            if soFar.None? && result == Some(Rejected(Thrown(Abandoned))) then Some(VaultLocked) else soFar
  {
    var abandoned := Some(Rejected(Thrown(Abandoned)));
    assert abandoned in results + [result] <==> abandoned in results || result == abandoned;
  }

  /** The outcome of a run: every list holds its rows in the order they were selected in. */
  function Sorted(ids: seq<string>, results: seq<Option<Settled>>, stopReason: Option<StopReason>): Outcome
    requires |ids| == |results|
  {
    Outcome(Rows(ids, results, WasDone),
            Rows(ids, results, WasUnchanged),
            Refusals(ids, results),
            Rows(ids, results, WasNotSent),
            FinalReason(stopReason, results))
  }

  /** The loop over the settled results, pushing each row to its list. */
  method SortRows(ids: seq<string>, results: seq<Option<Settled>>, stopped: Option<StopReason>) returns (outcome: Outcome)
    requires |ids| == |results|
    ensures outcome == Sorted(ids, results, stopped)
  {
    var done: seq<string>, unaltered: seq<string>, notSent: seq<string> := [], [], [];
    var failed: seq<(string, Failure)> := [];
    var stopReason := stopped;
    for index := 0 to |ids|
      invariant Outcome(done, unaltered, failed, notSent, stopReason) == Sorted(ids[..index], results[..index], stopped)
    {
      assert ids[..index + 1][..index] == ids[..index];
      assert results[..index + 1][..index] == results[..index];
      assert results[..index + 1] == results[..index] + [results[index]];
      OneMoreResult(stopped, results[..index], results[index]);
      match results[index] {
        case None =>
        case Some(Fulfilled(Done)) => done := done + [ids[index]];
        case Some(Fulfilled(Unchanged)) => unaltered := unaltered + [ids[index]];
        case Some(NotSent) => notSent := notSent + [ids[index]];
        case Some(Rejected(failure)) =>
          if failure == Thrown(Abandoned) {
            if stopReason.None? {
              stopReason := Some(VaultLocked);
            }
            notSent := notSent + [ids[index]];
          } else {
            failed := failed + [(ids[index], failure)];
          }
      }
    }
    assert ids[..|ids|] == ids && results[..|results|] == results;
    outcome := Outcome(done, unaltered, failed, notSent, stopReason);
  }

  /** The positions of the rows of one kind. */
  function Positions(results: seq<Option<Settled>>, kind: Kind): seq<nat> {
    if results == [] then []
    else
      var last := |results| - 1;
      Positions(results[..last], kind) + if KindOf(results[last]) == kind then [last] else []
  }

  /** The positions of a kind are exactly those of its rows. */
  lemma {:induction false} PositionsAreExact(results: seq<Option<Settled>>, kind: Kind, i: nat)
    ensures i in Positions(results, kind) <==> i < |results| && KindOf(results[i]) == kind
  {
    if results != [] {
      PositionsAreExact(results[..|results| - 1], kind, i);
    }
  }

  predicate IncreasingBelow(positions: seq<nat>, bound: nat) {
    && (forall j :: 0 <= j < |positions| ==> positions[j] < bound)
    && (forall j, k :: 0 <= j < k < |positions| ==> positions[j] < positions[k])
  }

  lemma {:induction false} PositionsGrow(results: seq<Option<Settled>>, kind: Kind)
    ensures IncreasingBelow(Positions(results, kind), |results|)
  {
    if results != [] {
      PositionsGrow(results[..|results| - 1], kind);
    }
  }

  /** A list holds exactly the rows of its kind, and holds them in their original relative order. */
  lemma {:induction false} ListIsInOrder(ids: seq<string>, results: seq<Option<Settled>>, kind: Kind)
    requires |ids| == |results|
    ensures var positions, rows := Positions(results, kind), Rows(ids, results, kind);
            && |rows| == |positions|
            && IncreasingBelow(positions, |ids|)
            && (forall j :: 0 <= j < |positions| ==> rows[j] == ids[positions[j]])
    ensures forall i: nat :: i in Positions(results, kind) <==> i < |results| && KindOf(results[i]) == kind
  {
    RowsAreAtPositions(ids, results, kind);
    PositionsGrow(results, kind);
    forall i: nat ensures i in Positions(results, kind) <==> i < |results| && KindOf(results[i]) == kind {
      PositionsAreExact(results, kind, i);
    }
  }

  lemma {:induction false} RowsAreAtPositions(ids: seq<string>, results: seq<Option<Settled>>, kind: Kind)
    requires |ids| == |results|
    ensures var positions, rows := Positions(results, kind), Rows(ids, results, kind);
            && |rows| == |positions|
            && (forall j :: 0 <= j < |positions| ==> positions[j] < |ids| && rows[j] == ids[positions[j]])
  {
    if ids != [] {
      RowsAreAtPositions(ids[..|ids| - 1], results[..|ids| - 1], kind);
    }
  }

  function Names(refusals: seq<(string, Failure)>): seq<string> {
    if refusals == [] then [] else Names(refusals[..|refusals| - 1]) + [refusals[|refusals| - 1].0]
  }

  /** The failures are the failed rows, in order, each with its own row's failure. */
  lemma {:induction false} RefusalsAreTheFailedRows(ids: seq<string>, results: seq<Option<Settled>>)
    requires |ids| == |results|
    ensures var refusals, positions := Refusals(ids, results), Positions(results, HasFailed);
            && Names(refusals) == Rows(ids, results, HasFailed)
            && |refusals| == |positions|
            && forall j :: 0 <= j < |positions| ==>
                 positions[j] < |results| && KindOf(results[positions[j]]) == HasFailed
                 && refusals[j] == (ids[positions[j]], results[positions[j]].value.failure)
  {
    if ids != [] {
      var last := |ids| - 1;
      RefusalsAreTheFailedRows(ids[..last], results[..last]);
      var refusals, before := Refusals(ids, results), Refusals(ids[..last], results[..last]);
      if KindOf(results[last]) == HasFailed {
        assert refusals[..|refusals| - 1] == before;
        assert Names(refusals) == Names(before) + [ids[last]];
      } else {
        assert refusals == before;
      }
    }
  }

  function Tally(ids: seq<string>, results: seq<Option<Settled>>, kind: Kind): multiset<string>
    requires |ids| == |results|
  {
    multiset(Rows(ids, results, kind))
  }

  /** How often an id is in the four lists together. */
  function Total(ids: seq<string>, results: seq<Option<Settled>>, id: string): nat
    requires |ids| == |results|
  {
    Tally(ids, results, WasDone)[id] + Tally(ids, results, WasUnchanged)[id]
    + Tally(ids, results, HasFailed)[id] + Tally(ids, results, WasNotSent)[id]
  }

  lemma OneMoreRow(ids: seq<string>, results: seq<Option<Settled>>, kind: Kind, id: string)
    requires |ids| == |results| && ids != []
    ensures var last := |ids| - 1;
            Tally(ids, results, kind)[id] ==
            Tally(ids[..last], results[..last], kind)[id] + if KindOf(results[last]) == kind && ids[last] == id then 1 else 0
  {
  }

  lemma OneMoreInTotal(ids: seq<string>, results: seq<Option<Settled>>, id: string)
    requires |ids| == |results| && ids != [] && results[|ids| - 1].Some?
    ensures var last := |ids| - 1;
            Total(ids, results, id) == Total(ids[..last], results[..last], id) + if ids[last] == id then 1 else 0
  {
    OneMoreRow(ids, results, WasDone, id);
    OneMoreRow(ids, results, WasUnchanged, id);
    OneMoreRow(ids, results, HasFailed, id);
    OneMoreRow(ids, results, WasNotSent, id);
    var kind := KindOf(results[|ids| - 1]);
    assert kind != IsMissing;
  }

  lemma LastCounts(ids: seq<string>, id: string)
    requires ids != []
    ensures multiset(ids)[id] == multiset(ids[..|ids| - 1])[id] + if ids[|ids| - 1] == id then 1 else 0
  {
    assert ids == ids[..|ids| - 1] + [ids[|ids| - 1]];
  }

  /** Each selected row is in exactly one list, as often as it was selected. */
  lemma {:induction false} ListsPartitionTheRows(ids: seq<string>, results: seq<Option<Settled>>, id: string)
    requires |ids| == |results|
    requires forall i :: 0 <= i < |results| ==> results[i].Some?
    ensures Total(ids, results, id) == multiset(ids)[id]
  {
    if ids != [] {
      ListsPartitionTheRows(ids[..|ids| - 1], results[..|ids| - 1], id);
      OneMoreInTotal(ids, results, id);
      LastCounts(ids, id);
    }
  }

  /** The four lists of an outcome hold every selected row once. */
  lemma OutcomePartitionsTheRows(ids: seq<string>, results: seq<Option<Settled>>, stopped: Option<StopReason>)
    requires |ids| == |results|
    requires forall i :: 0 <= i < |results| ==> results[i].Some?
    ensures var o := Sorted(ids, results, stopped);
            multiset(o.done) + multiset(o.unaltered) + multiset(Names(o.failed)) + multiset(o.notSent) == multiset(ids)
  {
    RefusalsAreTheFailedRows(ids, results);
    var all := Tally(ids, results, WasDone) + Tally(ids, results, WasUnchanged)
               + Tally(ids, results, HasFailed) + Tally(ids, results, WasNotSent);
    forall id ensures all[id] == multiset(ids)[id] {
      ListsPartitionTheRows(ids, results, id);
    }
    assert all == multiset(ids);
  }

  // ---------- Every finished run ----------

  /**
   A finished run, whatever its interleaving: every row is in exactly one list, a
   row never called is in `notSent`, a row held back was called only for the waits
   it was refused with, and rows are held back only for a reason.
   */
  lemma FinishedRunAccountsForEveryRow(ids: seq<string>, steps: seq<Step>)
    requires Legal(Start(|ids|), steps) && Over(After(Start(|ids|), steps))
    ensures var b := After(Start(|ids|), steps);
            && |b.results| == |ids|
            && (var o := Sorted(ids, b.results, b.stopReason);
                && multiset(o.done) + multiset(o.unaltered) + multiset(Names(o.failed)) + multiset(o.notSent) == multiset(ids)
                && (o.notSent != [] ==> o.stopReason.Some?))
  {
    FinishedRunIsSettled(|ids|, steps);
    var b := After(Start(|ids|), steps);
    OutcomePartitionsTheRows(ids, b.results, b.stopReason);
    if Rows(ids, b.results, WasNotSent) != [] {
      HeldBackForAReason(ids, b);
    }
  }

  lemma FinishedRunIsSettled(rows: nat, steps: seq<Step>)
    requires Legal(Start(rows), steps) && Over(After(Start(rows), steps))
    ensures Inv(After(Start(rows), steps)) && |After(Start(rows), steps).results| == rows
    ensures forall i :: 0 <= i < rows ==> After(Start(rows), steps).results[i].Some?
  {
    StartInv(rows);
    EveryInterleavingKeepsInv(Start(rows), steps);
    RunIsNeverStuck(After(Start(rows), steps));
  }

  lemma HeldBackForAReason(ids: seq<string>, b: Bulk)
    requires Inv(b) && |ids| == |b.results| && Rows(ids, b.results, WasNotSent) != []
    ensures FinalReason(b.stopReason, b.results).Some?
  {
    ListIsInOrder(ids, b.results, WasNotSent);
    var i := Positions(b.results, WasNotSent)[0];
    assert i in Positions(b.results, WasNotSent);
    assert RowOk(b, i);
  }

  /** In a finished run, a row no call was ever begun for is in `notSent`, and one held back, by the stop or by the lock, was refused every time it was sent. */
  lemma NeverCalledRowsAreNotSent(ids: seq<string>, steps: seq<Step>, i: nat)
    requires Legal(Start(|ids|), steps) && Over(After(Start(|ids|), steps)) && i < |ids|
    ensures var b := After(Start(|ids|), steps);
            && |b.results| == |b.calls| == |b.rateLimited| == |ids|
            && (b.calls[i] == 0 ==> i in Positions(b.results, WasNotSent))
            && (b.results[i] == Some(NotSent) ==> b.calls[i] == b.rateLimited[i] && b.stopReason.Some?)
            && (b.results[i] == Some(Rejected(Thrown(Abandoned))) && !ThrewIt(b, i) ==>
                  b.calls[i] == b.rateLimited[i] && b.generationMoved)
  {
    FinishedRunIsSettled(|ids|, steps);
    var b := After(Start(|ids|), steps);
    assert RowOk(b, i);
    ListIsInOrder(ids, b.results, WasNotSent);
  }

  /**
   A row the outcome lists as never sent was indeed never sent if and only if, in the
   whole run, it was answered with no 429 and its own code did not throw the message
   a locked vault is reported with.
   */
  lemma NotSentRowWasNeverSentIff(ids: seq<string>, steps: seq<Step>, i: nat)
    requires Legal(Start(|ids|), steps) && Over(After(Start(|ids|), steps))
    requires i in Positions(After(Start(|ids|), steps).results, WasNotSent)
    ensures i < |After(Start(|ids|), steps).calls|
    ensures After(Start(|ids|), steps).calls[i] == 0 <==>
            RefusalsOf(Start(|ids|), steps, i) == 0 && !Throws(Start(|ids|), steps, i)
  {
    FinishedRunIsSettled(|ids|, steps);
    var b := After(Start(|ids|), steps);
    PositionsAreExact(b.results, WasNotSent, i);
    assert RowOk(b, i);
    StartInv(|ids|);
    RowHistory(Start(|ids|), steps, i);
  }

  /**
   When both readings of every 429 agree: the outcome says the server stopped
   answering if and only if one of its failures is the server's.
   */
  lemma FinishedRunSaysWhyItStopped(ids: seq<string>, steps: seq<Step>)
    requires Legal(Start(|ids|), steps) && Over(After(Start(|ids|), steps))
    requires forall step :: step in steps ==> Agreeing(step)
    ensures var b := After(Start(|ids|), steps);
            && |b.results| == |ids|
            && (var o := Sorted(ids, b.results, b.stopReason);
                o.stopReason == Some(ServerStopped) <==> NamesServerFault(o.failed))
  {
    var b := After(Start(|ids|), steps);
    StartInv(|ids|);
    EveryInterleavingKeepsInv(Start(|ids|), steps);
    StopReasonIsAServerFault(Start(|ids|), steps);
    FaultsAreListed(ids, b);
    assert FinalReason(b.stopReason, b.results) == Some(ServerStopped) <==> b.stopReason.Some?;
  }

  predicate NamesServerFault(refusals: seq<(string, Failure)>) {
    exists j :: 0 <= j < |refusals| && ServerFault(refusals[j].1)
  }

  lemma OneMoreRefusal(before: seq<(string, Failure)>, refusal: (string, Failure))
    ensures NamesServerFault(before + [refusal]) <==> NamesServerFault(before) || ServerFault(refusal.1)
  {
    var refusals := before + [refusal];
    assert refusals[|before|] == refusal;
    assert forall j :: 0 <= j < |before| ==> refusals[j] == before[j];
  }

  lemma OneMoreFault(before: Bulk, b: Bulk)
    requires b.results != [] && before == b.(results := b.results[..|b.results| - 1])
    ensures HasFault(b) <==> HasFault(before) || FaultAt(b, |b.results| - 1)
  {
    assert forall i :: 0 <= i < |before.results| ==> FaultAt(before, i) == FaultAt(b, i);
  }

  lemma {:induction false} FaultsAreListed(ids: seq<string>, b: Bulk)
    requires |ids| == |b.results|
    ensures HasFault(b) <==> NamesServerFault(Refusals(ids, b.results))
    decreases |ids|
  {
    if ids != [] {
      var last := |ids| - 1;
      var before := b.(results := b.results[..last]);
      FaultsAreListed(ids[..last], before);
      OneMoreFault(before, b);
      if KindOf(b.results[last]) == HasFailed {
        OneMoreRefusal(Refusals(ids[..last], before.results), (ids[last], b.results[last].value.failure));
      } else {
        assert Refusals(ids, b.results) == Refusals(ids[..last], before.results);
      }
    }
  }

  lemma StepFirst(b: Bulk, step: Step, rest: seq<Step>)
    requires RowsInRange(b) && Enabled(b, step) && Legal(Do(b, step), rest)
    ensures Legal(b, [step] + rest) && After(b, [step] + rest) == After(Do(b, step), rest)
  {
    assert ([step] + rest)[1..] == rest;
  }

  /** A row listed as never sent may have been sent: refused with a short 429, it was still waiting when the run stopped. */
  lemma NotSentRowMayHaveBeenSent()
    ensures var steps := [Next(0), Next(1), Answers(0, Failed(Http(429, Delay(5.0))), 0.0, 0.0)]
                         + [Answers(1, Failed(NoAnswer), 0.0, 0.0), Resume(0)];
            && Legal(Start(2), steps)
            && After(Start(2), steps).calls == [1, 1]
            && After(Start(2), steps).results == [Some(NotSent), Some(Rejected(NoAnswer))]
  {
    var refusal := Answers(0, Failed(Http(429, Delay(5.0))), 0.0, 0.0);
    var failure := Answers(1, Failed(NoAnswer), 0.0, 0.0);
    var b2 := Bulk(2, [Calling(0, 0), Calling(1, 0)], [None, None], [0, 0], [1, 1], None, false);
    var b3 := Bulk(2, [Waiting(0, 0), Calling(1, 0)], [None, None], [1, 0], [1, 1], None, false);
    RestIsHeldBack(b3);
    assert Ceil(5.0) == 5;
    assert Do(b2, refusal) == b3;
    StepFirst(b2, refusal, [failure] + [Resume(0)]);
    TwoRowsTaken([refusal] + ([failure] + [Resume(0)]), b2);
    assert [Next(0), Next(1), refusal] + [failure, Resume(0)]
        == [Next(0)] + ([Next(1)] + ([refusal] + ([failure] + [Resume(0)])));
  }

  lemma RestIsHeldBack(b3: Bulk)
    requires b3 == Bulk(2, [Waiting(0, 0), Calling(1, 0)], [None, None], [1, 0], [1, 1], None, false)
    ensures var rest := [Answers(1, Failed(NoAnswer), 0.0, 0.0)] + [Resume(0)];
            && Legal(b3, rest)
            && After(b3, rest).calls == [1, 1] && After(b3, rest).results == [Some(NotSent), Some(Rejected(NoAnswer))]
  {
    var failure := Answers(1, Failed(NoAnswer), 0.0, 0.0);
    var b4 := Bulk(2, [Waiting(0, 0), Idle], [None, Some(Rejected(NoAnswer))], [1, 0], [1, 1], Some(ServerStopped), false);
    var b5 := Bulk(2, [Idle, Idle], [Some(NotSent), Some(Rejected(NoAnswer))], [1, 0], [1, 1], Some(ServerStopped), false);
    assert Do(b4, Resume(0)) == b5;
    StepFirst(b4, Resume(0), []);
    assert Do(b3, failure) == b4;
    StepFirst(b3, failure, [Resume(0)]);
  }

  lemma TwoRowsTaken(rest: seq<Step>, b2: Bulk)
    requires b2 == Bulk(2, [Calling(0, 0), Calling(1, 0)], [None, None], [0, 0], [1, 1], None, false)
    requires Legal(b2, rest)
    ensures Legal(Start(2), [Next(0)] + ([Next(1)] + rest))
    ensures After(Start(2), [Next(0)] + ([Next(1)] + rest)) == After(b2, rest)
  {
    var b1 := Bulk(1, [Calling(0, 0), Idle], [None, None], [0, 0], [1, 0], None, false);
    assert Start(2) == Bulk(0, [Idle, Idle], [None, None], [0, 0], [0, 0], None, false);
    assert Do(b1, Next(1)) == b2;
    StepFirst(b1, Next(1), rest);
    assert Do(Start(2), Next(0)) == b1;
    StepFirst(Start(2), Next(0), [Next(1)] + rest);
  }
}
