/**
 The connection indicator: probes started by a mount, a timer, an `online` event
 or a return to the tab, offline events, and an unmount, in any order. A signal is
 a probe or an offline event, numbered as they come.
 */
module ConnectionStatus {
  import opened Options

  /** `writer` is the number of the signal that last set the flag, and 0 for the initial value. */
  datatype Status = Status(
    online: bool,
    mounted: bool,
    latest: nat,
    probing: set<nat>,
    writer: nat
  )

  datatype Event =
    | CheckServer(browserOnline: bool)
    | ProbeSettles(id: nat, ok: bool)  // the response's `ok`, or false for any failure
    | GoesOffline
    | Unmount

  function Initial(browserOnline: bool): Status { Status(browserOnline, true, 0, {}, 0) }

  function Apply(s: Status, id: nat, value: bool): Status {
    if s.mounted && id == s.latest then s.(online := value, writer := id) else s
  }

  function Step(s: Status, e: Event): Status {
    match e
    case CheckServer(browserOnline) =>
      var next := s.(latest := s.latest + 1);
      if !browserOnline then Apply(next, next.latest, false)
      else next.(probing := s.probing + {next.latest})
    case ProbeSettles(id, ok) =>
      if id !in s.probing then s else Apply(s.(probing := s.probing - {id}), id, ok)
    case GoesOffline =>
      var next := s.(latest := s.latest + 1);
      if s.mounted then next.(online := false, writer := next.latest) else next
    case Unmount => s.(mounted := false)
  }

  function Run(s: Status, es: seq<Event>): Status {
    if es == [] then s else Step(Run(s, es[..|es| - 1]), es[|es| - 1])
  }

  // ---------- Order ----------

  /** The writer's number never decreases, and a flag that changes is written by the newest signal there is. */
  lemma StepWritesForward(s: Status, e: Event)
    requires s.writer <= s.latest
    ensures s.writer <= Step(s, e).writer <= Step(s, e).latest
    ensures Step(s, e).online != s.online ==> Step(s, e).writer == Step(s, e).latest && s.mounted
    ensures !s.mounted ==> Step(s, e).online == s.online && Step(s, e).writer == s.writer && !Step(s, e).mounted
  {
  }

  /** In every run the writer's number only grows, and after an unmount nothing is written. */
  lemma {:induction false} WritersOnlyAdvance(s: Status, es: seq<Event>)
    requires s.writer <= s.latest
    ensures s.writer <= Run(s, es).writer <= Run(s, es).latest
    ensures !s.mounted ==> Run(s, es).online == s.online && Run(s, es).writer == s.writer && !Run(s, es).mounted
  {
    if es != [] {
      WritersOnlyAdvance(s, es[..|es| - 1]);
      StepWritesForward(Run(s, es[..|es| - 1]), es[|es| - 1]);
    }
  }

  lemma {:induction false} RunAppend(s: Status, es: seq<Event>, more: seq<Event>)
    ensures Run(s, es + more) == Run(Run(s, es), more)
  {
    if more == [] {
      assert es + more == es;
    } else {
      var last := |more| - 1;
      RunAppend(s, es, more[..last]);
      assert (es + more)[..|es + more| - 1] == es + more[..last];
    }
  }

  /** Whatever came before and whatever follows, an unmount is the last thing the flag hears of. */
  lemma NothingIsWrittenAfterAnUnmount(browserOnline: bool, before: seq<Event>, after: seq<Event>)
    ensures var end := Run(Initial(browserOnline), before + [Unmount] + after);
            && end.online == Run(Initial(browserOnline), before).online
            && end.writer == Run(Initial(browserOnline), before).writer
  {
    var s := Initial(browserOnline);
    RunAppend(s, before + [Unmount], after);
    assert (before + [Unmount])[..|before|] == before;
    WritersOnlyAdvance(s, before);
    WritersOnlyAdvance(Run(s, before + [Unmount]), after);
  }

  // ---------- The flag is the newest signal's outcome ----------

  /** What the newest signal of a run came to; none yet while it is a probe in flight. */
  function NewestOutcome(browserOnline: bool, es: seq<Event>): Option<bool> {
    if es == [] then Some(browserOnline)
    else
      var before := es[..|es| - 1];
      match es[|es| - 1]
      case CheckServer(up) => if up then None else Some(false)
      case ProbeSettles(id, ok) =>
        if id == Signals(before) && id in Unsettled(before) then Some(ok) else NewestOutcome(browserOnline, before)
      case GoesOffline => Some(false)
      case Unmount => NewestOutcome(browserOnline, before)
  }

  /** How many signals a run has had. */
  function Signals(es: seq<Event>): nat {
    if es == [] then 0
    else Signals(es[..|es| - 1]) + if es[|es| - 1].CheckServer? || es[|es| - 1].GoesOffline? then 1 else 0
  }

  /** The probes of a run that have not settled. */
  function Unsettled(es: seq<Event>): set<nat> {
    if es == [] then {}
    else
      var before := es[..|es| - 1];
      match es[|es| - 1]
      case CheckServer(up) => if up then Unsettled(before) + {Signals(before) + 1} else Unsettled(before)
      case ProbeSettles(id, _) => Unsettled(before) - {id}
      case _ => Unsettled(before)
  }

  predicate Stays(es: seq<Event>) {
    forall e :: e in es ==> !e.Unmount?
  }

  lemma {:induction false} RunIsTracked(browserOnline: bool, es: seq<Event>)
    requires Stays(es)
    ensures var s := Run(Initial(browserOnline), es);
            && s.mounted && s.latest == Signals(es) && s.probing == Unsettled(es)
            && (forall id :: id in s.probing ==> id <= s.latest)
            && (NewestOutcome(browserOnline, es).None? <==> s.latest in s.probing)
            && (NewestOutcome(browserOnline, es).Some? ==> NewestOutcome(browserOnline, es).value == s.online)
            && (0 !in s.probing)
  {
    if es != [] {
      assert es[|es| - 1] in es && forall e :: e in es[..|es| - 1] ==> e in es;
      RunIsTracked(browserOnline, es[..|es| - 1]);
    }
  }

  /**
   While mounted, once no probe is in flight the flag is the outcome of the newest
   signal, whatever order the probes settled in: the newest probe's answer, or
   offline when the newest signal was the browser's.
   */
  lemma SettledFlagIsTheNewestSignal(browserOnline: bool, es: seq<Event>)
    requires Stays(es) && Unsettled(es) == {}
    ensures NewestOutcome(browserOnline, es) == Some(Run(Initial(browserOnline), es).online)
  {
    RunIsTracked(browserOnline, es);
  }

  /** A probe that is not the newest signal changes nothing but itself when it settles. */
  lemma SlowProbeIsIgnored(browserOnline: bool, es: seq<Event>, id: nat, ok: bool)
    requires Stays(es) && id < Signals(es)
    ensures Run(Initial(browserOnline), es + [ProbeSettles(id, ok)]).online == Run(Initial(browserOnline), es).online
  {
    RunIsTracked(browserOnline, es);
    assert (es + [ProbeSettles(id, ok)])[..|es|] == es;
  }

  // ---------- The hook ----------

  class ConnectionMonitor {
    var isOnline: bool
    var mounted: bool
    var latestProbe: nat
    var probing: set<nat>
    ghost var writer: nat

    ghost function State(): Status
      reads this
    {
      Status(isOnline, mounted, latestProbe, probing, writer)
    }

    constructor (browserOnline: bool)
      ensures State() == Initial(browserOnline)
    {
      isOnline, mounted, latestProbe, probing, writer := browserOnline, true, 0, {}, 0;
    }

    method ApplyProbe(id: nat, value: bool)
      modifies this
      ensures State() == Apply(old(State()), id, value)
    {
      if mounted && id == latestProbe {
        isOnline := value;
        writer := id;
      }
    }

    /** Up to the probe's request; without a connection no request is made. */
    method StartCheck(browserOnline: bool)
      modifies this
      ensures State() == Step(old(State()), CheckServer(browserOnline))
    {
      latestProbe := latestProbe + 1;
      if !browserOnline {
        ApplyProbe(latestProbe, false);
        return;
      }
      probing := probing + {latestProbe};
    }

    /** The request answered, failed, or was aborted by its timeout. */
    method FinishCheck(id: nat, ok: bool)
      requires id in probing
      modifies this
      ensures State() == Step(old(State()), ProbeSettles(id, ok))
    {
      probing := probing - {id};
      ApplyProbe(id, ok);
    }

    method HandleOffline()
      modifies this
      ensures State() == Step(old(State()), GoesOffline)
    {
      latestProbe := latestProbe + 1;
      if mounted {
        isOnline := false;
        writer := latestProbe;
      }
    }

    method Dispose()
      modifies this
      ensures State() == Step(old(State()), Unmount)
    {
      mounted := false;
    }
  }
}
