/**
 The documents page's multi-select, and what a bulk run leaves of it. A document
 is its id. Every callback carries the key of the list it was created under.
 */
module DocumentSelection {
  import opened Options
  import BulkOutcome
  import PacedBulk
  import PacedBulkRuns

  datatype ListMode = All | Favorites | Folder(id: string) | Trash

  function ModeKey(mode: ListMode): string {
    match mode
    case All => "all"
    case Favorites => "favorites"
    case Folder(id) => "folder:" + id
    case Trash => "trash"
  }

  lemma KeyShape(mode: ListMode)
    ensures |ModeKey(mode)| >= 3 && (ModeKey(mode)[1] == 'o' <==> mode.Folder?)
    ensures mode.Folder? ==> ModeKey(mode)[|"folder:"|..] == mode.id
  {
  }

  /** Two lists never share a key, whatever a folder's id is. */
  lemma ModeKeyIsInjective(a: ListMode, b: ListMode)
    requires ModeKey(a) == ModeKey(b)
    ensures a == b
  {
    KeyShape(a);
    KeyShape(b);
    assert |ModeKey(All)| == 3 && |ModeKey(Favorites)| == 9 && |ModeKey(Trash)| == 5;
  }

  /** The stored selection, and the key of the list on screen. */
  datatype Page = Page(key: string, ids: set<string>, current: string)

  datatype Event =
    | SwitchTo(mode: ListMode)                         // the render of another list, then its effect
    | Toggle(captured: string, id: string)
    | SelectAll(captured: string, rows: seq<string>)
    | Clear(captured: string)
    | Remove(dropped: set<string>)

  function Initial(mode: ListMode): Page { Page(ModeKey(mode), {}, ModeKey(mode)) }

  function ToSet(rows: seq<string>): set<string> { set id | id in rows }

  /** What the page shows as selected, read through the key. */
  function Chosen(p: Page): set<string> { if p.key == p.current then p.ids else {} }

  /** What an update made under `captured` starts from. */
  function Basis(p: Page, captured: string): set<string> { if p.key == captured then p.ids else {} }

  function Step(p: Page, e: Event): Page {
    match e
    case SwitchTo(mode) =>
      var key := ModeKey(mode);
      if p.key == key then p.(current := key) else Page(key, {}, key)
    case Toggle(captured, id) =>
      var ids := Basis(p, captured);
      p.(key := captured, ids := if id in ids then ids - {id} else ids + {id})
    case SelectAll(captured, rows) => p.(key := captured, ids := ToSet(rows))
    case Clear(captured) => p.(key := captured, ids := {})
    case Remove(dropped) => p.(ids := p.ids - dropped)
  }

  function Run(p: Page, es: seq<Event>): Page {
    if es == [] then p else Step(Run(p, es[..|es| - 1]), es[|es| - 1])
  }

  /** The visible rows that are selected, in the list's order. */
  function SelectedRows(rows: seq<string>, chosen: set<string>): seq<string> {
    if rows == [] then []
    else SelectedRows(rows[..|rows| - 1], chosen) + if rows[|rows| - 1] in chosen then [rows[|rows| - 1]] else []
  }

  /** What a bulk action acts on is on screen and selected, all of it, in the list's order and as often as it is listed. */
  lemma {:induction false} ActsOnVisibleChosenRows(rows: seq<string>, chosen: set<string>, id: string)
    ensures id in SelectedRows(rows, chosen) <==> id in rows && id in chosen
    ensures multiset(SelectedRows(rows, chosen))[id] == if id in chosen then multiset(rows)[id] else 0
  {
    if rows != [] {
      ActsOnVisibleChosenRows(rows[..|rows| - 1], chosen, id);
      assert rows == rows[..|rows| - 1] + [rows[|rows| - 1]];
    }
  }

  // ---------- Every run ----------

  /** The callback belongs to the list on screen. */
  predicate IsCurrent(p: Page, e: Event) {
    match e
    case Toggle(captured, _) => captured == p.current
    case SelectAll(captured, _) => captured == p.current
    case Clear(captured) => captured == p.current
    case _ => true
  }

  ghost predicate Current(p: Page, es: seq<Event>) {
    forall k :: 0 <= k < |es| ==> IsCurrent(Run(p, es[..k]), es[k])
  }

  /** Whether an id is picked, from its history alone: toggled an odd number of times since the list was last changed, filled or cleared. */
  function IsPicked(p: Page, es: seq<Event>, id: string): bool {
    if es == [] then id in Chosen(p)
    else
      var before := es[..|es| - 1];
      match es[|es| - 1]
      case SwitchTo(mode) => ModeKey(mode) == OnScreen(p.current, before) && IsPicked(p, before, id)
      case Toggle(_, toggled) => if toggled == id then !IsPicked(p, before, id) else IsPicked(p, before, id)
      case SelectAll(_, rows) => id in rows
      case Clear(_) => false
      case Remove(dropped) => IsPicked(p, before, id) && id !in dropped
  }

  /**
   With the callbacks of the list on screen, in every run: what is selected is exactly
   what was picked since the list last changed, so a change empties the selection and
   coming back to an earlier list never restores it.
   */
  lemma {:induction false} SelectionIsOfThisList(p: Page, es: seq<Event>, id: string)
    requires p.key == p.current && Current(p, es)
    ensures Run(p, es).key == Run(p, es).current
    ensures id in Chosen(Run(p, es)) <==> IsPicked(p, es, id)
  {
    if es != [] {
      var before := es[..|es| - 1];
      assert forall k :: 0 <= k < |before| ==> before[..k] == es[..k];
      SelectionIsOfThisList(p, before, id);
      ScreenFollows(p, before);
      assert es[..|es| - 1] == before;
      assert IsCurrent(Run(p, before), es[|es| - 1]);
    }
  }

  /**
   Whether an id is kept for a list, from the history alone and whatever lists the
   callbacks belong to: only one list's picks are ever kept, and a change to another
   list, or a callback of another list, loses them.
   */
  predicate IsKept(p: Page, es: seq<Event>, key: string, id: string) {
    if es == [] then p.key == key && id in p.ids
    else
      var before := es[..|es| - 1];
      match es[|es| - 1]
      case SwitchTo(mode) => ModeKey(mode) == key && IsKept(p, before, key, id)
      case Toggle(captured, toggled) => captured == key && (IsKept(p, before, key, id) != (toggled == id))
      case SelectAll(captured, rows) => captured == key && id in rows
      case Clear(_) => false
      case Remove(dropped) => IsKept(p, before, key, id) && id !in dropped
  }

  lemma {:induction false} KeptIsStored(p: Page, es: seq<Event>, key: string, id: string)
    ensures IsKept(p, es, key, id) <==> Run(p, es).key == key && id in Run(p, es).ids
  {
    if es != [] {
      KeptIsStored(p, es[..|es| - 1], key, id);
    }
  }

  /** In every run, stale callbacks included: changing to a list shows exactly what is kept for it, so nothing if and only if nothing is. */
  lemma SwitchEmptiesIff(p: Page, es: seq<Event>, mode: ListMode)
    ensures var shown := Chosen(Run(p, es + [SwitchTo(mode)]));
            && (forall id :: id in shown <==> IsKept(p, es, ModeKey(mode), id))
            && (shown == {} <==> forall id :: !IsKept(p, es, ModeKey(mode), id))
  {
    assert (es + [SwitchTo(mode)])[..|es|] == es;
    var shown := Chosen(Run(p, es + [SwitchTo(mode)]));
    forall id ensures id in shown <==> IsKept(p, es, ModeKey(mode), id) {
      KeptIsStored(p, es, ModeKey(mode), id);
    }
  }

  /** The key of the list on screen: the last change of list decides. */
  function OnScreen(first: string, es: seq<Event>): string {
    if es == [] then first
    else if es[|es| - 1].SwitchTo? then ModeKey(es[|es| - 1].mode)
    else OnScreen(first, es[..|es| - 1])
  }

  lemma {:induction false} ScreenFollows(p: Page, es: seq<Event>)
    ensures Run(p, es).current == OnScreen(p.current, es)
  {
    if es != [] {
      ScreenFollows(p, es[..|es| - 1]);
    }
  }

  /** In every run, stale callbacks included, what is selected is exactly what is kept for the list on screen. */
  lemma SelectionIsWhatIsKept(p: Page, es: seq<Event>, id: string)
    ensures id in Chosen(Run(p, es)) <==> IsKept(p, es, OnScreen(p.current, es), id)
  {
    KeptIsStored(p, es, OnScreen(p.current, es), id);
    ScreenFollows(p, es);
  }

  /** A page opens with nothing selected, and nothing kept for any list. */
  lemma PageOpensEmpty(mode: ListMode, key: string, id: string)
    ensures Chosen(Initial(mode)) == {} && OnScreen(Initial(mode).current, []) == ModeKey(mode)
    ensures !IsKept(Initial(mode), [], key, id)
  {
  }

  /** A callback kept from an earlier list writes under that list's key, so returning to it shows what it picked. */
  lemma StaleCallbackIsRemembered()
    ensures var es := [SwitchTo(Trash), Toggle("all", "x"), SwitchTo(All)];
            Chosen(Run(Initial(All), es)) == {"x"}
  {
    var es := [SwitchTo(Trash), Toggle("all", "x"), SwitchTo(All)];
    assert es[..2] == [SwitchTo(Trash), Toggle("all", "x")];
    assert es[..2][..1] == [SwitchTo(Trash)] && es[..2][..1][..0] == [];
    assert ModeKey(Trash)[0] != ModeKey(All)[0];
    assert Run(Initial(All), es[..2][..1]) == Page("trash", {}, "trash");
    assert Run(Initial(All), es[..2]) == Page("all", {"x"}, "trash");
  }

  // ---------- After a bulk run ----------

  function NamesOf(refusals: seq<(string, PacedBulk.Failure)>): set<string> { ToSet(BulkOutcome.Names(refusals)) }

  /** `remove([...outcome.done, ...outcome.unchanged])` */
  function AfterRun(p: Page, o: BulkOutcome.Outcome): Page {
    Step(p, Remove(ToSet(o.done + o.unaltered)))
  }

  predicate AllDistinct(s: seq<string>) {
    forall id :: id in s ==> multiset(s)[id] == 1
  }

  lemma ListsAreApart(acted: seq<string>, o: BulkOutcome.Outcome, id: string)
    requires AllDistinct(acted)
    requires multiset(o.done) + multiset(o.unaltered) + multiset(BulkOutcome.Names(o.failed)) + multiset(o.notSent) == multiset(acted)
    ensures id in o.done + o.unaltered ==> id in acted && id !in BulkOutcome.Names(o.failed) && id !in o.notSent
    ensures id in acted ==> id in o.done + o.unaltered || id in BulkOutcome.Names(o.failed) || id in o.notSent
    ensures id in BulkOutcome.Names(o.failed) || id in o.notSent ==> id in acted
  {
    var d, u, f, n := multiset(o.done), multiset(o.unaltered), multiset(BulkOutcome.Names(o.failed)), multiset(o.notSent);
    assert (d + u + f + n)[id] == multiset(acted)[id];
    assert d[id] + u[id] + f[id] + n[id] == multiset(acted)[id];
    assert id in o.done + o.unaltered <==> id in o.done || id in o.unaltered;
    assert id in acted <==> multiset(acted)[id] > 0;
  }

  /**
   A finished run over the selected rows, whatever its interleaving and whatever was
   picked or dropped meanwhile: of the rows it acted on, those still selected are
   exactly the failed and the not sent ones; every other id is left as it was.
   */
  lemma RunLeavesFailedAndNotSent(acted: seq<string>, steps: seq<PacedBulk.Step>, p: Page, id: string)
    requires AllDistinct(acted)
    requires PacedBulkRuns.Legal(PacedBulk.Start(|acted|), steps)
    requires PacedBulkRuns.Over(PacedBulkRuns.After(PacedBulk.Start(|acted|), steps))
    ensures var b := PacedBulkRuns.After(PacedBulk.Start(|acted|), steps);
            && |b.results| == |acted|
            && (var o := BulkOutcome.Sorted(acted, b.results, b.stopReason);
                && (id in acted ==> (id in AfterRun(p, o).ids <==>
                                     id in p.ids && (id in NamesOf(o.failed) || id in o.notSent)))
                && (id !in acted ==> (id in AfterRun(p, o).ids <==> id in p.ids)))
  {
    BulkOutcome.FinishedRunAccountsForEveryRow(acted, steps);
    var b := PacedBulkRuns.After(PacedBulk.Start(|acted|), steps);
    OutcomeLeavesTheRest(acted, BulkOutcome.Sorted(acted, b.results, b.stopReason), p, id);
  }

  lemma OutcomeLeavesTheRest(acted: seq<string>, o: BulkOutcome.Outcome, p: Page, id: string)
    requires AllDistinct(acted)
    requires multiset(o.done) + multiset(o.unaltered) + multiset(BulkOutcome.Names(o.failed)) + multiset(o.notSent) == multiset(acted)
    ensures id in acted ==> (id in AfterRun(p, o).ids <==> id in p.ids && (id in NamesOf(o.failed) || id in o.notSent))
    ensures id !in acted ==> (id in AfterRun(p, o).ids <==> id in p.ids)
  {
    ListsAreApart(acted, o, id);
  }

  // ---------- The hook ----------

  class SelectionHook {
    var key: string
    var ids: set<string>
    var current: string

    ghost function State(): Page
      reads this
    {
      Page(key, ids, current)
    }

    constructor (mode: ListMode)
      ensures State() == Initial(mode)
    {
      key, ids, current := ModeKey(mode), {}, ModeKey(mode);
    }

    method ShowList(mode: ListMode)
      modifies this
      ensures State() == Step(old(State()), SwitchTo(mode))
    {
      current := ModeKey(mode);
      if key != current {
        key, ids := current, {};
      }
    }

    method ToggleRow(captured: string, id: string)
      modifies this
      ensures State() == Step(old(State()), Toggle(captured, id))
    {
      var next: set<string> := if key == captured then ids else {};
      if id in next {
        next := next - {id};
      } else {
        next := next + {id};
      }
      key, ids := captured, next;
    }

    method SelectEveryRow(captured: string, rows: seq<string>)
      modifies this
      ensures State() == Step(old(State()), SelectAll(captured, rows))
    {
      key, ids := captured, ToSet(rows);
    }

    method ClearRows(captured: string)
      modifies this
      ensures State() == Step(old(State()), Clear(captured))
    {
      key, ids := captured, {};
    }

    /** Against whatever is selected now, under whatever key. */
    method RemoveRows(drop: seq<string>)
      modifies this
      ensures State() == Step(old(State()), Remove(ToSet(drop)))
    {
      var kept := ids;
      for i := 0 to |drop|
        invariant kept == ids - ToSet(drop[..i])
      {
        assert drop[..i + 1] == drop[..i] + [drop[i]];
        kept := kept - {drop[i]};
      }
      assert drop[..|drop|] == drop;
      ids := kept;
    }

    /** The rows every action works on. */
    method VisibleSelection(rows: seq<string>) returns (selected: seq<string>)
      ensures selected == SelectedRows(rows, Chosen(State()))
    {
      var chosen := if key == current then ids else {};
      selected := [];
      for i := 0 to |rows|
        invariant selected == SelectedRows(rows[..i], chosen)
      {
        assert rows[..i + 1][..i] == rows[..i];
        if rows[i] in chosen {
          selected := selected + [rows[i]];
        }
      }
      assert rows[..|rows|] == rows;
    }
  }
}
