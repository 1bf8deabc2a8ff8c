/** The tag editor: a list of tags, a draft and a notice. */
module TagField {
  import opened Options
  import opened JsText

  datatype Notice = Duplicate | Limit | PendingLimit

  datatype Field = Field(tags: seq<string>, draft: string, notice: Option<Notice>, max: int)

  datatype Event =
    | SetDraft(value: string)
    | Add
    | RemoveTag(tag: string)
    | Reset(tags: seq<string>)
    | Commit

  function Opened(tags: seq<string>, max: int): Field { Field(tags, "", None, max) }

  /** `prev.filter((t) => t !== tag)` */
  function Drop(tags: seq<string>, tag: string): seq<string> {
    if tags == [] then []
    else Drop(tags[..|tags| - 1], tag) + if tags[|tags| - 1] == tag then [] else [tags[|tags| - 1]]
  }

  function AddDraft(f: Field): Field {
    var tag := Trim(f.draft);
    if tag == "" then f
    else if tag in f.tags then f.(notice := Some(Duplicate))
    else if |f.tags| >= f.max then f.(notice := Some(Limit))
    else f.(tags := f.tags + [tag], draft := "", notice := None)
  }

  /** What a save gets, and the editor after it. */
  function CommitPending(f: Field): (Option<seq<string>>, Field) {
    var tag := Trim(f.draft);
    if tag == "" || tag in f.tags then (Some(f.tags), f.(draft := ""))
    else if |f.tags| >= f.max then (None, f.(notice := Some(PendingLimit)))
    else (Some(f.tags + [tag]), f.(tags := f.tags + [tag], draft := "", notice := None))
  }

  function Step(f: Field, e: Event): Field {
    match e
    case SetDraft(value) => f.(draft := value, notice := None)
    case Add => AddDraft(f)
    case RemoveTag(tag) => f.(tags := Drop(f.tags, tag))
    case Reset(tags) => f.(tags := tags, draft := "", notice := None)
    case Commit => CommitPending(f).1
  }

  function Run(f: Field, es: seq<Event>): Field {
    if es == [] then f else Step(Run(f, es[..|es| - 1]), es[|es| - 1])
  }

  // ---------- Every run ----------

  lemma {:induction false} DropDrops(tags: seq<string>, tag: string, other: string)
    ensures |Drop(tags, tag)| <= |tags|
    ensures multiset(Drop(tags, tag))[other] == if other == tag then 0 else multiset(tags)[other]
  {
    if tags != [] {
      DropDrops(tags[..|tags| - 1], tag, other);
      assert tags == tags[..|tags| - 1] + [tags[|tags| - 1]];
    }
  }

  /** The tags an editor was opened with, or last reset to. */
  function Given(f: Field, es: seq<Event>): seq<string> {
    if es == [] then f.tags
    else if es[|es| - 1].Reset? then es[|es| - 1].tags
    else Given(f, es[..|es| - 1])
  }

  function Largest(a: int, b: int): int { if a <= b then b else a }

  /** No tag more often than it was given, or once; and no more tags than were given, or than the limit. */
  predicate Within(f: Field, given: seq<string>, tag: string) {
    && multiset(f.tags)[tag] <= Largest(1, multiset(given)[tag])
    && |f.tags| <= Largest(|given|, f.max)
  }

  lemma AppendNew(tags: seq<string>, tag: string, other: string)
    requires tag !in tags
    ensures multiset(tags + [tag])[other] == if other == tag then 1 else multiset(tags)[other]
  {
    assert multiset(tags)[tag] == 0;
  }

  lemma StepStaysWithin(f: Field, e: Event, given: seq<string>, tag: string)
    requires Within(f, given, tag) && !e.Reset?
    ensures Within(Step(f, e), given, tag)
  {
    if e.RemoveTag? {
      DropDrops(f.tags, e.tag, tag);
    } else if Trim(f.draft) !in f.tags {
      AppendNew(f.tags, Trim(f.draft), tag);
    }
  }

  /**
   In every run no tag is ever duplicated, unless it was given so, and the list never
   grows past the limit, unless it was given so.
   */
  lemma {:induction false} TagsStayWithin(f: Field, es: seq<Event>, tag: string)
    ensures Run(f, es).max == f.max
    ensures Within(Run(f, es), Given(f, es), tag)
  {
    if es != [] {
      TagsStayWithin(f, es[..|es| - 1], tag);
      if !es[|es| - 1].Reset? {
        StepStaysWithin(Run(f, es[..|es| - 1]), es[|es| - 1], Given(f, es[..|es| - 1]), tag);
      }
    }
  }

  predicate NoDuplicates(tags: seq<string>) {
    forall i, j :: 0 <= i < j < |tags| ==> tags[i] != tags[j]
  }

  lemma {:induction false} DistinctCounts(tags: seq<string>)
    ensures NoDuplicates(tags) <==> forall tag :: multiset(tags)[tag] <= 1
  {
    if tags != [] {
      var last := |tags| - 1;
      DistinctCounts(tags[..last]);
      assert tags == tags[..last] + [tags[last]];
      if NoDuplicates(tags) {
        assert tags[last] !in tags[..last];
      } else if NoDuplicates(tags[..last]) {
        var i :| 0 <= i < last && tags[i] == tags[last];
        assert tags[..last][i] in multiset(tags[..last]);
        assert multiset(tags)[tags[last]] >= 2;
      } else {
        var tag :| multiset(tags[..last])[tag] > 1;
        assert multiset(tags)[tag] > 1;
      }
    }
  }

  /** An editor given distinct tags keeps them distinct through every run. */
  lemma TagsStayDistinct(f: Field, es: seq<Event>)
    requires NoDuplicates(Given(f, es))
    ensures NoDuplicates(Run(f, es).tags)
  {
    DistinctCounts(Given(f, es));
    DistinctCounts(Run(f, es).tags);
    forall tag ensures multiset(Run(f, es).tags)[tag] <= 1 {
      TagsStayWithin(f, es, tag);
    }
  }

  // ---------- Typing, adding, removing, resetting ----------

  /**
   At any point of a run, typing a text and pressing Add appends it, trimmed, if and
   only if that is a new tag and there is room; otherwise the text stays, and the
   notice says why, unless there was nothing to add.
   */
  lemma TypedTagIsAddedIff(f: Field, es: seq<Event>, typed: string)
    ensures var before, after := Run(f, es), Run(f, es + [SetDraft(typed), Add]); var tag := Trim(typed);
            var fits := tag != "" && tag !in before.tags && |before.tags| < before.max;
            && (after.tags == before.tags + [tag] <==> fits)
            && (fits ==> after.draft == "" && after.notice.None?)
            && (!fits ==> after.tags == before.tags && after.draft == typed)
            && (!fits ==> after.notice == if tag == "" then None else if tag in before.tags then Some(Duplicate) else Some(Limit))
  {
    var all := es + [SetDraft(typed), Add];
    assert all[..|all| - 1] == es + [SetDraft(typed)];
    assert (es + [SetDraft(typed)])[..|es|] == es;
  }

  lemma {:induction false} DropAppend(a: seq<string>, b: seq<string>, tag: string)
    ensures Drop(a + b, tag) == Drop(a, tag) + Drop(b, tag)
  {
    if b == [] {
      assert a + b == a;
    } else {
      DropAppend(a, b[..|b| - 1], tag);
      assert (a + b)[..|a + b| - 1] == a + b[..|b| - 1];
    }
  }

  lemma {:induction false} DropKeepsOthers(tags: seq<string>, tag: string)
    requires tag !in tags
    ensures Drop(tags, tag) == tags
  {
    if tags != [] {
      DropKeepsOthers(tags[..|tags| - 1], tag);
    }
  }

  lemma DropTheTag(left: seq<string>, tag: string)
    requires tag !in left
    ensures Drop(left + [tag], tag) == left
  {
    DropKeepsOthers(left, tag);
    assert (left + [tag])[..|left|] == left;
  }

  lemma DropTakesOut(left: seq<string>, tag: string, right: seq<string>)
    requires tag !in left && tag !in right
    ensures Drop(left + [tag] + right, tag) == left + right
  {
    DropAppend(left + [tag], right, tag);
    DropTheTag(left, tag);
    DropKeepsOthers(right, tag);
  }

  /** At any point of a run, removing a tag takes it out and leaves everything else as it was, and in its place. */
  lemma RemoveTakesItOut(f: Field, es: seq<Event>, left: seq<string>, tag: string, right: seq<string>)
    requires Run(f, es).tags == left + [tag] + right && tag !in left && tag !in right
    ensures Run(f, es + [RemoveTag(tag)]) == Run(f, es).(tags := left + right)
  {
    assert (es + [RemoveTag(tag)])[..|es|] == es;
    DropTakesOut(left, tag, right);
  }

  /** Removing a tag just added gives back the tags there were. */
  lemma RemoveUndoesAdd(f: Field, es: seq<Event>, typed: string)
    requires Run(f, es + [SetDraft(typed), Add]).tags != Run(f, es).tags
    ensures Run(f, es + [SetDraft(typed), Add] + [RemoveTag(Trim(typed))]).tags == Run(f, es).tags
  {
    TypedTagIsAddedIff(f, es, typed);
    var tags := Run(f, es).tags;
    assert tags + [Trim(typed)] == tags + [Trim(typed)] + [];
    RemoveTakesItOut(f, es + [SetDraft(typed), Add], tags, Trim(typed), []);
    assert tags + [] == tags;
  }

  /** A reset opens the editor afresh: what is saved next is exactly what it was reset to. */
  lemma ResetOpensAfresh(f: Field, es: seq<Event>, tags: seq<string>)
    ensures Run(f, es + [Reset(tags)]) == Opened(tags, Run(f, es).max)
    ensures Run(f, es + [Reset(tags)]) == Field(tags, "", None, Run(f, es).max)
    ensures CommitPending(Run(f, es + [Reset(tags)])).0 == Some(tags)
  {
    assert (es + [Reset(tags)])[..|es|] == es;
    assert Trim("") == "";
  }

  // ---------- Saving ----------

  /** A save is refused exactly when the typed tag is new and the list is full; then nothing is lost, and the notice says so. */
  lemma CommitKeepsOrExplains(f: Field)
    ensures var (saved, after) := CommitPending(f); var tag := Trim(f.draft);
            && (saved.None? <==> tag != "" && tag !in f.tags && |f.tags| >= f.max)
            && (saved.None? ==> after == f.(notice := Some(PendingLimit)))
            && (saved.Some? ==> saved.value == after.tags && after.draft == "" && f.tags <= saved.value)
            && (saved.Some? && tag != "" ==> tag in saved.value)
            && (saved.Some? ==> |saved.value| <= |f.tags| + if tag in f.tags then 0 else 1)
            && (saved == Some(f.tags) ==> after.notice == f.notice)
            && (saved.Some? && saved.value != f.tags ==> saved.value == f.tags + [tag] && tag != "" && after.notice.None?)
  {
  }

  /** Pressing Add before saving never changes what is saved. */
  lemma AddThenCommitSavesTheSame(f: Field)
    ensures CommitPending(AddDraft(f)).0 == CommitPending(f).0
    ensures |AddDraft(f).tags| > |f.tags| ==> AddDraft(f) == CommitPending(f).1
    ensures AddDraft(f).tags == f.tags && Trim(f.draft) != "" ==> AddDraft(f).notice.Some? && AddDraft(f).draft == f.draft
  {
    assert Trim("") == "";
  }

  /** Saving twice is saving once. */
  lemma CommitIsIdempotent(f: Field)
    ensures var (saved, after) := CommitPending(f); CommitPending(after) == (saved, after)
  {
    assert Trim("") == "";
  }

  /** At any point of a run the editor after a save shows what was saved, and after a refusal everything it showed, and why. */
  lemma SavedIsWhatStays(f: Field, es: seq<Event>)
    ensures var (saved, _) := CommitPending(Run(f, es)); var before, after := Run(f, es), Run(f, es + [Commit]);
            && (saved.Some? ==> after.tags == saved.value && after.draft == "")
            && (saved.None? ==> after.tags == before.tags && after.draft == before.draft && after.notice == Some(PendingLimit))
            && Run(f, es + [Commit, Commit]) == after
  {
    assert (es + [Commit])[..|es|] == es;
    var twice := es + [Commit, Commit];
    assert twice[..|twice| - 1] == es + [Commit];
    CommitIsIdempotent(Run(f, es));
  }

  /** A tag added from the draft has no space around it. */
  lemma TagsAreTrimmed(f: Field, es: seq<Event>)
    requires forall tag :: tag in Given(f, es) ==> IsTrimmed(tag) && tag != ""
    ensures forall tag :: tag in Run(f, es).tags ==> IsTrimmed(tag) && tag != ""
  {
    if es != [] {
      var before := Run(f, es[..|es| - 1]);
      TrimIsTrimmed(before.draft);
      if !es[|es| - 1].Reset? {
        TagsAreTrimmed(f, es[..|es| - 1]);
      }
      if es[|es| - 1].RemoveTag? {
        forall tag | tag in Drop(before.tags, es[|es| - 1].tag) ensures tag in before.tags {
          DropDrops(before.tags, es[|es| - 1].tag, tag);
          assert tag in multiset(Drop(before.tags, es[|es| - 1].tag));
          assert tag in multiset(before.tags);
        }
      }
    }
  }

  // ---------- The hook ----------

  class TagEditor {
    var tags: seq<string>
    var draft: string
    var notice: Option<Notice>
    const max: int

    ghost function State(): Field
      reads this
    {
      Field(tags, draft, notice, max)
    }

    constructor (initialTags: seq<string>, max: int)
      ensures State() == Opened(initialTags, max)
    {
      tags, draft, notice := initialTags, "", None;
      this.max := max;
    }

    method TypeDraft(value: string)
      modifies this
      ensures State() == Step(old(State()), SetDraft(value))
    {
      draft := value;
      notice := None;
    }

    method AddTag()
      modifies this
      ensures State() == Step(old(State()), Add)
    {
      var tag := Trim(draft);
      if tag == "" {
        return;
      }
      if tag in tags {
        notice := Some(Duplicate);
        return;
      }
      if |tags| >= max {
        notice := Some(Limit);
        return;
      }
      tags := tags + [tag];
      draft := "";
      notice := None;
    }

    method Remove(tag: string)
      modifies this
      ensures State() == Step(old(State()), RemoveTag(tag))
    {
      var kept: seq<string> := [];
      for i := 0 to |tags|
        invariant kept == Drop(tags[..i], tag)
      {
        assert tags[..i + 1][..i] == tags[..i];
        if tags[i] != tag {
          kept := kept + [tags[i]];
        }
      }
      assert tags[..|tags|] == tags;
      tags := kept;
    }

    method ResetTo(next: seq<string>)
      modifies this
      ensures State() == Step(old(State()), Reset(next))
    {
      tags := next;
      draft := "";
      notice := None;
    }

    method CommitDraft() returns (saved: Option<seq<string>>)
      modifies this
      ensures (saved, State()) == CommitPending(old(State()))
    {
      var tag := Trim(draft);
      if tag == "" || tag in tags {
        if draft != "" {
          draft := "";
        }
        return Some(tags);
      }
      if |tags| >= max {
        notice := Some(PendingLimit);
        return None;
      }
      tags := tags + [tag];
      draft := "";
      notice := None;
      return Some(tags);
    }
  }
}
