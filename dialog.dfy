/**
 * The task form (src/components/TaskDialog.tsx): the eight field values it
 * keeps, how they are filled from the task being edited or reset for a new
 * one, and how `handleSave` turns them into the partial task it hands on.
 */
module Dialog {
  import opened Wrappers
  import opened JsStrings
  import opened Types
  import opened Seqs
  import opened Tasks

  /** The separator `tags.join(', ')` puts between tags. */
  const TagSeparator: string := ", "

  /** `task.tags?.join(', ') || ''`: the text box's content for a task's tags. */
  function TagsText(tags: Option<seq<string>>): string {
    if tags.Some? then Join(tags.value, TagSeparator) else ""
  }

  /** `map(t => t.trim())`. */
  function TrimAll(parts: seq<string>): (r: seq<string>)
    ensures |r| == |parts|
    ensures forall k :: 0 <= k < |parts| ==> r[k] == Trim(parts[k])
  {
    if parts == [] then [] else [Trim(parts[0])] + TrimAll(parts[1..])
  }

  /** A tag as the form saves it: non-empty, no comma, no white space at either end. */
  predicate CleanTag(t: string) {
    t != "" && ',' !in t && IsTrimmed(t)
  }

  /** A piece of the split text that is not blank trims to a clean tag. */
  lemma TrimmedPieceClean(piece: string)
    requires ',' !in piece && Trim(piece) != ""
    ensures CleanTag(Trim(piece))
  {
    TrimSpec(piece);
    var k := |piece| - |TrimStart(piece)|;
    assert Trim(piece) == piece[k..k + |Trim(piece)|];
  }

  /** `tagsInput.split(',').map(t => t.trim()).filter(Boolean)`. */
  function ParseTags(input: string): (r: seq<string>)
    ensures |r| <= |Split(input, ',')|
  {
    Filter(TrimAll(Split(input, ',')), (t: string) => t != "")
  }

  /** Every tag the form saves is clean, whatever was typed. */
  lemma ParseTagsClean(input: string)
    ensures forall t :: t in ParseTags(input) ==> CleanTag(t)
  {
    var pieces := Split(input, ',');
    var trimmed := TrimAll(pieces);
    SplitPiecesLackSeparator(input, ',');
    forall t | t in ParseTags(input) ensures CleanTag(t) {
      FilterMembership(trimmed, (t: string) => t != "", t);
      var k :| 0 <= k < |trimmed| && trimmed[k] == t;
      TrimmedPieceClean(pieces[k]);
    }
  }

  /** The field values `useEffect` leaves in the form. */
  datatype Fields = Fields(
    title: string,
    description: string,
    priority: Priority,
    status: Status,
    dueDate: string,
    category: string,
    tagsInput: string,
    minutes: nat)

  /** Lines 29-47: the fields of the task being edited, or the blank form over `defaultStatus`. */
  function Loaded(task: Option<Task>, defaultStatus: Status): (r: Fields)
    ensures task.Some? ==> r.title == task.value.title && r.priority == task.value.priority
                           && r.status == task.value.status
    ensures task.Some? ==> r.description == task.value.description.GetOr("")
                           && r.dueDate == task.value.dueDate.GetOr("")
                           && r.category == task.value.category.GetOr("")
    ensures task.Some? ==> r.tagsInput == TagsText(task.value.tags) && r.minutes == task.value.minutes.GetOr(0)
    ensures task.None? ==> r == Fields("", "", Medium, defaultStatus, "", "", "", 0)
  {
    match task
    case Some(t) =>
      Fields(t.title, t.description.GetOr(""), t.priority, t.status, t.dueDate.GetOr(""),
             t.category.GetOr(""), TagsText(t.tags), t.minutes.GetOr(0))
    case None =>
      Fields("", "", Medium, defaultStatus, "", "", "", 0)
  }

  /** `x || null` for a string field: the empty string is saved as absent. */
  function NonEmpty(s: string): (r: Option<string>)
    ensures r.None? <==> s == ""
    ensures r.Some? ==> r.value == s
  {
    if s == "" then None else Some(s)
  }

  /**
   * Lines 51-63: nothing is saved while the trimmed title is empty; otherwise
   * the partial task carries the edited task's id (only when editing), the
   * trimmed title, the description as typed, empty due date and category as
   * absent, and the parsed tags, absent when there are none.
   */
  function SaveDraft(f: Fields, task: Option<Task>): (r: Option<TaskDraft>)
    ensures r.None? <==> Trim(f.title) == ""
    ensures r.Some? ==> (r.value.id.Some? <==> task.Some?)
    ensures r.Some? && task.Some? ==> r.value.id == Some(task.value.id)
    ensures r.Some? ==> r.value.title == Some(Trim(f.title)) && IsTrimmed(Trim(f.title))
    ensures r.Some? ==> r.value.description == Some(f.description)
    ensures r.Some? ==> r.value.priority == Some(f.priority) && r.value.status == Some(f.status)
    ensures r.Some? ==> r.value.dueDate == NonEmpty(f.dueDate) && r.value.category == NonEmpty(f.category)
    ensures r.Some? ==> (r.value.dueDate.None? <==> f.dueDate == "")
    ensures r.Some? ==> (r.value.category.None? <==> f.category == "")
    ensures r.Some? ==> (r.value.tags.None? <==> ParseTags(f.tagsInput) == [])
    ensures r.Some? && r.value.tags.Some? ==> r.value.tags.value == ParseTags(f.tagsInput)
    ensures r.Some? ==> r.value.minutes == Some(f.minutes)
  {
    TrimSpec(f.title);
    if Trim(f.title) == "" then None
    else
      var tags := ParseTags(f.tagsInput);
      Some(TaskDraft(
        id := if task.Some? then Some(task.value.id) else None,
        title := Some(Trim(f.title)),
        description := Some(f.description),
        status := Some(f.status),
        priority := Some(f.priority),
        dueDate := NonEmpty(f.dueDate),
        category := NonEmpty(f.category),
        tags := if |tags| > 0 then Some(tags) else None,
        minutes := Some(f.minutes)))
  }

  /** Trimming every piece of `[p] + PadEach(" ", ps)` gives back the clean tags. */
  lemma {:induction false} TrimPadded(parts: seq<string>)
    requires forall k :: 0 <= k < |parts| ==> CleanTag(parts[k])
    ensures TrimAll(PadEach(" ", parts)) == parts
  {
    if parts != [] {
      TrimIgnoresLeadingSpace(parts[0]);
      TrimIdentity(parts[0]);
      TrimPadded(parts[1..]);
      assert PadEach(" ", parts)[1..] == PadEach(" ", parts[1..]);
    }
  }

  lemma {:induction false} FilterKeepsNonEmpty(parts: seq<string>)
    requires forall k :: 0 <= k < |parts| ==> parts[k] != ""
    ensures Filter(parts, (t: string) => t != "") == parts
  {
    if parts != [] {
      FilterKeepsNonEmpty(parts[1..]);
    }
  }

  /**
   * Joining clean tags with `', '` and parsing the text back gives the same
   * tags: what the form shows for a task's tags is saved unchanged.
   */
  lemma TagsRoundTrip(tags: seq<string>)
    requires forall k :: 0 <= k < |tags| ==> CleanTag(tags[k])
    ensures ParseTags(TagsText(Some(tags))) == tags
  {
    if tags == [] {
      assert IndexOf("", ',') == -1;
      assert Split("", ',') == [""];
      assert TrimAll([""]) == [""];
      assert Filter([""], (t: string) => t != "") == [];
    } else {
      assert TagSeparator == [','] + " ";
      SplitJoin(tags, ',', " ");
      var pieces := [tags[0]] + PadEach(" ", tags[1..]);
      TrimPadded(tags[1..]);
      TrimIdentity(tags[0]);
      assert TrimAll(pieces) == [tags[0]] + TrimAll(PadEach(" ", tags[1..])) by {
        assert pieces[1..] == PadEach(" ", tags[1..]);
      }
      FilterKeepsNonEmpty(tags);
    }
  }

  /**
   * Opening a task and saving it untouched gives back its own values, but for
   * the form's normalisations: its id is kept, the title is trimmed, an absent
   * description becomes `""`, an empty due date or category becomes absent,
   * absent minutes become 0, and an empty tag list becomes absent.
   */
  lemma EditUnchanged(task: Task, defaultStatus: Status)
    requires Trim(task.title) != ""
    requires task.tags.Some? ==> forall k :: 0 <= k < |task.tags.value| ==> CleanTag(task.tags.value[k])
    ensures var d := SaveDraft(Loaded(Some(task), defaultStatus), Some(task));
      && d.Some?
      && d.value == TaskDraft(
           Some(task.id), Some(Trim(task.title)), Some(task.description.GetOr("")),
           Some(task.status), Some(task.priority),
           NonEmpty(task.dueDate.GetOr("")), NonEmpty(task.category.GetOr("")),
           if task.tags == Some([]) then None else task.tags,
           Some(task.minutes.GetOr(0)))
  {
    var f := Loaded(Some(task), defaultStatus);
    var tags := if task.tags.Some? then task.tags.value else [];
    TagsRoundTrip(tags);
    assert f.tagsInput == TagsText(Some(tags));
    assert ParseTags(f.tagsInput) == tags;
    assert f.dueDate == task.dueDate.GetOr("") && f.category == task.category.GetOr("");
  }

  /** The form's state: the eight field values and whether the dialog is open. */
  class TaskForm {
    var title: string
    var description: string
    var priority: Priority
    var status: Status
    var dueDate: string
    var category: string
    var tagsInput: string
    var minutes: nat
    var open: bool

    function Snapshot(): Fields
      reads this
    {
      Fields(title, description, priority, status, dueDate, category, tagsInput, minutes)
    }

    /** Lines 19-26: the initial field values. */
    constructor(defaultStatus: Status, open: bool)
      ensures Snapshot() == Loaded(None, defaultStatus) && this.open == open
    {
      title := "";
      description := "";
      priority := Medium;
      status := defaultStatus;
      dueDate := "";
      category := "";
      tagsInput := "";
      minutes := 0;
      this.open := open;
    }

    /** The effect of lines 28-48, run when the task, the default status or `open` changes. */
    method Load(task: Option<Task>, defaultStatus: Status)
      modifies this
      ensures Snapshot() == Loaded(task, defaultStatus) && open == old(open)
    {
      if task.Some? {
        var t := task.value;
        title := t.title;
        description := t.description.GetOr("");
        priority := t.priority;
        status := t.status;
        dueDate := t.dueDate.GetOr("");
        category := t.category.GetOr("");
        tagsInput := TagsText(t.tags);
        minutes := t.minutes.GetOr(0);
      } else {
        title := "";
        description := "";
        priority := Medium;
        status := defaultStatus;
        dueDate := "";
        category := "";
        tagsInput := "";
        minutes := 0;
      }
    }

    /**
     * `handleSave`: with a blank title nothing is handed on and the dialog stays
     * as it is; otherwise the draft is handed on and the dialog closes.
     */
    method Save(task: Option<Task>) returns (saved: Option<TaskDraft>)
      modifies this
      ensures saved == SaveDraft(old(Snapshot()), task)
      ensures Snapshot() == old(Snapshot())
      ensures open == (if saved.None? then old(open) else false)
    {
      saved := SaveDraft(Snapshot(), task);
      if saved.Some? {
        open := false;
      }
    }
  }
}
