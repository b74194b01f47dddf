/**
 * The task store's client side (src/hooks/useTasks.ts): the list as loaded, the
 * record inserted for a new task, and the update a move sends. The store itself
 * is not modelled: a move is modelled by its effect on the stored rows.
 */
module Tasks {
  import opened Wrappers
  import opened Types
  import opened Seqs
  import opened PositionSort

  /** The tasks currently in status `s`, in list order: `tasks.filter(t => t.status === s)`. */
  function InStatus(tasks: seq<Task>, s: Status): seq<Task> {
    Filter(tasks, (t: Task) => t.status == s)
  }

  /**
   * The list as the query returns it, `order('position', { ascending: true })`:
   * ascending by position. The order the store gives to equal positions is not
   * specified; the model keeps them in stored order.
   */
  function LoadOrder(rows: seq<Task>): (r: seq<Task>)
    ensures Ascending(r)
    ensures multiset(r) == multiset(rows)
  {
    SortAscendingPermutation(rows);
    SortByPosition(rows)
  }

  /**
   * The `Partial<Task>` handed to `createTask` and `updateTask`. An absent field
   * and a `null` one are both `None`.
   */
  datatype TaskDraft = TaskDraft(
    id: Option<string>,
    title: Option<string>,
    description: Option<string>,
    status: Option<Status>,
    priority: Option<Priority>,
    dueDate: Option<string>,
    category: Option<string>,
    tags: Option<seq<string>>,
    minutes: Option<nat>)

  /** `insertData`: the row `createTask` asks the store to insert. */
  datatype InsertRecord = InsertRecord(
    title: string,
    description: Option<string>,
    status: Option<Status>,
    priority: Option<Priority>,
    dueDate: Option<string>,
    category: Option<string>,
    tags: Option<seq<string>>,
    minutes: Option<nat>,
    userId: string,
    position: nat)

  /**
   * `createTask`'s mutation up to the insert call: fails without a signed-in
   * user, otherwise builds the row, placing the task after the tasks already in
   * its status (`'todo'` when the draft has none).
   */
  function CreateRecord(tasks: seq<Task>, draft: TaskDraft, user: Option<string>): (r: Result<InsertRecord, string>)
    ensures r.Failure? <==> user.None?
    ensures r.Failure? ==> r.error == "Not authenticated"
    ensures r.Success? ==> r.value.userId == user.value
    ensures r.Success? ==> r.value.position == |InStatus(tasks, draft.status.GetOr(Todo))|
    ensures r.Success? ==> r.value.title != ""
    ensures r.Success? && draft.title.Some? && draft.title.value != "" ==> r.value.title == draft.title.value
    ensures r.Success? && (draft.title.None? || draft.title.value == "") ==> r.value.title == "Untitled"
    ensures r.Success? ==> r.value.status == draft.status && r.value.priority == draft.priority
    ensures r.Success? ==> r.value.description == draft.description && r.value.dueDate == draft.dueDate
    ensures r.Success? ==> r.value.category == draft.category && r.value.tags == draft.tags
    ensures r.Success? ==> r.value.minutes == draft.minutes
  {
    match user
    case None => Failure("Not authenticated")
    case Some(uid) =>
      var maxPos := |InStatus(tasks, draft.status.GetOr(Todo))|;
      var title := if draft.title.None? || draft.title.value == "" then "Untitled" else draft.title.value;
      Success(InsertRecord(title, draft.description, draft.status, draft.priority, draft.dueDate,
                           draft.category, draft.tags, draft.minutes, uid, maxPos))
  }

  /** The client-side ordering invariant: in every status the positions are 0, 1, ..., n - 1. */
  ghost predicate Dense(tasks: seq<Task>) {
    && (forall i :: 0 <= i < |tasks| ==> 0 <= tasks[i].position < |InStatus(tasks, tasks[i].status)|)
    && (forall i, j :: 0 <= i < j < |tasks| && tasks[i].status == tasks[j].status ==>
          tasks[i].position != tasks[j].position)
  }

  /**
   * Creating a task keeps positions dense: the stored task, in the status the
   * count was taken for, lands exactly one past the last position of its column.
   */
  lemma CreateKeepsDense(tasks: seq<Task>, draft: TaskDraft, user: Option<string>, stored: Task)
    requires Dense(tasks)
    requires CreateRecord(tasks, draft, user).Success?
    requires stored.status == draft.status.GetOr(Todo)
    requires stored.position == CreateRecord(tasks, draft, user).value.position
    ensures Dense(tasks + [stored])
  {
    var after := tasks + [stored];
    forall s ensures |InStatus(after, s)| == |InStatus(tasks, s)| + (if stored.status == s then 1 else 0) {
      FilterAppend(tasks, [stored], (t: Task) => t.status == s);
      assert [stored][1..] == [];
    }
    forall i | 0 <= i < |after|
      ensures 0 <= after[i].position < |InStatus(after, after[i].status)|
    {
      if i < |tasks| { assert after[i] == tasks[i]; }
    }
  }

  /** `moveTask`'s payload `{ id, status, position }`. */
  datatype MoveIntent = MoveIntent(id: string, status: Status, position: nat)

  /**
   * The update `moveTask` sends, `update({ status, position }).eq('id', id)`,
   * applied to the stored rows.
   */
  function ApplyMove(tasks: seq<Task>, m: MoveIntent): (r: seq<Task>)
    ensures |r| == |tasks|
    ensures forall i :: 0 <= i < |tasks| && tasks[i].id != m.id ==> r[i] == tasks[i]
    ensures forall i :: 0 <= i < |tasks| && tasks[i].id == m.id ==>
              r[i] == tasks[i].(status := m.status, position := m.position)
  {
    if tasks == [] then []
    else
      var t := tasks[0];
      [if t.id == m.id then t.(status := m.status, position := m.position) else t] + ApplyMove(tasks[1..], m)
  }
}
