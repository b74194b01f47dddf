/**
 * The board page (src/pages/Board.tsx): grouping the loaded tasks into the four
 * columns, and turning a drop (the dragged task's id, the id under the pointer
 * if any) into at most one move.
 */
module Board {
  import opened Wrappers
  import opened Types
  import opened Seqs
  import opened PositionSort
  import opened Tasks

  /** `tasksByStatus[s]`: the tasks in status `s`, stably sorted by position. */
  function Bucket(tasks: seq<Task>, s: Status): seq<Task> {
    SortByPosition(InStatus(tasks, s))
  }

  lemma InStatusSnoc(tasks: seq<Task>, t: Task, s: Status)
    ensures InStatus(tasks + [t], s) == InStatus(tasks, s) + (if t.status == s then [t] else [])
  {
    FilterAppend(tasks, [t], (x: Task) => x.status == s);
    assert [t][1..] == [];
  }

  /** The `forEach` of `tasksByStatus`: every task pushed, in list order, onto the array of its status. */
  method GroupByStatus(tasks: seq<Task>) returns (m: map<Status, seq<Task>>)
    ensures forall s :: s in m && m[s] == InStatus(tasks, s)
  {
    m := map[Todo := [], InProgress := [], Review := [], Completed := []];
    assert tasks[..0] == [];
    forall s ensures s in m && m[s] == InStatus(tasks[..0], s) {
      match s
      case Todo =>
      case InProgress =>
      case Review =>
      case Completed =>
    }
    for i := 0 to |tasks|
      invariant forall s :: s in m && m[s] == InStatus(tasks[..i], s)
    {
      var t := tasks[i];
      assert tasks[..i + 1] == tasks[..i] + [t];
      forall s ensures InStatus(tasks[..i + 1], s) == InStatus(tasks[..i], s) + (if t.status == s then [t] else []) {
        InStatusSnoc(tasks[..i], t, s);
      }
      m := m[t.status := m[t.status] + [t]];
    }
    assert tasks[..|tasks|] == tasks;
  }

  /** One column's `arr.sort(...)`, done in place on an array. */
  method SortColumn(column: seq<Task>) returns (r: seq<Task>)
    ensures r == SortByPosition(column)
  {
    var arr := new Task[|column|](i requires 0 <= i < |column| => column[i]);
    assert arr[..] == column;
    SortInPlace(arr);
    r := arr[..];
  }

  /**
   * `tasksByStatus`: every task is pushed onto the array of its status, then each
   * array is sorted by position.
   */
  method TasksByStatus(tasks: seq<Task>) returns (buckets: map<Status, seq<Task>>)
    ensures forall s :: s in buckets && buckets[s] == Bucket(tasks, s)
  {
    var m := GroupByStatus(tasks);
    StatusesEnumerated();
    for k := 0 to |AllStatuses|
      invariant forall s :: s in m
      invariant forall j :: 0 <= j < k ==> m[AllStatuses[j]] == Bucket(tasks, AllStatuses[j])
      invariant forall j :: k <= j < |AllStatuses| ==> m[AllStatuses[j]] == InStatus(tasks, AllStatuses[j])
    {
      var s := AllStatuses[k];
      var sorted := SortColumn(m[s]);
      m := m[s := sorted];
    }
    forall s ensures m[s] == Bucket(tasks, s) {
      match s
      case Todo => assert AllStatuses[0] == s;
      case InProgress => assert AllStatuses[1] == s;
      case Review => assert AllStatuses[2] == s;
      case Completed => assert AllStatuses[3] == s;
    }
    buckets := m;
  }

  /** A task sits in the bucket of its status as often as in the list, and in no other bucket. */
  lemma BucketCount(tasks: seq<Task>, s: Status, x: Task)
    ensures multiset(Bucket(tasks, s))[x] == if x.status == s then multiset(tasks)[x] else 0
  {
    SortAscendingPermutation(InStatus(tasks, s));
    FilterMultiset(tasks, (y: Task) => y.status == s, x);
  }

  /** Each bucket is ascending by position and holds exactly the tasks of its status. */
  lemma BucketMembers(tasks: seq<Task>, s: Status)
    ensures Ascending(Bucket(tasks, s))
    ensures forall t :: t in Bucket(tasks, s) <==> t in tasks && t.status == s
  {
    SortAscendingPermutation(InStatus(tasks, s));
    forall t ensures t in Bucket(tasks, s) <==> t in tasks && t.status == s {
      BucketCount(tasks, s, t);
      assert t in Bucket(tasks, s) <==> t in multiset(Bucket(tasks, s));
      assert t in tasks <==> t in multiset(tasks);
    }
  }

  /** The four buckets together hold every task exactly once. */
  lemma BucketsPartition(tasks: seq<Task>)
    ensures multiset(Bucket(tasks, Todo)) + multiset(Bucket(tasks, InProgress))
          + multiset(Bucket(tasks, Review)) + multiset(Bucket(tasks, Completed)) == multiset(tasks)
  {
    var all := multiset(Bucket(tasks, Todo)) + multiset(Bucket(tasks, InProgress))
             + multiset(Bucket(tasks, Review)) + multiset(Bucket(tasks, Completed));
    forall x ensures all[x] == multiset(tasks)[x] {
      BucketCount(tasks, Todo, x);
      BucketCount(tasks, InProgress, x);
      BucketCount(tasks, Review, x);
      BucketCount(tasks, Completed, x);
    }
    assert all == multiset(tasks);
  }

  /** `tasks.findIndex(t => t.id === id)`: the first index holding `id`, or -1. */
  function FindIndex(s: seq<Task>, id: string): (r: int)
    ensures -1 <= r < |s|
    ensures r >= 0 ==> s[r].id == id && forall k :: 0 <= k < r ==> s[k].id != id
    ensures r < 0 <==> forall k :: 0 <= k < |s| ==> s[k].id != id
  {
    if s == [] then -1
    else if s[0].id == id then 0
    else
      var r := FindIndex(s[1..], id);
      if r < 0 then -1 else r + 1
  }

  /** `tasks.find(t => t.id === id)`: the first task with that id. */
  function Find(s: seq<Task>, id: string): (r: Option<Task>)
    ensures r.Some? ==> r.value.id == id && r.value in s
    ensures r.None? <==> forall k :: 0 <= k < |s| ==> s[k].id != id
  {
    var i := FindIndex(s, id);
    if i >= 0 then Some(s[i]) else None
  }

  /** The task `find` returns is the first with the id: whatever precedes it has another id. */
  lemma FindIsFirst(s: seq<Task>, id: string, k: int)
    requires 0 <= k < |s| && s[k].id == id
    requires forall j :: 0 <= j < k ==> s[j].id != id
    ensures Find(s, id) == Some(s[k])
  {
  }

  /** `filter(t => t.id !== id)`: the list without the task being moved. */
  function Without(s: seq<Task>, id: string): seq<Task> {
    Filter(s, (t: Task) => t.id != id)
  }

  /** `targetTasks`: the target column without the moved task. */
  function TargetTasks(tasks: seq<Task>, s: Status, id: string): seq<Task> {
    Without(Bucket(tasks, s), id)
  }

  /** The tasks in status `s` other than `id`, in list order. */
  function Others(tasks: seq<Task>, s: Status, id: string): seq<Task> {
    Filter(tasks, (t: Task) => t.status == s && t.id != id)
  }

  /**
   * `handleDragEnd`: the move a drop asks for, if any. `overId` is the id under
   * the pointer, either a task's id or a column's (a status string).
   */
  function DropIntent(tasks: seq<Task>, activeId: string, overId: Option<string>): Option<MoveIntent> {
    if overId.None? then None
    else
      var task := Find(tasks, activeId);
      if task.None? then None
      else
        var overTask := Find(tasks, overId.value);
        var target := if overTask.Some? then Some(overTask.value.status) else ParseStatus(overId.value);
        if target.None? then None
        else
          var targetTasks := TargetTasks(tasks, target.value, activeId);
          var newPosition :=
            if overTask.Some? && overTask.value.id != activeId then
              var overIndex := FindIndex(targetTasks, overTask.value.id);
              if overIndex >= 0 then overIndex else |targetTasks|
            else |targetTasks|;
          Some(MoveIntent(activeId, target.value, newPosition))
  }

  /**
   * A drop produces no move exactly when nothing is under the pointer, the
   * dragged id is not a loaded task, or the id under the pointer is neither a
   * task nor a status.
   */
  lemma DropAborts(tasks: seq<Task>, activeId: string, overId: Option<string>)
    ensures DropIntent(tasks, activeId, overId).None? <==>
      || overId.None?
      || Find(tasks, activeId).None?
      || (Find(tasks, overId.value).None? && ParseStatus(overId.value).None?)
  {
  }

  /**
   * A move is for the dragged task; its status is that of the task under the
   * pointer, or else the status the column id names.
   */
  lemma DropTarget(tasks: seq<Task>, activeId: string, overId: Option<string>)
    requires DropIntent(tasks, activeId, overId).Some?
    ensures DropIntent(tasks, activeId, overId).value.id == activeId
    ensures Find(tasks, overId.value).Some? ==>
              DropIntent(tasks, activeId, overId).value.status == Find(tasks, overId.value).value.status
    ensures Find(tasks, overId.value).None? ==>
              StatusId(DropIntent(tasks, activeId, overId).value.status) == overId.value
  {
  }

  /** The target column without the moved task holds exactly the other tasks of that status. */
  lemma TargetTasksAreOthers(tasks: seq<Task>, s: Status, id: string)
    ensures multiset(TargetTasks(tasks, s, id)) == multiset(Others(tasks, s, id))
    ensures |TargetTasks(tasks, s, id)| == |Others(tasks, s, id)|
  {
    forall x ensures multiset(TargetTasks(tasks, s, id))[x] == multiset(Others(tasks, s, id))[x] {
      FilterMultiset(Bucket(tasks, s), (t: Task) => t.id != id, x);
      SortAscendingPermutation(InStatus(tasks, s));
      FilterMultiset(tasks, (t: Task) => t.status == s, x);
      FilterMultiset(tasks, (t: Task) => t.status == s && t.id != id, x);
    }
    assert multiset(TargetTasks(tasks, s, id)) == multiset(Others(tasks, s, id));
    assert |multiset(TargetTasks(tasks, s, id))| == |multiset(Others(tasks, s, id))|;
  }

  /**
   * The new position lies in [0, N], N the number of tasks in the target status
   * other than the moved one; dropping on a column (not on a task) gives N.
   */
  lemma DropPositionBounds(tasks: seq<Task>, activeId: string, overId: Option<string>)
    requires DropIntent(tasks, activeId, overId).Some?
    ensures var m := DropIntent(tasks, activeId, overId).value;
      m.position <= |Others(tasks, m.status, activeId)|
    ensures var m := DropIntent(tasks, activeId, overId).value;
      Find(tasks, overId.value).None? ==> m.position == |Others(tasks, m.status, activeId)|
  {
    var m := DropIntent(tasks, activeId, overId).value;
    TargetTasksAreOthers(tasks, m.status, activeId);
  }

  /**
   * Dropping on another task inserts before it: the position is that task's
   * index in the target column once the moved task is taken out, so strictly
   * below N.
   */
  lemma DropOnOtherTask(tasks: seq<Task>, activeId: string, overId: string)
    requires Find(tasks, activeId).Some?
    requires Find(tasks, overId).Some? && overId != activeId
    ensures DropIntent(tasks, activeId, Some(overId)).Some?
    ensures var m := DropIntent(tasks, activeId, Some(overId)).value;
      var column := TargetTasks(tasks, m.status, activeId);
      && m.status == Find(tasks, overId).value.status
      && m.position < |column|
      && column[m.position].id == overId
      && (forall k :: 0 <= k < m.position ==> column[k].id != overId)
  {
    var over := Find(tasks, overId).value;
    var s := over.status;
    FilterMembership(tasks, (t: Task) => t.status == s, over);
    SortAscendingPermutation(InStatus(tasks, s));
    assert over in multiset(InStatus(tasks, s));
    assert over in Bucket(tasks, s);
    FilterMembership(Bucket(tasks, s), (t: Task) => t.id != activeId, over);
    var column := TargetTasks(tasks, s, activeId);
    var k :| 0 <= k < |column| && column[k] == over;
    assert FindIndex(column, overId) >= 0;
  }

  /**
   * Dropping a task on itself is not a no-op: it moves the task to the end of
   * its own column (position N, the number of other tasks in its status).
   */
  lemma DropOnSelf(tasks: seq<Task>, activeId: string)
    requires Find(tasks, activeId).Some?
    ensures var task := Find(tasks, activeId).value;
      DropIntent(tasks, activeId, Some(activeId))
        == Some(MoveIntent(activeId, task.status, |Others(tasks, task.status, activeId)|))
  {
    TargetTasksAreOthers(tasks, Find(tasks, activeId).value.status, activeId);
  }

  /** How many tasks in `s` carry `id`. */
  function CountId(s: seq<Task>, id: string): (r: nat)
    ensures r <= |s|
  {
    if s == [] then 0 else (if s[0].id == id then 1 else 0) + CountId(s[1..], id)
  }

  lemma FindIndexCons(h: Task, w: seq<Task>, b: string)
    ensures FindIndex([h] + w, b) ==
      if h.id == b then 0 else if FindIndex(w, b) < 0 then -1 else FindIndex(w, b) + 1
  {
    assert ([h] + w)[1..] == w;
  }

  lemma CountIdCons(h: Task, w: seq<Task>, a: string)
    ensures CountId([h] + w, a) == (if h.id == a then 1 else 0) + CountId(w, a)
  {
    assert ([h] + w)[1..] == w;
  }

  lemma WithoutCons(h: Task, w: seq<Task>, a: string)
    ensures Without([h] + w, a) == (if h.id != a then [h] else []) + Without(w, a)
  {
    assert ([h] + w)[0] == h;
    assert ([h] + w)[1..] == w;
  }

  /** Taking out the tasks with id `a` moves the first `b` left by the number of `a`s before it. */
  lemma {:induction false} FindIndexWithout(s: seq<Task>, a: string, b: string)
    requires a != b
    ensures var i := FindIndex(s, b);
      FindIndex(Without(s, a), b) == if i < 0 then -1 else i - CountId(s[..i], a)
  {
    if s != [] {
      var h, t := s[0], s[1..];
      assert s == [h] + t;
      FindIndexWithout(t, a, b);
      var j := FindIndex(t, b);
      var w := Without(t, a);
      WithoutCons(h, t, a);
      FindIndexCons(h, t, b);
      if h.id != a {
        FindIndexCons(h, w, b);
      }
      if h.id == b {
        assert s[..0] == [];
      } else if j >= 0 {
        assert s[..j + 1] == [h] + t[..j];
        CountIdCons(h, t[..j], a);
        var c := CountId(t[..j], a);
        assert FindIndex(w, b) == j - c;
        if h.id == a {
          assert Without(s, a) == w;
        } else {
          assert Without(s, a) == [h] + w;
          assert FindIndex([h] + w, b) == j - c + 1;
        }
      }
    }
  }

  /**
   * The index is taken after removing the moved task: dropping on task `b` gives
   * b's index in its sorted column, less one for every copy of the moved task
   * ahead of it there. Only a moved task from the same column and earlier in it
   * shifts the result.
   */
  lemma DropIndexAfterRemoval(tasks: seq<Task>, activeId: string, overId: string)
    requires Find(tasks, activeId).Some?
    requires Find(tasks, overId).Some? && overId != activeId
    ensures var s := Find(tasks, overId).value.status;
      var i := FindIndex(Bucket(tasks, s), overId);
      && i >= 0
      && CountId(Bucket(tasks, s)[..i], activeId) <= i
      && DropIntent(tasks, activeId, Some(overId)) ==
           Some(MoveIntent(activeId, s, i - CountId(Bucket(tasks, s)[..i], activeId)))
  {
    DropOnOtherTask(tasks, activeId, overId);
    var s := Find(tasks, overId).value.status;
    FindIndexWithout(Bucket(tasks, s), activeId, overId);
  }

  /** Applying a drop's move changes the dragged task's status and position and no other task. */
  lemma DropMovesOnlyDragged(tasks: seq<Task>, activeId: string, overId: Option<string>)
    requires DropIntent(tasks, activeId, overId).Some?
    ensures var m := DropIntent(tasks, activeId, overId).value;
      var after := ApplyMove(tasks, m);
      && |after| == |tasks|
      && (forall i :: 0 <= i < |tasks| && tasks[i].id != activeId ==> after[i] == tasks[i])
      && (forall i :: 0 <= i < |tasks| && tasks[i].id == activeId ==>
            after[i] == tasks[i].(status := m.status, position := m.position))
  {
  }
}

module BoardExamples {
  import opened Wrappers
  import opened Types
  import opened Tasks
  import PositionSort
  import opened Board

  function SampleTask(id: string, status: Status, position: int): Task {
    Task(id, "u", id, None, status, Medium, None, None, None, None, position, "", "")
  }

  /** To do: a (0), b (1); review: d (0). */
  function Sample(): seq<Task> {
    [SampleTask("a", Todo, 0), SampleTask("b", Todo, 1), SampleTask("d", Review, 0)]
  }

  function TodoColumn(): seq<Task> {
    [SampleTask("a", Todo, 0), SampleTask("b", Todo, 1)]
  }

  lemma SampleColumns()
    ensures InStatus(Sample(), Todo) == TodoColumn()
    ensures InStatus(Sample(), Completed) == []
  {
    var s := Sample();
    assert s[1..][1..] == [s[2]] && [s[2]][1..] == [];
    assert InStatus([s[2]], Todo) == [];
    assert InStatus(s[1..], Todo) == [s[1]];
  }

  lemma SampleBuckets()
    ensures Bucket(Sample(), Todo) == TodoColumn()
    ensures Bucket(Sample(), Completed) == []
  {
    SampleColumns();
    var c := TodoColumn();
    assert c[..1] == [c[0]] && [c[0]][..0] == [];
    assert PositionSort.SortByPosition([c[0]]) == [c[0]];
    assert PositionSort.SortByPosition(c) == PositionSort.Insert([c[0]], c[1]);
  }

  lemma SampleFinds()
    ensures Find(Sample(), "a") == Some(SampleTask("a", Todo, 0))
    ensures Find(Sample(), "b") == Some(SampleTask("b", Todo, 1))
    ensures Find(Sample(), "d") == Some(SampleTask("d", Review, 0))
    ensures Find(Sample(), "completed") == None
    ensures Find(Sample(), "done") == None
  {
  }

  /** A task from another column dropped on b takes b's index. */
  lemma DropFromOtherColumn()
    ensures DropIntent(Sample(), "d", Some("b")) == Some(MoveIntent("d", Todo, 1))
  {
    SampleBuckets();
    SampleFinds();
    DropIndexAfterRemoval(Sample(), "d", "b");
    assert FindIndex(TodoColumn(), "b") == 1;
    assert CountId(TodoColumn()[..1], "d") == 0;
  }

  /** a dropped on b, with a ahead of b in the same column, lands at index 0 and not 1. */
  lemma DropLaterInSameColumn()
    ensures DropIntent(Sample(), "a", Some("b")) == Some(MoveIntent("a", Todo, 0))
  {
    SampleBuckets();
    SampleFinds();
    DropIndexAfterRemoval(Sample(), "a", "b");
    assert FindIndex(TodoColumn(), "b") == 1;
    assert CountId(TodoColumn()[..1], "a") == 1;
  }

  /** a dropped on itself goes to the end of its column, behind b. */
  lemma DropSelfToEnd()
    ensures DropIntent(Sample(), "a", Some("a")) == Some(MoveIntent("a", Todo, 1))
  {
    SampleFinds();
    DropOnSelf(Sample(), "a");
    assert Others(Sample(), Todo, "a") == [SampleTask("b", Todo, 1)];
  }

  /** A drop on an empty column's id appends to it. */
  lemma DropOnEmptyColumn()
    ensures DropIntent(Sample(), "a", Some("completed")) == Some(MoveIntent("a", Completed, 0))
  {
    SampleFinds();
    assert ParseStatus("completed") == Some(Completed);
    assert DropIntent(Sample(), "a", Some("completed")).Some?;
    DropPositionBounds(Sample(), "a", Some("completed"));
    assert Others(Sample(), Completed, "a") == [];
  }

  /** An id that is neither a task nor a status does nothing. */
  lemma DropOnUnknownId()
    ensures DropIntent(Sample(), "a", Some("done")) == None
  {
    SampleFinds();
    assert ParseStatus("done") == None;
    DropAborts(Sample(), "a", Some("done"));
  }
}
