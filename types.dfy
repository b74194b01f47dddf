/**
 * The board's vocabulary: task statuses and priorities, the task record, the four
 * columns, the priority badge styles and chat messages (src/lib/types.ts).
 */
module Types {
  import opened Wrappers

  /** `TaskStatus`: the lifecycle stage of a task, also the identity of its column. */
  datatype Status = Todo | InProgress | Review | Completed

  /** `TaskPriority`. */
  datatype Priority = Low | Medium | High | Urgent

  /** The string a priority is stored and shown as. */
  function PriorityId(p: Priority): string {
    match p
    case Low => "low"
    case Medium => "medium"
    case High => "high"
    case Urgent => "urgent"
  }

  const AllStatuses: seq<Status> := [Todo, InProgress, Review, Completed]
  const AllPriorities: seq<Priority> := [Low, Medium, High, Urgent]

  /** The string a status is stored and compared as. */
  function StatusId(s: Status): string {
    match s
    case Todo => "todo"
    case InProgress => "in_progress"
    case Review => "review"
    case Completed => "completed"
  }

  /**
   * The status named by a string, if it names one: the cast `id as TaskStatus`
   * followed by the membership test in the list of the four status strings.
   */
  function ParseStatus(id: string): (r: Option<Status>)
    ensures r.Some? ==> StatusId(r.value) == id
    ensures r.None? <==> forall s :: StatusId(s) != id
  {
    if id == "todo" then Some(Todo)
    else if id == "in_progress" then Some(InProgress)
    else if id == "review" then Some(Review)
    else if id == "completed" then Some(Completed)
    else None
  }

  /** `Task`: one stored row. Nullable columns are options; `position` orders a column. */
  datatype Task = Task(
    id: string,
    userId: string,
    title: string,
    description: Option<string>,
    status: Status,
    priority: Priority,
    dueDate: Option<string>,
    category: Option<string>,
    tags: Option<seq<string>>,
    minutes: Option<nat>,
    position: int,
    createdAt: string,
    updatedAt: string)

  /** `Column`: fixed configuration, one per status. */
  datatype Column = Column(id: Status, title: string, color: string, icon: string)

  /** `COLUMNS`, in display order. */
  function Columns(): seq<Column> {
    [
      Column(Todo, "To-Do", "neon-blue", "\U{1F4CB}"),
      Column(InProgress, "In Progress", "neon-orange", "\U{1F527}"),
      Column(Review, "Review", "neon-purple", "\U{1F50D}"),
      Column(Completed, "Completed", "neon-green", "\U{2705}")
    ]
  }

  /** `PRIORITY_COLORS`: the badge style of each priority. */
  function PriorityColor(p: Priority): string {
    match p
    case Low => "bg-neon-blue/20 text-neon-blue border-neon-blue/30"
    case Medium => "bg-neon-green/20 text-neon-green border-neon-green/30"
    case High => "bg-neon-orange/20 text-neon-orange border-neon-orange/30"
    case Urgent => "bg-neon-red/20 text-neon-red border-neon-red/30"
  }

  /** `ChatMessage`: a role and the text shown for it. */
  datatype Role = User | Assistant
  datatype ChatMessage = ChatMessage(role: Role, content: string)

  /** Exactly four statuses, listed once each, and every status string names one of them. */
  lemma StatusesEnumerated()
    ensures |AllStatuses| == 4
    ensures forall s :: s in AllStatuses
    ensures forall i, j :: 0 <= i < j < |AllStatuses| ==> AllStatuses[i] != AllStatuses[j]
    ensures forall s, t :: StatusId(s) == StatusId(t) ==> s == t
    ensures forall s :: ParseStatus(StatusId(s)) == Some(s)
  {
    forall s ensures s in AllStatuses {
      match s
      case Todo => assert AllStatuses[0] == s;
      case InProgress => assert AllStatuses[1] == s;
      case Review => assert AllStatuses[2] == s;
      case Completed => assert AllStatuses[3] == s;
    }
  }

  /** Exactly four priorities, listed once each, each with its own badge style. */
  lemma PrioritiesEnumerated()
    ensures |AllPriorities| == 4
    ensures forall p :: p in AllPriorities
    ensures forall i, j :: 0 <= i < j < |AllPriorities| ==> AllPriorities[i] != AllPriorities[j]
    ensures forall p, q :: PriorityColor(p) == PriorityColor(q) ==> p == q
  {
    forall p ensures p in AllPriorities {
      match p
      case Low => assert AllPriorities[0] == p;
      case Medium => assert AllPriorities[1] == p;
      case High => assert AllPriorities[2] == p;
      case Urgent => assert AllPriorities[3] == p;
    }
  }

  /**
   * The columns are the four statuses in board order, so every status has a
   * column and no status has two.
   */
  lemma ColumnsOnePerStatus()
    ensures |Columns()| == |AllStatuses|
    ensures forall i :: 0 <= i < |Columns()| ==> Columns()[i].id == AllStatuses[i]
    ensures forall i, j :: 0 <= i < j < |Columns()| ==> Columns()[i].id != Columns()[j].id
  {
  }
}
