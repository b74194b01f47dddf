# ai-kanban-canvas, modelled in Dafny

A model of the client-side logic of a Kanban board with an assistant chat
panel. The model covers the following parts of the board:

- **Types** (`types.dfy`): the task record, the four statuses and four
  priorities, the column table, the priority badge styles and chat messages.
- **Tasks** (`tasks.dfy`): the task store's client side. This is the order in
  which the list is loaded, the row `createTask` inserts, with its position
  rule and its "Not authenticated" failure, and the `moveTask` update applied
  to the stored rows.
- **PositionSort** (`sort.dfy`): the stable `Array.prototype.sort` by
  position. It is an in-place insertion sort on an `array`, proved equal to a
  functional specification `SortByPosition`. That specification is proved
  ascending, a permutation of its input, and stable.
- **Board** (`board.dfy`): `tasksByStatus` and `handleDragEnd`.
  - `tasksByStatus` is an imperative grouping into four buckets followed by an
    in-place sort of each bucket.
  - `handleDragEnd` is a pure function from a drop to at most one
    `MoveIntent`.
  - `BoardExamples` works the drop rules through on a three-task board.
- **Dialog** (`dialog.dfy`): the task form. This covers loading a task into
  the form's eight fields, and the normalisation `handleSave` applies. It also
  covers the tag text round trip and the form as a class whose fields are set
  in place.
- **Card** (`card.dfy`): what a task card shows. This is the badge row and the
  hours-and-minutes label for the time spent.
- **Chat** (`chat.dfy`): the `send` handler of the chat panel.
  - The handler has an input guard, a classification of the HTTP status, and a
    line-buffered reader of the streamed `data: ` lines with its `[DONE]` end
    and its put-back-on-parse-failure rule.
  - It merges the reply into the message list by upserting the last assistant
    message.
  - The reader is a class, `StreamAssembler`, whose `Feed` method runs the
    inner loop. `Feed` is proved against a functional specification `Drain`.
    That specification is in turn proved against an independent reading of the
    stream's lines (`Read`), and proved independent of where chunk boundaries
    fall.
- **JsStrings** and **Seqs** (`jsstrings.dfy`, `seqs.dfy`): the JavaScript
  string and array operations the code relies on. These are `trim`,
  `indexOf`, `split` on one character, `join` and `filter`.

Decoding a streamed payload is not modelled. This covers `JSON.parse` and then
`choices?.[0]?.delta?.content`. In its place is a parameter
`parse: string -> Delta`, which says whether the text parsed and, if it did,
what content it carried.

Three behaviours of the code differ from a first reading of it:

- **Dropping a task on itself is not a no-op.** It produces a move to the end
  of the task's own column (`Board.DropOnSelf`).
- **The drop index is taken after the dragged task is removed** from the
  target column. It therefore differs from the hovered task's index whenever
  the dragged task came earlier in the same column
  (`Board.DropIndexAfterRemoval`, `BoardExamples.DropLaterInSameColumn`).
- **A bad payload blocks the rest of the stream.** A payload that fails to
  parse is put back in front of the buffer, and the inner loop then breaks. A
  payload that never parses is therefore retried with every later chunk, and
  it blocks every line after it for the rest of the stream
  (`Chat.StalledBlocks`). This also holds for a `data: ` line whose payload is
  empty.

## Model

| member | source | states |
|---|---|---|
| Types.StatusId | src/lib/types.ts:1 | the `TaskStatus` string of each status; specified by `Types.ParseStatus` (a string parses exactly to the status whose string it is) and `Types.StatusesEnumerated` (the four strings are distinct) |
| Types.PriorityId | src/lib/types.ts:2 | the `TaskPriority` string of each priority; specified by `Card.Badges` (the badge shows it) and `Card.PriorityBadgeDistinct` (different priorities show different strings) |
| Types.Columns | src/lib/types.ts:27-32 | `COLUMNS`; specified by `Types.ColumnsOnePerStatus` (the four statuses in board order, each once) |
| Types.PriorityColor | src/lib/types.ts:34-39 | `PRIORITY_COLORS`; specified by `Types.PrioritiesEnumerated` (each priority has its own style), `Card.Badges` and `Card.PriorityBadgeDistinct` |
| Types.ParseStatus | src/pages/Board.tsx:53-56 | a string names a status exactly when it is one of the four status strings, and then it names that status |
| Types.StatusesEnumerated | src/lib/types.ts:1 | there are exactly four statuses, each listed once; status strings are distinct and parse back to their status |
| Types.PrioritiesEnumerated | src/lib/types.ts:2 | there are exactly four priorities, each listed once; each has its own badge style |
| Types.ColumnsOnePerStatus | src/lib/types.ts:27-32 | the columns are the four statuses in board order, one column per status with none repeated |
| Tasks.LoadOrder | src/hooks/useTasks.ts:13-16 | the loaded list is ascending by position and is a permutation of the stored rows |
| Tasks.CreateRecord | src/hooks/useTasks.ts:22-38 | creation fails with "Not authenticated" exactly when there is no user; otherwise the row carries the user's id and the draft's fields unchanged, its position is the count of loaded tasks in the draft's status (`Todo` when absent), and a missing or empty title becomes `'Untitled'` while any other title is kept |
| Tasks.CreateKeepsDense | src/hooks/useTasks.ts:26-37 | when positions are dense per status, the created task lands one past the last position of its column and keeps them dense |
| Tasks.ApplyMove | src/hooks/useTasks.ts:72-75 | a move changes only the status and position of the task with the given id; every other row is unchanged |
| Seqs.FilterMembership | src/pages/Board.tsx:58 | an element survives a filter exactly when it is in the input and satisfies the predicate |
| Seqs.FilterAppend | src/hooks/useTasks.ts:26 | filtering distributes over concatenation |
| Seqs.FilterMultiset | src/pages/Board.tsx:27 | a filter keeps every copy of a selected element and no copy of any other |
| PositionSort.InsertMultiset | src/pages/Board.tsx:28 | inserting into a sorted prefix adds exactly the inserted task |
| PositionSort.InsertAscending | src/pages/Board.tsx:28 | inserting into an ascending sequence keeps it ascending |
| PositionSort.SortAscendingPermutation | src/pages/Board.tsx:28 | sorting by position yields an ascending permutation of the input |
| PositionSort.SortSnoc | src/pages/Board.tsx:28 | sorting a list extended by one task inserts that task into the sorted rest |
| PositionSort.InsertStable | src/pages/Board.tsx:28 | insertion keeps the order among tasks at equal positions, with the inserted task after its equals |
| PositionSort.SortStable | src/pages/Board.tsx:28 | the sort is stable: the tasks at each position leave in the order they came in |
| PositionSort.StableSortUnique | src/pages/Board.tsx:28 | two ascending sequences with the same tasks at every position, in the same order, are equal |
| PositionSort.SortIsTheStableSort | src/pages/Board.tsx:28 | any ascending rearrangement that keeps the order among equal positions is the sort's result |
| PositionSort.SortedUnchanged | src/pages/Board.tsx:28 | an ascending list sorts to itself, and sorting is idempotent |
| PositionSort.InsertSplit | src/pages/Board.tsx:28 | where the right-to-left scan stops, the insertion splits the sorted prefix there |
| PositionSort.Placed | src/pages/Board.tsx:28 | the array after the scan is the sorted prefix with the task placed at the stopping index |
| PositionSort.InsertAt | src/pages/Board.tsx:28 | one pass moves `a[i]` into the ascending prefix `a[..i]`, leaving the rest of the array unchanged |
| PositionSort.SortInPlace | src/pages/Board.tsx:28 | the in-place sort of a column's array leaves exactly the stable sort by position of its old contents |
| Tasks.InStatus | src/hooks/useTasks.ts:26 | the tasks of one status in list order; specified by `Seqs.FilterMembership` and `Seqs.FilterMultiset`, and by `Board.BucketMembers` for the buckets built from it |
| PositionSort.Insert | src/pages/Board.tsx:28 | one insertion step of the sort; specified by `PositionSort.InsertMultiset`, `PositionSort.InsertAscending`, `PositionSort.InsertStable` and `PositionSort.InsertSplit` |
| PositionSort.SortByPosition | src/pages/Board.tsx:28 | the stable sort by position; specified by `PositionSort.SortAscendingPermutation`, `PositionSort.SortStable` and `PositionSort.SortIsTheStableSort` |
| Board.Bucket | src/pages/Board.tsx:25-30 | `tasksByStatus[s]`; specified by `Board.BucketCount`, `Board.BucketMembers` and `Board.BucketsPartition`, and computed by `Board.TasksByStatus` |
| Board.Without | src/pages/Board.tsx:58 | the list without the dragged task; specified by `Seqs.FilterMultiset` and `Board.FindIndexWithout` |
| Board.TargetTasks | src/pages/Board.tsx:58 | the target column without the dragged task; specified by `Board.TargetTasksAreOthers` |
| Board.DropIntent | src/pages/Board.tsx:38-67 | `handleDragEnd`; specified by `Board.DropAborts`, `Board.DropTarget`, `Board.DropPositionBounds`, `Board.DropOnOtherTask`, `Board.DropOnSelf`, `Board.DropIndexAfterRemoval` and `Board.DropMovesOnlyDragged` |
| Board.GroupByStatus | src/pages/Board.tsx:26-27 | after the `forEach`, every status has an array holding the tasks of that status in list order |
| Board.SortColumn | src/pages/Board.tsx:28 | sorting one column's array gives the stable sort by position |
| Board.TasksByStatus | src/pages/Board.tsx:25-30 | every status maps to its bucket: the tasks of that status, stably sorted by position |
| Board.BucketCount | src/pages/Board.tsx:25-30 | a task occurs in the bucket of its status as often as in the list, and in no other bucket |
| Board.BucketMembers | src/pages/Board.tsx:25-30 | each bucket is ascending and holds exactly the tasks with its status |
| Board.BucketsPartition | src/pages/Board.tsx:25-30 | the four buckets together hold every task exactly once |
| Board.FindIndex | src/pages/Board.tsx:62 | the first index holding the id, or -1 exactly when no element has it |
| Board.Find | src/pages/Board.tsx:44 | a task with the id taken from the list, or none exactly when no task has it |
| Board.FindIsFirst | src/pages/Board.tsx:44-49 | the task found is the first with the id: a task with the id and no earlier one with it is what `find` returns |
| Board.DropAborts | src/pages/Board.tsx:38-56 | no move exactly when nothing is under the pointer, the dragged id is not loaded, or the hovered id is neither a task nor a status |
| Board.DropTarget | src/pages/Board.tsx:47-56 | the move is for the dragged id; its status is the hovered task's, or else the status the hovered id names |
| Board.TargetTasksAreOthers | src/pages/Board.tsx:58 | the target column without the dragged task holds exactly the other tasks of that status |
| Board.DropPositionBounds | src/pages/Board.tsx:58-64 | the position lies in [0, N], N counting the other tasks of the target status; a drop on a column gives N |
| Board.DropOnOtherTask | src/pages/Board.tsx:61-63 | a drop on another task gives the index of its first occurrence in the target column with the dragged task removed, which is below N |
| Board.DropOnSelf | src/pages/Board.tsx:59-66 | a drop on itself moves the task to position N of its own column |
| Board.CountId | src/pages/Board.tsx:58 | the count of tasks with an id is at most the length |
| Board.FindIndexWithout | src/pages/Board.tsx:58-62 | removing the tasks with id a moves the first b left by the number of a's before it |
| Board.DropIndexAfterRemoval | src/pages/Board.tsx:58-63 | a drop on task b gives b's index in its sorted column, less the copies of the dragged task ahead of it |
| Board.DropMovesOnlyDragged | src/pages/Board.tsx:66 | applying the drop's one move changes only the dragged task's status and position |
| BoardExamples.SampleColumns | src/pages/Board.tsx:27 | on the sample board, the To do and Completed columns: the tasks of that status in list order |
| BoardExamples.SampleBuckets | src/pages/Board.tsx:25-30 | on the sample board, the To do and Completed columns: each bucket's sorted contents |
| BoardExamples.SampleFinds | src/pages/Board.tsx:44-49 | on the sample board, which ids are found |
| BoardExamples.DropFromOtherColumn | src/pages/Board.tsx:58-66 | a task dropped on the second task of another column takes index 1 there |
| BoardExamples.DropLaterInSameColumn | src/pages/Board.tsx:58-66 | the first task dropped on the second of its own column gets index 0, not 1 |
| BoardExamples.DropSelfToEnd | src/pages/Board.tsx:59-66 | a task dropped on itself moves to the end of its own column |
| BoardExamples.DropOnEmptyColumn | src/pages/Board.tsx:53-59 | a drop on an empty column gives that status and position 0 |
| BoardExamples.DropOnUnknownId | src/pages/Board.tsx:56 | a hovered id that is neither a task nor a status gives no move |
| JsStrings.TrimStart | src/components/TaskDialog.tsx:51 | trimming the front never lengthens a string |
| JsStrings.TrimStartSpec | src/components/TaskDialog.tsx:51 | trimStart keeps the longest suffix that does not start with white space, dropping only white space |
| JsStrings.TrimEnd | src/components/TaskDialog.tsx:51 | trimming the end never lengthens a string |
| JsStrings.TrimEndSpec | src/components/TaskDialog.tsx:51 | trimEnd keeps the longest prefix that does not end with white space, dropping only white space |
| JsStrings.Trim | src/components/TaskDialog.tsx:51 | trimming never lengthens a string |
| JsStrings.TrimSpec | src/components/TaskDialog.tsx:51 | trim keeps a middle slice, and drops only white space on both sides; the result has none at either end |
| JsStrings.TrimEmptyIff | src/components/AIChatbot.tsx:25 | `!s.trim()` holds exactly for all-white-space strings |
| JsStrings.TrimIdentity | src/components/TaskDialog.tsx:55 | a string is its own trim exactly when it has no white space at either end |
| JsStrings.TrimIgnoresLeadingSpace | src/components/TaskDialog.tsx:52 | a space in front does not survive trim |
| JsStrings.TrimStartSnoc | src/components/AIChatbot.tsx:84 | an appended white-space character survives trimStart unless the string is all white space |
| JsStrings.TrimIgnoresTrailingWhitespace | src/components/AIChatbot.tsx:81-84 | white space appended does not survive trim |
| JsStrings.IndexOf | src/components/AIChatbot.tsx:78 | the first index of the character, or -1 exactly when it does not occur |
| JsStrings.Split | src/components/TaskDialog.tsx:52 | a split has at least one piece |
| JsStrings.SplitPiecesLackSeparator | src/components/TaskDialog.tsx:52 | no piece of a split holds the separator |
| JsStrings.SplitNone | src/components/TaskDialog.tsx:52 | a string without the separator is a single piece |
| JsStrings.SplitFound | src/components/AIChatbot.tsx:78-80 | the first piece ends at the first separator; the rest is the split of what follows |
| JsStrings.Join | src/components/TaskDialog.tsx:36 | `parts.join(sep)`; specified by `JsStrings.SplitJoin`, which splitting undoes |
| JsStrings.PadEach | src/components/TaskDialog.tsx:36 | padding each part keeps the count and puts the pad in front of each part |
| JsStrings.IndexOfAfter | src/components/AIChatbot.tsx:78 | with no separator in a prefix, the first separator is found in what follows |
| JsStrings.IndexOfPrefix | src/components/AIChatbot.tsx:75-78 | appending text after a found character does not move its first occurrence |
| JsStrings.SplitAfter | src/components/TaskDialog.tsx:52 | a prefix without the separator only extends the first piece |
| JsStrings.SplitAtSeparator | src/components/TaskDialog.tsx:52 | a leading separator gives an empty first piece |
| JsStrings.SplitJoin | src/components/TaskDialog.tsx:36-52 | splitting undoes joining with the separator plus a pad, except that the pad stays in front of every part but the first |
| Dialog.TagsText | src/components/TaskDialog.tsx:36 | the tags joined with `', '`, or `''` without tags; specified by `Dialog.TagsRoundTrip`, which parsing undoes |
| Dialog.TrimAll | src/components/TaskDialog.tsx:52 | every piece is trimmed, and the count is kept |
| Dialog.TrimmedPieceClean | src/components/TaskDialog.tsx:52 | a non-blank piece without a comma trims to a clean tag |
| Dialog.ParseTags | src/components/TaskDialog.tsx:52 | there are never more tags than pieces of the split |
| Dialog.ParseTagsClean | src/components/TaskDialog.tsx:52 | every saved tag is non-empty, has no comma and has no white space at either end |
| Dialog.Loaded | src/components/TaskDialog.tsx:28-48 | the fields of the edited task: title, priority and status as stored, an absent description, due date or category read as `''`, the tags joined with `', '` (or `''`), absent minutes read as 0; or the blank form with medium priority and the default status |
| Dialog.NonEmpty | src/components/TaskDialog.tsx:59-60 | `x \|\| null`: absent exactly for the empty string, else the string itself |
| Dialog.SaveDraft | src/components/TaskDialog.tsx:50-63 | nothing is saved exactly when the trimmed title is empty; otherwise the id is present exactly when editing, the title is trimmed, the description kept, empty date and category become absent, tags are the parsed tags or absent when none, minutes are kept; priority and status are passed on; a non-empty due date or category is saved as typed |
| Dialog.TrimPadded | src/components/TaskDialog.tsx:36-52 | trimming clean tags with one space in front gives them back |
| Dialog.FilterKeepsNonEmpty | src/components/TaskDialog.tsx:52 | `filter(Boolean)` keeps a list with no empty string as it is |
| Dialog.TagsRoundTrip | src/components/TaskDialog.tsx:36-52 | clean tags joined with `', '` and parsed back are the same tags |
| Dialog.EditUnchanged | src/components/TaskDialog.tsx:28-63 | opening a task and saving it untouched gives back its values, except for the form's normalisations: the title is trimmed, an absent description becomes `''`, an empty or absent due date or category becomes absent, an empty tag list becomes absent, absent minutes become 0 |
| Dialog.TaskForm.constructor | src/components/TaskDialog.tsx:19-26 | the form starts blank, with medium priority and the default status |
| Dialog.TaskForm.Load | src/components/TaskDialog.tsx:28-48 | the effect sets the eight fields to the loaded values and leaves `open` alone |
| Dialog.TaskForm.Save | src/components/TaskDialog.tsx:50-65 | the draft handed on is the one `SaveDraft` gives; the fields are unchanged; the dialog closes exactly when something was saved |
| Card.TimeLabel | src/components/TaskCard.tsx:71-74 | shown exactly when the minutes, with absent read as 0, are positive; the minute part is below 60, and hours times 60 plus minutes is the total |
| Card.TimeLabelExact | src/components/TaskCard.tsx:74 | the label is the only pair with minutes below 60 that makes up the total |
| Card.Badges | src/components/TaskCard.tsx:51-53 | the first badge is the priority's, with its style and name |
| Card.TagBadges | src/components/TaskCard.tsx:59-61 | one tag badge per tag, in order |
| Card.BadgesLayout | src/components/TaskCard.tsx:50-62 | exactly one priority badge, first; a category badge exactly when the category is non-empty; then the tags in order |
| Card.PriorityBadgeDistinct | src/components/TaskCard.tsx:51-53 | different priorities get different badge styles and texts |
| Card.Show | src/components/TaskCard.tsx:35-76 | the title; the description and due date only when non-empty; the badge row; the time label |
| Chat.Upsert | src/components/AIChatbot.tsx:62-68 | the last message is the assistant's with the reply so far; a trailing assistant message is replaced, otherwise one is appended; earlier messages are unchanged |
| Chat.Emits | src/components/AIChatbot.tsx:88-89 | `if (content)`: only a non-empty string content is merged; used by `Chat.Handle` and `Chat.ReadLine`, related by `Chat.HandleReads` |
| Chat.UpsertReplaces | src/components/AIChatbot.tsx:62-68 | upserting twice is upserting the second text once |
| Chat.StripCR | src/components/AIChatbot.tsx:81 | at most one final `\r` is removed, exactly when there is one |
| Chat.Classify | src/components/AIChatbot.tsx:82-85 | a line is skipped exactly when it lacks the `data: ` prefix; it ends the stream exactly when its trimmed payload is `[DONE]`; otherwise it is that trimmed payload |
| Chat.ClassifyStripCR | src/components/AIChatbot.tsx:81-84 | removing a final `\r` does not change how a line is treated |
| Chat.Handle | src/components/AIChatbot.tsx:81-90 | a handled line continues with the rest of the buffer, or stops without touching the reply |
| Chat.Append | src/components/AIChatbot.tsx:75 | `textBuffer += chunk`; specified by `Chat.AppendTwice`, `Chat.StepAppend` and `Chat.DrainAppend` |
| Chat.HandleIgnoresBuffer | src/components/AIChatbot.tsx:79-90 | handling a line depends on the line and the rest, not on the buffer they came from |
| Chat.Step | src/components/AIChatbot.tsx:78-90 | a pass waits exactly when no line is complete; otherwise it shortens the buffer, or stops without touching the reply |
| Chat.Drain | src/components/AIChatbot.tsx:78-91 | the inner `while`; specified by `Chat.DrainReads`, `Chat.DrainShows`, `Chat.DrainSettles` and `Chat.DrainAppend`, and computed by `Chat.StreamAssembler.Feed` |
| Chat.Run | src/components/AIChatbot.tsx:72-92 | the outer `while`; specified by `Chat.RunIsDrainOfConcat`, `Chat.ChunkingIrrelevant` and `Chat.StreamReply`, and computed by `Chat.ChatPanel.Receive` |
| Chat.StepGrows | src/components/AIChatbot.tsx:86-89 | a line either leaves the reply alone or extends it and upserts the message |
| Chat.GrowShows | src/components/AIChatbot.tsx:60-68 | a reply that only grows, with an upsert each time it does, keeps the list as the history plus one assistant message |
| Chat.DrainShows | src/components/AIChatbot.tsx:60-91 | while lines are handled, the history is untouched, at most one assistant message follows it holding every fragment so far, and the reply only grows |
| Chat.HandleAppend | src/components/AIChatbot.tsx:75-90 | text appended behind a complete line does not change how that line is handled |
| Chat.StepAppend | src/components/AIChatbot.tsx:75-90 | the same, for a pass over the buffer's first complete line |
| Chat.StalledAppend | src/components/AIChatbot.tsx:90 | a reader stuck on a bad payload stays stuck when text arrives |
| Chat.StoppedWhy | src/components/AIChatbot.tsx:85-90 | a pass stops only for `[DONE]` or for a payload that does not parse |
| Chat.RestoredStalls | src/components/AIChatbot.tsx:90 | the line put back is the first line again and fails again, with nothing shown changed |
| Chat.StalledBlocks | src/components/AIChatbot.tsx:90 | a bad payload blocks every later line: whatever arrives, the panel shows the same and stays stuck |
| Chat.DrainSettles | src/components/AIChatbot.tsx:78-91 | after draining, the reader is done, waiting for a line to complete, or stuck on a bad line |
| Chat.DrainIdle | src/components/AIChatbot.tsx:78-91 | draining twice shows what draining once shows |
| Chat.DrainAppend | src/components/AIChatbot.tsx:72-91 | after `[DONE]`, later text is only buffered; otherwise draining in two goes shows what draining once shows |
| Chat.AppendTwice | src/components/AIChatbot.tsx:75 | appending two chunks is appending their concatenation |
| Chat.ConcatCons | src/components/AIChatbot.tsx:75 | the concatenation of the chunks is the first chunk followed by the rest |
| Chat.RunIsDrainOfConcat | src/components/AIChatbot.tsx:72-92 | reading the chunks one by one shows what draining their concatenation at once shows |
| Chat.ChunkingIrrelevant | src/components/AIChatbot.tsx:72-92 | two ways of cutting the same stream into chunks end with the same panel |
| Chat.Concat | src/components/AIChatbot.tsx:75 | the text of all chunks in order; related to chunk-by-chunk reading by `Chat.RunIsDrainOfConcat` |
| Chat.CompleteLines | src/components/AIChatbot.tsx:78-80 | the pieces of a text between line feeds, without the unterminated tail; unfolded by `Chat.CompleteLinesCons` |
| Chat.Read | src/components/AIChatbot.tsx:81-90 | an independent reading of a stream's lines: the non-empty payload contents in order up to `[DONE]` or a bad payload; tied to the reader by `Chat.DrainReads` and `Chat.StreamReply` |
| Chat.ReadLine | src/components/AIChatbot.tsx:81-90 | one line read in front of the reading of the lines after it; tied to `Chat.Handle` by `Chat.HandleReads` |
| Chat.CompleteLinesCons | src/components/AIChatbot.tsx:78-80 | the complete lines of a text are its first line followed by the complete lines after it |
| Chat.HandleReads | src/components/AIChatbot.tsx:81-90 | handling a line, then the text after it, adds to the reply what reading that line in front of the later lines adds, and sets the done flag as that reading ends |
| Chat.DrainsAsReadIdle | src/components/AIChatbot.tsx:78 | with no complete line, draining adds nothing and reading finds nothing |
| Chat.ReadFirstLine | src/components/AIChatbot.tsx:78-80 | reading a buffer's lines is reading its first line in front of the lines after it |
| Chat.StepReads | src/components/AIChatbot.tsx:78-90 | one pass adds to the reply what reading its line adds |
| Chat.DrainReads | src/components/AIChatbot.tsx:78-91 | draining adds to the reply exactly the text the buffer's complete lines carry, and is done exactly when a `[DONE]` is read |
| Chat.StreamReply | src/components/AIChatbot.tsx:58-92 | one reply ends with the history and one assistant message holding the payload text read before `[DONE]` or a bad payload, or none if that text is empty; done exactly when `[DONE]` came |
| Chat.StreamAssembler.constructor | src/components/AIChatbot.tsx:58-71 | the reader starts with an empty buffer and reply over the history sent |
| Chat.StreamAssembler.TakeLine | src/components/AIChatbot.tsx:79-81 | the line ending at the index is cut off the buffer, without its final `\r` |
| Chat.StreamAssembler.HandleLine | src/components/AIChatbot.tsx:82-90 | the reader's state after one line is the one `Handle` gives, and it stops exactly when `Handle` stops |
| Chat.StreamAssembler.NextLine | src/components/AIChatbot.tsx:78-90 | one pass of the inner loop gives the state `Step` gives, and breaks exactly when `Step` stops |
| Chat.StreamAssembler.Feed | src/components/AIChatbot.tsx:75-91 | appending a chunk and handling every complete line leaves the state `Drain` gives |
| Chat.Opening | src/components/AIChatbot.tsx:44-54 | 429 is rate-limited, 402 is credits-needed, any other non-2xx status or a missing body fails; the body is read exactly for a 2xx status with a body |
| Chat.ChatPanel.constructor | src/components/AIChatbot.tsx:12-14 | an empty conversation, an empty text box, not loading |
| Chat.ChatPanel.Type | src/components/AIChatbot.tsx:154-157 | typing, possible only while no reply loads, sets the text box and nothing else |
| Chat.ChatPanel.Submit | src/components/AIChatbot.tsx:25-30 | nothing happens for a blank input or while loading; otherwise one user message with the trimmed input is appended, the box cleared, loading set, and the whole list is sent |
| Chat.ChatPanel.Receive | src/components/AIChatbot.tsx:44-97 | early outcomes leave the list alone; a streamed body is read chunk by chunk into the list; loading stops in every case |
| Chat.ChatPanel.Send | src/components/AIChatbot.tsx:24-98 | when the guard lets it through, the list becomes the previous messages, the user's trimmed input and, for a streamed reply with text, one assistant message holding that text |

## Left out

- Network, storage and rendering are not modelled. This covers `fetch`, the `ReadableStream` reader, `TextDecoder`, the Supabase calls, React Query caching and invalidation, and toasts. Chunks are taken as already-decoded strings. A store call's effect is modelled only where a contract needs it (`Tasks.ApplyMove`).
- `JSON.parse` and reading `choices?.[0]?.delta?.content` are not modelled. They are the `parse` parameter. A content value that is not a string is not distinguished from a missing one.
- The async/await scheduling is not modelled. This covers interleaving between `send`, the state updaters and other events: each `send` runs to its end before anything else happens.
- React state updates are not modelled as deferred. `setMessages(prev => ...)` is applied at once to the panel's list.
- dnd-kit is not modelled. This covers collision detection, sensors and sortable transforms. The id under the pointer is an input that may be absent.
- A `Status` is typed. The `?.push` guard of `tasksByStatus` therefore always succeeds, and a loaded task's status always passes the membership test of `handleDragEnd`.
- An absent `Partial<Task>` field and a `null` one are both `None`.
- The store's default status for an inserted row with no status is not modelled.
- Tasks.LoadOrder: does not determine the order the store gives to equal positions; the model keeps those tasks in stored order.
- Minutes are a `nat`. The numeric input can produce fractional or NaN values, and JavaScript number semantics are not modelled.
- Card.Show: the due date is shown as stored, because the `date-fns` formatting is not modelled.
- Other JSX, animation, the scroll effect, the panel's open/close toggle and the "Thinking..." indicator are not modelled, nor is the drag-overlay state that `handleDragEnd` clears with `setActiveId(null)` (src/pages/Board.tsx:39).
- Logging is not modelled: the `console.error(e)` in the chat's error path (src/components/AIChatbot.tsx:94) has no effect on the modelled state.
- Strings are sequences of Unicode scalar values, whereas JavaScript counts UTF-16 code units; the two differ only for characters outside the Basic Multilingual Plane, and no modelled operation splits such a character.
- The `Partial<Task>` from the dialog is not passed into `createTask`/`updateTask` here. Those are separate operations: `Tasks.CreateRecord` takes any draft, and `updateTask`'s store write is not modelled.
- `deleteTask` is not modelled. It is only a store call.
- `src/pages/Auth.tsx` and `src/components/KanbanColumn.tsx` are not part of this model. They are authentication I/O and rendering.
- JsStrings.Trim: the white-space set is the ASCII and Unicode space characters and line terminators of `String.prototype.trim`. The model proves Trim's properties in separate lemmas rather than in its own contract.
