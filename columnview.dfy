/**
 * The drag logic of one column (components/Column.tsx): what it derives from the session for
 * itself and its cards, what a drag-enter on it asks the board for, and its empty-state label.
 * `e.target === e.currentTarget` is the boolean `onBackground`.
 */
module ColumnView {
  import opened Wrappers
  import opened Types
  import opened Lists
  import opened Reorder
  import opened Lifecycle
  import opened TaskCardView

  /** `isDraggingColumn` (line 56): this very column is being dragged. */
  predicate IsDraggingColumn(item: Option<DragItem>, column: Column) {
    item.Some? && item.value.ColumnDrag? && item.value.colId == column.id
  }

  /** `draggedTaskId` (line 57): the dragged task's id during a task drag. */
  function DraggedTaskId(item: Option<DragItem>): (r: Option<string>)
    ensures r.Some? <==> item.Some? && item.value.TaskDrag?
    ensures r.Some? ==> r.value == item.value.taskId
  {
    if item.Some? && item.value.TaskDrag? then Some(item.value.taskId) else None
  }

  /** `draggedItem?.type`. */
  function DraggedKind(item: Option<DragItem>): (r: Option<DragKind>)
    ensures r.None? <==> item.None?
    ensures r.Some? ==> (r.value == TaskKind <==> item.value.TaskDrag?)
  {
    if item.Some? then Some(item.value.Kind()) else None
  }

  /**
   * handleDragEnter (lines 59-80). During a column drag, entering another column asks to move the
   * dragged column here. During a task drag, an empty column always asks for the task (with no
   * target task); a non-empty one asks only when it does not hold the dragged task and the event
   * comes from the column itself rather than from a child.
   */
  function ColumnDragEnter(column: Column, item: Option<DragItem>, onBackground: bool): (r: MoveRequest)
    ensures r.MoveColumnTo? <==> item.Some? && item.value.ColumnDrag? && item.value.colId != column.id
    ensures r.MoveTaskTo? <==> item.Some? && item.value.TaskDrag?
                                && (|column.tasks| == 0 || (!HasTask(column.tasks, item.value.taskId) && onBackground))
    ensures r.MoveColumnTo? ==> r.targetColId == column.id
    ensures r.MoveTaskTo? ==> r == MoveTaskTo(column.id, None)
  {
    if item.Some? && item.value.ColumnDrag? && !IsDraggingColumn(item, column) then MoveColumnTo(column.id)
    else if item.Some? && item.value.TaskDrag? then
      if |column.tasks| == 0 then MoveTaskTo(column.id, None)
      else if !HasTask(column.tasks, item.value.taskId) && onBackground then MoveTaskTo(column.id, None)
      else NoMove
    else NoMove
  }

  /** The props the column hands to each of its cards (lines 137-139). */
  function CardPropsFor(column: Column, item: Option<DragItem>, task: Task): (p: CardProps)
    ensures p.task == task && p.columnId == column.id
    ensures p.isDragging <==> DraggedTaskId(item) == Some(task.id)
    ensures p.draggedItemType == DraggedKind(item)
  {
    CardProps(task, column.id, DraggedTaskId(item) == Some(task.id), DraggedKind(item))
  }

  /** A card's drag start, wrapped by the column as a TASK start from this column (line 140). */
  function CardStart(column: Column, item: Option<DragItem>, task: Task): (p: PendingStart)
    ensures p == PendingStart(TaskKind, task.id, Some(column.id))
  {
    var ids := CardDragStart(CardPropsFor(column, item, task));
    PendingStart(TaskKind, ids.0, Some(ids.1))
  }

  /** The column's own drag start (line 90): a COLUMN start with no source column. */
  function ColumnStart(column: Column): (p: PendingStart)
    ensures Publish(p) == ColumnDrag(column.id)
  {
    PendingStart(ColumnKind, column.id, None)
  }

  /** The empty-state placeholder (lines 150-153). */
  datatype Placeholder = NoPlaceholder | DropHere | NoTasks

  function EmptyState(column: Column, item: Option<DragItem>): (r: Placeholder)
    ensures r != NoPlaceholder <==> |column.tasks| == 0 && !IsDraggingColumn(item, column)
    ensures r == DropHere <==> r != NoPlaceholder && item.Some? && item.value.TaskDrag?
  {
    if |column.tasks| == 0 && !IsDraggingColumn(item, column) then
      if item.Some? && item.value.TaskDrag? then DropHere else NoTasks
    else NoPlaceholder
  }

  /** On a board with unique column ids, looking a column's id up finds that column. */
  lemma ColumnIndexOfOwnId(b: Board, j: nat)
    requires UniqueColumnIds(b) && j < |b|
    ensures ColumnIndex(b, b[j].id) == j
  {
    IndexOfAt(ColumnIds(b), j, b[j].id);
  }

  /**
   * The base case of the session invariant: the drag a card's start publishes names a column
   * that exists and holds the card's task.
   */
  lemma CardStartOnBoard(b: Board, j: nat, i: nat, item: Option<DragItem>)
    requires UniqueColumnIds(b) && j < |b| && i < |b[j].tasks|
    ensures SessionOnBoard(b, Some(Publish(CardStart(b[j], item, b[j].tasks[i]))))
  {
    ColumnIndexOfOwnId(b, j);
  }

  /**
   * Entering a card that is not the dragged one, during a task drag, sends a request that passes all
   * three guards of handleMoveTask as long as the card's id is not empty.
   */
  lemma CardEnterPassesGuards(column: Column, item: Option<DragItem>, task: Task)
    requires task.id != ""
    requires CardDragEnter(CardPropsFor(column, item, task)) != NoMove
    ensures var r := CardDragEnter(CardPropsFor(column, item, task));
      MoveTaskPasses(item, r.targetColId, r.targetTaskId)
  {
  }

  /**
   * A task request from a column's drag-enter, on a board whose session agrees with it, is never
   * about the column that holds the task: it moves the task from its column to the end of this one
   * and re-points the session here.
   */
  lemma {:induction false} ColumnEnterAppends(st: DragState, j: nat, onBackground: bool)
    requires UniqueColumnIds(st.columns) && SessionOnBoard(st.columns, st.session) && j < |st.columns|
    requires ColumnDragEnter(st.columns[j], st.session, onBackground).MoveTaskTo?
    ensures var d := st.session.value;
      var s := ColumnIndex(st.columns, d.sourceColId);
      var moved := st.columns[s].tasks[TaskIndex(st.columns[s].tasks, d.taskId)];
      var r := HandleMoveTask(st, st.columns[j].id, None);
      && s != j
      && r.columns[j].tasks == st.columns[j].tasks + [moved]
      && r.columns[s].tasks == RemoveAt(st.columns[s].tasks, TaskIndex(st.columns[s].tasks, d.taskId))
      && r.session == Some(TaskDrag(d.taskId, st.columns[j].id))
  {
    var b := st.columns;
    var d := st.session.value;
    var s := ColumnIndex(b, d.sourceColId);
    ColumnIndexOfOwnId(b, j);
    assert s != j;
    assert d.sourceColId != b[j].id;
    assert MoveTaskPasses(st.session, b[j].id, None);
    MoveTaskCrossColumn(b, d.taskId, d.sourceColId, b[j].id, None);
  }

  /** On a board with unique task ids, the ids inside one column are unique too. */
  lemma ColumnTaskIdsDistinct(b: Board, j: nat)
    requires UniqueTaskIds(b) && j < |b|
    ensures Distinct(TaskIds(b[j].tasks))
  {
    AllTaskIdsSplit(b, j);
    DistinctBySubMultiset(AllTaskIds(b), TaskIds(b[j].tasks));
  }

  /**
   * Entering card `i` of column `j` during a task drag puts the dragged task at that card's index:
   * within its own column it takes the card's place, from another column it pushes the card down.
   */
  lemma {:induction false} CardEnterMoves(st: DragState, j: nat, i: nat)
    requires UniqueColumnIds(st.columns) && UniqueTaskIds(st.columns) && SessionOnBoard(st.columns, st.session)
    requires j < |st.columns| && i < |st.columns[j].tasks| && st.columns[j].tasks[i].id != ""
    requires CardDragEnter(CardPropsFor(st.columns[j], st.session, st.columns[j].tasks[i])) != NoMove
    ensures var b := st.columns;
      var d := st.session.value;
      var s := ColumnIndex(b, d.sourceColId);
      var moved := b[s].tasks[TaskIndex(b[s].tasks, d.taskId)];
      var r := HandleMoveTask(st, b[j].id, Some(b[j].tasks[i].id));
      && i < |r.columns[j].tasks| && r.columns[j].tasks[i] == moved
      && (s != j ==> i + 1 < |r.columns[j].tasks| && r.columns[j].tasks[i + 1] == b[j].tasks[i])
      && r.session == Some(TaskDrag(d.taskId, b[j].id))
  {
    var b := st.columns;
    var d := st.session.value;
    var s := ColumnIndex(b, d.sourceColId);
    var card := b[j].tasks[i];
    ColumnIndexOfOwnId(b, j);
    ColumnTaskIdsDistinct(b, j);
    IndexOfAt(TaskIds(b[j].tasks), i, card.id);
    assert TargetIndex(b[j].tasks, Some(card.id)) == i;
    CardEnterPassesGuards(b[j], st.session, card);
    if s == j {
      MoveTaskSameColumn(b, d.taskId, d.sourceColId, Some(card.id));
    } else {
      assert d.sourceColId != b[j].id;
      MoveTaskCrossColumn(b, d.taskId, d.sourceColId, b[j].id, Some(card.id));
    }
  }
}
