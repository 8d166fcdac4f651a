/**
 * The list operations behind the menu and the task form (App.tsx 43-114): delete a task or a
 * column, save the form in add or edit mode, and the lookup that opens a task for editing.
 */
module Crud {
  import opened Wrappers
  import opened Types
  import opened Lists
  import opened Reorder

  // ---------------------------------------------------------------------------
  // Delete (handleDelete, App.tsx 105-114)
  // ---------------------------------------------------------------------------

  /** The kind of thing a menu acts on: 'task' or 'column'. */
  datatype ItemKind = TaskItem | ColumnItem

  /** `t => t.id !== id` */
  function KeepTask(id: string): Task -> bool {
    (t: Task) => t.id != id
  }

  /** `c => c.id !== id` */
  function KeepColumn(id: string): Column -> bool {
    (c: Column) => c.id != id
  }

  /** `x => x !== id`, the same test on the ids themselves. */
  function KeepId(id: string): string -> bool {
    (x: string) => x != id
  }

  /** Deleting a task: every column keeps its header and loses the tasks with that id. */
  function DeleteTask(b: Board, id: string): (r: Board)
    ensures |r| == |b|
    ensures forall k :: 0 <= k < |b| ==> r[k] == b[k].(tasks := Filter(b[k].tasks, KeepTask(id)))
  {
    seq(|b|, k requires 0 <= k < |b| => b[k].(tasks := Filter(b[k].tasks, KeepTask(id))))
  }

  /** Deleting a column: the columns with that id are dropped, the others keep their order. */
  function DeleteColumn(b: Board, id: string): Board {
    Filter(b, KeepColumn(id))
  }

  /** handleDelete dispatches on the menu's kind. */
  function Delete(b: Board, kind: ItemKind, id: string): Board {
    match kind
    case TaskItem => DeleteTask(b, id)
    case ColumnItem => DeleteColumn(b, id)
  }

  /** Filtering tasks by id filters their ids the same way. */
  lemma {:induction false} TaskIdsFilter(ts: seq<Task>, id: string)
    ensures TaskIds(Filter(ts, KeepTask(id))) == Filter(TaskIds(ts), KeepId(id))
  {
    if |ts| > 0 {
      TaskIdsFilter(ts[1..], id);
      assert TaskIds(ts)[1..] == TaskIds(ts[1..]);
      TaskIdsConcat(if ts[0].id != id then [ts[0]] else [], Filter(ts[1..], KeepTask(id)));
    }
  }

  /** Filtering columns by id filters their ids the same way. */
  lemma {:induction false} ColumnIdsFilter(b: Board, id: string)
    ensures ColumnIds(Filter(b, KeepColumn(id))) == Filter(ColumnIds(b), KeepId(id))
  {
    if |b| > 0 {
      ColumnIdsFilter(b[1..], id);
      assert ColumnIds(b)[1..] == ColumnIds(b[1..]);
      var head: Board := if b[0].id != id then [b[0]] else [];
      assert ColumnIds(head + Filter(b[1..], KeepColumn(id))) == ColumnIds(head) + ColumnIds(Filter(b[1..], KeepColumn(id)));
    }
  }

  /** The board's ids after deleting a task are the old ids with that id filtered out. */
  lemma {:induction false} DeleteTaskIds(b: Board, id: string)
    ensures AllTaskIds(DeleteTask(b, id)) == Filter(AllTaskIds(b), KeepId(id))
  {
    if |b| > 0 {
      var r := DeleteTask(b, id);
      assert r[1..] == DeleteTask(b[1..], id);
      DeleteTaskIds(b[1..], id);
      TaskIdsFilter(b[0].tasks, id);
      FilterConcat(TaskIds(b[0].tasks), AllTaskIds(b[1..]), KeepId(id));
    }
  }

  /**
   * Deleting a task removes that id from every column, keeps every other id with its multiplicity,
   * leaves the columns and their headers alone, and keeps the ids unique.
   */
  lemma DeleteTaskSpec(b: Board, id: string)
    ensures var r := DeleteTask(b, id);
      && id !in AllTaskIds(r)
      && (forall x :: x != id ==> multiset(AllTaskIds(r))[x] == multiset(AllTaskIds(b))[x])
      && ColumnIds(r) == ColumnIds(b)
      && (forall k :: 0 <= k < |r| ==> SameHeader(r[k], b[k]) && !HasTask(r[k].tasks, id))
      && (UniqueTaskIds(b) ==> UniqueTaskIds(r))
  {
    var r := DeleteTask(b, id);
    DeleteTaskIds(b, id);
    FilterCounts(AllTaskIds(b), KeepId(id));
    assert multiset(AllTaskIds(r))[id] == 0;
    forall k | 0 <= k < |r| ensures !HasTask(r[k].tasks, id) {
      TaskIdsFilter(b[k].tasks, id);
      FilterCounts(TaskIds(b[k].tasks), KeepId(id));
      assert multiset(TaskIds(r[k].tasks))[id] == 0;
    }
    if UniqueTaskIds(b) {
      FilterSubMultiset(AllTaskIds(b), KeepId(id));
      DistinctBySubMultiset(AllTaskIds(b), AllTaskIds(r));
    }
  }

  /** The ids of the columns a column filter keeps are part of the board's. */
  lemma {:induction false} DeleteColumnTaskIds(b: Board, id: string)
    ensures multiset(AllTaskIds(DeleteColumn(b, id))) <= multiset(AllTaskIds(b))
  {
    if |b| > 0 {
      DeleteColumnTaskIds(b[1..], id);
      var head: Board := if b[0].id != id then [b[0]] else [];
      AllTaskIdsConcat(head, Filter(b[1..], KeepColumn(id)));
      if b[0].id != id { AllTaskIdsSingle(b[0]); }
    }
  }

  /**
   * Deleting a column removes exactly the columns with that id, keeps the others in order and
   * keeps column and task ids unique.
   */
  lemma DeleteColumnSpec(b: Board, id: string)
    ensures var r := DeleteColumn(b, id);
      && ColumnIds(r) == Filter(ColumnIds(b), KeepId(id))
      && id !in ColumnIds(r)
      && (forall x :: x != id ==> multiset(ColumnIds(r))[x] == multiset(ColumnIds(b))[x])
      && multiset(AllTaskIds(r)) <= multiset(AllTaskIds(b))
      && (UniqueColumnIds(b) ==> UniqueColumnIds(r))
      && (UniqueTaskIds(b) ==> UniqueTaskIds(r))
  {
    var r := DeleteColumn(b, id);
    ColumnIdsFilter(b, id);
    FilterCounts(ColumnIds(b), KeepId(id));
    assert multiset(ColumnIds(r))[id] == 0;
    DeleteColumnTaskIds(b, id);
    if UniqueColumnIds(b) {
      FilterSubMultiset(ColumnIds(b), KeepId(id));
      DistinctBySubMultiset(ColumnIds(b), ColumnIds(r));
    }
    if UniqueTaskIds(b) { DistinctBySubMultiset(AllTaskIds(b), AllTaskIds(r)); }
  }

  /** Deleting twice is deleting once. */
  lemma DeleteIdempotent(b: Board, kind: ItemKind, id: string)
    ensures Delete(Delete(b, kind, id), kind, id) == Delete(b, kind, id)
  {
    match kind
    case TaskItem =>
      var r := DeleteTask(b, id);
      forall k | 0 <= k < |b| ensures Filter(r[k].tasks, KeepTask(id)) == r[k].tasks {
        FilterAgain(b[k].tasks, KeepTask(id));
      }
    case ColumnItem =>
      FilterAgain(b, KeepColumn(id));
  }

  lemma {:induction false} FilterAgain<T>(s: seq<T>, keep: T -> bool)
    ensures Filter(Filter(s, keep), keep) == Filter(s, keep)
  {
    if |s| > 0 {
      FilterAgain(s[1..], keep);
      var head := if keep(s[0]) then [s[0]] else [];
      FilterConcat(head, Filter(s[1..], keep), keep);
    }
  }

  // ---------------------------------------------------------------------------
  // Save (handleSaveTask, App.tsx 76-103)
  // ---------------------------------------------------------------------------

  /** The form's output, `Partial<Task>`: `None` is a key the object does not carry. */
  datatype TaskPatch = TaskPatch(
    title: Option<string>,
    description: Option<string>,
    content: Option<string>,
    imageUrl: Option<string>,
    tags: Option<seq<Tag>>)

  datatype ModalMode = AddMode | EditMode

  /** `modalState`: whether the form is open, its mode, and the column and task it was opened for. */
  datatype ModalState = ModalState(isOpen: bool, mode: ModalMode, columnId: Option<string>,
                                   taskId: Option<string>, initialData: Option<Task>)

  const DefaultTitle: string := "新任务"
  const NewBadge: StatusBadge := StatusBadge("待办", TodoBadge)

  /**
   * The task an add creates (lines 80-90). `id` stands for `new-${Date.now()}` and `date` for the
   * formatted current date and time.
   */
  function NewTask(p: TaskPatch, id: string, date: string): (t: Task)
    ensures t.id == id && t.date == date
    ensures t.title == (if Truthy(p.title) then p.title.value else DefaultTitle)
    ensures t.tags == (if p.tags.Some? then p.tags.value else [])
    ensures t.hasRedDot == Some(true) && t.statusBadge == Some(NewBadge)
    ensures t.description == p.description && t.content == p.content && t.imageUrl == p.imageUrl
  {
    Task(id, OrElse(p.title, DefaultTitle), p.description, p.content, p.tags.GetOr([]), date,
         Some(NewBadge), p.imageUrl, Some(true))
  }

  /** `{ ...t, ...p }`: every key the patch carries overrides the task's. */
  function MergePatch(t: Task, p: TaskPatch): (r: Task)
    ensures r.id == t.id && r.date == t.date && r.statusBadge == t.statusBadge && r.hasRedDot == t.hasRedDot
    ensures r.title == p.title.GetOr(t.title) && r.tags == p.tags.GetOr(t.tags)
    ensures r.description == (if p.description.Some? then p.description else t.description)
    ensures r.content == (if p.content.Some? then p.content else t.content)
    ensures r.imageUrl == (if p.imageUrl.Some? then p.imageUrl else t.imageUrl)
  {
    t.(title := p.title.GetOr(t.title),
       description := if p.description.Some? then p.description else t.description,
       content := if p.content.Some? then p.content else t.content,
       imageUrl := if p.imageUrl.Some? then p.imageUrl else t.imageUrl,
       tags := p.tags.GetOr(t.tags))
  }

  /** The patch that carries no key. */
  const EmptyPatch: TaskPatch := TaskPatch(None, None, None, None, None)

  /** Merging nothing changes nothing, and merging the same patch twice is merging it once. */
  lemma MergePatchLaws(t: Task, p: TaskPatch)
    ensures MergePatch(t, EmptyPatch) == t
    ensures MergePatch(MergePatch(t, p), p) == MergePatch(t, p)
  {
  }

  /** Edit mode inside the matching column: the task whose id the modal holds is merged. */
  function EditTasks(ts: seq<Task>, taskId: Option<string>, p: TaskPatch): (r: seq<Task>)
    ensures |r| == |ts|
    ensures forall k :: 0 <= k < |ts| ==> r[k] == if taskId == Some(ts[k].id) then MergePatch(ts[k], p) else ts[k]
  {
    seq(|ts|, k requires 0 <= k < |ts| => if taskId == Some(ts[k].id) then MergePatch(ts[k], p) else ts[k])
  }

  /** The callback given to `prev.map` (lines 77-102) for one column. */
  function SaveColumn(col: Column, m: ModalState, p: TaskPatch, newId: string, date: string): Column {
    if m.mode == AddMode && m.columnId == Some(col.id) then
      col.(tasks := [NewTask(p, newId, date)] + col.tasks)
    else if m.mode == EditMode && m.columnId == Some(col.id) then
      col.(tasks := EditTasks(col.tasks, m.taskId, p))
    else col
  }

  /** The updater handleSaveTask passes to `setColumns`. */
  function SaveTask(b: Board, m: ModalState, p: TaskPatch, newId: string, date: string): (r: Board)
    ensures |r| == |b|
    ensures forall k :: 0 <= k < |b| ==> r[k] == SaveColumn(b[k], m, p, newId, date)
  {
    seq(|b|, k requires 0 <= k < |b| => SaveColumn(b[k], m, p, newId, date))
  }

  /**
   * Add mode prepends the new task to every column whose id the modal holds and leaves the other
   * columns, and every header, as they were.
   */
  lemma SaveAddPrepends(b: Board, m: ModalState, p: TaskPatch, newId: string, date: string)
    requires m.mode == AddMode
    ensures var r := SaveTask(b, m, p, newId, date);
      && ColumnIds(r) == ColumnIds(b)
      && (forall k :: 0 <= k < |b| ==> SameHeader(r[k], b[k]))
      && (forall k :: 0 <= k < |b| && m.columnId == Some(b[k].id) ==> r[k].tasks == [NewTask(p, newId, date)] + b[k].tasks)
      && (forall k :: 0 <= k < |b| && m.columnId != Some(b[k].id) ==> r[k] == b[k])
  {
  }

  /** Add mode adds the new id to one column's ids exactly when the column's id is the modal's. */
  lemma SaveAddColumnIds(c: Column, m: ModalState, p: TaskPatch, newId: string, date: string)
    requires m.mode == AddMode
    ensures var n := if m.columnId == Some(c.id) then 1 else 0;
      forall x :: multiset(TaskIds(SaveColumn(c, m, p, newId, date).tasks))[x]
        == multiset(TaskIds(c.tasks))[x] + (if x == newId then n else 0)
  {
    if m.columnId == Some(c.id) {
      TaskIdsConcat([NewTask(p, newId, date)], c.tasks);
      assert TaskIds([NewTask(p, newId, date)]) == [newId];
    }
  }

  /** Add mode adds the new id once for every column carrying the modal's column id. */
  lemma {:induction false} SaveAddIds(b: Board, m: ModalState, p: TaskPatch, newId: string, date: string)
    requires m.mode == AddMode && m.columnId.Some?
    ensures forall x :: (multiset(AllTaskIds(SaveTask(b, m, p, newId, date)))[x]
      == multiset(AllTaskIds(b))[x] + (if x == newId then multiset(ColumnIds(b))[m.columnId.value] else 0))
  {
    if |b| > 0 {
      var r := SaveTask(b, m, p, newId, date);
      var c := m.columnId.value;
      assert r[1..] == SaveTask(b[1..], m, p, newId, date);
      SaveAddIds(b[1..], m, p, newId, date);
      SaveAddColumnIds(b[0], m, p, newId, date);
      assert ColumnIds(b) == [b[0].id] + ColumnIds(b[1..]);
      var n0 := if m.columnId == Some(b[0].id) then 1 else 0;
      assert multiset(ColumnIds(b))[c] == n0 + multiset(ColumnIds(b[1..]))[c];
      var all, allR := AllTaskIds(b), AllTaskIds(r);
      assert all == TaskIds(b[0].tasks) + AllTaskIds(b[1..]);
      assert allR == TaskIds(r[0].tasks) + AllTaskIds(r[1..]);
      forall x ensures multiset(allR)[x] == multiset(all)[x] + (if x == newId then multiset(ColumnIds(b))[c] else 0) {
        assert multiset(allR)[x] == multiset(TaskIds(r[0].tasks))[x] + multiset(AllTaskIds(r[1..]))[x];
        assert multiset(all)[x] == multiset(TaskIds(b[0].tasks))[x] + multiset(AllTaskIds(b[1..]))[x];
      }
    }
  }

  /**
   * With unique column ids and an id the board does not hold, add mode keeps task ids unique; the
   * new id is then on the board exactly when the modal's column exists.
   */
  lemma SaveAddKeepsUniqueness(b: Board, m: ModalState, p: TaskPatch, newId: string, date: string)
    requires m.mode == AddMode && m.columnId.Some?
    requires UniqueTaskIds(b) && UniqueColumnIds(b) && newId !in AllTaskIds(b)
    ensures var r := SaveTask(b, m, p, newId, date);
      && UniqueTaskIds(r)
      && (newId in AllTaskIds(r) <==> m.columnId.value in ColumnIds(b))
  {
    var r := SaveTask(b, m, p, newId, date);
    SaveAddIds(b, m, p, newId, date);
    DistinctIffSingleCounts(AllTaskIds(b));
    DistinctIffSingleCounts(ColumnIds(b));
    DistinctIffSingleCounts(AllTaskIds(r));
    assert multiset(AllTaskIds(r))[newId] == multiset(ColumnIds(b))[m.columnId.value];
  }

  /** Edit mode keeps every task id in place and merges the patch into the one task it names. */
  lemma SaveEditSpec(b: Board, m: ModalState, p: TaskPatch, newId: string, date: string)
    requires m.mode == EditMode
    ensures var r := SaveTask(b, m, p, newId, date);
      && AllTaskIds(r) == AllTaskIds(b)
      && ColumnIds(r) == ColumnIds(b)
      && (forall k :: 0 <= k < |b| ==> SameHeader(r[k], b[k]) && |r[k].tasks| == |b[k].tasks|)
      && (forall k, i :: 0 <= k < |b| && 0 <= i < |b[k].tasks| ==>
            r[k].tasks[i] == if m.columnId == Some(b[k].id) && m.taskId == Some(b[k].tasks[i].id)
                             then MergePatch(b[k].tasks[i], p) else b[k].tasks[i])
  {
    SaveEditIds(b, m, p, newId, date);
  }

  lemma {:induction false} SaveEditIds(b: Board, m: ModalState, p: TaskPatch, newId: string, date: string)
    requires m.mode == EditMode
    ensures AllTaskIds(SaveTask(b, m, p, newId, date)) == AllTaskIds(b)
  {
    if |b| > 0 {
      var r := SaveTask(b, m, p, newId, date);
      assert r[1..] == SaveTask(b[1..], m, p, newId, date);
      SaveEditIds(b[1..], m, p, newId, date);
      assert TaskIds(r[0].tasks) == TaskIds(b[0].tasks);
    }
  }

  /** In edit mode a save keeps the task ids unique. */
  lemma SaveEditKeepsUniqueness(b: Board, m: ModalState, p: TaskPatch, newId: string, date: string)
    requires m.mode == EditMode && UniqueTaskIds(b)
    ensures UniqueTaskIds(SaveTask(b, m, p, newId, date))
  {
    SaveEditIds(b, m, p, newId, date);
  }

  // ---------------------------------------------------------------------------
  // Looking a task up for editing (handleEditTaskClick, App.tsx 51-74)
  // ---------------------------------------------------------------------------

  /**
   * The `for … break` loop of lines 56-63: the first column holding the id, and in it the first
   * task with that id.
   */
  method FindTaskForEdit(b: Board, taskId: string) returns (task: Option<Task>, colId: Option<string>)
    ensures task.None? <==> taskId !in AllTaskIds(b)
    ensures task.None? ==> colId.None?
    ensures task.Some? ==> exists k :: 0 <= k < |b| && FoundAt(b, taskId, k, task.value, colId)
    ensures task.Some? && UniqueTaskIds(b) ==>
      forall k :: 0 <= k < |b| && HasTask(b[k].tasks, taskId) ==> colId == Some(b[k].id)
  {
    task, colId := None, None;
    var i := 0;
    while i < |b|
      invariant 0 <= i <= |b|
      invariant task.None? && colId.None?
      invariant forall k :: 0 <= k < i ==> !HasTask(b[k].tasks, taskId)
    {
      var idx := TaskIndex(b[i].tasks, taskId);
      if idx != -1 {
        task, colId := Some(b[i].tasks[idx]), Some(b[i].id);
        break;
      }
      i := i + 1;
    }
    if task.None? {
      NotHeldAnywhere(b, taskId);
    } else {
      assert FoundAt(b, taskId, i, task.value, colId);
      HeldSomewhere(b, taskId, i);
      if UniqueTaskIds(b) {
        forall k | 0 <= k < |b| && HasTask(b[k].tasks, taskId) ensures colId == Some(b[k].id) {
          if k != i { SingleOwner(b, i, k, taskId); }
        }
      }
    }
  }

  /** Column `k` is the first column that holds the id. */
  predicate FirstHolder(b: Board, taskId: string, k: nat)
    requires k < |b|
  {
    && HasTask(b[k].tasks, taskId)
    && forall j :: 0 <= j < k ==> !HasTask(b[j].tasks, taskId)
  }

  /** The first task with the id in column `k`, which holds it. */
  function TaskOf(b: Board, taskId: string, k: nat): (t: Task)
    requires k < |b| && HasTask(b[k].tasks, taskId)
    ensures t in b[k].tasks && t.id == taskId
  {
    b[k].tasks[TaskIndex(b[k].tasks, taskId)]
  }

  /** Column `k` is the first that holds the id, and `task` is its first task with that id. */
  predicate FoundAt(b: Board, taskId: string, k: nat, task: Task, colId: Option<string>)
    requires k < |b|
  {
    && FirstHolder(b, taskId, k)
    && task == TaskOf(b, taskId, k)
    && colId == Some(b[k].id)
  }

  /** There is at most one first holder. */
  lemma FirstHolderUnique(b: Board, taskId: string, i: nat, k: nat)
    requires i < |b| && k < |b| && FirstHolder(b, taskId, i) && FirstHolder(b, taskId, k)
    ensures i == k
  {
  }

  /** An id on the board has a first holder. */
  lemma {:induction false} FirstHolderExists(b: Board, taskId: string)
    requires taskId in AllTaskIds(b)
    ensures exists k :: 0 <= k < |b| && FirstHolder(b, taskId, k)
  {
    if HasTask(b[0].tasks, taskId) {
      assert FirstHolder(b, taskId, 0);
    } else {
      assert AllTaskIds(b) == TaskIds(b[0].tasks) + AllTaskIds(b[1..]);
      FirstHolderExists(b[1..], taskId);
      var k :| 0 <= k < |b[1..]| && FirstHolder(b[1..], taskId, k);
      assert FirstHolder(b, taskId, k + 1);
    }
  }

  /** An id held by no column is not on the board. */
  lemma {:induction false} NotHeldAnywhere(b: Board, taskId: string)
    requires forall k :: 0 <= k < |b| ==> !HasTask(b[k].tasks, taskId)
    ensures taskId !in AllTaskIds(b)
  {
    if |b| > 0 {
      NotHeldAnywhere(b[1..], taskId);
    }
  }

  /** An id held by column `i` is on the board. */
  lemma HeldSomewhere(b: Board, taskId: string, i: nat)
    requires i < |b| && HasTask(b[i].tasks, taskId)
    ensures taskId in AllTaskIds(b)
  {
    AllTaskIdsSplit(b, i);
  }
}
