/**
 * The App component (App.tsx) as an object: the board, the drag session, the deferred drag start,
 * the context menu and the task dialog are its fields, and every handler is a method that updates
 * them. React's state setters are applied at once and in order.
 */
module App {
  import opened Wrappers
  import opened Types
  import opened Lists
  import opened Reorder
  import opened Lifecycle
  import opened Crud
  import opened Constants
  import TaskForm

  /** The context menu: which kind of item it was opened on, and its id. Its screen position is not modelled. */
  datatype MenuTarget = MenuTarget(kind: ItemKind, id: string)

  /** The modal state the App starts with (line 31). */
  const ClosedModal: ModalState := ModalState(false, AddMode, None, None, None)

  /** The column the floating add button uses (line 303): `columns[0]?.id || 'col-1'`. */
  function DefaultColumnId(b: Board): (r: string)
    ensures |b| > 0 && b[0].id != "" ==> r == b[0].id
    ensures !(|b| > 0 && b[0].id != "") ==> r == "col-1"
  {
    if |b| > 0 && b[0].id != "" then b[0].id else "col-1"
  }

  /**
   * The updater handleMoveTask passes to `setColumns` (lines 174-208), step by step. A same-column
   * move reuses the source copy as the target (`tCol = sCol`), so the index is found on the column
   * before the removal and the task is spliced back into that same list.
   */
  method ApplyMoveTask(prev: Board, draggedId: string, currentSourceColId: string, targetColId: string,
                       targetTaskId: Option<string>) returns (next: Board)
    ensures next == MoveTaskUpdate(prev, draggedId, currentSourceColId, targetColId, targetTaskId)
  {
    var newCols := prev;
    var sColIdx := ColumnIndex(newCols, currentSourceColId);
    var tColIdx := ColumnIndex(newCols, targetColId);
    if sColIdx == -1 || tColIdx == -1 {
      return prev;
    }
    var sTasks := newCols[sColIdx].tasks;
    var tTasks := if sColIdx == tColIdx then sTasks else newCols[tColIdx].tasks;
    var sTaskIdx := TaskIndex(sTasks, draggedId);
    if sTaskIdx == -1 {
      return prev;
    }
    var tTaskIdx := |tTasks|;
    if Truthy(targetTaskId) {
      var idx := TaskIndex(tTasks, targetTaskId.value);
      if idx != -1 {
        tTaskIdx := idx;
      }
    }
    assert tTaskIdx == TargetIndex(prev[tColIdx].tasks, targetTaskId);
    var movedTask := sTasks[sTaskIdx];
    sTasks := RemoveAt(sTasks, sTaskIdx);
    if sColIdx == tColIdx {
      sTasks := InsertAt(sTasks, tTaskIdx, movedTask);
      newCols := newCols[sColIdx := newCols[sColIdx].(tasks := sTasks)];
    } else {
      tTasks := InsertAt(tTasks, tTaskIdx, movedTask);
      newCols := newCols[sColIdx := newCols[sColIdx].(tasks := sTasks)];
      newCols := newCols[tColIdx := newCols[tColIdx].(tasks := tTasks)];
    }
    assert newCols == Transfer(prev, sColIdx, sTaskIdx, tColIdx, tTaskIdx);
    MoveTaskAt(prev, draggedId, currentSourceColId, targetColId, targetTaskId, sColIdx, sTaskIdx, tColIdx);
    return newCols;
  }

  /** The updater of handleMoveColumn (lines 219-230): splice the column out, then in at the target's index. */
  method ApplyMoveColumn(prev: Board, draggedColId: string, targetColId: string) returns (next: Board)
    ensures next == MoveColumnUpdate(prev, draggedColId, targetColId)
  {
    var newCols := prev;
    var sourceIdx := ColumnIndex(newCols, draggedColId);
    var targetIdx := ColumnIndex(newCols, targetColId);
    if sourceIdx == -1 || targetIdx == -1 {
      return prev;
    }
    var movedCol := newCols[sourceIdx];
    newCols := RemoveAt(newCols, sourceIdx);
    newCols := InsertAt(newCols, targetIdx, movedCol);
    return newCols;
  }

  /**
   * The dialog after an edit click on a task whose first holder is column `k`: opened in edit mode
   * on that column and task when the column id is truthy, otherwise left as it was.
   */
  function EditOpened(m: ModalState, b: Board, taskId: string, k: nat): (r: ModalState)
    requires k < |b| && HasTask(b[k].tasks, taskId)
    ensures b[k].id != "" ==>
      && r.isOpen && r.mode == EditMode && r.columnId == Some(b[k].id) && r.taskId == Some(taskId)
      && r.initialData.Some? && r.initialData.value in b[k].tasks && r.initialData.value.id == taskId
    ensures b[k].id == "" ==> r == m
  {
    if b[k].id != "" then ModalState(true, EditMode, Some(b[k].id), Some(taskId), Some(TaskOf(b, taskId, k))) else m
  }

  class App {
    var columns: Board
    var draggedItem: Option<DragItem>
    /** `dragTimeoutRef`: the drag start waiting for its zero-delay timer. */
    var pendingStart: Option<PendingStart>
    var menu: Option<MenuTarget>
    var modal: ModalState

    /** Task ids are unique on the whole board, and column ids are unique. */
    predicate Valid()
      reads this
    {
      UniqueTaskIds(columns) && UniqueColumnIds(columns)
    }

    /** The initial state (lines 12-13, 31, 39): the initial board, nothing dragged, no menu, the dialog closed. */
    constructor()
      ensures columns == InitialData && draggedItem.None? && pendingStart.None? && menu.None? && modal == ClosedModal
      ensures Valid()
    {
      columns := InitialData;
      draggedItem, pendingStart, menu := None, None, None;
      modal := ClosedModal;
      InitialUnique();
    }

    // -------------------------------------------------------------------------
    // The task dialog (lines 43-103, 303, 324)
    // -------------------------------------------------------------------------

    /** handleAddTaskClick: open the dialog in add mode for this column, with no task. */
    method AddTaskClick(colId: string)
      modifies this
      ensures modal == ModalState(true, AddMode, Some(colId), None, None)
      ensures columns == old(columns) && draggedItem == old(draggedItem)
      ensures pendingStart == old(pendingStart) && menu == old(menu)
    {
      modal := ModalState(true, AddMode, Some(colId), None, None);
    }

    /** The floating add button: add to the first column, or to 'col-1' when there is none. */
    method AddButtonClick()
      modifies this
      ensures modal == ModalState(true, AddMode, Some(DefaultColumnId(columns)), None, None)
      ensures columns == old(columns) && draggedItem == old(draggedItem)
      ensures pendingStart == old(pendingStart) && menu == old(menu)
    {
      AddTaskClick(DefaultColumnId(columns));
    }

    /**
     * handleEditTaskClick: look the task up and, when it is found in a column whose id is truthy,
     * open the dialog in edit mode on it. An id not on the board, or found first in a column with
     * an empty id, leaves the dialog as it was.
     */
    method EditTaskClick(taskId: string)
      modifies this
      ensures taskId !in AllTaskIds(columns) ==> modal == old(modal)
      ensures forall k :: 0 <= k < |columns| && FirstHolder(columns, taskId, k) ==>
        modal == EditOpened(old(modal), columns, taskId, k)
      ensures Valid() && modal.isOpen && modal.mode == EditMode && modal.taskId == Some(taskId) && modal != old(modal) ==>
        forall k :: 0 <= k < |columns| && HasTask(columns[k].tasks, taskId) ==> modal.columnId == Some(columns[k].id)
      ensures columns == old(columns) && draggedItem == old(draggedItem)
      ensures pendingStart == old(pendingStart) && menu == old(menu)
    {
      forall k | 0 <= k < |columns| && FirstHolder(columns, taskId, k)
        ensures taskId in AllTaskIds(columns)
      {
        HeldSomewhere(columns, taskId, k);
      }
      var task, colId := FindTaskForEdit(columns, taskId);
      if task.Some? {
        var i :| 0 <= i < |columns| && FoundAt(columns, taskId, i, task.value, colId);
        if Truthy(colId) {
          modal := ModalState(true, EditMode, colId, Some(taskId), task);
        }
        forall k | 0 <= k < |columns| && FirstHolder(columns, taskId, k)
          ensures modal == EditOpened(old(modal), columns, taskId, k)
        {
          FirstHolderUnique(columns, taskId, i, k);
        }
      }
    }

    /** The dialog's onClose (line 324): keep everything but the open flag. */
    method CloseModal()
      modifies this
      ensures modal == old(modal).(isOpen := false)
      ensures columns == old(columns) && draggedItem == old(draggedItem)
      ensures pendingStart == old(pendingStart) && menu == old(menu)
    {
      modal := modal.(isOpen := false);
    }

    /**
     * handleSaveTask: add mode prepends a new task to the dialog's column, edit mode merges the patch
     * into the dialog's task. `Date.now()` and the formatted date arrive as `newId` and `date`.
     */
    method SaveTask(patch: TaskPatch, newId: string, date: string)
      modifies this
      ensures columns == Crud.SaveTask(old(columns), modal, patch, newId, date)
      ensures modal.mode == EditMode && old(Valid()) ==> Valid()
      ensures modal.mode == AddMode && modal.columnId.Some? && old(Valid()) && newId !in old(AllTaskIds(columns)) ==> Valid()
      ensures modal == old(modal) && draggedItem == old(draggedItem)
      ensures pendingStart == old(pendingStart) && menu == old(menu)
    {
      var prev := columns;
      columns := Crud.SaveTask(columns, modal, patch, newId, date);
      if modal.mode == EditMode {
        if UniqueTaskIds(prev) { SaveEditKeepsUniqueness(prev, modal, patch, newId, date); }
        SaveEditIds(prev, modal, patch, newId, date);
        SaveEditSpec(prev, modal, patch, newId, date);
      } else if modal.columnId.Some? && UniqueTaskIds(prev) && UniqueColumnIds(prev) && newId !in AllTaskIds(prev) {
        SaveAddKeepsUniqueness(prev, modal, patch, newId, date);
        SaveAddPrepends(prev, modal, patch, newId, date);
      }
    }

    /**
     * The dialog's save button: the form's handleSave, then onSave and onClose. A blank title does
     * neither, so the board and the dialog stay as they were.
     */
    method SubmitForm(form: TaskForm.Form, newId: string, date: string)
      modifies this
      ensures var p := TaskForm.SavePayload(form.title, form.content, form.coverImage, form.tags);
        && (p.None? ==> columns == old(columns) && modal == old(modal))
        && (p.Some? ==> columns == Crud.SaveTask(old(columns), old(modal), p.value, newId, date)
                        && modal == old(modal).(isOpen := false))
      ensures old(modal).mode == EditMode && old(Valid()) ==> Valid()
      ensures old(modal).mode == AddMode && old(modal).columnId.Some? && old(Valid()) && newId !in old(AllTaskIds(columns)) ==> Valid()
      ensures draggedItem == old(draggedItem) && pendingStart == old(pendingStart) && menu == old(menu)
    {
      var patch := form.Save();
      if patch.Some? {
        SaveTask(patch.value, newId, date);
        CloseModal();
      }
    }

    // -------------------------------------------------------------------------
    // Delete and the context menu (lines 105-128, 244, 334-338)
    // -------------------------------------------------------------------------

    /** handleDelete: a task is removed from every column, a column is removed from the board. */
    method Delete(kind: ItemKind, id: string)
      modifies this
      ensures columns == Crud.Delete(old(columns), kind, id)
      ensures old(Valid()) ==> Valid()
      ensures modal == old(modal) && draggedItem == old(draggedItem)
      ensures pendingStart == old(pendingStart) && menu == old(menu)
    {
      var prev := columns;
      if kind == TaskItem {
        columns := DeleteTask(columns, id);
        DeleteTaskSpec(prev, id);
      } else {
        columns := DeleteColumn(columns, id);
        DeleteColumnSpec(prev, id);
      }
    }

    /** openMenu: remember what the menu was opened on. */
    method OpenMenu(kind: ItemKind, id: string)
      modifies this
      ensures menu == Some(MenuTarget(kind, id))
      ensures columns == old(columns) && modal == old(modal)
      ensures draggedItem == old(draggedItem) && pendingStart == old(pendingStart)
    {
      menu := Some(MenuTarget(kind, id));
    }

    /** A click on the background (line 244) or outside the menu closes it. */
    method CloseMenu()
      modifies this
      ensures menu.None?
      ensures columns == old(columns) && modal == old(modal)
      ensures draggedItem == old(draggedItem) && pendingStart == old(pendingStart)
    {
      menu := None;
    }

    /** The menu's edit entry: edit the task it was opened on (columns have no editor), then close. */
    method MenuEdit()
      modifies this
      ensures menu.None?
      ensures old(menu).None? || old(menu).value.kind == ColumnItem ==> modal == old(modal)
      ensures old(menu).Some? && old(menu).value.kind == TaskItem && old(menu).value.id !in AllTaskIds(columns) ==>
        modal == old(modal)
      ensures old(menu).Some? && old(menu).value.kind == TaskItem ==>
        forall k :: 0 <= k < |columns| && FirstHolder(columns, old(menu).value.id, k) ==>
          modal == EditOpened(old(modal), columns, old(menu).value.id, k)
      ensures columns == old(columns) && draggedItem == old(draggedItem) && pendingStart == old(pendingStart)
    {
      if menu.Some? && menu.value.kind == TaskItem {
        EditTaskClick(menu.value.id);
      }
      CloseMenu();
    }

    /** The menu's delete entry: delete the item it was opened on, then close. */
    method MenuDelete()
      modifies this
      ensures menu.None?
      ensures old(menu).None? ==> columns == old(columns)
      ensures old(menu).Some? ==> columns == Crud.Delete(old(columns), old(menu).value.kind, old(menu).value.id)
      ensures old(Valid()) ==> Valid()
      ensures modal == old(modal) && draggedItem == old(draggedItem) && pendingStart == old(pendingStart)
    {
      if menu.Some? {
        Delete(menu.value.kind, menu.value.id);
      }
      CloseMenu();
    }

    // -------------------------------------------------------------------------
    // The drag lifecycle (lines 131-154, 233-238)
    // -------------------------------------------------------------------------

    /** handleDragStart: close the menu, cancel a pending start and schedule this one. */
    method DragStart(kind: DragKind, id: string, sourceColId: Option<string>)
      modifies this
      ensures DragPhase(pendingStart, draggedItem) == Start(old(DragPhase(pendingStart, draggedItem)), kind, id, sourceColId)
      ensures menu.None?
      ensures columns == old(columns) && modal == old(modal)
    {
      menu := None;
      pendingStart := Some(PendingStart(kind, id, sourceColId));
    }

    /** The zero-delay timer runs its callback: the pending start becomes the session. */
    method FireDragTimeout()
      modifies this
      ensures DragPhase(pendingStart, draggedItem) == Fire(old(DragPhase(pendingStart, draggedItem)))
      ensures columns == old(columns) && modal == old(modal) && menu == old(menu)
    {
      if pendingStart.Some? {
        draggedItem := Some(Publish(pendingStart.value));
        pendingStart := None;
      }
    }

    /** handleDragEnd: cancel a pending start and clear the session. */
    method DragEnd()
      modifies this
      ensures DragPhase(pendingStart, draggedItem) == End(old(DragPhase(pendingStart, draggedItem)))
      ensures columns == old(columns) && modal == old(modal) && menu == old(menu)
    {
      pendingStart := None;
      draggedItem := None;
    }

    /** handleDrop: the moves already happened while hovering, so a drop only ends the drag. */
    method Drop()
      modifies this
      ensures DragPhase(pendingStart, draggedItem) == End(old(DragPhase(pendingStart, draggedItem)))
      ensures columns == old(columns) && modal == old(modal) && menu == old(menu)
    {
      DragEnd();
    }

    // -------------------------------------------------------------------------
    // Live reordering (lines 162-231)
    // -------------------------------------------------------------------------

    /**
     * handleMoveTask: past its three guards, apply the updater and record the target column as the
     * dragged task's new home. Uniqueness is kept, and so is a session that agrees with the board.
     */
    method MoveTask(targetColId: string, targetTaskId: Option<string>)
      modifies this
      ensures DragState(columns, draggedItem) == HandleMoveTask(old(DragState(columns, draggedItem)), targetColId, targetTaskId)
      ensures old(Valid()) ==> Valid()
      ensures old(Valid()) && old(SessionOnBoard(columns, draggedItem)) && ColumnIndex(old(columns), targetColId) != -1 ==>
        SessionOnBoard(columns, draggedItem)
      ensures pendingStart == old(pendingStart) && modal == old(modal) && menu == old(menu)
    {
      if draggedItem.None? || !draggedItem.value.TaskDrag? {
        return;
      }
      var draggedId := draggedItem.value.taskId;
      var currentSourceColId := draggedItem.value.sourceColId;
      if targetTaskId == Some(draggedId) {
        return;
      }
      if currentSourceColId == targetColId && !Truthy(targetTaskId) {
        return;
      }
      var prev := columns;
      var st := DragState(columns, draggedItem);
      columns := ApplyMoveTask(columns, draggedId, currentSourceColId, targetColId, targetTaskId);
      draggedItem := Some(TaskDrag(draggedId, targetColId));
      MoveTaskKeepsColumns(prev, draggedId, currentSourceColId, targetColId, targetTaskId);
      if UniqueTaskIds(prev) {
        MoveTaskKeepsUniqueness(prev, draggedId, currentSourceColId, targetColId, targetTaskId);
        if SessionOnBoard(prev, st.session) && ColumnIndex(prev, targetColId) != -1 {
          MoveTaskKeepsSessionOnBoard(st, targetColId, targetTaskId);
        }
      }
    }

    /** handleMoveColumn: past its two guards, apply the updater; the session is left alone. */
    method MoveColumn(targetColId: string)
      modifies this
      ensures DragState(columns, draggedItem) == HandleMoveColumn(old(DragState(columns, draggedItem)), targetColId)
      ensures old(Valid()) ==> Valid()
      ensures pendingStart == old(pendingStart) && modal == old(modal) && menu == old(menu)
    {
      if draggedItem.None? || !draggedItem.value.ColumnDrag? {
        return;
      }
      if draggedItem.value.colId == targetColId {
        return;
      }
      var prev := columns;
      columns := ApplyMoveColumn(columns, draggedItem.value.colId, targetColId);
      MoveColumnKeepsUniqueness(prev, draggedItem.value.colId, targetColId);
    }
  }
}
