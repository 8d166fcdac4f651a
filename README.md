# TaskCat board: a verified model of its drag-and-drop and editing logic

TaskCat is a kanban board: columns of task cards. You move a card by dragging it onto another card
or onto a column, and you can drag whole columns the same way. The board reorders itself **live**
while the pointer hovers, before anything is dropped. Cards are added and edited in a dialog with a
markdown editor and a tag editor, and deleted from a context menu.

This project models that logic in Dafny and proves what it does:

- `Types` (types.ts): the entities — tags, tasks, columns, the two kinds of drag item — and the
  JavaScript value rules the handlers rely on. These are truthiness of an optional string and
  `s || fallback`.
- `Lists`: the array methods the handlers call, with their JavaScript meaning.
  - `findIndex` returns -1 when nothing is found.
  - `splice` clamps an insertion index past the end.
  - `filter` keeps what passes.
- `Reorder`:
  - the live reordering of App.tsx as functions of the board and the drag session;
  - the lemmas about them: transfer and permutation invariants, the same-column and cross-column
    placement rules, the no-op cases, the re-pointing of the session, and worked examples.
- `Lifecycle`: the drag start, deferred by a zero-delay timer, its firing, and the end of a drag.
  - They form a state machine over the pending start and the published session.
  - The timer is an explicit pending slot plus a `Fire` event.
- `Crud`: the delete and save updaters, as `map`/`filter` functions with their lemmas, and the
  `for … break` lookup of a task for editing, as a method with a loop.
- `TaskCardView` (components/TaskCard.tsx) and `ColumnView` (components/Column.tsx):
  - when a hover asks for a move, and which move;
  - what a card or column derives from the session.

  `e.target === e.currentTarget` is a boolean parameter.
- `TaskForm` (components/Modal.tsx):
  - the pure helpers: the blank-title guard, the 100-character description, the tag list updates
    and the initial editor text;
  - class `Form`, holding the dialog's fields, with one method per handler that changes them.
- `Constants` (constants.ts): the initial board, the base case of the id-uniqueness invariant.
- `App` (App.tsx): class `App`, whose fields are the board, the drag session, the pending start, the
  menu and the dialog state.
  - Every handler is a method, with a contract that ties the new state to the `Reorder`, `Crud` and
    `Lifecycle` functions.
  - `Valid()` says that task ids are unique on the whole board and that column ids are unique.
    Every method that changes the board is proved to keep it, except that for a save in add mode
    this is proved only when the dialog names a column and the new id is not already on the board.
  - The two reorder updaters are written as the step-by-step methods of the source.

handleMoveTask has no tie-break rule for moves within one column. A forward move lands after its
target and a backward move before it only because the target index is computed on the column
**before** the dragged task is removed. The model does exactly that;
`Reorder.SameColumnForwardExample` and `Reorder.SameColumnBackwardExample` show both directions.

## Model

| member | source | states |
|---|---|---|
| Types.DragItem.Kind | types.ts:31-33 | The item's kind is TASK exactly for the task variant. |
| Types.OrElse | App.tsx:82 | `s \|\| fallback`: the string when it is present and non-empty, the fallback otherwise. |
| Lists.IndexOf | App.tsx:176-177 | The `findIndex` result: -1 exactly when the value is absent, otherwise the first index holding it. |
| Lists.RemoveAt | App.tsx:198 | `splice(i, 1)`: one element shorter, the elements before `i` in place, those after shifted down by one. |
| Lists.InsertAt | App.tsx:201 | `splice(i, 0, x)`: `x` at the clamped index `min(i, length)`, the rest kept in order around it. |
| Lists.RemoveThenInsert | App.tsx:198-201 | Inserting a removed element back at its own index restores the list. |
| Lists.InsertThenRemove | App.tsx:198-201 | Removing the element just inserted (at the clamped index) gives the original list back. |
| Lists.RemoveAtMultiset | App.tsx:198 | A removal takes exactly one copy of the removed element out of the multiset. |
| Lists.InsertAtMultiset | App.tsx:201 | An insertion adds exactly one copy of the element to the multiset. |
| Lists.Filter | App.tsx:109-112 | The kept elements all pass the test, and there are no more of them than the input has. |
| Lists.FilterCounts | App.tsx:109-112 | Each value passing the test keeps its multiplicity; every other value is gone. |
| Reorder.Transfer | App.tsx:197-205 | The splice pair on a board: task `si` leaves column `s` and enters column `t` at `ti`; within one column both splices act on the same list. Its properties are stated by `TransferKeepsTaskIds` and by `MoveTaskSameColumn` / `MoveTaskCrossColumn`. |
| Reorder.MoveTaskUpdate | App.tsx:174-208 | The `setColumns` updater of handleMoveTask: the board when a column or the dragged task is missing, otherwise the transfer to the target index. Its properties are stated by `MoveTaskKeepsTaskIds`, `MoveTaskKeepsUniqueness`, `MoveTaskKeepsColumns`, `MoveTaskTargetOnly`, `MoveTaskSameColumn`, `MoveTaskCrossColumn` and `MoveTaskNoOps`. |
| Reorder.MoveTaskPasses | App.tsx:163-172 | The three early returns of handleMoveTask: a task session, not hovering the dragged task, and not its own column without a target. `MoveTaskNoOps` states that each failing guard is a no-op, and `ColumnView.CardEnterPassesGuards` that card hovers pass. |
| Reorder.HandleMoveTask | App.tsx:162-212 | handleMoveTask on board and session: the guards, the board updater, then the session re-pointed to the target column. Its properties are stated by `MoveTaskNoOps`, `MoveTaskRepointsSession` and `MoveTaskKeepsSessionOnBoard`. |
| Reorder.TargetIndex | App.tsx:191-195 | The insertion index is at most the length. It is below the length exactly when a truthy target id is in the column, and then it is the first index holding the target, as `findIndex` returns. |
| Reorder.SingleOwner | App.tsx:56-63 | With unique task ids, two different columns never hold the same id. |
| Reorder.TransferKeepsTaskIds | App.tsx:197-205 | Moving one task between any two columns keeps the multiset of task ids on the board. |
| Reorder.MoveTaskKeepsTaskIds | App.tsx:174-208 | A task move keeps the multiset of task ids, whether or not it finds what it looks for. |
| Reorder.MoveTaskKeepsUniqueness | App.tsx:174-208 | A task move keeps task ids unique. |
| Reorder.MoveTaskKeepsColumns | App.tsx:182-207 | A task move keeps the number of columns, their order, ids and headers. Every column other than the source and target is untouched. |
| Reorder.MoveTaskTargetOnly | App.tsx:197-205 | On a board with unique ids, the moved task ends up in the target column and in no other. |
| Reorder.MoveTaskSameColumn | App.tsx:183-201 | Within one column the task takes the target's original index, or the last place when no target is found. Removing it there leaves the other tasks in their old order. |
| Reorder.MoveTaskCrossColumn | App.tsx:191-205 | Across columns the task leaves the source and enters the target at the target's index, just in front of the target task. With no target found it is appended; the rest of the target is unchanged. |
| Reorder.MoveTaskNoOps | App.tsx:163-189 | No task session, hovering the dragged task itself, and its own column with no target each leave board and session unchanged. A missing column or task leaves the board unchanged. |
| Reorder.MoveTaskRepointsSession | App.tsx:211 | Past the three guards, the session names the target column as the task's home, even when the board did not change. |
| Reorder.SessionOnBoard | App.tsx:165-188 | The invariant the next hover relies on: during a task drag, the session's source column exists and holds the dragged task, so the lookups at lines 176 and 188 succeed. It is established by a card's drag start (`ColumnView.CardStartOnBoard`), and `MoveTaskKeepsSessionOnBoard` and `App.App.MoveTask` preserve it. |
| ColumnView.CardStartOnBoard | components/Column.tsx:133-140 | On a board with unique column ids, the task drag published by a card's drag start names an existing column that holds the card's task. |
| Reorder.MoveTaskKeepsSessionOnBoard | App.tsx:210-211 | If the session's column held the dragged task before a move onto an existing column, the (re-pointed) session's column holds it after. |
| Reorder.MoveColumnUpdate | App.tsx:219-230 | The `setColumns` updater of handleMoveColumn: the board when either id is missing, otherwise the dragged column spliced out and back in at the target's old index. Its properties are stated by `MoveColumnPlacement` and `MoveColumnKeepsUniqueness`. |
| Reorder.MoveColumnPasses | App.tsx:216-217 | The two early returns of handleMoveColumn: a column session, dragging a column other than the target. `MoveColumnNoOps` states that a failing guard is a no-op. |
| Reorder.HandleMoveColumn | App.tsx:215-231 | handleMoveColumn on board and session: the guards, then the board updater, with the session left alone. Its properties are stated by `MoveColumnNoOps`, `MoveColumnPlacement` and `MoveColumnKeepsUniqueness`. |
| Reorder.MoveColumnNoOps | App.tsx:216-224 | No column session, the dragged column itself, or a missing id leaves the state unchanged. A column move never changes the session. |
| Reorder.MoveColumnPlacement | App.tsx:219-229 | A column move is a permutation; the dragged column lands at the target's original index and the others keep their order. |
| Reorder.MoveColumnKeepsUniqueness | App.tsx:219-229 | A column move keeps the multisets of task ids and column ids, hence both uniquenesses. |
| Reorder.SameColumnForwardExample | App.tsx:183-201 | In [A,B,C], dragging A onto C gives [B,C,A]. |
| Reorder.SameColumnBackwardExample | App.tsx:183-201 | In [A,B,C], dragging C onto A gives [C,A,B]. |
| Reorder.CrossColumnExample | App.tsx:191-205 | X=[t,u] and Y=[v,w]: dragging t onto v gives X=[u] and Y=[t,v,w]. |
| Reorder.EmptyColumnExample | App.tsx:191-201 | A task dragged into an empty column lands there at index 0 and leaves its column. |
| Reorder.SessionContinuityExample | App.tsx:174-211 | After t moves onto v the session names Y, so the next hover, on w, reorders Y to [v,w,t]. A session still naming X would move nothing. |
| Reorder.MoveColumnExample | App.tsx:219-229 | Columns [1,2,3,4]: dragging 2 onto 4 gives [1,3,4,2]. |
| Lifecycle.Publish | App.tsx:140-143 | The deferred callback publishes a task drag exactly when the kind is TASK with a truthy source column, carrying both ids; otherwise a column drag carrying the id. |
| Lifecycle.Start | App.tsx:136-139 | A start replaces whatever start was pending with its own arguments and leaves the session alone. |
| Lifecycle.Fire | App.tsx:139-145 | Firing empties the slot, and a pending start becomes the session. With nothing pending the session is kept. |
| Lifecycle.End | App.tsx:148-154 | End cancels the pending start and clears the session. |
| Lifecycle.StartSupersedes | App.tsx:136-139 | Of two starts in a row only the second is ever published. |
| Lifecycle.FireOnce | App.tsx:139-145 | A scheduled start is published exactly once; a second firing changes nothing. |
| Lifecycle.EndIdempotent | App.tsx:148-154 | Ending twice is ending once. A start ended before its timer fires is never published. |
| Lifecycle.CardStartPublishesTask | App.tsx:140-141 | A task start with a non-empty column id publishes that task and column. |
| Lifecycle.TaskStartWithoutSource | App.tsx:140-143 | A task start without a truthy source column is published as a column drag carrying the task's id. |
| Crud.DeleteTask | App.tsx:106-110 | A task delete keeps every column and its header, and filters each column's tasks by id. Its effect on the ids is stated by `DeleteTaskIds` and `DeleteTaskSpec`. |
| Crud.DeleteColumn | App.tsx:111-112 | A column delete filters the board by column id. Its effect is stated by `DeleteColumnSpec`. |
| Crud.Delete | App.tsx:105-114 | handleDelete dispatches on the item's kind. `DeleteIdempotent` states that deleting twice is deleting once, and `App.App.Delete` that it keeps `Valid()`. |
| Crud.DeleteTaskIds | App.tsx:106-110 | The board's task ids after a task delete are its old ids with that id filtered out. |
| Crud.DeleteTaskSpec | App.tsx:106-110 | After a task delete the id is on no column. Every other id keeps its count, and columns and headers are unchanged. Unique ids stay unique. |
| Crud.DeleteColumnSpec | App.tsx:111-112 | After a column delete, the column ids are the old ones with that id filtered out. Other column ids keep their count, task ids form a sub-multiset, and both uniquenesses are kept. |
| Crud.DeleteIdempotent | App.tsx:105-114 | Deleting the same item twice is deleting it once. |
| Crud.NewTask | App.tsx:80-90 | A new task has the given id and date, the patch's title or '新任务', the patch's tags or none. It has a red dot, the todo badge '待办', and the patch's description, content and image. |
| Crud.MergePatch | App.tsx:98 | `{...t, ...taskData}`: id, date, badge and red dot are kept; each field the patch holds overrides the task's. |
| Crud.MergePatchLaws | App.tsx:98 | Merging the empty patch is the identity, and merging the same patch twice is merging it once. |
| Crud.EditTasks | App.tsx:96-99 | Edit mode maps the column's tasks: the one whose id the dialog holds is merged with the patch, every other task is unchanged, and the length is kept. |
| Crud.SaveColumn | App.tsx:77-102 | The `map` callback for one column: add mode prepends a new task to the dialog's column, edit mode edits the dialog's column, and any other column is returned as it was. Its properties are stated by `SaveAddPrepends`, `SaveEditSpec` and the uniqueness lemmas. |
| Crud.SaveTask | App.tsx:76-103 | handleSaveTask's updater keeps the number of columns and applies the per-column callback to each of them. Its properties are stated by `SaveAddPrepends`, `SaveAddIds`, `SaveAddKeepsUniqueness`, `SaveEditSpec` and `SaveEditKeepsUniqueness`. |
| Crud.SaveAddPrepends | App.tsx:79-91 | Add mode puts the new task first in every column carrying the dialog's column id. Other columns and all headers are unchanged. |
| Crud.SaveAddIds | App.tsx:79-91 | Add mode adds the new id once per column carrying the dialog's column id; no other id changes count. |
| Crud.SaveAddKeepsUniqueness | App.tsx:79-91 | With unique ids and a fresh new id, ids stay unique. The new id is on the board exactly when the dialog's column exists. |
| Crud.SaveEditSpec | App.tsx:95-100 | Edit mode keeps all ids, headers and lengths. It merges the patch into exactly the dialog's task within the dialog's column. |
| Crud.SaveEditKeepsUniqueness | App.tsx:95-100 | Edit mode keeps task ids unique. |
| Crud.FindTaskForEdit | App.tsx:51-63 | No task is found exactly when the id is not on the board. A found task is the first match in the first column holding it, with that column's id. With unique ids, that column is the only one holding it. |
| Crud.FirstHolderExists | App.tsx:55-62 | An id on the board always has a first column holding it, so the lookup's outcomes cover every id. |
| TaskCardView.CardDragEnter | components/TaskCard.tsx:38-47 | A card asks for a move exactly during a task drag when it is not the dragged card, and then asks to move the task in front of itself in its column. |
| TaskCardView.CardDragStart | components/TaskCard.tsx:33-36 | A card's drag start forwards exactly its task id and its column id. |
| TaskCardView.ContainerStyle | components/TaskCard.tsx:63-69 | The dragged card is dimmed. Other cards lose the hover lift exactly while a drag is on, and idle cards keep it. |
| TaskCardView.CardDropPassesUp | components/TaskCard.tsx:54-61 | A drop on a card is passed up for cleanup exactly during a task drag. `EnterAndDropAgree` relates it to the enter guard. |
| TaskCardView.EnterAndDropAgree | components/TaskCard.tsx:44-61 | A card asks for a move exactly when it passes drops up and is not the dimmed dragged card. |
| ColumnView.IsDraggingColumn | components/Column.tsx:56 | The column is being dragged exactly when the session is a column drag of this column's id. `ColumnDragEnter` and `EmptyState` state how it gates the hover and the placeholder. |
| ColumnView.DraggedTaskId | components/Column.tsx:57 | The dragged task id is present exactly during a task drag, and then it is the session's task. |
| ColumnView.DraggedKind | components/Column.tsx:139 | `draggedItem?.type`: absent without a session, TASK exactly for a task drag. |
| ColumnView.ColumnDragEnter | components/Column.tsx:56-80 | A column move onto this column is asked for exactly during the drag of another column. An append of the task is asked for during a task drag exactly when the column is empty, or lacks the task and the event is on the column itself. |
| ColumnView.CardPropsFor | components/Column.tsx:134-139 | A card is marked dragging exactly when its id is the session's task id, and it sees the session's kind. |
| ColumnView.CardStart | components/Column.tsx:140 | A card's drag start is a TASK start of that card with this column as its source. |
| ColumnView.ColumnStart | components/Column.tsx:90 | A column's drag start publishes a drag of that column. |
| ColumnView.EmptyState | components/Column.tsx:150-153 | The placeholder shows exactly when the column is empty and not being dragged. It reads '放入此处' exactly during a task drag, '暂无任务' otherwise. |
| ColumnView.CardEnterPassesGuards | components/TaskCard.tsx:44-45 | A card's move request (with a non-empty id) always passes handleMoveTask's three guards. |
| ColumnView.ColumnEnterAppends | components/Column.tsx:68-78 | On a consistent board a column's task request never targets the task's own column. It appends the task to this column, removes it from its source and re-points the session. |
| ColumnView.CardEnterMoves | components/TaskCard.tsx:44-45 | Hovering card i puts the dragged task at index i. From another column the card is pushed to i+1. The session then names this column. |
| TaskForm.ColorsComplete | components/Modal.tsx:14 | The palette lists every one of the six tag colours, each once. |
| TaskForm.Describe | components/Modal.tsx:57 | The content itself when it has at most 100 characters. Otherwise its first 100 characters followed by '...'. |
| TaskForm.SavePayload | components/Modal.tsx:53-62 | Nothing is saved exactly when the title is blank. Otherwise title, derived description, content, cover image and tags are all passed. |
| TaskForm.TagsAfterAdd | components/Modal.tsx:65-70 | A blank label adds nothing. Any other label appends one tag, untrimmed, in the selected colour, after the unchanged old tags. |
| TaskForm.TagsAfterRemove | components/Modal.tsx:72-74 | An index out of range leaves the tags unchanged; otherwise exactly that tag is removed. |
| TaskForm.RemoveTagKeepsOthers | components/Modal.tsx:72-74 | A removal keeps the other tags in their order and takes out exactly one copy of the removed tag. |
| TaskForm.AddThenRemoveTag | components/Modal.tsx:65-74 | Removing a tag just added, at the last index, gives the old tags back. |
| TaskForm.InitialContent | components/Modal.tsx:31 | The editor opens with the non-empty content, else the non-empty description, else ''. |
| TaskForm.EditRoundTrip | components/Modal.tsx:28-63 | Saving a task opened and left untouched keeps its id, title, tags, date, badge and red dot. Its content becomes what the editor showed, with the description derived from it. Non-empty content and cover are unchanged. |
| TaskForm.Form.constructor | components/Modal.tsx:17-23 | The fields start empty, with colour blue and the write tab. |
| TaskForm.Form.Open | components/Modal.tsx:28-41 | Opening on a task fills title, editor text, cover and tags from it, and opening without one clears them. Either way the tab returns to write; a closed form keeps its fields. |
| TaskForm.Form.Save | components/Modal.tsx:53-62 | The payload is the save payload of the current fields: nothing for a blank title. |
| TaskForm.Form.AddTag | components/Modal.tsx:65-70 | The tags become the add result for the typed label and the selected colour. The input is cleared exactly when the label was not blank. |
| TaskForm.Form.RemoveTag | components/Modal.tsx:72-74 | The tags become the remove result for the index; nothing else changes. |
| TaskForm.Form.SetTitle | components/Modal.tsx:119 | Only the title changes. |
| TaskForm.Form.SetContent | components/Modal.tsx:171 | Only the editor text changes. |
| TaskForm.Form.SetCoverImage | components/Modal.tsx:139 | Only the cover changes (the remove-cover button sets it to ''; the URL input at line 197 sets it too). |
| TaskForm.Form.SetNewTagLabel | components/Modal.tsx:240 | Only the new-tag input changes. |
| TaskForm.Form.SelectColor | components/Modal.tsx:227-231 | Only the selected colour changes. |
| TaskForm.Form.SelectTab | components/Modal.tsx:151-160 | Only the active tab changes. |
| Constants.Card | constants.ts:10-20 | An initial card has the given id, a red dot and the given badge. |
| Constants.InitialColumns | constants.ts:3-113 | There are four columns, col-1 to col-4 in order. They hold 2, 1, 2 and 2 tasks, with the icons todo, progress, done and manage. |
| Constants.InitialTaskIds | constants.ts:11-104 | The task ids, column by column, are t-1 to t-7. |
| Constants.InitialUnique | constants.ts:3-113 | Task ids and column ids of the initial board are unique: each task is in exactly one column. |
| Constants.InitialTasksFlagged | constants.ts:13-110 | Every initial task has a red dot and a status badge. |
| App.DefaultColumnId | App.tsx:303 | The floating button's column: the first column's id when it is non-empty, 'col-1' otherwise. |
| App.ApplyMoveTask | App.tsx:174-208 | The step-by-step updater, including the aliased same-column copy, computes the task-move update. |
| App.ApplyMoveColumn | App.tsx:219-230 | The step-by-step updater computes the column-move update. |
| App.App.constructor | App.tsx:12-31 | The App starts on the initial board with no drag, no pending start, no menu and the dialog closed in add mode. It starts valid. |
| App.App.AddTaskClick | App.tsx:43-49 | The dialog opens in add mode for the column, with no task; nothing else changes. |
| App.App.AddButtonClick | App.tsx:303 | The dialog opens in add mode for the default column. |
| App.EditOpened | App.tsx:64-72 | With a non-empty column id the dialog opens in edit mode on that column, the task's id and a task of that column carrying the id; with an empty id it is left as it was. |
| App.App.EditTaskClick | App.tsx:51-74 | An id not on the board leaves the dialog alone. Otherwise the first column holding the task decides: with a non-empty id the dialog opens in edit mode on that column and on its first task with the id; with an empty id the dialog stays as it was. With unique ids the column named is the task's only column. |
| App.App.CloseModal | App.tsx:324 | Only the open flag of the dialog is cleared. |
| App.App.SaveTask | App.tsx:76-103 | The board becomes the save update for the dialog state. Validity is kept in edit mode, and in add mode for a fresh id. |
| App.App.SubmitForm | components/Modal.tsx:53-63 | A blank title changes nothing. Otherwise the form's payload is saved into the board, then the dialog closes. Validity is kept in edit mode, and in add mode for a fresh id. |
| App.App.Delete | App.tsx:105-114 | The board becomes the delete update; validity is kept. |
| App.App.OpenMenu | App.tsx:117-128 | The menu records the kind and id it was opened on. |
| App.App.CloseMenu | App.tsx:244 | The menu closes. |
| App.App.MenuEdit | App.tsx:335-337 | For a task, the dialog becomes exactly what an edit click on that task gives: unchanged for an id not on the board or a first holding column with an empty id, otherwise open in edit mode on that column and task. A column opens nothing; either way the menu closes. |
| App.App.MenuDelete | App.tsx:338 | The menu's item is deleted and the menu closes. |
| App.App.DragStart | App.tsx:131-146 | The menu closes, and the drag phase becomes the start of this drag. |
| App.App.FireDragTimeout | App.tsx:139-145 | The drag phase becomes its firing. |
| App.App.DragEnd | App.tsx:148-154 | The drag phase becomes its end. |
| App.App.Drop | App.tsx:233-238 | A drop ends the drag and does nothing else. |
| App.App.MoveTask | App.tsx:162-212 | Board and session become the task-move result. Validity is kept, and so is a session that agrees with the board. |
| App.App.MoveColumn | App.tsx:215-231 | Board and session become the column-move result; validity is kept. |

## Left out

- JSX rendering, Tailwind classes, icons and `autoAnimate` (App.tsx:18-22, 240-343): presentation only.
- The DOM plumbing: `dataTransfer`, `preventDefault`/`stopPropagation` and `handleDragOver`
  (App.tsx:156-159). Menu placement from `getBoundingClientRect` (App.tsx:120-124) is also left out.
  The menu keeps only its kind and id.
- The menu's document `mousedown` listener (components/Menu.tsx:16-24). It is only the trigger for
  `App.App.CloseMenu`.
- React scheduling: batched `setState`, stale closures and real timer delays. Events are applied in
  order to the latest state. The deferred drag start is the explicit pending slot, and its timer id
  is not kept: cancelling a timer that has run does nothing, so the slot is emptied when it fires.
- `Date.now()` and `toLocaleDateString`/`toLocaleTimeString` (App.tsx:81, 88): the new id and the
  date string are parameters of the save.
- Markdown rendering with `marked` (components/Modal.tsx:44-49) and image paste through the clipboard
  and `FileReader` (components/Modal.tsx:76-99): foreign libraries and I/O.
- Colour lookup tables (components/Modal.tsx:279-301, components/TagPill.tsx:8-18) and the static
  SettingsModal, MailModal and RecycleBin components: no behaviour beyond display.
- TaskForm.Describe: JavaScript counts UTF-16 code units and Dafny counts Unicode scalar values, so the
  100-character cut matches the source only for text without characters outside the Basic
  Multilingual Plane.
- `Crud.TaskPatch`: it carries the five fields the dialog sends (title, description, content,
  imageUrl, tags). A `Partial<Task>` with other keys is not modelled.
- App.App.MoveTask / App.App.MoveColumn: the in-place `splice` on the copied arrays is modelled as
  sequence updates on local copies. The `tCol = sCol` alias is a branch on the two column indices.
- App.App.SaveTask: uniqueness after an add is promised only for a new id not already on the board;
  `new-${Date.now()}` does not guarantee that.
