/**
 * The live reordering of App.tsx as functions of the current columns and drag session: the task
 * and column updaters with the guards in front of them, and the id bookkeeping they rely on.
 */
module Reorder {
  import opened Wrappers
  import opened Types
  import opened Lists

  // ---------------------------------------------------------------------------
  // Identifiers and the uniqueness invariant
  // ---------------------------------------------------------------------------

  /** The ids of a column's tasks, in order. */
  function TaskIds(ts: seq<Task>): (r: seq<string>)
    ensures |r| == |ts|
    ensures forall k :: 0 <= k < |ts| ==> r[k] == ts[k].id
  {
    seq(|ts|, k requires 0 <= k < |ts| => ts[k].id)
  }

  /**
   * The ids of the columns, in display order. Tasks and columns are different records, so this
   * projection is written again for columns rather than shared.
   */
  function ColumnIds(b: Board): (r: seq<string>)
    ensures |r| == |b|
    ensures forall k :: 0 <= k < |b| ==> r[k] == b[k].id
  {
    seq(|b|, k requires 0 <= k < |b| => b[k].id)
  }

  /** Every task id on the board, column by column. */
  function AllTaskIds(b: Board): seq<string> {
    if |b| == 0 then [] else TaskIds(b[0].tasks) + AllTaskIds(b[1..])
  }

  /** Each task id occurs once on the whole board, so each task sits in exactly one column. */
  predicate UniqueTaskIds(b: Board) {
    Distinct(AllTaskIds(b))
  }

  predicate UniqueColumnIds(b: Board) {
    Distinct(ColumnIds(b))
  }

  /** `columns.findIndex(c => c.id === id)`. */
  function ColumnIndex(b: Board, id: string): int {
    IndexOf(ColumnIds(b), id)
  }

  /** `tasks.findIndex(t => t.id === id)`. */
  function TaskIndex(ts: seq<Task>, id: string): int {
    IndexOf(TaskIds(ts), id)
  }

  /** `tasks.some(t => t.id === id)`. */
  predicate HasTask(ts: seq<Task>, id: string) {
    id in TaskIds(ts)
  }

  /** Two columns that differ at most in their tasks. */
  predicate SameHeader(a: Column, b: Column) {
    a.(tasks := b.tasks) == b
  }

  lemma {:induction false} TaskIdsConcat(a: seq<Task>, b: seq<Task>)
    ensures TaskIds(a + b) == TaskIds(a) + TaskIds(b)
  {
  }

  lemma {:induction false} TaskIdsRemoveAt(ts: seq<Task>, i: nat)
    requires i < |ts|
    ensures TaskIds(RemoveAt(ts, i)) == RemoveAt(TaskIds(ts), i)
  {
  }

  lemma {:induction false} TaskIdsInsertAt(ts: seq<Task>, i: nat, x: Task)
    ensures TaskIds(InsertAt(ts, i, x)) == InsertAt(TaskIds(ts), i, x.id)
  {
  }

  lemma {:induction false} ColumnIdsRemoveAt(b: Board, i: nat)
    requires i < |b|
    ensures ColumnIds(RemoveAt(b, i)) == RemoveAt(ColumnIds(b), i)
  {
  }

  lemma {:induction false} ColumnIdsInsertAt(b: Board, i: nat, x: Column)
    ensures ColumnIds(InsertAt(b, i, x)) == InsertAt(ColumnIds(b), i, x.id)
  {
  }

  lemma {:induction false} AllTaskIdsConcat(a: Board, b: Board)
    ensures AllTaskIds(a + b) == AllTaskIds(a) + AllTaskIds(b)
  {
    if |a| == 0 {
      assert a + b == b;
    } else {
      assert (a + b)[1..] == a[1..] + b;
      AllTaskIdsConcat(a[1..], b);
    }
  }

  lemma {:induction false} AllTaskIdsSingle(c: Column)
    ensures AllTaskIds([c]) == TaskIds(c.tasks)
  {
    assert [c][1..] == [];
  }

  /** The board's ids are those before column `i`, then column `i`'s, then those after it. */
  lemma {:induction false} AllTaskIdsSplit(b: Board, i: nat)
    requires i < |b|
    ensures AllTaskIds(b) == AllTaskIds(b[..i]) + TaskIds(b[i].tasks) + AllTaskIds(b[i + 1..])
  {
    var pre, tail := b[..i], b[i..];
    assert b == pre + tail;
    AllTaskIdsConcat(pre, tail);
    assert tail[0] == b[i] && tail[1..] == b[i + 1..];
    assert AllTaskIds(tail) == TaskIds(b[i].tasks) + AllTaskIds(b[i + 1..]);
  }

  /** Replacing one column changes the board's ids by exactly that column's ids. */
  lemma {:induction false} AllTaskIdsUpdate(b: Board, i: nat, c: Column)
    requires i < |b|
    ensures multiset(AllTaskIds(b[i := c])) + multiset(TaskIds(b[i].tasks))
         == multiset(AllTaskIds(b)) + multiset(TaskIds(c.tasks))
  {
    AllTaskIdsSplit(b, i);
    AllTaskIdsSplit(b[i := c], i);
    assert b[i := c][..i] == b[..i];
    assert b[i := c][i + 1..] == b[i + 1..];
  }

  /** Removing a column removes exactly its ids from the board's. */
  lemma {:induction false} AllTaskIdsRemoveAt(b: Board, i: nat)
    requires i < |b|
    ensures multiset(AllTaskIds(RemoveAt(b, i))) + multiset(TaskIds(b[i].tasks)) == multiset(AllTaskIds(b))
  {
    AllTaskIdsSplit(b, i);
    assert RemoveAt(b, i) == b[..i] + b[i + 1..];
    AllTaskIdsConcat(b[..i], b[i + 1..]);
  }

  /** Inserting a column adds exactly its ids to the board's. */
  lemma {:induction false} AllTaskIdsInsertAt(b: Board, i: nat, c: Column)
    ensures multiset(AllTaskIds(InsertAt(b, i, c))) == multiset(AllTaskIds(b)) + multiset(TaskIds(c.tasks))
  {
    var k := Clamp(i, |b|);
    var r := InsertAt(b, i, c);
    AllTaskIdsSplit(r, k);
    assert r[..k] == b[..k];
    assert r[k + 1..] == b[k..];
    assert b == b[..k] + b[k..];
    AllTaskIdsConcat(b[..k], b[k..]);
  }

  lemma {:induction false} AllTaskIdsSplitCount(b: Board, i: nat)
    requires i < |b|
    ensures multiset(TaskIds(b[i].tasks)) + multiset(AllTaskIds(b[i + 1..])) <= multiset(AllTaskIds(b))
  {
    AllTaskIdsSplit(b, i);
  }

  /** One column's ids are part of the board's ids. */
  lemma {:induction false} ColumnWithin(b: Board, j: nat)
    requires j < |b|
    ensures multiset(TaskIds(b[j].tasks)) <= multiset(AllTaskIds(b))
  {
    AllTaskIdsSplit(b, j);
  }

  /** The ids of two different columns are both part of the board's ids. */
  lemma {:induction false} TwoColumnsWithin(b: Board, i: nat, j: nat)
    requires i < j < |b|
    ensures multiset(TaskIds(b[i].tasks)) + multiset(TaskIds(b[j].tasks)) <= multiset(AllTaskIds(b))
  {
    var post := b[i + 1..];
    var k := j - i - 1;
    assert post[k] == b[j];
    AllTaskIdsSplitCount(b, i);
    ColumnWithin(post, k);
    SubAdd(multiset(TaskIds(b[i].tasks)), multiset(AllTaskIds(post)), multiset(AllTaskIds(b)),
           multiset(TaskIds(post[k].tasks)));
  }

  lemma {:induction false} SubAdd<T>(a: multiset<T>, p: multiset<T>, m: multiset<T>, c: multiset<T>)
    requires a + p <= m && c <= p
    ensures a + c <= m
  {
    forall e ensures (a + c)[e] <= m[e] {
      assert (a + p)[e] <= m[e] && c[e] <= p[e];
    }
  }

  /** On a board with unique task ids, no id is held by two different columns. */
  lemma {:induction false} SingleOwner(b: Board, i: nat, j: nat, id: string)
    requires UniqueTaskIds(b)
    requires i < |b| && j < |b| && i != j
    requires id in TaskIds(b[i].tasks)
    ensures id !in TaskIds(b[j].tasks)
  {
    DistinctIffSingleCounts(AllTaskIds(b));
    if i < j { TwoColumnsWithin(b, i, j); } else { TwoColumnsWithin(b, j, i); }
    assert multiset(TaskIds(b[i].tasks))[id] >= 1;
    assert multiset(AllTaskIds(b))[id] <= 1;
    assert multiset(TaskIds(b[j].tasks))[id] == 0;
  }

  // ---------------------------------------------------------------------------
  // Live task reordering (handleMoveTask, App.tsx 162-212)
  // ---------------------------------------------------------------------------

  /** The board and the drag session, the two pieces of state the drag handlers change. */
  datatype DragState = DragState(columns: Board, session: Option<DragItem>)

  /**
   * The insertion index `tTaskIdx`, computed on the target column before anything is removed:
   * the target task's index when a (truthy) target id is found there, otherwise the length.
   */
  function TargetIndex(ts: seq<Task>, targetTaskId: Option<string>): (r: nat)
    ensures r <= |ts|
    ensures r < |ts| <==> Truthy(targetTaskId) && HasTask(ts, targetTaskId.value)
    ensures r < |ts| ==> ts[r].id == targetTaskId.value
    ensures r < |ts| ==> forall k :: 0 <= k < r ==> ts[k].id != targetTaskId.value
  {
    if Truthy(targetTaskId) && TaskIndex(ts, targetTaskId.value) != -1
    then TaskIndex(ts, targetTaskId.value) else |ts|
  }

  /**
   * Steps 1 and 2 of the updater: take task `si` out of column `s` and splice it into column `t`
   * at `ti`, an index computed before the removal (so within one column it may be past the end).
   */
  function Transfer(prev: Board, s: nat, si: nat, t: nat, ti: nat): Board
    requires s < |prev| && t < |prev| && si < |prev[s].tasks|
  {
    var moved := prev[s].tasks[si];
    var rest := RemoveAt(prev[s].tasks, si);
    if s == t then prev[s := prev[s].(tasks := InsertAt(rest, ti, moved))]
    else prev[s := prev[s].(tasks := rest)][t := prev[t].(tasks := InsertAt(prev[t].tasks, ti, moved))]
  }

  /**
   * The updater passed to `setColumns` (App.tsx 174-208): when both columns and the dragged task
   * are found, transfer the task to the target index computed on the unmodified target column.
   */
  function MoveTaskUpdate(prev: Board, draggedId: string, sourceColId: string, targetColId: string,
                          targetTaskId: Option<string>): Board
  {
    var s := ColumnIndex(prev, sourceColId);
    var t := ColumnIndex(prev, targetColId);
    if s == -1 || t == -1 then prev
    else
      var si := TaskIndex(prev[s].tasks, draggedId);
      if si == -1 then prev
      else Transfer(prev, s, si, t, TargetIndex(prev[t].tasks, targetTaskId))
  }

  lemma {:induction false} CancelRight<T>(a: multiset<T>, b: multiset<T>, x: multiset<T>)
    requires a + x == b + x
    ensures a == b
  {
    forall e ensures a[e] == b[e] {
      assert (a + x)[e] == (b + x)[e];
    }
  }

  /** Giving column `i` tasks with the same ids (as a multiset) keeps the board's ids. */
  lemma {:induction false} ReplaceTasksKeepsIds(b: Board, i: nat, ts: seq<Task>)
    requires i < |b|
    requires multiset(TaskIds(ts)) == multiset(TaskIds(b[i].tasks))
    ensures multiset(AllTaskIds(b[i := b[i].(tasks := ts)])) == multiset(AllTaskIds(b))
  {
    AllTaskIdsUpdate(b, i, b[i].(tasks := ts));
    CancelRight(multiset(AllTaskIds(b[i := b[i].(tasks := ts)])), multiset(AllTaskIds(b)), multiset(TaskIds(ts)));
  }

  /** Moving one id from column `i` to column `j` keeps the board's ids. */
  lemma {:induction false} ShiftTaskKeepsIds(b: Board, i: nat, j: nat, ti: seq<Task>, tj: seq<Task>, id: string)
    requires i < |b| && j < |b| && i != j
    requires multiset(TaskIds(ti)) + multiset{id} == multiset(TaskIds(b[i].tasks))
    requires multiset(TaskIds(tj)) == multiset(TaskIds(b[j].tasks)) + multiset{id}
    ensures multiset(AllTaskIds(b[i := b[i].(tasks := ti)][j := b[j].(tasks := tj)])) == multiset(AllTaskIds(b))
  {
    var b1 := b[i := b[i].(tasks := ti)];
    var b2 := b1[j := b[j].(tasks := tj)];
    AllTaskIdsUpdate(b, i, b[i].(tasks := ti));
    assert b1[j] == b[j];
    AllTaskIdsUpdate(b1, j, b[j].(tasks := tj));
    var m0, m1, m2 := multiset(AllTaskIds(b)), multiset(AllTaskIds(b1)), multiset(AllTaskIds(b2));
    var x, xi, y, yj := multiset(TaskIds(b[i].tasks)), multiset(TaskIds(ti)), multiset(TaskIds(b[j].tasks)), multiset(TaskIds(tj));
    assert m1 + x == m0 + xi;
    assert m2 + y == m1 + yj;
    forall e ensures m2[e] == m0[e] {
      assert (m1 + x)[e] == (m0 + xi)[e];
      assert (m2 + y)[e] == (m1 + yj)[e];
      assert (xi + multiset{id})[e] == x[e];
      assert yj[e] == (y + multiset{id})[e];
    }
  }

  /** A transfer preserves the multiset of task ids on the board. */
  lemma {:induction false} TransferKeepsTaskIds(prev: Board, s: nat, si: nat, t: nat, ti: nat)
    requires s < |prev| && t < |prev| && si < |prev[s].tasks|
    ensures multiset(AllTaskIds(Transfer(prev, s, si, t, ti))) == multiset(AllTaskIds(prev))
  {
    var moved := prev[s].tasks[si];
    var rest := RemoveAt(prev[s].tasks, si);
    TaskIdsRemoveAt(prev[s].tasks, si);
    RemoveAtMultiset(TaskIds(prev[s].tasks), si);
    assert multiset(TaskIds(rest)) + multiset{moved.id} == multiset(TaskIds(prev[s].tasks));
    if s == t {
      TaskIdsInsertAt(rest, ti, moved);
      InsertAtMultiset(TaskIds(rest), ti, moved.id);
      ReplaceTasksKeepsIds(prev, s, InsertAt(rest, ti, moved));
    } else {
      TaskIdsInsertAt(prev[t].tasks, ti, moved);
      InsertAtMultiset(TaskIds(prev[t].tasks), ti, moved.id);
      ShiftTaskKeepsIds(prev, s, t, rest, InsertAt(prev[t].tasks, ti, moved), moved.id);
    }
  }

  /** A transfer changes only the tasks of the source and target columns. */
  lemma {:induction false} TransferKeepsColumns(prev: Board, s: nat, si: nat, t: nat, ti: nat)
    requires s < |prev| && t < |prev| && si < |prev[s].tasks|
    ensures var r := Transfer(prev, s, si, t, ti);
      && |r| == |prev|
      && (forall c :: 0 <= c < |r| ==> SameHeader(r[c], prev[c]))
      && (forall c :: 0 <= c < |r| && c != s && c != t ==> r[c] == prev[c])
  {
  }

  /** A task move is a transfer: the multiset of task ids on the board is unchanged. */
  lemma {:induction false} MoveTaskKeepsTaskIds(prev: Board, draggedId: string, sourceColId: string, targetColId: string,
                             targetTaskId: Option<string>)
    ensures multiset(AllTaskIds(MoveTaskUpdate(prev, draggedId, sourceColId, targetColId, targetTaskId)))
         == multiset(AllTaskIds(prev))
  {
    var s := ColumnIndex(prev, sourceColId);
    var t := ColumnIndex(prev, targetColId);
    if s != -1 && t != -1 {
      var si := TaskIndex(prev[s].tasks, draggedId);
      if si != -1 {
        TransferKeepsTaskIds(prev, s, si, t, TargetIndex(prev[t].tasks, targetTaskId));
      }
    }
  }

  /** A task move never breaks the uniqueness of task ids. */
  lemma {:induction false} MoveTaskKeepsUniqueness(prev: Board, draggedId: string, sourceColId: string, targetColId: string,
                                targetTaskId: Option<string>)
    requires UniqueTaskIds(prev)
    ensures UniqueTaskIds(MoveTaskUpdate(prev, draggedId, sourceColId, targetColId, targetTaskId))
  {
    MoveTaskKeepsTaskIds(prev, draggedId, sourceColId, targetColId, targetTaskId);
    DistinctBySubMultiset(AllTaskIds(prev), AllTaskIds(MoveTaskUpdate(prev, draggedId, sourceColId, targetColId, targetTaskId)));
  }

  /** Column order, column ids and headers are untouched; only the source and target columns' tasks change. */
  lemma {:induction false} MoveTaskKeepsColumns(prev: Board, draggedId: string, sourceColId: string, targetColId: string,
                             targetTaskId: Option<string>)
    ensures var r := MoveTaskUpdate(prev, draggedId, sourceColId, targetColId, targetTaskId);
      && |r| == |prev|
      && ColumnIds(r) == ColumnIds(prev)
      && (forall c :: 0 <= c < |r| ==> SameHeader(r[c], prev[c]))
      && (forall c :: 0 <= c < |r| && c != ColumnIndex(prev, sourceColId) && c != ColumnIndex(prev, targetColId)
            ==> r[c] == prev[c])
  {
    var r := MoveTaskUpdate(prev, draggedId, sourceColId, targetColId, targetTaskId);
    var s := ColumnIndex(prev, sourceColId);
    var t := ColumnIndex(prev, targetColId);
    if s != -1 && t != -1 {
      var si := TaskIndex(prev[s].tasks, draggedId);
      if si != -1 {
        TransferKeepsColumns(prev, s, si, t, TargetIndex(prev[t].tasks, targetTaskId));
      }
    }
    assert forall c :: 0 <= c < |r| ==> r[c].id == prev[c].id;
  }

  /** After a successful move on a board with unique ids, the dragged task is in the target column and no other. */
  lemma {:induction false} MoveTaskTargetOnly(prev: Board, draggedId: string, sourceColId: string, targetColId: string,
                           targetTaskId: Option<string>)
    requires UniqueTaskIds(prev)
    requires ColumnIndex(prev, sourceColId) != -1 && ColumnIndex(prev, targetColId) != -1
    requires HasTask(prev[ColumnIndex(prev, sourceColId)].tasks, draggedId)
    ensures var r := MoveTaskUpdate(prev, draggedId, sourceColId, targetColId, targetTaskId);
      && HasTask(r[ColumnIndex(prev, targetColId)].tasks, draggedId)
      && forall c :: 0 <= c < |r| && c != ColumnIndex(prev, targetColId) ==> !HasTask(r[c].tasks, draggedId)
  {
    var r := MoveTaskUpdate(prev, draggedId, sourceColId, targetColId, targetTaskId);
    var s := ColumnIndex(prev, sourceColId);
    var t := ColumnIndex(prev, targetColId);
    var si := TaskIndex(prev[s].tasks, draggedId);
    var ti := TargetIndex(prev[t].tasks, targetTaskId);
    var moved := prev[s].tasks[si];
    assert r == Transfer(prev, s, si, t, ti);
    var ins := if s == t then InsertAt(RemoveAt(prev[s].tasks, si), ti, moved) else InsertAt(prev[t].tasks, ti, moved);
    assert r[t].tasks == ins;
    assert TaskIds(ins)[Clamp(ti, |ins| - 1)] == draggedId;
    MoveTaskKeepsUniqueness(prev, draggedId, sourceColId, targetColId, targetTaskId);
    TransferKeepsColumns(prev, s, si, t, ti);
    forall c | 0 <= c < |r| && c != t ensures !HasTask(r[c].tasks, draggedId) {
      SingleOwner(r, t, c, draggedId);
    }
  }

  /**
   * Same column: the dragged task ends at the target's original index (forward and backward alike);
   * with no target found it ends last. The other tasks keep their order.
   */
  lemma {:induction false} MoveTaskSameColumn(prev: Board, draggedId: string, colId: string, targetTaskId: Option<string>)
    requires ColumnIndex(prev, colId) != -1
    requires HasTask(prev[ColumnIndex(prev, colId)].tasks, draggedId)
    ensures var s := ColumnIndex(prev, colId);
      var ts := prev[s].tasks;
      var si := TaskIndex(ts, draggedId);
      var ti := TargetIndex(ts, targetTaskId);
      var at := if ti < |ts| then ti else |ts| - 1;
      var r := MoveTaskUpdate(prev, draggedId, colId, colId, targetTaskId);
      && |r[s].tasks| == |ts|
      && r[s].tasks[at] == ts[si]
      && RemoveAt(r[s].tasks, at) == RemoveAt(ts, si)
  {
    var s := ColumnIndex(prev, colId);
    var ts := prev[s].tasks;
    var si := TaskIndex(ts, draggedId);
    var ti := TargetIndex(ts, targetTaskId);
    var rest := RemoveAt(ts, si);
    assert MoveTaskUpdate(prev, draggedId, colId, colId, targetTaskId)[s].tasks == InsertAt(rest, ti, ts[si]);
    InsertThenRemove(rest, ti, ts[si]);
  }

  /**
   * Different columns: the task leaves the source and enters the target immediately before the
   * target task, or at the end when there is no target task in that column.
   */
  lemma {:induction false} MoveTaskCrossColumn(prev: Board, draggedId: string, sourceColId: string, targetColId: string,
                            targetTaskId: Option<string>)
    requires ColumnIndex(prev, sourceColId) != -1 && ColumnIndex(prev, targetColId) != -1
    requires sourceColId != targetColId
    requires HasTask(prev[ColumnIndex(prev, sourceColId)].tasks, draggedId)
    ensures var s := ColumnIndex(prev, sourceColId);
      var t := ColumnIndex(prev, targetColId);
      var si := TaskIndex(prev[s].tasks, draggedId);
      var ti := TargetIndex(prev[t].tasks, targetTaskId);
      var r := MoveTaskUpdate(prev, draggedId, sourceColId, targetColId, targetTaskId);
      && r[s].tasks == RemoveAt(prev[s].tasks, si)
      && r[t].tasks[ti] == prev[s].tasks[si]
      && RemoveAt(r[t].tasks, ti) == prev[t].tasks
      && (ti < |prev[t].tasks| ==> r[t].tasks[ti + 1].id == targetTaskId.value)
      && (ti == |prev[t].tasks| ==> r[t].tasks == prev[t].tasks + [prev[s].tasks[si]])
  {
    var s := ColumnIndex(prev, sourceColId);
    var t := ColumnIndex(prev, targetColId);
    var si := TaskIndex(prev[s].tasks, draggedId);
    var ti := TargetIndex(prev[t].tasks, targetTaskId);
    var moved := prev[s].tasks[si];
    assert ColumnIds(prev)[s] != ColumnIds(prev)[t];
    var r := MoveTaskUpdate(prev, draggedId, sourceColId, targetColId, targetTaskId);
    assert r == Transfer(prev, s, si, t, ti);
    var ins := InsertAt(prev[t].tasks, ti, moved);
    assert r[s].tasks == RemoveAt(prev[s].tasks, si);
    assert r[t].tasks == ins;
    InsertThenRemove(prev[t].tasks, ti, moved);
    if ti == |prev[t].tasks| {
      assert ins == prev[t].tasks + [moved];
    }
  }

  /** The three early returns of handleMoveTask (lines 163, 168, 172) all let the call through. */
  predicate MoveTaskPasses(session: Option<DragItem>, targetColId: string, targetTaskId: Option<string>) {
    && session.Some? && session.value.TaskDrag?
    && targetTaskId != Some(session.value.taskId)
    && !(session.value.sourceColId == targetColId && !Truthy(targetTaskId))
  }

  /** handleMoveTask: the board update followed by re-pointing the session to the target column. */
  function HandleMoveTask(st: DragState, targetColId: string, targetTaskId: Option<string>): DragState {
    if !MoveTaskPasses(st.session, targetColId, targetTaskId) then st
    else
      var d := st.session.value;
      DragState(MoveTaskUpdate(st.columns, d.taskId, d.sourceColId, targetColId, targetTaskId),
                Some(TaskDrag(d.taskId, targetColId)))
  }

  /** Every way handleMoveTask does nothing. */
  lemma {:induction false} MoveTaskNoOps(st: DragState, targetColId: string, targetTaskId: Option<string>)
    ensures (st.session.None? || st.session.value.ColumnDrag?) ==> HandleMoveTask(st, targetColId, targetTaskId) == st
    ensures st.session.Some? && st.session.value.TaskDrag? && targetTaskId == Some(st.session.value.taskId)
            ==> HandleMoveTask(st, targetColId, targetTaskId) == st
    ensures (st.session.Some? && st.session.value.TaskDrag? && st.session.value.sourceColId == targetColId
             && !Truthy(targetTaskId)) ==> HandleMoveTask(st, targetColId, targetTaskId) == st
    ensures MoveTaskPasses(st.session, targetColId, targetTaskId)
            && (ColumnIndex(st.columns, st.session.value.sourceColId) == -1
                || ColumnIndex(st.columns, targetColId) == -1
                || !HasTask(st.columns[ColumnIndex(st.columns, st.session.value.sourceColId)].tasks, st.session.value.taskId))
            ==> HandleMoveTask(st, targetColId, targetTaskId).columns == st.columns
  {
  }

  /** Once past the guards, the session records the target column as the task's home, even when the board did not change. */
  lemma {:induction false} MoveTaskRepointsSession(st: DragState, targetColId: string, targetTaskId: Option<string>)
    requires MoveTaskPasses(st.session, targetColId, targetTaskId)
    ensures HandleMoveTask(st, targetColId, targetTaskId).session
         == Some(TaskDrag(st.session.value.taskId, targetColId))
  {
  }

  // ---------------------------------------------------------------------------
  // Live column reordering (handleMoveColumn, App.tsx 215-231)
  // ---------------------------------------------------------------------------

  /** The updater of handleMoveColumn: take the dragged column out and splice it in at the target's old index. */
  function MoveColumnUpdate(prev: Board, draggedColId: string, targetColId: string): Board {
    var s := ColumnIndex(prev, draggedColId);
    var t := ColumnIndex(prev, targetColId);
    if s == -1 || t == -1 then prev
    else InsertAt(RemoveAt(prev, s), t, prev[s])
  }

  /** The two early returns of handleMoveColumn (lines 216-217) let the call through. */
  predicate MoveColumnPasses(session: Option<DragItem>, targetColId: string) {
    session.Some? && session.value.ColumnDrag? && session.value.colId != targetColId
  }

  /** handleMoveColumn: the session is never changed. */
  function HandleMoveColumn(st: DragState, targetColId: string): DragState {
    if !MoveColumnPasses(st.session, targetColId) then st
    else st.(columns := MoveColumnUpdate(st.columns, st.session.value.colId, targetColId))
  }

  /** A column move with no column session, onto itself, or with a missing id changes nothing. */
  lemma {:induction false} MoveColumnNoOps(st: DragState, targetColId: string)
    ensures !MoveColumnPasses(st.session, targetColId) ==> HandleMoveColumn(st, targetColId) == st
    ensures MoveColumnPasses(st.session, targetColId)
            && (ColumnIndex(st.columns, st.session.value.colId) == -1 || ColumnIndex(st.columns, targetColId) == -1)
            ==> HandleMoveColumn(st, targetColId) == st
    ensures HandleMoveColumn(st, targetColId).session == st.session
  {
  }

  /** A column move is a permutation that puts the dragged column at the target's original index. */
  lemma {:induction false} MoveColumnPlacement(prev: Board, draggedColId: string, targetColId: string)
    ensures var r := MoveColumnUpdate(prev, draggedColId, targetColId);
      && multiset(r) == multiset(prev)
      && (ColumnIndex(prev, draggedColId) != -1 && ColumnIndex(prev, targetColId) != -1 ==>
            var s := ColumnIndex(prev, draggedColId);
            var t := ColumnIndex(prev, targetColId);
            && r[t] == prev[s]
            && RemoveAt(r, t) == RemoveAt(prev, s))
  {
    var s := ColumnIndex(prev, draggedColId);
    var t := ColumnIndex(prev, targetColId);
    if s != -1 && t != -1 {
      assert t <= |RemoveAt(prev, s)|;
      RemoveAtMultiset(prev, s);
      InsertAtMultiset(RemoveAt(prev, s), t, prev[s]);
      InsertThenRemove(RemoveAt(prev, s), t, prev[s]);
    }
  }

  /** A column move keeps the uniqueness of both column ids and task ids. */
  lemma {:induction false} MoveColumnKeepsUniqueness(prev: Board, draggedColId: string, targetColId: string)
    ensures var r := MoveColumnUpdate(prev, draggedColId, targetColId);
      && multiset(AllTaskIds(r)) == multiset(AllTaskIds(prev))
      && multiset(ColumnIds(r)) == multiset(ColumnIds(prev))
      && (UniqueTaskIds(prev) ==> UniqueTaskIds(r))
      && (UniqueColumnIds(prev) ==> UniqueColumnIds(r))
  {
    var r := MoveColumnUpdate(prev, draggedColId, targetColId);
    var s := ColumnIndex(prev, draggedColId);
    var t := ColumnIndex(prev, targetColId);
    if s != -1 && t != -1 {
      var rest := RemoveAt(prev, s);
      AllTaskIdsRemoveAt(prev, s);
      AllTaskIdsInsertAt(rest, t, prev[s]);
      ColumnIdsRemoveAt(prev, s);
      ColumnIdsInsertAt(rest, t, prev[s]);
      RemoveAtMultiset(ColumnIds(prev), s);
      InsertAtMultiset(ColumnIds(rest), t, prev[s].id);
    }
    if UniqueTaskIds(prev) { DistinctBySubMultiset(AllTaskIds(prev), AllTaskIds(r)); }
    if UniqueColumnIds(prev) { DistinctBySubMultiset(ColumnIds(prev), ColumnIds(r)); }
  }

  // ---------------------------------------------------------------------------
  // Session continuity
  // ---------------------------------------------------------------------------

  /** The session agrees with the board: a dragged task is held by the column the session names. */
  predicate SessionOnBoard(b: Board, session: Option<DragItem>) {
    session.Some? && session.value.TaskDrag? ==>
      var s := ColumnIndex(b, session.value.sourceColId);
      s != -1 && HasTask(b[s].tasks, session.value.taskId)
  }

  /**
   * Re-pointing the session after each move keeps it on the board: the next hover is resolved
   * against the column that now holds the task.
   */
  lemma {:induction false} MoveTaskKeepsSessionOnBoard(st: DragState, targetColId: string, targetTaskId: Option<string>)
    requires UniqueTaskIds(st.columns)
    requires SessionOnBoard(st.columns, st.session)
    requires ColumnIndex(st.columns, targetColId) != -1
    ensures var r := HandleMoveTask(st, targetColId, targetTaskId);
      SessionOnBoard(r.columns, r.session)
  {
    if MoveTaskPasses(st.session, targetColId, targetTaskId) {
      var d := st.session.value;
      MoveTaskTargetOnly(st.columns, d.taskId, d.sourceColId, targetColId, targetTaskId);
      MoveTaskKeepsColumns(st.columns, d.taskId, d.sourceColId, targetColId, targetTaskId);
    }
  }

  // ---------------------------------------------------------------------------
  // The worked examples, for any tasks and columns carrying the ids named
  // ---------------------------------------------------------------------------

  /** The task-move updater once the three indices it looks up are known. */
  lemma {:induction false} MoveTaskAt(prev: Board, draggedId: string, sourceColId: string, targetColId: string,
                   targetTaskId: Option<string>, s: nat, si: nat, t: nat)
    requires s < |prev| && t < |prev| && si < |prev[s].tasks|
    requires ColumnIndex(prev, sourceColId) == s && ColumnIndex(prev, targetColId) == t
    requires TaskIndex(prev[s].tasks, draggedId) == si
    ensures MoveTaskUpdate(prev, draggedId, sourceColId, targetColId, targetTaskId)
            == Transfer(prev, s, si, t, TargetIndex(prev[t].tasks, targetTaskId))
  {
  }

  lemma {:induction false} ThreeTaskIndices(a: Task, b: Task, c: Task)
    requires a.id == "A" && b.id == "B" && c.id == "C"
    ensures TaskIndex([a, b, c], "A") == 0 && TaskIndex([a, b, c], "C") == 2
  {
    assert TaskIds([a, b, c]) == ["A", "B", "C"];
    IndexOfAt(TaskIds([a, b, c]), 0, "A");
    IndexOfAt(TaskIds([a, b, c]), 2, "C");
  }

  lemma {:induction false} OwnColumnIndex(x: Column)
    ensures ColumnIndex([x], x.id) == 0
  {
    IndexOfAt(ColumnIds([x]), 0, x.id);
  }

  lemma {:induction false} ForwardTransfer(x: Column, a: Task, b: Task, c: Task)
    requires x.tasks == [a, b, c]
    ensures Transfer([x], 0, 0, 0, 2) == [x.(tasks := [b, c, a])]
  {
    assert RemoveAt([a, b, c], 0) == [b, c];
    assert InsertAt([b, c], 2, a) == [b, c, a];
  }

  lemma {:induction false} BackwardTransfer(x: Column, a: Task, b: Task, c: Task)
    requires x.tasks == [a, b, c]
    ensures Transfer([x], 0, 2, 0, 0) == [x.(tasks := [c, a, b])]
  {
    assert RemoveAt([a, b, c], 2) == [a, b];
    assert InsertAt([a, b], 0, c) == [c, a, b];
  }

  /** [A,B,C]: A dropped on C gives [B,C,A]. */
  lemma {:induction false} SameColumnForwardExample(x: Column, a: Task, b: Task, c: Task)
    requires a.id == "A" && b.id == "B" && c.id == "C" && x.tasks == [a, b, c]
    ensures MoveTaskUpdate([x], "A", x.id, x.id, Some("C")) == [x.(tasks := [b, c, a])]
  {
    OwnColumnIndex(x);
    ThreeTaskIndices(a, b, c);
    MoveTaskAt([x], "A", x.id, x.id, Some("C"), 0, 0, 0);
    assert TargetIndex(x.tasks, Some("C")) == 2;
    ForwardTransfer(x, a, b, c);
  }

  /** [A,B,C]: C dropped on A gives [C,A,B]. */
  lemma {:induction false} SameColumnBackwardExample(x: Column, a: Task, b: Task, c: Task)
    requires a.id == "A" && b.id == "B" && c.id == "C" && x.tasks == [a, b, c]
    ensures MoveTaskUpdate([x], "C", x.id, x.id, Some("A")) == [x.(tasks := [c, a, b])]
  {
    OwnColumnIndex(x);
    ThreeTaskIndices(a, b, c);
    MoveTaskAt([x], "C", x.id, x.id, Some("A"), 0, 2, 0);
    assert TargetIndex(x.tasks, Some("A")) == 0;
    BackwardTransfer(x, a, b, c);
  }

  /** X=[t,u], Y=[v,w]: t dropped on v gives X=[u], Y=[t,v,w]. */
  lemma {:induction false} CrossColumnExample(x: Column, y: Column, t: Task, u: Task, v: Task, w: Task)
    requires x.id != y.id && t.id == "t" && u.id == "u" && v.id == "v" && w.id == "w"
    requires x.tasks == [t, u] && y.tasks == [v, w]
    ensures MoveTaskUpdate([x, y], "t", x.id, y.id, Some("v")) == [x.(tasks := [u]), y.(tasks := [t, v, w])]
  {
    var b := [x, y];
    assert ColumnIndex(b, x.id) == 0 && ColumnIndex(b, y.id) == 1 by { assert ColumnIds(b) == [x.id, y.id]; }
    assert TaskIndex(x.tasks, "t") == 0 by { assert TaskIds(x.tasks) == ["t", "u"]; }
    assert TargetIndex(y.tasks, Some("v")) == 0 by { assert TaskIds(y.tasks) == ["v", "w"]; }
    assert MoveTaskUpdate(b, "t", x.id, y.id, Some("v")) == Transfer(b, 0, 0, 1, 0);
    assert RemoveAt(x.tasks, 0) == [u];
    assert InsertAt(y.tasks, 0, t) == [t, v, w];
  }

  /** A task dragged into an empty column, with no target task, lands there at index 0. */
  lemma {:induction false} EmptyColumnExample(x: Column, e: Column, t: Task)
    requires x.id != e.id && e.tasks == [] && HasTask(x.tasks, t.id)
    ensures var r := MoveTaskUpdate([x, e], t.id, x.id, e.id, None);
      r[1].tasks == [x.tasks[TaskIndex(x.tasks, t.id)]] && r[0].tasks == RemoveAt(x.tasks, TaskIndex(x.tasks, t.id))
  {
    var b := [x, e];
    assert ColumnIndex(b, x.id) == 0 && ColumnIndex(b, e.id) == 1 by { assert ColumnIds(b) == [x.id, e.id]; }
    assert MoveTaskUpdate(b, t.id, x.id, e.id, None) == Transfer(b, 0, TaskIndex(x.tasks, t.id), 1, 0);
  }

  lemma {:induction false} SecondHoverSetup(x: Column, y: Column, t: Task, u: Task, v: Task, w: Task)
    requires x.id != y.id && t.id == "t" && u.id == "u" && v.id == "v" && w.id == "w"
    ensures var b1 := [x.(tasks := [u]), y.(tasks := [t, v, w])];
      MoveTaskUpdate(b1, "t", y.id, y.id, Some("w")) == Transfer(b1, 1, 0, 1, 2)
  {
    var b1 := [x.(tasks := [u]), y.(tasks := [t, v, w])];
    assert ColumnIndex(b1, y.id) == 1 by { IndexOfAt(ColumnIds(b1), 1, y.id); }
    IndexOfAt(TaskIds([t, v, w]), 0, "t");
    IndexOfAt(TaskIds([t, v, w]), 2, "w");
    MoveTaskAt(b1, "t", y.id, y.id, Some("w"), 1, 0, 1);
  }

  lemma {:induction false} SecondHoverTransfer(x: Column, y: Column, t: Task, u: Task, v: Task, w: Task)
    ensures Transfer([x.(tasks := [u]), y.(tasks := [t, v, w])], 1, 0, 1, 2) == [x.(tasks := [u]), y.(tasks := [v, w, t])]
  {
    assert RemoveAt([t, v, w], 0) == [v, w];
    assert InsertAt([v, w], 2, t) == [v, w, t];
  }

  lemma {:induction false} StaleSessionSetup(x: Column, y: Column, t: Task, u: Task, v: Task, w: Task)
    requires x.id != y.id && t.id == "t" && u.id == "u"
    ensures var b1 := [x.(tasks := [u]), y.(tasks := [t, v, w])];
      MoveTaskUpdate(b1, "t", x.id, y.id, Some("w")) == b1
  {
    var b1 := [x.(tasks := [u]), y.(tasks := [t, v, w])];
    assert ColumnIndex(b1, x.id) == 0 by { IndexOfAt(ColumnIds(b1), 0, x.id); }
    assert TaskIndex([u], "t") == -1 by { assert TaskIds([u]) == ["u"]; }
  }

  /**
   * After t moves from X onto v in Y the session names Y, so hovering w next reorders within Y;
   * a session still naming X would find nothing to move.
   */
  lemma {:induction false} SessionContinuityExample(x: Column, y: Column, t: Task, u: Task, v: Task, w: Task)
    requires x.id != y.id && t.id == "t" && u.id == "u" && v.id == "v" && w.id == "w"
    requires x.tasks == [t, u] && y.tasks == [v, w]
    ensures var st1 := HandleMoveTask(DragState([x, y], Some(TaskDrag("t", x.id))), y.id, Some("v"));
      && st1 == DragState([x.(tasks := [u]), y.(tasks := [t, v, w])], Some(TaskDrag("t", y.id)))
      && HandleMoveTask(st1, y.id, Some("w")).columns == [x.(tasks := [u]), y.(tasks := [v, w, t])]
      && HandleMoveTask(st1.(session := Some(TaskDrag("t", x.id))), y.id, Some("w")).columns == st1.columns
  {
    var b1 := [x.(tasks := [u]), y.(tasks := [t, v, w])];
    CrossColumnExample(x, y, t, u, v, w);
    assert HandleMoveTask(DragState([x, y], Some(TaskDrag("t", x.id))), y.id, Some("v"))
        == DragState(b1, Some(TaskDrag("t", y.id)));
    SecondHoverSetup(x, y, t, u, v, w);
    SecondHoverTransfer(x, y, t, u, v, w);
    assert HandleMoveTask(DragState(b1, Some(TaskDrag("t", y.id))), y.id, Some("w")).columns
        == [x.(tasks := [u]), y.(tasks := [v, w, t])];
    StaleSessionSetup(x, y, t, u, v, w);
    assert HandleMoveTask(DragState(b1, Some(TaskDrag("t", x.id))), y.id, Some("w")).columns == b1;
  }

  /** Columns [1,2,3,4]: column 2 dropped on column 4 gives [1,3,4,2]. */
  lemma {:induction false} MoveColumnExample(c1: Column, c2: Column, c3: Column, c4: Column)
    requires c1.id == "1" && c2.id == "2" && c3.id == "3" && c4.id == "4"
    ensures MoveColumnUpdate([c1, c2, c3, c4], "2", "4") == [c1, c3, c4, c2]
  {
    var b := [c1, c2, c3, c4];
    assert ColumnIndex(b, "2") == 1 by { IndexOfAt(ColumnIds(b), 1, "2"); }
    assert ColumnIndex(b, "4") == 3 by { IndexOfAt(ColumnIds(b), 3, "4"); }
    assert RemoveAt(b, 1) == [c1, c3, c4];
  }
}
