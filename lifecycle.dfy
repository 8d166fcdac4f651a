/**
 * The drag lifecycle of App.tsx (handleDragStart, handleDragEnd and handleDrop, lines 131-154 and
 * 233-238). A start does not publish the session at once: it schedules a zero-delay timer whose
 * callback does. The timer is an explicit pending slot here, and the callback a `Fire` event.
 */
module Lifecycle {
  import opened Wrappers
  import opened Types

  /** The arguments of a drag start, held until the deferred callback runs. */
  datatype PendingStart = PendingStart(kind: DragKind, id: string, sourceColId: Option<string>)

  /** The timer slot (`dragTimeoutRef`) and the published session (`draggedItem`). */
  datatype DragPhase = DragPhase(pending: Option<PendingStart>, session: Option<DragItem>)

  /**
   * What the deferred callback publishes (lines 140-143): a task drag when the kind is TASK and a
   * truthy source column came with it, a column drag carrying the id otherwise.
   */
  function Publish(p: PendingStart): (d: DragItem)
    ensures d.TaskDrag? <==> p.kind == TaskKind && Truthy(p.sourceColId)
    ensures d.TaskDrag? ==> d.taskId == p.id && Some(d.sourceColId) == p.sourceColId
    ensures d.ColumnDrag? ==> d.colId == p.id
  {
    if p.kind == TaskKind && Truthy(p.sourceColId) then TaskDrag(p.id, p.sourceColId.value)
    else ColumnDrag(p.id)
  }

  /** A start cancels the timer already scheduled, if any, and schedules one for these arguments. */
  function Start(s: DragPhase, kind: DragKind, id: string, sourceColId: Option<string>): (r: DragPhase)
    ensures r.pending == Some(PendingStart(kind, id, sourceColId))
    ensures r.session == s.session
  {
    DragPhase(Some(PendingStart(kind, id, sourceColId)), s.session)
  }

  /** The timer fires: the pending start, if there is one, becomes the session. */
  function Fire(s: DragPhase): (r: DragPhase)
    ensures r.pending.None?
    ensures s.pending.None? ==> r.session == s.session
    ensures s.pending.Some? ==> r.session == Some(Publish(s.pending.value))
  {
    match s.pending
    case None => s
    case Some(p) => DragPhase(None, Some(Publish(p)))
  }

  /** End and drop: cancel the timer and clear the session. */
  function End(s: DragPhase): (r: DragPhase)
    ensures r.pending.None? && r.session.None?
  {
    DragPhase(None, None)
  }

  /** Only the last of several starts is ever published. */
  lemma StartSupersedes(s: DragPhase, k1: DragKind, id1: string, c1: Option<string>,
                        k2: DragKind, id2: string, c2: Option<string>)
    ensures Start(Start(s, k1, id1, c1), k2, id2, c2) == Start(s, k2, id2, c2)
    ensures Fire(Start(Start(s, k1, id1, c1), k2, id2, c2)).session == Some(Publish(PendingStart(k2, id2, c2)))
  {
  }

  /** A scheduled start publishes exactly once: a second firing changes nothing. */
  lemma FireOnce(s: DragPhase, kind: DragKind, id: string, sourceColId: Option<string>)
    ensures var r := Fire(Start(s, kind, id, sourceColId));
      r == DragPhase(None, Some(Publish(PendingStart(kind, id, sourceColId)))) && Fire(r) == r
  {
  }

  /** Ending twice is ending once, and a start ended before its timer fires never publishes. */
  lemma EndIdempotent(s: DragPhase, kind: DragKind, id: string, sourceColId: Option<string>)
    ensures End(End(s)) == End(s)
    ensures Fire(End(Start(s, kind, id, sourceColId))) == End(s)
  {
  }

  /** A task card's start (it always passes its column) publishes a task drag for that card. */
  lemma CardStartPublishesTask(id: string, colId: string)
    requires colId != ""
    ensures Publish(PendingStart(TaskKind, id, Some(colId))) == TaskDrag(id, colId)
  {
  }

  /** A task start without a usable source column degrades to a column drag carrying the task id. */
  lemma TaskStartWithoutSource(id: string, sourceColId: Option<string>)
    requires !Truthy(sourceColId)
    ensures Publish(PendingStart(TaskKind, id, sourceColId)) == ColumnDrag(id)
  {
  }
}
