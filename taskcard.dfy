/**
 * The drag handlers of one card (components/TaskCard.tsx). They read only their props and answer
 * with the callback they would invoke; the DOM event itself is not modelled.
 */
module TaskCardView {
  import opened Wrappers
  import opened Types

  /** The move a drag-enter asks the board for, if any. */
  datatype MoveRequest =
    | NoMove
    | MoveColumnTo(targetColId: string)
    | MoveTaskTo(targetColId: string, targetTaskId: Option<string>)

  /** The props of a card that its drag handlers read. */
  datatype CardProps = CardProps(task: Task, columnId: string, isDragging: bool, draggedItemType: Option<DragKind>)

  /**
   * handleDragEnter (lines 38-47): during a task drag, entering any card but the dragged one asks to
   * move the dragged task in front of this card; otherwise nothing is asked.
   */
  function CardDragEnter(p: CardProps): (r: MoveRequest)
    ensures r != NoMove <==> p.draggedItemType == Some(TaskKind) && !p.isDragging
    ensures r != NoMove ==> r == MoveTaskTo(p.columnId, Some(p.task.id))
  {
    if p.draggedItemType == Some(TaskKind) && !p.isDragging then MoveTaskTo(p.columnId, Some(p.task.id))
    else NoMove
  }

  /**
   * handleDrop (lines 54-61): the drop is passed up for cleanup only during a task drag; a column
   * dropped on a card stops there.
   */
  predicate CardDropPassesUp(p: CardProps) {
    p.draggedItemType == Some(TaskKind)
  }

  /** handleDragStartInternal (lines 33-36): the card forwards its own id and its column's id. */
  function CardDragStart(p: CardProps): (r: (string, string))
    ensures r.0 == p.task.id && r.1 == p.columnId
  {
    (p.task.id, p.columnId)
  }

  /** The three looks of `containerStyle` (lines 65-69). */
  datatype CardStyle = Dimmed | Steady | HoverLift

  /** The dragged card is dimmed; while any drag is on, the others lose the hover lift. */
  function ContainerStyle(p: CardProps): (s: CardStyle)
    ensures s == Dimmed <==> p.isDragging
    ensures s == HoverLift <==> !p.isDragging && p.draggedItemType.None?
    ensures s == Steady <==> !p.isDragging && p.draggedItemType.Some?
  {
    if p.isDragging then Dimmed
    else if p.draggedItemType.Some? then Steady
    else HoverLift
  }

  /** A card asks for a move exactly when a drop on it is passed up and it is not the dragged card. */
  lemma EnterAndDropAgree(p: CardProps)
    ensures CardDragEnter(p) != NoMove <==> CardDropPassesUp(p) && ContainerStyle(p) != Dimmed
  {
  }
}
