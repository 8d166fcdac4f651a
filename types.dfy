/** The entities of the board (types.ts) and the JavaScript value rules the handlers rely on. */
module Types {
  import opened Wrappers

  /** The six tag colours (types.ts line 1). */
  datatype TagColor = Purple | Pink | Cyan | Orange | Green | Blue

  /** A tag; `labelText` is the source's `label`, a reserved word in Dafny. */
  datatype Tag = Tag(labelText: string, color: TagColor)

  /** The kind of a status badge: todo or done. */
  datatype BadgeType = TodoBadge | DoneBadge

  datatype StatusBadge = StatusBadge(text: string, badgeType: BadgeType)

  /** A card. `tags` is required and ordered; the other optional fields are `Option`s. */
  datatype Task = Task(
    id: string,
    title: string,
    description: Option<string>,
    content: Option<string>,
    tags: seq<Tag>,
    date: string,
    statusBadge: Option<StatusBadge>,
    imageUrl: Option<string>,
    hasRedDot: Option<bool>)

  /** The four column icons. */
  datatype IconType = TodoIcon | ProgressIcon | DoneIcon | ManageIcon

  datatype Column = Column(id: string, title: string, accentColor: string, iconType: IconType, tasks: seq<Task>)

  /** The `type` tag of a drag: 'TASK' or 'COLUMN'. */
  datatype DragKind = TaskKind | ColumnKind

  /** The item being dragged: a task with the column that currently holds it, or a column. */
  datatype DragItem = TaskDrag(taskId: string, sourceColId: string) | ColumnDrag(colId: string) {
    function Kind(): (k: DragKind)
      ensures k == TaskKind <==> TaskDrag?
    {
      if TaskDrag? then TaskKind else ColumnKind
    }
  }

  /** The board: columns in display order. */
  type Board = seq<Column>

  /** JavaScript truthiness of a `string | undefined`: present and not the empty string. */
  predicate Truthy(s: Option<string>) {
    s.Some? && s.value != ""
  }

  /** JavaScript `s || fallback` for a `string | undefined`. */
  function OrElse(s: Option<string>, fallback: string): (r: string)
    ensures Truthy(s) ==> r == s.value
    ensures !Truthy(s) ==> r == fallback
  {
    if Truthy(s) then s.value else fallback
  }
}
