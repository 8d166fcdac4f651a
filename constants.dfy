/** The board the application starts with (constants.ts). */
module Constants {
  import opened Wrappers
  import opened Types
  import opened Lists
  import opened Reorder

  const Date: string := "11-27 09:55"
  const TodoBadgeValue: StatusBadge := StatusBadge("待办", TodoBadge)
  const DoneBadgeValue: StatusBadge := StatusBadge("完成", DoneBadge)

  /** An initial card: no description or content, a red dot, the shared date. */
  function Card(id: string, title: string, imageUrl: Option<string>, tags: seq<Tag>, badge: StatusBadge): (t: Task)
    ensures t.id == id && t.hasRedDot == Some(true) && t.statusBadge == Some(badge)
  {
    Task(id, title, None, None, tags, Date, Some(badge), imageUrl, Some(true))
  }

  const Col1: Column := Column("col-1", "待办", "bg-gray-700", TodoIcon, [
    Card("t-1", "背诵50个新单词", None, [Tag("词汇", Purple), Tag("背诵", Pink)], TodoBadgeValue),
    Card("t-2", "练习新技能", Some("https://picsum.photos/400/200?random=1"), [Tag("练习", Blue)], TodoBadgeValue)
  ])

  const Col2: Column := Column("col-2", "进行中", "bg-orange-500", ProgressIcon, [
    Card("t-3", "设计项目架构", Some("https://picsum.photos/400/300?random=2"), [Tag("设计", Purple), Tag("架构", Cyan)], DoneBadgeValue)
  ])

  const Col3: Column := Column("col-3", "完成", "bg-green-500", DoneIcon, [
    Card("t-4", "听播客30分钟", None, [Tag("听力", Blue), Tag("播客", Pink)], DoneBadgeValue),
    Card("t-5", "编写单元测试", None, [Tag("测试", Purple), Tag("质量", Pink)], TodoBadgeValue)
  ])

  const Col4: Column := Column("col-4", "日常管理", "bg-gray-500", ManageIcon, [
    Card("t-6", "整理学习笔记", None, [Tag("整理", Cyan), Tag("笔记", Pink)], TodoBadgeValue),
    Card("t-7", "运动锻炼", None, [Tag("运动", Orange), Tag("健康", Green)], TodoBadgeValue)
  ])

  /** `INITIAL_DATA`: the four columns in display order. */
  const InitialData: Board := [Col1, Col2, Col3, Col4]

  /** Four columns, col-1 to col-4, with 2, 1, 2 and 2 tasks and the icons todo, progress, done, manage. */
  lemma InitialColumns()
    ensures ColumnIds(InitialData) == ["col-1", "col-2", "col-3", "col-4"]
    ensures |InitialData[0].tasks| == 2 && |InitialData[1].tasks| == 1
    ensures |InitialData[2].tasks| == 2 && |InitialData[3].tasks| == 2
    ensures InitialData[0].iconType == TodoIcon && InitialData[1].iconType == ProgressIcon
    ensures InitialData[2].iconType == DoneIcon && InitialData[3].iconType == ManageIcon
  {
  }

  /** The task ids of the initial board, column by column. */
  lemma {:induction false} InitialTaskIds()
    ensures AllTaskIds(InitialData) == ["t-1", "t-2", "t-3", "t-4", "t-5", "t-6", "t-7"]
  {
    assert TaskIds(Col1.tasks) == ["t-1", "t-2"];
    assert TaskIds(Col2.tasks) == ["t-3"];
    assert TaskIds(Col3.tasks) == ["t-4", "t-5"];
    assert TaskIds(Col4.tasks) == ["t-6", "t-7"];
    assert [Col4][1..] == [];
    assert AllTaskIds([Col4]) == ["t-6", "t-7"];
    assert [Col3, Col4][1..] == [Col4];
    assert AllTaskIds([Col3, Col4]) == ["t-4", "t-5", "t-6", "t-7"];
    assert [Col2, Col3, Col4][1..] == [Col3, Col4];
    assert AllTaskIds([Col2, Col3, Col4]) == ["t-3", "t-4", "t-5", "t-6", "t-7"];
    assert InitialData[1..] == [Col2, Col3, Col4];
  }

  /** Ids that differ in their third character are pairwise different. */
  lemma {:induction false} DistinctByDigit(ids: seq<string>, digits: seq<char>)
    requires Distinct(digits) && |ids| == |digits|
    requires forall i :: 0 <= i < |ids| ==> |ids[i]| == 3 && ids[i][2] == digits[i]
    ensures Distinct(ids)
  {
    forall i, j | 0 <= i < j < |ids| ensures ids[i] != ids[j] {
      assert ids[i][2] != ids[j][2];
    }
  }

  /**
   * The base case of the uniqueness invariant: the seven tasks t-1 to t-7 are on the board once each,
   * and so are the four column ids.
   */
  lemma InitialUnique()
    ensures UniqueTaskIds(InitialData) && UniqueColumnIds(InitialData)
  {
    InitialTaskIds();
    DistinctByDigit(["t-1", "t-2", "t-3", "t-4", "t-5", "t-6", "t-7"], "1234567");
    InitialColumns();
    assert ColumnIds(InitialData)[3] == "col-4";
    forall i, j | 0 <= i < j < 4 ensures ColumnIds(InitialData)[i] != ColumnIds(InitialData)[j] {
      assert ColumnIds(InitialData)[i][4] != ColumnIds(InitialData)[j][4];
    }
  }

  /** Every initial task carries a red dot and a status badge. */
  lemma InitialTasksFlagged()
    ensures forall k, i :: 0 <= k < |InitialData| && 0 <= i < |InitialData[k].tasks| ==>
      InitialData[k].tasks[i].hasRedDot == Some(true) && InitialData[k].tasks[i].statusBadge.Some?
  {
  }
}
