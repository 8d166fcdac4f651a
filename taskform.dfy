/**
 * The task form (components/Modal.tsx): the fields it holds while open, how opening fills them,
 * the tag editor, and the payload a save hands to the board.
 */
module TaskForm {
  import opened Wrappers
  import opened Types
  import opened Lists
  import opened Crud

  /** `COLORS` (line 14): the palette, in display order. */
  const Colors: seq<TagColor> := [Purple, Pink, Cyan, Orange, Green, Blue]

  /** The palette offers every tag colour exactly once. */
  lemma ColorsComplete()
    ensures Distinct(Colors)
    ensures forall c: TagColor :: c in Colors
  {
    forall c: TagColor
      ensures c in Colors
    {
      match c
      case Purple => assert Colors[0] == c;
      case Pink => assert Colors[1] == c;
      case Cyan => assert Colors[2] == c;
      case Orange => assert Colors[3] == c;
      case Green => assert Colors[4] == c;
      case Blue => assert Colors[5] == c;
    }
  }

  /** The characters `String.prototype.trim` removes: white space and line terminators. */
  predicate IsJsSpace(c: char) {
    || c == ' ' || c == '\t' || c == '\n' || c == '\r' || c == '\U{000B}' || c == '\U{000C}'
    || c == '\U{00A0}' || c == '\U{1680}' || ('\U{2000}' <= c <= '\U{200A}') || c == '\U{2028}'
    || c == '\U{2029}' || c == '\U{202F}' || c == '\U{205F}' || c == '\U{3000}' || c == '\U{FEFF}'
  }

  /** `!s.trim()`: the string is empty once trimmed, that is, it holds nothing but white space. */
  predicate IsBlank(s: string) {
    forall k :: 0 <= k < |s| ==> IsJsSpace(s[k])
  }

  /** The longest part of the content the description keeps. */
  const SummaryLength: nat := 100

  /** The description a save derives (line 57): the first 100 characters, then '...' when cut. */
  function Describe(content: string): (d: string)
    ensures |content| <= SummaryLength ==> d == content
    ensures |content| > SummaryLength ==>
      |d| == SummaryLength + 3 && d[..SummaryLength] == content[..SummaryLength] && d[SummaryLength..] == "..."
  {
    if |content| > SummaryLength then content[..SummaryLength] + "..." else content
  }

  /**
   * handleSave (lines 53-63): nothing with a blank title; otherwise the title, the derived
   * description, the content, the cover image and the tags, all present.
   */
  function SavePayload(title: string, content: string, coverImage: string, tags: seq<Tag>): (r: Option<TaskPatch>)
    ensures r.None? <==> IsBlank(title)
    ensures r.Some? ==> r.value == TaskPatch(Some(title), Some(Describe(content)), Some(content), Some(coverImage), Some(tags))
  {
    if IsBlank(title) then None
    else Some(TaskPatch(Some(title), Some(Describe(content)), Some(content), Some(coverImage), Some(tags)))
  }

  /** addTag (lines 65-70) on the list: a blank label adds nothing, any other is appended as typed. */
  function TagsAfterAdd(tags: seq<Tag>, tagLabel: string, color: TagColor): (r: seq<Tag>)
    ensures IsBlank(tagLabel) ==> r == tags
    ensures !IsBlank(tagLabel) ==> |r| == |tags| + 1 && r[..|tags|] == tags && r[|tags|] == Tag(tagLabel, color)
  {
    if IsBlank(tagLabel) then tags else tags + [Tag(tagLabel, color)]
  }

  /** removeTag (lines 72-74): `tags.filter((_, i) => i !== idx)`. */
  function TagsAfterRemove(tags: seq<Tag>, idx: int): (r: seq<Tag>)
    ensures !(0 <= idx < |tags|) ==> r == tags
    ensures 0 <= idx < |tags| ==> r == RemoveAt(tags, idx)
  {
    if 0 <= idx < |tags| then RemoveAt(tags, idx) else tags
  }

  /** Removing keeps every other tag in order: exactly the one at `idx` is gone. */
  lemma RemoveTagKeepsOthers(tags: seq<Tag>, idx: int)
    requires 0 <= idx < |tags|
    ensures var r := TagsAfterRemove(tags, idx);
      && |r| == |tags| - 1
      && (forall k :: 0 <= k < idx ==> r[k] == tags[k])
      && (forall k :: idx <= k < |r| ==> r[k] == tags[k + 1])
      && multiset(r) + multiset{tags[idx]} == multiset(tags)
  {
    RemoveAtMultiset(tags, idx);
  }

  /** A tag just added is the one a removal at the last index takes back off. */
  lemma AddThenRemoveTag(tags: seq<Tag>, tagLabel: string, color: TagColor)
    requires !IsBlank(tagLabel)
    ensures TagsAfterRemove(TagsAfterAdd(tags, tagLabel, color), |tags|) == tags
  {
    assert RemoveAt(tags + [Tag(tagLabel, color)], |tags|) == tags;
  }

  /** The editor text an existing task opens with (line 31): `content || description || ''`. */
  function InitialContent(t: Task): (r: string)
    ensures Truthy(t.content) ==> r == t.content.value
    ensures !Truthy(t.content) && Truthy(t.description) ==> r == t.description.value
    ensures !Truthy(t.content) && !Truthy(t.description) ==> r == ""
  {
    OrElse(t.content, OrElse(t.description, ""))
  }

  datatype Tab = WriteTab | PreviewTab

  /**
   * Opening a task and saving it untouched gives back a task with the same identity, title and
   * tags; its content is what the editor showed and its description is derived from that.
   */
  lemma EditRoundTrip(t: Task)
    requires !IsBlank(t.title)
    ensures var p := SavePayload(t.title, InitialContent(t), OrElse(t.imageUrl, ""), t.tags);
      && p.Some?
      && var r := MergePatch(t, p.value);
      && r.id == t.id && r.title == t.title && r.tags == t.tags && r.date == t.date
      && r.statusBadge == t.statusBadge && r.hasRedDot == t.hasRedDot
      && r.content == Some(InitialContent(t))
      && r.description == Some(Describe(InitialContent(t)))
      && (Truthy(t.content) ==> r.content == t.content)
      && (Truthy(t.imageUrl) ==> r.imageUrl == t.imageUrl)
  {
  }

  /** The state the form keeps while it is mounted. */
  class Form {
    var title: string
    var content: string
    var coverImage: string
    var tags: seq<Tag>
    var newTagLabel: string
    var selectedColor: TagColor
    var activeTab: Tab

    /** The `useState` initial values (lines 17-23). */
    constructor()
      ensures title == "" && content == "" && coverImage == "" && tags == [] && newTagLabel == ""
      ensures selectedColor == Blue && activeTab == WriteTab
    {
      title, content, coverImage, tags, newTagLabel := "", "", "", [], "";
      selectedColor, activeTab := Blue, WriteTab;
    }

    /**
     * The effect run when `isOpen` or `initialData` changes (lines 28-41): an open form shows the
     * task it was given, or nothing; the tab goes back to 'write' in every case.
     */
    method Open(isOpen: bool, initialData: Option<Task>)
      modifies this
      ensures isOpen && initialData.Some? ==>
        && title == initialData.value.title && content == InitialContent(initialData.value)
        && coverImage == OrElse(initialData.value.imageUrl, "") && tags == initialData.value.tags
      ensures isOpen && initialData.None? ==> title == "" && content == "" && coverImage == "" && tags == []
      ensures !isOpen ==> title == old(title) && content == old(content) && coverImage == old(coverImage) && tags == old(tags)
      ensures activeTab == WriteTab
      ensures newTagLabel == old(newTagLabel) && selectedColor == old(selectedColor)
    {
      if isOpen && initialData.Some? {
        var t := initialData.value;
        title := t.title;
        content := OrElse(t.content, OrElse(t.description, ""));
        coverImage := OrElse(t.imageUrl, "");
        tags := t.tags;
      } else if isOpen && initialData.None? {
        title, content, coverImage, tags := "", "", "", [];
      }
      activeTab := WriteTab;
    }

    /** handleSave: the payload handed to `onSave`, or nothing when the title is blank. */
    method Save() returns (patch: Option<TaskPatch>)
      ensures patch == SavePayload(title, content, coverImage, tags)
    {
      if IsBlank(title) {
        return None;
      }
      patch := Some(TaskPatch(Some(title), Some(Describe(content)), Some(content), Some(coverImage), Some(tags)));
    }

    /** addTag: append the typed label in the selected colour and clear the input, unless it is blank. */
    method AddTag()
      modifies this
      ensures tags == TagsAfterAdd(old(tags), old(newTagLabel), selectedColor)
      ensures newTagLabel == if IsBlank(old(newTagLabel)) then old(newTagLabel) else ""
      ensures title == old(title) && content == old(content) && coverImage == old(coverImage)
      ensures selectedColor == old(selectedColor) && activeTab == old(activeTab)
    {
      if !IsBlank(newTagLabel) {
        tags := tags + [Tag(newTagLabel, selectedColor)];
        newTagLabel := "";
      }
    }

    /** removeTag: drop the tag at `idx`, if there is one. */
    method RemoveTag(idx: int)
      modifies this
      ensures tags == TagsAfterRemove(old(tags), idx)
      ensures title == old(title) && content == old(content) && coverImage == old(coverImage)
      ensures newTagLabel == old(newTagLabel) && selectedColor == old(selectedColor) && activeTab == old(activeTab)
    {
      tags := TagsAfterRemove(tags, idx);
    }

    /** The title input (line 119). */
    method SetTitle(s: string)
      modifies this
      ensures title == s
      ensures content == old(content) && coverImage == old(coverImage) && tags == old(tags)
      ensures newTagLabel == old(newTagLabel) && selectedColor == old(selectedColor) && activeTab == old(activeTab)
    {
      title := s;
    }

    /** The markdown editor (line 171). */
    method SetContent(s: string)
      modifies this
      ensures content == s
      ensures title == old(title) && coverImage == old(coverImage) && tags == old(tags)
      ensures newTagLabel == old(newTagLabel) && selectedColor == old(selectedColor) && activeTab == old(activeTab)
    {
      content := s;
    }

    /** The cover URL input (line 197); the remove-cover button (line 139) sets it to ''. */
    method SetCoverImage(s: string)
      modifies this
      ensures coverImage == s
      ensures title == old(title) && content == old(content) && tags == old(tags)
      ensures newTagLabel == old(newTagLabel) && selectedColor == old(selectedColor) && activeTab == old(activeTab)
    {
      coverImage := s;
    }

    /** The new-tag input (line 240). */
    method SetNewTagLabel(s: string)
      modifies this
      ensures newTagLabel == s
      ensures title == old(title) && content == old(content) && coverImage == old(coverImage) && tags == old(tags)
      ensures selectedColor == old(selectedColor) && activeTab == old(activeTab)
    {
      newTagLabel := s;
    }

    /** The colour swatches (line 230). */
    method SelectColor(c: TagColor)
      modifies this
      ensures selectedColor == c
      ensures title == old(title) && content == old(content) && coverImage == old(coverImage) && tags == old(tags)
      ensures newTagLabel == old(newTagLabel) && activeTab == old(activeTab)
    {
      selectedColor := c;
    }

    /** The write and preview tab buttons (lines 153 and 159). */
    method SelectTab(tab: Tab)
      modifies this
      ensures activeTab == tab
      ensures title == old(title) && content == old(content) && coverImage == old(coverImage) && tags == old(tags)
      ensures newTagLabel == old(newTagLabel) && selectedColor == old(selectedColor)
    {
      activeTab := tab;
    }
  }
}
