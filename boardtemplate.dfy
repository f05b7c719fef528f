/** The decisions the board's card and task-overlay templates make (script/boardtemplate.js),
    as view records rather than markup. */
module BoardTemplate {
  import opened Model
  import opened Board
  import opened Board2
  import opened AddTask

  /** A text cut for display: shown whole when shorter than `limit` characters, otherwise
      its first `keep` characters followed by "...". */
  function Shorten(s: string, limit: nat, keep: nat): (r: string)
    requires keep <= limit
    ensures |s| < limit ==> r == s
    ensures |s| >= limit ==> |r| == keep + 3 && r[..keep] == s[..keep] && r[keep..] == "..."
  {
    if |s| < limit then s else s[..keep] + "..."
  }

  /** `generateTitleHTML`: titles under 20 characters whole, longer ones cut to 20. */
  function TitleText(title: string): string {
    Shorten(title, 20, 20)
  }

  /** `generateDescriptionHTML`: descriptions under 60 characters whole, longer ones cut to 40. */
  function DescriptionText(description: string): string {
    Shorten(description, 60, 40)
  }

  /** A card title never shows more than 23 characters, and a shown title is a prefix of the
      title up to the ellipsis. */
  lemma TitleBounds(title: string)
    ensures |TitleText(title)| <= 23
    ensures |title| < 20 ==> TitleText(title) == title
    ensures |title| >= 20 ==> |TitleText(title)| == 23 && TitleText(title)[..20] == title[..20]
  {
  }

  /** A card description never shows 60 characters or more; one of 59 characters is shown
      whole while one of 60 is cut to 43. */
  lemma DescriptionBounds(description: string)
    ensures |DescriptionText(description)| < 60
    ensures |description| == 59 ==> |DescriptionText(description)| == 59
    ensures |description| == 60 ==> |DescriptionText(description)| == 43
  {
  }

  /** The two category badges. */
  datatype CategoryBadge = UserStory | TechnicalTask

  /** `generateCategoryHTML` (and its overlay twin): only the exact text "User Story" gets
      the user-story badge. */
  function CategoryOf(category: string): (b: CategoryBadge)
    ensures b == UserStory <==> category == "User Story"
    ensures b == TechnicalTask <==> category != "User Story"
  {
    if category == "User Story" then UserStory else TechnicalTask
  }

  /** The three priority icons. */
  datatype PrioIcon = UrgentIcon | MediumIcon | LowIcon

  /** `generatePrioHTML`: "urgent" and "medium" have their own icons; any other value, the
      empty one included, shows the low icon. */
  function PrioIconOf(prio: string): (i: PrioIcon)
    ensures i == UrgentIcon <==> prio == "urgent"
    ensures i == MediumIcon <==> prio == "medium"
    ensures i == LowIcon <==> prio != "urgent" && prio != "medium"
  {
    if prio == "urgent" then UrgentIcon else if prio == "medium" then MediumIcon else LowIcon
  }

  /** `generateAssignedToHTML`: at most four pictures, then a "+n" badge for the rest; a
      missing list shows nothing. */
  function CardBadges(assignedTo: Option<seq<Contact>>): (row: AssignedRow)
    ensures assignedTo.None? ==> row == AssignedRow([], None)
    ensures assignedTo.Some? ==>
      var a := assignedTo.value;
      && |row.pictures| == (if |a| < 4 then |a| else 4)
      && row.pictures == ProfilePics(a[..|row.pictures|])
      && (row.more.Some? <==> |a| > 4)
  {
    if assignedTo.None? then AssignedRow([], None)
    else
      var a := assignedTo.value;
      var shown := if |a| < 4 then |a| else 4;
      AssignedRow(ProfilePics(a[..shown]), if |a| > 4 then Some(|a| - 4) else None)
  }

  /** Unlike the add-task form's row, a card's badges stand for exactly its assignees. */
  lemma CardBadgesCount(assignedTo: Option<seq<Contact>>)
    ensures Represented(CardBadges(assignedTo)) == if assignedTo.None? then 0 else |assignedTo.value|
  {
  }

  /** `generateSubtasksHTML`: a progress block only for a non-empty subtask list, starting at
      0 of its length whatever the statuses (the real count is filled in afterwards). */
  function SubtasksBlock(subtasks: Option<seq<Subtask>>): (p: Option<Progress>)
    ensures p.Some? <==> subtasks.Some? && subtasks.value != []
    ensures p.Some? ==> p.value.checked == 0 && p.value.total == |subtasks.value|
  {
    if subtasks.Some? && |subtasks.value| > 0 then Some(Progress(0, |subtasks.value|)) else None
  }

  /** For a new task, whose subtasks all start unchecked, the initial block is already the
      true progress. */
  lemma NewTaskBlockExact(items: seq<string>)
    requires items != []
    ensures SubtasksBlock(Some(Unchecked(items))) == Some(SubtasksProgress(Unchecked(items)))
  {
    NewSubtasks(items);
  }

  /** One subtask row of the task overlay: its checkbox state, its text and the index its
      click passes to `updateSubtaskStatus`. */
  datatype ModalRow = ModalRow(checked: bool, text: string, index: nat)

  datatype ModalSubtasks = NoSubtasks | Rows(rows: seq<ModalRow>)

  /** `generateModalSubtasksHTML`: one row per subtask, checked exactly when the status is
      "checked"; a missing list shows "No subtasks available!" (an empty one shows nothing). */
  function ModalSubtasksOf(t: Task): (m: ModalSubtasks)
    ensures m.NoSubtasks? <==> t.subtasks.None?
    ensures m.Rows? ==> |m.rows| == |t.subtasks.value| && forall i :: 0 <= i < |m.rows| ==>
      m.rows[i] == ModalRow(t.subtasks.value[i].status == "checked", t.subtasks.value[i].text, i)
  {
    if t.subtasks.None? then NoSubtasks
    else
      var ss := t.subtasks.value;
      Rows(seq(|ss|, i requires 0 <= i < |ss| => ModalRow(ss[i].status == "checked", ss[i].text, i)))
  }

  /** Clicking row i toggles row i's checkbox and no other, and every row keeps its index, so
      the next click on it addresses the same subtask. */
  lemma ModalToggle(t: Task, i: nat)
    requires t.subtasks.Some? && i < |t.subtasks.value|
    ensures var before := ModalSubtasksOf(t).rows; var after := ModalSubtasksOf(FlipSubtask(t, i)).rows;
      && |after| == |before|
      && after[i].checked == !before[i].checked
      && (forall j :: 0 <= j < |before| && j != i ==> after[j] == before[j])
      && (forall j :: 0 <= j < |before| ==> after[j].index == j && after[j].text == before[j].text)
  {
  }
}
