/** The add-task form (script/addTask.js): the assignee list, the subtask list, the priority,
    the new task record and what happens after it is posted. */
module AddTask {
  import opened Model
  import opened Text
  import opened Script
  import opened Contacts
  import opened Board
  import opened Board2

  // ---------------------------------------------------------------------------------------
  // Assignees

  /** Unchecking a contact: `splice(findIndex(c => c.id == id), 1)`, which drops the first
      entry with that id, or the last entry when there is none. */
  function Unassign(list: seq<Contact>, id: int): (r: seq<Contact>)
    ensures list != [] ==> |r| == |list| - 1
    ensures list == [] ==> r == []
    ensures FindContact(list, id) >= 0 ==>
      var f := FindContact(list, id); r == list[..f] + list[f + 1..]
    ensures FindContact(list, id) == -1 && list != [] ==> r == list[..|list| - 1]
  {
    SpliceOne(list, FindContact(list, id))
  }

  /** Checking a contact not yet assigned and unchecking it again gives back the list. */
  lemma AssignUnassign(list: seq<Contact>, c: Contact)
    requires FindContact(list, c.id) == -1
    ensures Unassign(list + [c], c.id) == list
  {
    var l := list + [c];
    assert forall k :: 0 <= k < |list| ==> l[k] == list[k];
    assert l[|list|].id == c.id;
    assert FindContact(l, c.id) == |list|;
  }

  /** Unchecking a contact that is assigned twice drops the earlier copy, not the one the
      check added last. */
  lemma UnassignFirstCopy(c: Contact, d: Contact)
    requires c.id != d.id
    ensures Unassign([c, d, c], c.id) == [d, c]
  {
    assert FindContact([c, d, c], c.id) == 0;
  }

  /** `contactAssign`: after the label's check mark has been toggled (`nowChecked` is the new
      state), a check appends the cached contact of that id and an uncheck removes one entry.
      When the list is the very `assignedTo` array of the task being edited, that task's
      list changes with it. A check of an id the cache does not hold pushes `undefined`, on
      which rendering throws; the model reports that as `failed` and keeps the list. */
  method ContactAssign(app: App, id: int, nowChecked: bool) returns (failed: bool)
    modifies app`assignedContacts, app`tasks
    ensures var f := FindContact(app.contacts, id);
      var list :=
        if !nowChecked then Unassign(old(app.assignedContacts), id)
        else if f >= 0 then old(app.assignedContacts) + [app.contacts[f]]
        else old(app.assignedContacts);
      && (failed <==> nowChecked && f == -1)
      && app.assignedContacts == list
      && (if Shared(old(app.tasks), app.assignedOwner, old(app.assignedContacts)) then
            var j := FindTask(old(app.tasks), app.assignedOwner.value);
            app.tasks == old(app.tasks)[j := old(app.tasks)[j].(assignedTo := Some(list))]
          else app.tasks == old(app.tasks))
  {
    var list := app.assignedContacts;
    failed := false;
    if nowChecked {
      var f := FindContact(app.contacts, id);
      if f >= 0 {
        list := list + [app.contacts[f]];
      } else {
        failed := true;
      }
    } else {
      list := Unassign(list, id);
    }
    if Shared(app.tasks, app.assignedOwner, app.assignedContacts) {
      var j := FindTask(app.tasks, app.assignedOwner.value);
      app.tasks := app.tasks[j := app.tasks[j].(assignedTo := Some(list))];
    }
    app.assignedContacts := list;
  }

  /** The assignee list is still the array of the task named by `owner`. */
  predicate Shared(tasks: seq<Task>, owner: Option<string>, list: seq<Contact>) {
    && owner.Some?
    && FindTask(tasks, owner.value) >= 0
    && tasks[FindTask(tasks, owner.value)].assignedTo == Some(list)
  }

  /** The picture row under the assignee field: the profile pictures shown, and the count on
      the trailing "+n" badge if there is one. */
  datatype AssignedRow = AssignedRow(pictures: seq<string>, more: Option<int>)

  function ProfilePics(list: seq<Contact>): (r: seq<string>)
    ensures |r| == |list| && forall k :: 0 <= k < |list| ==> r[k] == list[k].profilePic
  {
    seq(|list|, k requires 0 <= k < |list| => list[k].profilePic)
  }

  /** How many assignees a row stands for: one per picture plus the badge's count. */
  function Represented(row: AssignedRow): int {
    |row.pictures| + (if row.more.Some? then row.more.value else 0)
  }

  /** `renderAssignedContacts` as written: pictures for positions 0 to 5, then at position 6
      a "+(length - 5)" badge and the loop stops. */
  method RenderAssignedContacts(list: seq<Contact>) returns (row: AssignedRow)
    ensures |list| <= 6 ==> row == AssignedRow(ProfilePics(list), None)
    ensures |list| > 6 ==> row == AssignedRow(ProfilePics(list[..6]), Some(|list| - 5))
  {
    var pictures: seq<string> := [];
    var more: Option<int> := None;
    var i := 0;
    while i < |list|
      invariant 0 <= i <= |list| && i <= 6
      invariant pictures == ProfilePics(list[..i]) && more == None
    {
      if i <= 5 {
        pictures := pictures + [list[i].profilePic];
      } else {
        more := Some(|list| - 5);
        break;
      }
      i := i + 1;
    }
    if i == |list| {
      assert list[..i] == list;
    }
    row := AssignedRow(pictures, more);
  }

  /** With seven or more assignees the row as written stands for one more than there are. */
  lemma RenderOvercounts(list: seq<Contact>, row: AssignedRow)
    requires |list| > 6 && row == AssignedRow(ProfilePics(list[..6]), Some(|list| - 5))
    ensures Represented(row) == |list| + 1
  {
  }

  /** `renderAssignedContacts` with the badge counting the hidden assignees: the row stands
      for exactly the assigned contacts, the first six of them as pictures. */
  method RenderAssignedContactsCorrected(list: seq<Contact>) returns (row: AssignedRow)
    ensures Represented(row) == |list|
    ensures |row.pictures| == if |list| <= 6 then |list| else 6
    ensures row.pictures == ProfilePics(list[..|row.pictures|])
    ensures row.more.Some? <==> |list| > 6
  {
    var pictures: seq<string> := [];
    var more: Option<int> := None;
    var i := 0;
    while i < |list|
      invariant 0 <= i <= |list| && i <= 6
      invariant pictures == ProfilePics(list[..i]) && more == None
    {
      if i <= 5 {
        pictures := pictures + [list[i].profilePic];
      } else {
        more := Some(|list| - 6);
        break;
      }
      i := i + 1;
    }
    row := AssignedRow(pictures, more);
  }

  // ---------------------------------------------------------------------------------------
  // Priority and subtasks

  /** `setPrio`: the clicked button's priority becomes the form's priority. */
  method SetPrio(app: App, prio: string)
    modifies app`currentPrio
    ensures app.currentPrio == prio
  {
    app.currentPrio := prio;
  }

  /** `saveSubtask`: the trimmed input is appended to the list, unless it is empty. */
  method SaveSubtask(app: App, input: string)
    modifies app`subtaskItems
    ensures Trim(input) == [] ==> app.subtaskItems == old(app.subtaskItems)
    ensures Trim(input) != [] ==> app.subtaskItems == old(app.subtaskItems) + [Trim(input)]
  {
    var inputText := Trim(input);
    if inputText == [] {
      return;
    }
    app.subtaskItems := app.subtaskItems + [inputText];
  }

  /** What `saveSubtask` lists is non-empty and already trimmed, so listing it again would
      list the same text. */
  lemma SavedSubtaskStable(input: string)
    requires Trim(input) != []
    ensures Trim(Trim(input)) == Trim(input) && !IsWhitespace(Trim(input)[0])
  {
    TrimIdempotent(input);
  }

  /** `saveEditedSubtask`: the item's text becomes the trimmed input, which may be empty. */
  method SaveEditedSubtask(app: App, k: nat, input: string)
    requires k < |app.subtaskItems|
    modifies app`subtaskItems
    ensures app.subtaskItems == old(app.subtaskItems)[k := Trim(input)]
  {
    app.subtaskItems := app.subtaskItems[k := Trim(input)];
  }

  /** `deleteSubtask`: the item is removed, the others keep their order. */
  method DeleteSubtask(app: App, k: nat)
    requires k < |app.subtaskItems|
    modifies app`subtaskItems
    ensures app.subtaskItems == old(app.subtaskItems)[..k] + old(app.subtaskItems)[k + 1..]
  {
    app.subtaskItems := app.subtaskItems[..k] + app.subtaskItems[k + 1..];
  }

  /** `clearSubtaskList`. */
  method ClearSubtaskList(app: App)
    modifies app`subtaskItems
    ensures app.subtaskItems == []
  {
    app.subtaskItems := [];
  }

  /** The subtasks of a new task: one per listed text, in order, all unchecked. */
  function Unchecked(items: seq<string>): (r: seq<Subtask>)
    ensures |r| == |items| && forall k :: 0 <= k < |items| ==> r[k] == Subtask(items[k], "unchecked")
  {
    seq(|items|, k requires 0 <= k < |items| => Subtask(items[k], "unchecked"))
  }

  /** `getSubtasks`: the loop over the listed items. */
  method GetSubtasks(items: seq<string>) returns (subtasks: seq<Subtask>)
    ensures subtasks == Unchecked(items)
  {
    subtasks := [];
    var i := 0;
    while i < |items|
      invariant 0 <= i <= |items|
      invariant subtasks == Unchecked(items[..i])
    {
      subtasks := subtasks + [Subtask(items[i], "unchecked")];
      i := i + 1;
    }
    assert items[..i] == items;
  }

  /** A new task's subtasks list back as the same texts, none checked, and an edit that
      keeps the texts keeps the subtasks as they are. */
  lemma NewSubtasks(items: seq<string>)
    ensures SubtaskTexts(Some(Unchecked(items))) == items
    ensures CheckedCount(Unchecked(items)) == 0
    ensures EditedSubtasks(items, Some(Unchecked(items))) == Unchecked(items)
  {
  }

  // ---------------------------------------------------------------------------------------
  // The new task

  /** The text inputs of the add-task form. */
  datatype TaskForm = TaskForm(title: string, description: string, date: string, category: string)

  /** The column the new task goes to: the stored `taskCategory`, or "" where the store
      holds none (the source then sends `null`). */
  function StoredCategory(session: map<string, Stored>): string {
    if "taskCategory" in session && session["taskCategory"].Str? then session["taskCategory"].s else ""
  }

  /** `createNewtask`: the form's inputs, the current priority, the stored column, the
      listed subtasks all unchecked and the assignee list itself. */
  method CreateNewtask(app: App, form: TaskForm) returns (d: TaskData)
    ensures d.title == form.title && d.description == form.description && d.date == form.date
    ensures d.category == form.category
    ensures d.prio == app.currentPrio && d.status == StoredCategory(app.session)
    ensures d.subtasks == Some(Unchecked(app.subtaskItems))
    ensures d.assignedTo == Some(app.assignedContacts)
  {
    var subtasks := GetSubtasks(app.subtaskItems);
    d := TaskData(Some(app.assignedContacts), form.category, form.date, form.description,
                  app.currentPrio, StoredCategory(app.session), Some(subtasks), form.title);
  }

  /** `closeAddTaskModal`. On the add-task page the cache is emptied and the board tab is
      made active (`boardLinkText` is the text of its menu link). On the board the stored
      list is dropped and the board data re-initialised: the cached tasks are reconciled
      when there are any, and reloaded from `entries` only when there are none. */
  method CloseAddTaskModal(app: App, boardLinkText: string, entries: seq<Entry>, load: seq<Option<StoredContact>>)
    requires app.Valid()
    modifies app`tasks, app`contacts, app`session, app`log, app`activeTab
    ensures app.Valid()
    ensures old(app.activeTab) == "add task" ==>
      && app.tasks == [] && app.activeTab == LowerStr(boardLinkText)
      && app.session == (old(app.session)["activeTab" := Str(LowerStr(boardLinkText))]) - {"tasks"}
      && app.log == old(app.log) && app.contacts == old(app.contacts)
    ensures old(app.activeTab) != "add task" ==>
      var c := Loaded(old(app.contacts), load);
      && app.activeTab == old(app.activeTab)
      && app.tasks == Checked(old(app.tasks), c, entries)
      && app.log == old(app.log) + CheckedWrites(old(app.tasks), c, entries)
      && app.contacts == (if Reconciles(old(app.tasks), entries) then c else old(app.contacts))
      && app.session ==
           (if Reconciles(old(app.tasks), entries)
            then LoadedSession(old(app.session) - {"tasks"}, old(app.contacts), load)
            else old(app.session) - {"tasks"})
  {
    if app.activeTab == "add task" {
      app.tasks := [];
      ChangeActive(app, boardLinkText);
      app.session := app.session - {"tasks"};
    } else {
      app.session := app.session - {"tasks"};
      InitCheckData(app, entries, load);
    }
  }

  /** `pushNewTask`: post the new record to the task collection, then close the form. */
  method PushNewTask(app: App, form: TaskForm, boardLinkText: string, entries: seq<Entry>,
                     load: seq<Option<StoredContact>>)
    requires app.Valid()
    modifies app`tasks, app`contacts, app`session, app`log, app`activeTab
    ensures app.Valid()
    ensures |app.log| > |old(app.log)|
    ensures app.log[..|old(app.log)| + 1] == old(app.log) + [Post(TaskCollection, TaskBody(TaskData(
      Some(old(app.assignedContacts)), form.category, form.date, form.description,
      old(app.currentPrio), StoredCategory(old(app.session)), Some(Unchecked(old(app.subtaskItems))), form.title)))]
    ensures old(app.activeTab) == "add task" ==>
      && app.tasks == [] && app.activeTab == LowerStr(boardLinkText)
      && app.session == (old(app.session)["activeTab" := Str(LowerStr(boardLinkText))]) - {"tasks"}
      && |app.log| == |old(app.log)| + 1 && app.contacts == old(app.contacts)
    ensures old(app.activeTab) != "add task" ==>
      var c := Loaded(old(app.contacts), load);
      && app.activeTab == old(app.activeTab)
      && app.tasks == Checked(old(app.tasks), c, entries)
      && app.log[|old(app.log)| + 1..] == CheckedWrites(old(app.tasks), c, entries)
      && app.contacts == (if Reconciles(old(app.tasks), entries) then c else old(app.contacts))
      && app.session ==
           (if Reconciles(old(app.tasks), entries)
            then LoadedSession(old(app.session) - {"tasks"}, old(app.contacts), load)
            else old(app.session) - {"tasks"})
  {
    var newTask := CreateNewtask(app, form);
    app.log := app.log + [Post(TaskCollection, TaskBody(newTask))];
    ghost var posted := app.log;
    CloseAddTaskModal(app, boardLinkText, entries, load);
    assert app.log[..|posted|] == posted;
  }

  /** On the board, with tasks already cached, the posted task is not among the tasks shown
      afterwards: reconciling keeps exactly the cached ids. */
  lemma NewTaskNotShown(ts: seq<Task>, contacts: seq<Contact>, key: string)
    requires key !in TaskIds(ts)
    ensures key !in TaskIds(ReconcileAll(ts, contacts))
  {
    forall k | 0 <= k < |ts|
      ensures ReconcileAll(ts, contacts)[k].id == ts[k].id
    {
      ReconciledFields(ts[k], contacts);
    }
    assert TaskIds(ReconcileAll(ts, contacts)) == TaskIds(ts);
  }

  /** `closeAddTaskModal` emptying the cache on the board as well, so that the board is
      rebuilt from the store, which now holds the posted task. */
  method CloseAddTaskModalCorrected(app: App, boardLinkText: string, entries: seq<Entry>,
                                    load: seq<Option<StoredContact>>)
    requires app.Valid()
    modifies app`tasks, app`contacts, app`session, app`log, app`activeTab
    ensures app.Valid()
    ensures old(app.activeTab) == "add task" ==>
      && app.tasks == [] && app.activeTab == LowerStr(boardLinkText)
      && app.session == (old(app.session)["activeTab" := Str(LowerStr(boardLinkText))]) - {"tasks"}
      && app.log == old(app.log) && app.contacts == old(app.contacts)
    ensures old(app.activeTab) != "add task" ==>
      var c := Loaded(old(app.contacts), load);
      && app.activeTab == old(app.activeTab)
      && app.tasks == Rebuilt(entries, c)
      && app.log == old(app.log) + RebuiltWrites(entries, c)
      && app.contacts == (if HasEntry(entries) then c else old(app.contacts))
      && app.session ==
           (if HasEntry(entries) then LoadedSession(old(app.session) - {"tasks"}, old(app.contacts), load)
            else old(app.session) - {"tasks"})
  {
    if app.activeTab == "add task" {
      app.tasks := [];
      ChangeActive(app, boardLinkText);
      app.session := app.session - {"tasks"};
    } else {
      app.tasks := [];
      app.session := app.session - {"tasks"};
      InitCheckData(app, entries, load);
    }
  }

  /** Every stored task, the posted one included, is among the tasks the rebuilt board shows. */
  lemma {:induction false} StoredTaskShown(entries: seq<Entry>, contacts: seq<Contact>, k: nat)
    requires k < |entries| && entries[k].data.Some?
    ensures entries[k].key in TaskIds(Rebuilt(entries, contacts))
  {
    RebuiltKeys(entries, contacts);
    EntryKeyListed(entries, k);
  }

  // ---------------------------------------------------------------------------------------
  // Validation

  /** A required input counts as empty when it holds only whitespace. */
  predicate Blank(s: string) {
    Trim(s) == []
  }

  /** `formValidation` as written: every required input left blank is flagged, but the
      function still returns true, because the `false` is assigned to another variable. */
  method FormValidation(inputs: seq<string>) returns (isValid: bool, flagged: seq<bool>)
    ensures isValid
    ensures |flagged| == |inputs| && forall k :: 0 <= k < |inputs| ==> (flagged[k] <==> Blank(inputs[k]))
  {
    ghost var blanks := seq(|inputs|, k requires 0 <= k < |inputs| => Blank(inputs[k]));
    isValid := true;
    flagged := [];
    var i := 0;
    while i < |inputs|
      invariant 0 <= i <= |inputs| && flagged == blanks[..i]
    {
      assert blanks[..i + 1] == blanks[..i] + [Blank(inputs[i])];
      flagged := flagged + [Blank(inputs[i])];
      i := i + 1;
    }
    assert flagged == blanks;
  }

  /** `formValidation` returning false as soon as one required input is blank. */
  method FormValidationCorrected(inputs: seq<string>) returns (isValid: bool, flagged: seq<bool>)
    ensures isValid <==> forall k :: 0 <= k < |inputs| ==> !Blank(inputs[k])
    ensures |flagged| == |inputs| && forall k :: 0 <= k < |inputs| ==> (flagged[k] <==> Blank(inputs[k]))
  {
    ghost var blanks := seq(|inputs|, k requires 0 <= k < |inputs| => Blank(inputs[k]));
    isValid := true;
    flagged := [];
    var i := 0;
    while i < |inputs|
      invariant 0 <= i <= |inputs| && flagged == blanks[..i]
      invariant isValid <==> true !in flagged
    {
      var blank := Blank(inputs[i]);
      assert blanks[..i + 1] == blanks[..i] + [blank];
      flagged := flagged + [blank];
      if blank {
        isValid := false;
      }
      i := i + 1;
    }
    assert flagged == blanks;
    assert isValid <==> forall k :: 0 <= k < |inputs| ==> !blanks[k];
    assert forall k :: 0 <= k < |inputs| ==> blanks[k] == Blank(inputs[k]);
  }
}
