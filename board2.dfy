/** The task overlay of the board page (script/board2.js): the subtask checkbox toggle and
    the edit form, from capturing the task to saving the edited record in place. */
module Board2 {
  import opened Model
  import opened Script
  import opened Board

  // ---------------------------------------------------------------------------------------
  // The subtask toggle

  /** The flip in `updateSubtaskStatusDom`: "checked" becomes "unchecked", any other value
      becomes "checked". */
  function ToggleStatus(status: string): (r: string)
    ensures r == "checked" <==> status != "checked"
    ensures r == "unchecked" <==> status == "checked"
  {
    if status == "checked" then "unchecked" else "checked"
  }

  /** On the two values the app writes, toggling twice restores the status. */
  lemma ToggleTwice(status: string)
    requires status == "checked" || status == "unchecked"
    ensures ToggleStatus(ToggleStatus(status)) == status
  {
  }

  /** The task with the status of its subtask k toggled, everything else as it was. */
  function FlipSubtask(t: Task, k: nat): (r: Task)
    requires t.subtasks.Some? && k < |t.subtasks.value|
    ensures r.subtasks.Some? && |r.subtasks.value| == |t.subtasks.value|
    ensures r.subtasks.value[k] == t.subtasks.value[k].(status := ToggleStatus(t.subtasks.value[k].status))
    ensures forall j :: 0 <= j < |t.subtasks.value| && j != k ==> r.subtasks.value[j] == t.subtasks.value[j]
    ensures r.id == t.id && r.(subtasks := t.subtasks) == t
  {
    var ss := t.subtasks.value;
    t.(subtasks := Some(ss[k := ss[k].(status := ToggleStatus(ss[k].status))]))
  }

  /** A toggle moves the progress count by exactly one: down when the subtask was checked,
      up otherwise. */
  lemma {:induction false} ToggleProgress(ss: seq<Subtask>, k: nat)
    requires k < |ss|
    ensures var flipped := ss[k := ss[k].(status := ToggleStatus(ss[k].status))];
      CheckedCount(flipped) == if ss[k].status == "checked" then CheckedCount(ss) - 1 else CheckedCount(ss) + 1
  {
    var flipped := ss[k := ss[k].(status := ToggleStatus(ss[k].status))];
    if k > 0 {
      assert flipped[1..] == ss[1..][k - 1 := ss[1..][k - 1].(status := ToggleStatus(ss[1..][k - 1].status))];
      ToggleProgress(ss[1..], k - 1);
    } else {
      assert flipped[1..] == ss[1..];
    }
  }

  /** `updateSubtaskStatus` as written: the toggle flips the status inside the cached task,
      and then reading `subtaskIndex`, which is not in scope in `updateSubtaskStatusDom`,
      throws, so the task is neither written nor stored. A missing task or subtask does
      nothing; a task without a subtask list fails at once. Returns true when it throws. */
  method UpdateSubtaskStatus(app: App, taskId: string, subtaskIndex: int) returns (failed: bool)
    modifies app`tasks
    ensures var i := FindTask(old(app.tasks), taskId);
      if i == -1 then app.tasks == old(app.tasks) && !failed
      else if old(app.tasks)[i].subtasks.None? then app.tasks == old(app.tasks) && failed
      else if !(0 <= subtaskIndex < |old(app.tasks)[i].subtasks.value|) then app.tasks == old(app.tasks) && !failed
      else app.tasks == old(app.tasks)[i := FlipSubtask(old(app.tasks)[i], subtaskIndex)] && failed
  {
    var i := FindTask(app.tasks, taskId);
    if i == -1 {
      return false;
    }
    var task := app.tasks[i];
    if task.subtasks.None? {
      return true;
    }
    if !(0 <= subtaskIndex < |task.subtasks.value|) {
      return false;
    }
    app.tasks := app.tasks[i := FlipSubtask(task, subtaskIndex)];
    return true;
  }

  /** The as-written toggle changes the cached task while the store keeps the old one: a
      task with one unchecked subtask is cached checked and stored unchecked. */
  lemma ToggleNotStored(t: Task)
    requires t.subtasks == Some([Subtask("draft", "unchecked")])
    ensures FlipSubtask(t, 0) != t
    ensures FlipSubtask(t, 0).subtasks == Some([Subtask("draft", "checked")])
  {
    var r := FlipSubtask(t, 0);
    assert r.subtasks.value[0] == Subtask("draft", "checked");
    assert r.subtasks.value == [Subtask("draft", "checked")];
  }

  /** The same for every task: a toggle never returns the status it was given, so the
      flipped cached task always differs from the stored one. */
  lemma FlipChangesTask(t: Task, k: nat)
    requires t.subtasks.Some? && k < |t.subtasks.value|
    ensures FlipSubtask(t, k) != t
  {
    var s := t.subtasks.value[k].status;
    assert ToggleStatus(s) != s;
    assert FlipSubtask(t, k).subtasks.value[k] != t.subtasks.value[k];
  }

  /** `updateSubtaskStatus` with the checkbox repaint reading its own index: the toggled task
      is written to `tasks/{id}`, put back at its index and stored. */
  method UpdateSubtaskStatusCorrected(app: App, taskId: string, subtaskIndex: int) returns (failed: bool)
    requires app.Valid()
    modifies app`tasks, app`session, app`log
    ensures app.Valid()
    ensures var i := FindTask(old(app.tasks), taskId);
      if i == -1 || old(app.tasks)[i].subtasks.None? || !(0 <= subtaskIndex < |old(app.tasks)[i].subtasks.value|) then
        && app.tasks == old(app.tasks) && app.log == old(app.log) && app.session == old(app.session)
        && (failed <==> i != -1 && old(app.tasks)[i].subtasks.None?)
      else
        var flipped := FlipSubtask(old(app.tasks)[i], subtaskIndex);
        && !failed
        && app.tasks == old(app.tasks)[i := flipped]
        && app.log == old(app.log) + [Put(TaskAt(taskId), TaskRecord(flipped))]
        && app.session == old(app.session)["tasks" := TasksJson(app.tasks)]
  {
    var i := FindTask(app.tasks, taskId);
    if i == -1 {
      return false;
    }
    var task := app.tasks[i];
    if task.subtasks.None? {
      return true;
    }
    if !(0 <= subtaskIndex < |task.subtasks.value|) {
      return false;
    }
    task := FlipSubtask(task, subtaskIndex);
    app.tasks := app.tasks[i := task];
    app.log := app.log + [Put(TaskAt(taskId), TaskRecord(task))];
    var taskIndex := FindTask(app.tasks, taskId);
    assert taskIndex == i by {
      assert app.tasks[i].id == taskId;
      assert forall k :: 0 <= k < i ==> app.tasks[k].id != taskId;
    }
    CreateTaskArrayRoundTrip(task);
    assert app.tasks[..i] + [task] + app.tasks[i + 1..] == app.tasks;
    app.tasks := app.tasks[..taskIndex] + [CreateTaskArray(taskId, Data(task))] + app.tasks[taskIndex + 1..];
    app.session := app.session["tasks" := TasksJson(app.tasks)];
    return false;
  }

  // ---------------------------------------------------------------------------------------
  // The edit form

  /** The texts of a task's subtasks, as the edit form lists them. */
  function SubtaskTexts(subtasks: Option<seq<Subtask>>): (r: seq<string>)
    ensures subtasks.None? ==> r == []
    ensures subtasks.Some? ==> (|r| == |subtasks.value|
      && forall k :: 0 <= k < |r| ==> r[k] == subtasks.value[k].text)
  {
    if subtasks.None? then []
    else seq(|subtasks.value|, k requires 0 <= k < |subtasks.value| => subtasks.value[k].text)
  }

  /** `openOverlay`: the overlay starts with a fresh, unshared assignee list. */
  method OpenOverlay(app: App)
    modifies app`assignedContacts, app`assignedOwner
    ensures app.assignedContacts == [] && app.assignedOwner == None
  {
    app.assignedContacts := [];
    app.assignedOwner := None;
  }

  /** `enableTaskEdit` as written: the form's assignee list becomes the task's own
      `assignedTo` array (shared with it, or a fresh empty one), the task's status is
      captured and its subtasks are listed; the priority is only highlighted, so
      `currentPrio` keeps whatever it was. Returns true when no task has the id. */
  method EnableTaskEdit(app: App, taskId: string) returns (failed: bool)
    modifies app`assignedContacts, app`assignedOwner, app`currentTaskStatus, app`subtaskItems
    ensures var i := FindTask(app.tasks, taskId);
      && (failed <==> i == -1)
      && (i == -1 ==> app.assignedContacts == old(app.assignedContacts) && app.assignedOwner == old(app.assignedOwner)
                      && app.currentTaskStatus == old(app.currentTaskStatus) && app.subtaskItems == old(app.subtaskItems))
      && (i >= 0 ==>
            var t := app.tasks[i];
            && app.assignedContacts == (if t.assignedTo.Some? then t.assignedTo.value else [])
            && app.assignedOwner == (if t.assignedTo.Some? then Some(t.id) else None)
            && app.currentTaskStatus == t.status
            && app.subtaskItems == SubtaskTexts(t.subtasks))
  {
    var i := FindTask(app.tasks, taskId);
    if i == -1 {
      return true;
    }
    var task := app.tasks[i];
    app.subtaskItems := SubtaskTexts(task.subtasks);
    if task.assignedTo.Some? {
      app.assignedContacts := task.assignedTo.value;
      app.assignedOwner := Some(task.id);
    } else {
      app.assignedContacts := [];
      app.assignedOwner := None;
    }
    app.currentTaskStatus := task.status;
    return false;
  }

  /** `enableTaskEdit` capturing the task's priority as well, as the highlighted button
      promises. */
  method EnableTaskEditCorrected(app: App, taskId: string) returns (failed: bool)
    modifies app`assignedContacts, app`assignedOwner, app`currentTaskStatus, app`subtaskItems, app`currentPrio
    ensures var i := FindTask(app.tasks, taskId);
      && (failed <==> i == -1)
      && (i == -1 ==> app.assignedContacts == old(app.assignedContacts) && app.assignedOwner == old(app.assignedOwner)
                      && app.currentTaskStatus == old(app.currentTaskStatus) && app.subtaskItems == old(app.subtaskItems)
                      && app.currentPrio == old(app.currentPrio))
      && (i >= 0 ==>
            var t := app.tasks[i];
            && app.assignedContacts == (if t.assignedTo.Some? then t.assignedTo.value else [])
            && app.assignedOwner == (if t.assignedTo.Some? then Some(t.id) else None)
            && app.currentTaskStatus == t.status
            && app.currentPrio == t.prio
            && app.subtaskItems == SubtaskTexts(t.subtasks))
  {
    failed := EnableTaskEdit(app, taskId);
    if !failed {
      var i := FindTask(app.tasks, taskId);
      app.currentPrio := app.tasks[i].prio;
    }
  }

  /** The title, description and date inputs of the edit form. */
  datatype EditForm = EditForm(title: string, description: string, date: string)

  /** The status an edited subtask takes from the original subtask at its position: that
      status when it exists and is not empty, "unchecked" otherwise. */
  function CarriedStatus(orig: Option<seq<Subtask>>, k: nat): (r: string)
    ensures r != ""
    ensures orig.Some? && k < |orig.value| && orig.value[k].status != "" ==> r == orig.value[k].status
    ensures !(orig.Some? && k < |orig.value|) ==> r == "unchecked"
  {
    if orig.Some? && k < |orig.value| && orig.value[k].status != "" then orig.value[k].status else "unchecked"
  }

  /** The edited subtask list: one subtask per listed text, in order, each with the status
      carried over by position (not by text). */
  function EditedSubtasks(texts: seq<string>, orig: Option<seq<Subtask>>): (r: seq<Subtask>)
    ensures |r| == |texts|
    ensures forall k :: 0 <= k < |r| ==> r[k] == Subtask(texts[k], CarriedStatus(orig, k))
  {
    seq(|texts|, k requires 0 <= k < |texts| => Subtask(texts[k], CarriedStatus(orig, k)))
  }

  /** `createEditedTaskReturn`: the form's fields, the current priority, the status captured
      by `enableTaskEdit`, the edited subtasks and the assignee list, with the original
      category. */
  function CreateEditedTaskReturn(subtasks: seq<Subtask>, orig: Task, form: EditForm, prio: string,
                                  taskStatus: string, assignees: seq<Contact>): (d: TaskData)
    ensures d.category == orig.category && d.status == taskStatus && d.prio == prio
    ensures d.subtasks == Some(subtasks) && d.assignedTo == Some(assignees)
    ensures d.title == form.title && d.description == form.description && d.date == form.date
  {
    TaskData(Some(assignees), orig.category, form.date, form.description, prio, taskStatus, Some(subtasks), form.title)
  }

  /** `createEditedTask`: nothing when no task has the id; otherwise the edited record built
      from the listed subtask texts. */
  method CreateEditedTask(app: App, taskId: string, form: EditForm) returns (r: Option<TaskData>)
    ensures r.None? <==> FindTask(app.tasks, taskId) == -1
    ensures r.Some? ==>
      var orig := app.tasks[FindTask(app.tasks, taskId)];
      r.value == CreateEditedTaskReturn(EditedSubtasks(app.subtaskItems, orig.subtasks), orig, form,
                                        app.currentPrio, app.currentTaskStatus, app.assignedContacts)
  {
    var i := FindTask(app.tasks, taskId);
    if i == -1 {
      return None;
    }
    var originalTask := app.tasks[i];
    var subtasks: seq<Subtask> := [];
    var index := 0;
    while index < |app.subtaskItems|
      invariant 0 <= index <= |app.subtaskItems|
      invariant subtasks == EditedSubtasks(app.subtaskItems[..index], originalTask.subtasks)
    {
      var status := "unchecked";
      if originalTask.subtasks.Some? && index < |originalTask.subtasks.value| {
        var s := originalTask.subtasks.value[index];
        status := if s.status != "" then s.status else "unchecked";
      }
      subtasks := subtasks + [Subtask(app.subtaskItems[index], status)];
      index := index + 1;
    }
    assert app.subtaskItems[..index] == app.subtaskItems;
    r := Some(CreateEditedTaskReturn(subtasks, originalTask, form, app.currentPrio,
                                     app.currentTaskStatus, app.assignedContacts));
  }

  /** Saving an edit that changes nothing gives back the task's own fields, provided the
      priority was captured with the task: the listed texts are the task's, every subtask
      status is non-empty and the assignee list is the task's. */
  lemma UnchangedEdit(t: Task)
    requires t.assignedTo.Some? && t.subtasks.Some?
    requires forall k :: 0 <= k < |t.subtasks.value| ==> t.subtasks.value[k].status != ""
    ensures CreateEditedTaskReturn(EditedSubtasks(SubtaskTexts(t.subtasks), t.subtasks), t,
                                   EditForm(t.title, t.description, t.date), t.prio, t.status,
                                   t.assignedTo.value) == Data(t)
  {
    var e := EditedSubtasks(SubtaskTexts(t.subtasks), t.subtasks);
    assert e == t.subtasks.value;
  }

  /** With the priority left as the page started it ("medium"), an unchanged edit of an
      urgent task saves it as medium. */
  lemma EditDropsPriority(t: Task)
    requires t.prio == "urgent" && t.assignedTo.Some? && t.subtasks.Some?
    ensures CreateEditedTaskReturn(EditedSubtasks(SubtaskTexts(t.subtasks), t.subtasks), t,
                                   EditForm(t.title, t.description, t.date), "medium", t.status,
                                   t.assignedTo.value) != Data(t)
  {
  }

  /** `saveEditedTask`: write the edited record to `tasks/{id}` (nothing, when the task is
      gone, after which building the cached record fails), replace the task at its index and
      store the list, then reopen the overlay. Returns true on failure. */
  method SaveEditedTask(app: App, taskId: string, form: EditForm) returns (failed: bool)
    requires app.Valid()
    modifies app`tasks, app`session, app`log, app`assignedContacts, app`assignedOwner
    ensures app.Valid()
    ensures var i := FindTask(old(app.tasks), taskId);
      && (failed <==> i == -1)
      && (i == -1 ==> app.log == old(app.log) + [Put(TaskAt(taskId), Undefined)] && app.tasks == old(app.tasks)
                      && app.session == old(app.session) && app.assignedContacts == old(app.assignedContacts)
                      && app.assignedOwner == old(app.assignedOwner))
      && (i >= 0 ==>
            var orig := old(app.tasks)[i];
            var d := CreateEditedTaskReturn(EditedSubtasks(old(app.subtaskItems), orig.subtasks), orig, form,
                                            app.currentPrio, app.currentTaskStatus, old(app.assignedContacts));
            && app.log == old(app.log) + [Put(TaskAt(taskId), TaskBody(d))]
            && app.tasks == old(app.tasks)[i := CreateTaskArray(taskId, d)]
            && app.session == old(app.session)["tasks" := TasksJson(app.tasks)]
            && app.assignedContacts == [] && app.assignedOwner == None)
  {
    var singleTask := CreateEditedTask(app, taskId, form);
    app.log := app.log + [Put(TaskAt(taskId), if singleTask.Some? then TaskBody(singleTask.value) else Undefined)];
    if singleTask.None? {
      return true;
    }
    var taskIndex := FindTask(app.tasks, taskId);
    app.tasks := app.tasks[..taskIndex] + [CreateTaskArray(taskId, singleTask.value)] + app.tasks[taskIndex + 1..];
    app.session := app.session["tasks" := TasksJson(app.tasks)];
    OpenOverlay(app);
    return false;
  }

  /** A saved edit keeps every other task and the list's order, and the saved task is found
      under its id with the edited fields. */
  lemma SavedInPlace(tasks: seq<Task>, taskId: string, d: TaskData)
    requires FindTask(tasks, taskId) >= 0
    ensures var i := FindTask(tasks, taskId); var r := tasks[i := CreateTaskArray(taskId, d)];
      && |r| == |tasks|
      && FindTask(r, taskId) == i && Data(r[i]) == d
      && forall k :: 0 <= k < |tasks| && k != i ==> r[k] == tasks[k]
  {
    var i := FindTask(tasks, taskId);
    var r := tasks[i := CreateTaskArray(taskId, d)];
    assert r[i].id == taskId;
    assert forall k :: 0 <= k < i ==> r[k].id != taskId;
  }
}
