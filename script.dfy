/** The page-wide globals every board script shares (script.js) and the operations defined
    next to them. */
module Script {
  import opened Model
  import opened Text

  /** The state one page of the application keeps between events. Remote calls are appended
      to `log`; what the page reads from the store is passed to the methods that read it. */
  class App {
    var tasks: seq<Task>
    var contacts: seq<Contact>
    var currentUser: Option<User>
    var activeTab: string
    var currentPrio: string
    /** The status `enableTaskEdit` captured for the task being edited. */
    var currentTaskStatus: string
    var assignedContacts: seq<Contact>
    /** When `assignedContacts` is the very array held in some task's `assignedTo`, the id of
        that task: pushes and splices on the one are pushes and splices on the other. */
    var assignedOwner: Option<string>
    /** The texts of the items in the rendered subtask list of the open form. */
    var subtaskItems: seq<string>
    var currentDraggedElement: string
    /** The lower-cased text of the last board search. */
    var searchInput: string
    var editId: int
    var loggedOut: bool
    var session: map<string, Stored>
    var local: map<string, Stored>
    ghost var log: seq<Request>

    /** No code path stores the key "contact" (the writers use "contacts"), so the cache the
        page starts from is always empty. */
    ghost predicate Valid()
      reads this
    {
      "contact" !in session
    }

    /** The globals as a page load sets them from browser storage. */
    constructor (local: map<string, Stored>, session: map<string, Stored>)
      ensures this.local == local && this.session == session && log == []
      ensures currentUser ==
        if "currentUser" in local && local["currentUser"].UserJson? then Some(local["currentUser"].user)
        else if "currentUser" in session && session["currentUser"].UserJson? then Some(session["currentUser"].user)
        else None
      ensures activeTab ==
        if "activeTab" in session && session["activeTab"].Str? then session["activeTab"].s else ""
      ensures contacts ==
        if "contact" in session && session["contact"].ContactsJson? then session["contact"].contacts else []
      ensures Valid() ==> contacts == []
      ensures tasks ==
        if "tasks" in session && session["tasks"].TasksJson? then session["tasks"].tasks else []
      ensures currentPrio == "medium"
      ensures assignedContacts == [] && assignedOwner == None && !loggedOut
    {
      this.local := local;
      this.session := session;
      log := [];
      currentUser :=
        if "currentUser" in local && local["currentUser"].UserJson? then Some(local["currentUser"].user)
        else if "currentUser" in session && session["currentUser"].UserJson? then Some(session["currentUser"].user)
        else None;
      activeTab := if "activeTab" in session && session["activeTab"].Str? then session["activeTab"].s else "";
      contacts := if "contact" in session && session["contact"].ContactsJson? then session["contact"].contacts else [];
      tasks := if "tasks" in session && session["tasks"].TasksJson? then session["tasks"].tasks else [];
      currentPrio := "medium";
      currentTaskStatus := "";
      assignedContacts := [];
      assignedOwner := None;
      subtaskItems := [];
      currentDraggedElement := "";
      searchInput := "";
      editId := -1;
      loggedOut := false;
    }
  }

  /** The session after `init`: "taskCategory" set to "toDo" when it is missing or empty. */
  function InitSession(session: map<string, Stored>): map<string, Stored> {
    if "taskCategory" !in session || session["taskCategory"] == Str("") then session["taskCategory" := Str("toDo")]
    else session
  }

  /** `init`: the add-task column defaults to "toDo" when none is stored (or it is empty). */
  method Init(app: App)
    requires app.Valid()
    modifies app`session
    ensures app.Valid()
    ensures app.session == InitSession(old(app.session))
    ensures "taskCategory" in app.session && app.session["taskCategory"] != Str("")
    ensures "taskCategory" in old(app.session) && old(app.session)["taskCategory"] != Str("")
            ==> app.session == old(app.session)
    ensures ("taskCategory" !in old(app.session) || old(app.session)["taskCategory"] == Str(""))
            ==> app.session == old(app.session)["taskCategory" := Str("toDo")]
  {
    if "taskCategory" !in app.session || app.session["taskCategory"] == Str("") {
      app.session := app.session["taskCategory" := Str("toDo")];
    }
  }

  /** `changeActive`: the active tab becomes the clicked link's text in lower case, and is stored. */
  method ChangeActive(app: App, linkText: string)
    requires app.Valid()
    modifies app`activeTab, app`session
    ensures app.Valid()
    ensures app.activeTab == LowerStr(linkText)
    ensures app.session == old(app.session)["activeTab" := Str(LowerStr(linkText))]
  {
    app.activeTab := LowerStr(linkText);
    app.session := app.session["activeTab" := Str(app.activeTab)];
  }

  /** `capitalize`: the first character in upper case, the rest unchanged. */
  function Capitalize(s: string): (r: string)
    ensures |r| == |s|
    ensures s != [] ==> r[0] == Upper(s[0]) && r[1..] == s[1..]
  {
    if s == [] then [] else [Upper(s[0])] + s[1..]
  }

  /** Capitalising twice is capitalising once. */
  lemma CapitalizeIdempotent(s: string)
    ensures Capitalize(Capitalize(s)) == Capitalize(s)
  {
  }

  /** `tasks.filter(task => task.id !== id)`. */
  function Without(tasks: seq<Task>, id: string): (r: seq<Task>)
    ensures |r| <= |tasks|
    ensures forall k :: 0 <= k < |r| ==> r[k].id != id && r[k] in tasks
    ensures forall t :: t in tasks && t.id != id ==> t in r
  {
    if tasks == [] then []
    else if tasks[0].id == id then Without(tasks[1..], id)
    else [tasks[0]] + Without(tasks[1..], id)
  }

  /** The filter keeps the order of what it keeps: it distributes over concatenation. */
  lemma {:induction false} WithoutAppend(a: seq<Task>, b: seq<Task>, id: string)
    ensures Without(a + b, id) == Without(a, id) + Without(b, id)
  {
    if a == [] {
      assert a + b == b;
    } else {
      assert (a + b)[0] == a[0];
      assert (a + b)[1..] == a[1..] + b;
      WithoutAppend(a[1..], b, id);
    }
  }

  /** A list without a task of that id is left exactly as it was. */
  lemma {:induction false} WithoutAbsent(tasks: seq<Task>, id: string)
    requires forall k :: 0 <= k < |tasks| ==> tasks[k].id != id
    ensures Without(tasks, id) == tasks
  {
    if tasks != [] {
      WithoutAbsent(tasks[1..], id);
    }
  }
}
