/** The records the board keeps in its two in-memory collections, `tasks` and `contacts`,
    and the requests it sends to the remote document store. */
module Model {

  datatype Option<T> = None | Some(value: T)

  /** A contact as the `contacts` cache holds it (the shape `pushToContacts` builds). */
  datatype Contact = Contact(
    id: int, name: string, email: string, phone: string,
    profilePic: string, firstLetters: string, isUser: bool)

  /** A contact as the store keeps it and as `createContact` builds it: the e-mail address
      is called `mail` and the phone number `number`. */
  datatype StoredContact = StoredContact(
    id: int, name: string, mail: string, number: string,
    profilePic: string, firstLetters: string, isUser: bool)

  datatype Subtask = Subtask(text: string, status: string)

  /** The eight fields a task carries in the store, where its id is the key it is stored under.
      `assignedTo` holds copies of contact records; it and `subtasks` may be missing. */
  datatype TaskData = TaskData(
    assignedTo: Option<seq<Contact>>, category: string, date: string, description: string,
    prio: string, status: string, subtasks: Option<seq<Subtask>>, title: string)

  /** A task in the `tasks` cache: the stored fields plus its key as `id`. */
  datatype Task = Task(
    id: string, assignedTo: Option<seq<Contact>>, category: string, date: string,
    description: string, prio: string, status: string, subtasks: Option<seq<Subtask>>,
    title: string)

  /** The logged-in user: a contact record read from the store, or the local guest
      `{ name: "Guest", firstLetters: "G" }`, which has no id. */
  datatype User = Member(record: StoredContact) | Guest

  function UserId(u: User): (r: Option<int>)
    ensures r.Some? <==> u.Member?
  {
    match u
    case Member(c) => Some(c.id)
    case Guest => None
  }

  /** A document path in the store. */
  datatype Path =
    | TaskAssignees(taskId: string)   // tasks/{id}/assignedTo
    | TaskAt(taskId: string)          // tasks/{id}
    | TaskCollection                  // tasks
    | ContactAt(contactId: int)       // contacts/{id}

  datatype Body =
    | Assignees(list: seq<Contact>)
    | TaskBody(data: TaskData)
    | TaskRecord(task: Task)
    | ContactBody(contact: StoredContact)
    | Undefined

  /** One remote call: a full replace (PUT), a create (POST) or a delete. */
  datatype Request = Put(path: Path, body: Body) | Post(path: Path, body: Body) | Delete(path: Path)

  /** A value kept in browser session or local storage. */
  datatype Stored = Str(s: string) | UserJson(user: User) | TasksJson(tasks: seq<Task>)
                  | ContactsJson(contacts: seq<Contact>)

  /** `contacts.findIndex(c => c.id === id)`: the first position holding `id`, or -1. */
  function FindContact(contacts: seq<Contact>, id: int): (r: int)
    ensures -1 <= r < |contacts|
    ensures r >= 0 ==> contacts[r].id == id
    ensures forall k :: 0 <= k < |contacts| && (r == -1 || k < r) ==> contacts[k].id != id
  {
    if contacts == [] then -1
    else if contacts[0].id == id then 0
    else
      var r := FindContact(contacts[1..], id);
      if r == -1 then -1 else r + 1
  }

  /** `tasks.findIndex(t => t.id === id)`. */
  function FindTask(tasks: seq<Task>, id: string): (r: int)
    ensures -1 <= r < |tasks|
    ensures r >= 0 ==> tasks[r].id == id
    ensures forall k :: 0 <= k < |tasks| && (r == -1 || k < r) ==> tasks[k].id != id
  {
    if tasks == [] then -1
    else if tasks[0].id == id then 0
    else
      var r := FindTask(tasks[1..], id);
      if r == -1 then -1 else r + 1
  }

  /** No two cached contacts share an id. */
  predicate DistinctIds(contacts: seq<Contact>) {
    forall i, j :: 0 <= i < j < |contacts| ==> contacts[i].id != contacts[j].id
  }

  /** In a cache without repeated ids, `findIndex` finds the one position holding the id. */
  lemma FindContactAt(contacts: seq<Contact>, p: nat)
    requires DistinctIds(contacts) && p < |contacts|
    ensures FindContact(contacts, contacts[p].id) == p
  {
  }

  function Data(t: Task): TaskData {
    TaskData(t.assignedTo, t.category, t.date, t.description, t.prio, t.status, t.subtasks, t.title)
  }
}
