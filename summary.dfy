/** The summary page (script/summary.js and the record template of script/miscTemplate.js):
    the tasks it loads, the urgent ones among them, the per-column counters and the greeting. */
module Summary {
  import opened Model
  import opened Board

  /** `objectTemplateNumberOfBoard`: the stored fields under the key as `id`, nothing else;
      the same record `createTaskArray` builds. */
  function ObjectTemplateNumberOfBoard(key: string, d: TaskData): (t: Task)
    ensures t.id == key && Data(t) == d
  {
    CreateTaskArray(key, d)
  }

  /** A counter in `counts`: a number, or NaN once `undefined` has been incremented. */
  datatype Count = Num(n: nat) | NotANumber

  /** The `counts` object the page starts with. */
  const ZeroCounts: map<string, Count> :=
    map["toDo" := Num(0), "inProgress" := Num(0), "awaitFeedback" := Num(0), "done" := Num(0)]

  /** `acc[status]++`: a number goes up by one; NaN stays NaN; a missing key becomes NaN. */
  function Bump(counts: map<string, Count>, status: string): (r: map<string, Count>)
    ensures r.Keys == counts.Keys + {status}
    ensures forall k :: k in counts && k != status ==> r[k] == counts[k]
  {
    counts[status := if status in counts && counts[status].Num? then Num(counts[status].n + 1) else NotANumber]
  }

  /** The `reduce` of `getTaskCounts`: one increment per task, in list order. */
  function CountAll(counts: map<string, Count>, ts: seq<Task>): (r: map<string, Count>)
    ensures counts.Keys <= r.Keys
  {
    if ts == [] then counts else Bump(CountAll(counts, ts[..|ts| - 1]), ts[|ts| - 1].status)
  }

  /** The tasks the page loads: one per non-null entry, in entry order. */
  function BoardOf(entries: seq<Entry>): seq<Task> {
    if entries == [] then []
    else
      var e := entries[|entries| - 1];
      BoardOf(entries[..|entries| - 1])
      + (if e.data.Some? then [ObjectTemplateNumberOfBoard(e.key, e.data.value)] else [])
  }

  /** The stored records of the urgent entries, in entry order. */
  function UrgentOf(entries: seq<Entry>): seq<TaskData> {
    if entries == [] then []
    else
      var e := entries[|entries| - 1];
      UrgentOf(entries[..|entries| - 1])
      + (if e.data.Some? && e.data.value.prio == "urgent" then [e.data.value] else [])
  }

  /** The stored records of the urgent tasks of a list, in list order. */
  function UrgentData(ts: seq<Task>): seq<TaskData> {
    if ts == [] then []
    else UrgentData(ts[..|ts| - 1]) + (if ts[|ts| - 1].prio == "urgent" then [Data(ts[|ts| - 1])] else [])
  }

  /** The page-wide state of script/summary.js. */
  class Page {
    var numberOfBoard: seq<Task>
    var urgentTasks: seq<TaskData>
    var counts: map<string, Count>

    /** The four column counters are always present: they start present and increments
        never remove a key. */
    ghost predicate Valid()
      reads this
    {
      forall k :: k in Columns ==> k in counts
    }

    constructor ()
      ensures numberOfBoard == [] && urgentTasks == [] && counts == ZeroCounts && Valid()
    {
      numberOfBoard := [];
      urgentTasks := [];
      counts := ZeroCounts;
    }

    /** `loadCategory`: every non-null entry is appended to `numberOfBoard`, and its stored
        record to `urgentTasks` when its priority is "urgent". */
    method LoadCategory(entries: seq<Entry>)
      modifies this`numberOfBoard, this`urgentTasks
      ensures numberOfBoard == old(numberOfBoard) + BoardOf(entries)
      ensures urgentTasks == old(urgentTasks) + UrgentOf(entries)
    {
      var i := 0;
      while i < |entries|
        invariant 0 <= i <= |entries|
        invariant numberOfBoard == old(numberOfBoard) + BoardOf(entries[..i])
        invariant urgentTasks == old(urgentTasks) + UrgentOf(entries[..i])
      {
        var e := entries[i];
        assert entries[..i + 1][..i] == entries[..i];
        if e.data.Some? {
          numberOfBoard := numberOfBoard + [ObjectTemplateNumberOfBoard(e.key, e.data.value)];
          if e.data.value.prio == "urgent" {
            urgentTasks := urgentTasks + [e.data.value];
          }
        }
        i := i + 1;
      }
      assert entries[..i] == entries;
    }

    /** `getTaskCounts`: the increments are added to the counters as they stand. */
    method GetTaskCounts()
      requires Valid()
      modifies this`counts
      ensures Valid()
      ensures counts == CountAll(old(counts), numberOfBoard)
    {
      var i := 0;
      while i < |numberOfBoard|
        invariant 0 <= i <= |numberOfBoard|
        invariant counts == CountAll(old(counts), numberOfBoard[..i])
        invariant Valid()
      {
        assert numberOfBoard[..i + 1][..i] == numberOfBoard[..i];
        counts := Bump(counts, numberOfBoard[i].status);
        i := i + 1;
      }
      assert numberOfBoard[..i] == numberOfBoard;
    }

    /** `taskAssignment`: count, then show the four counters and the number of tasks. */
    method TaskAssignment() returns (shown: Tally)
      requires Valid()
      modifies this`counts
      ensures Valid()
      ensures counts == CountAll(old(counts), numberOfBoard)
      ensures shown == Tally(counts["toDo"], counts["inProgress"], counts["awaitFeedback"], counts["done"],
                             |numberOfBoard|)
    {
      GetTaskCounts();
      assert "toDo" in Columns && "inProgress" in Columns && "awaitFeedback" in Columns && "done" in Columns;
      shown := Tally(counts["toDo"], counts["inProgress"], counts["awaitFeedback"], counts["done"],
                     |numberOfBoard|);
    }
  }

  /** The five numbers the summary shows for the board. */
  datatype Tally = Tally(toDo: Count, inProgress: Count, awaitFeedback: Count, done: Count, total: nat)

  /** `greeting`, for the hour of the day it is given. */
  function Greeting(hour: int): (g: string)
    ensures hour < 12 ==> g == "Good morning,"
    ensures 12 <= hour < 18 ==> g == "Good afternoon,"
    ensures hour >= 18 ==> g == "Good evening,"
  {
    if hour < 12 then "Good morning," else if hour < 18 then "Good afternoon," else "Good evening,"
  }

  /** What the urgent panel shows: how many urgent tasks there are, and whether a deadline is
      shown (the earliest date, which the model does not compute). */
  datatype UrgentPanel = UrgentPanel(count: nat, dated: bool)

  /** `showUrgentTask`: the number of urgent tasks and a date, or 0 and an empty date. */
  function ShowUrgentTask(urgentTasks: seq<TaskData>): (p: UrgentPanel)
    ensures p.count == |urgentTasks|
    ensures p.dated <==> urgentTasks != []
  {
    if |urgentTasks| > 0 then UrgentPanel(|urgentTasks|, true) else UrgentPanel(0, false)
  }

  /** `initSummary` on a freshly loaded page: greet, load the entries, count and show. */
  method InitSummary(hour: int, entries: seq<Entry>) returns (greeting: string, shown: Tally, urgent: UrgentPanel)
    ensures greeting == Greeting(hour)
    ensures shown.total == |BoardOf(entries)|
    ensures shown == Tally(CountAll(ZeroCounts, BoardOf(entries))["toDo"],
                           CountAll(ZeroCounts, BoardOf(entries))["inProgress"],
                           CountAll(ZeroCounts, BoardOf(entries))["awaitFeedback"],
                           CountAll(ZeroCounts, BoardOf(entries))["done"], |BoardOf(entries)|)
    ensures urgent == ShowUrgentTask(UrgentOf(entries))
  {
    var page := new Page();
    greeting := Greeting(hour);
    page.LoadCategory(entries);
    assert [] + BoardOf(entries) == BoardOf(entries);
    assert [] + UrgentOf(entries) == UrgentOf(entries);
    shown := page.TaskAssignment();
    urgent := ShowUrgentTask(page.urgentTasks);
  }

  // ---------------------------------------------------------------------------------------
  // Properties

  /** A counter present as a number ends up raised by the number of tasks with its status. */
  lemma {:induction false} CountColumn(c0: map<string, Count>, ts: seq<Task>, key: string, n: nat)
    requires key in c0 && c0[key] == Num(n)
    ensures key in CountAll(c0, ts) && CountAll(c0, ts)[key] == Num(n + |ColumnTasks(ts, key)|)
  {
    if ts != [] {
      var m := |ts| - 1;
      CountColumn(c0, ts[..m], key, n);
      assert CountAll(c0, ts) == Bump(CountAll(c0, ts[..m]), ts[m].status);
      ColumnLast(ts, key);
    }
  }

  /** Counting from zero, with every status one of the four columns, gives each column its
      number of tasks, and the four counters add up to the number of tasks. */
  lemma SummaryCounts(ts: seq<Task>)
    requires forall k :: 0 <= k < |ts| ==> ts[k].status in Columns
    ensures var c := CountAll(ZeroCounts, ts);
      && c["toDo"] == Num(|ColumnTasks(ts, "toDo")|)
      && c["inProgress"] == Num(|ColumnTasks(ts, "inProgress")|)
      && c["awaitFeedback"] == Num(|ColumnTasks(ts, "awaitFeedback")|)
      && c["done"] == Num(|ColumnTasks(ts, "done")|)
      && c["toDo"].n + c["inProgress"].n + c["awaitFeedback"].n + c["done"].n == |ts|
  {
    CountFromZero(ts, "toDo");
    CountFromZero(ts, "inProgress");
    CountFromZero(ts, "awaitFeedback");
    CountFromZero(ts, "done");
    ColumnsPartition(ts);
  }

  /** The column of a non-empty list is the column of all but its last task, then that task
      if it has the status. */
  lemma ColumnLast(ts: seq<Task>, key: string)
    requires ts != []
    ensures var m := |ts| - 1;
      |ColumnTasks(ts, key)| == |ColumnTasks(ts[..m], key)| + if ts[m].status == key then 1 else 0
  {
    var m := |ts| - 1;
    assert ts == ts[..m] + [ts[m]];
    ColumnAppend(ts[..m], [ts[m]], key);
    assert [ts[m]][1..] == [];
  }

  /** Counting from zero gives a column its number of tasks. */
  lemma CountFromZero(ts: seq<Task>, key: string)
    requires key in Columns
    ensures key in CountAll(ZeroCounts, ts) && CountAll(ZeroCounts, ts)[key] == Num(|ColumnTasks(ts, key)|)
  {
    assert key in ZeroCounts && ZeroCounts[key] == Num(0);
    CountColumn(ZeroCounts, ts, key, 0);
  }

  /** Counting the same tasks a second time into the same counters doubles every column. */
  lemma CountTwice(ts: seq<Task>, s: string)
    requires s in Columns
    ensures var c := CountAll(CountAll(ZeroCounts, ts), ts);
      s in c && c[s] == Num(2 * |ColumnTasks(ts, s)|)
  {
    CountColumn(ZeroCounts, ts, s, 0);
    CountColumn(CountAll(ZeroCounts, ts), ts, s, |ColumnTasks(ts, s)|);
  }

  function StatusesOf(ts: seq<Task>): (r: seq<string>)
    ensures |r| == |ts| && forall k :: 0 <= k < |ts| ==> r[k] == ts[k].status
  {
    seq(|ts|, k requires 0 <= k < |ts| => ts[k].status)
  }

  /** A status that is not a counter becomes one only through a task that has it, and then
      it is NaN. */
  lemma {:induction false} UnknownStatus(c0: map<string, Count>, ts: seq<Task>, s: string)
    requires s !in c0
    ensures s in CountAll(c0, ts) <==> s in StatusesOf(ts)
    ensures s in CountAll(c0, ts) ==> CountAll(c0, ts)[s] == NotANumber
  {
    if ts != [] {
      var m := |ts| - 1;
      UnknownStatus(c0, ts[..m], s);
      assert StatusesOf(ts) == StatusesOf(ts[..m]) + [ts[m].status];
    }
  }

  /** The summary lists one task per non-null entry under the entry's key: the same tasks,
      in the same order, as the rebuilt board. */
  lemma {:induction false} BoardKeys(entries: seq<Entry>, contacts: seq<Contact>)
    ensures TaskIds(BoardOf(entries)) == EntryKeys(entries) == TaskIds(Rebuilt(entries, contacts))
  {
    RebuiltKeys(entries, contacts);
    if entries != [] {
      var n := |entries| - 1;
      BoardKeys(entries[..n], contacts);
      var front := BoardOf(entries[..n]);
      var e := entries[n];
      var tail := if e.data.Some? then [ObjectTemplateNumberOfBoard(e.key, e.data.value)] else [];
      assert TaskIds(front + tail) == TaskIds(front) + TaskIds(tail);
    }
  }

  /** `urgentTasks` holds exactly the urgent tasks of `numberOfBoard`, in the same order. */
  lemma {:induction false} UrgentOfBoard(entries: seq<Entry>)
    ensures UrgentOf(entries) == UrgentData(BoardOf(entries))
  {
    if entries != [] {
      var n := |entries| - 1;
      UrgentOfBoard(entries[..n]);
      var e := entries[n];
      var front := BoardOf(entries[..n]);
      if e.data.Some? {
        var t := ObjectTemplateNumberOfBoard(e.key, e.data.value);
        assert BoardOf(entries) == front + [t];
        assert (front + [t])[..|front + [t]| - 1] == front;
      } else {
        assert BoardOf(entries) == front;
      }
    }
  }
}
