/** The board page (script/board.js): reconciling each task's assignee copies with the
    contacts cache, rebuilding the task list, the status columns, drag-and-drop moves and the
    search over rendered cards. */
module Board {
  import opened Model
  import opened Text
  import opened Script
  import opened Contacts

  // ---------------------------------------------------------------------------------------
  // The assignee reconciler

  /** The five fields the reconciler compares. */
  datatype Shown = Shown(name: string, email: string, phone: string, profilePic: string, firstLetters: string)

  function ShownOf(c: Contact): Shown {
    Shown(c.name, c.email, c.phone, c.profilePic, c.firstLetters)
  }

  /** `compareContact`: does the copy differ, under strict equality, from the cached contact
      with its id in one of the five compared fields? Only called for cached ids. */
  function CompareContact(x: Contact, contacts: seq<Contact>): (r: bool)
    requires FindContact(contacts, x.id) >= 0
    ensures r <==> ShownOf(x) != ShownOf(contacts[FindContact(contacts, x.id)])
  {
    var c := contacts[FindContact(contacts, x.id)];
    c.name != x.name || c.email != x.email || c.phone != x.phone
    || c.profilePic != x.profilePic || c.firstLetters != x.firstLetters
  }

  /** A copy is up to date when its id is cached and its five compared fields match. */
  predicate UpToDate(x: Contact, contacts: seq<Contact>) {
    FindContact(contacts, x.id) >= 0 && !CompareContact(x, contacts)
  }

  /** What one visited copy becomes: nothing (pruned), the cached record, or itself. */
  function Repair(x: Contact, contacts: seq<Contact>): seq<Contact> {
    var f := FindContact(contacts, x.id);
    if f == -1 then [] else if CompareContact(x, contacts) then [contacts[f]] else [x]
  }

  /** Does the loop act on the copy at index k (prune or replace, each with one write)? */
  predicate Changes(a: seq<Contact>, hi: int, contacts: seq<Contact>, k: nat)
    requires k < |a|
  {
    k <= hi && (FindContact(contacts, a[k].id) == -1 || CompareContact(a[k], contacts))
  }

  /** What the copy at index k contributes: indices above `hi` are never visited. */
  function Piece(a: seq<Contact>, hi: int, contacts: seq<Contact>, k: nat): seq<Contact>
    requires k < |a|
  {
    if k <= hi then Repair(a[k], contacts) else [a[k]]
  }

  /** The reconciled list built from the copies at indices j and up. */
  function Fix(a: seq<Contact>, hi: int, contacts: seq<Contact>, j: nat): seq<Contact>
    requires j <= |a|
    decreases |a| - j
  {
    if j == |a| then [] else Piece(a, hi, contacts, j) + Fix(a, hi, contacts, j + 1)
  }

  /** The writes issued while the loop handles indices j and up, in the order they are issued
      (the loop runs downward): each prune or replace writes the whole list as it then is. */
  function RepairWrites(taskId: string, a: seq<Contact>, hi: int, contacts: seq<Contact>, j: nat): seq<Request>
    requires j <= |a|
    decreases |a| - j
  {
    if j == |a| then []
    else
      RepairWrites(taskId, a, hi, contacts, j + 1)
      + (if Changes(a, hi, contacts, j) then [Put(TaskAssignees(taskId), Assignees(a[..j] + Fix(a, hi, contacts, j)))] else [])
  }

  /** How far the list is still as it was loaded while the loop stands at index i. */
  function Lo(i: int, n: nat): nat {
    if i < 0 then 0 else if i + 1 < n then i + 1 else n
  }

  /** Copies above the starting index are left as they are and cause no write. */
  lemma {:induction false} Untouched(taskId: string, a: seq<Contact>, hi: int, contacts: seq<Contact>, j: nat)
    requires j <= |a| && j > hi
    ensures Fix(a, hi, contacts, j) == a[j..]
    ensures RepairWrites(taskId, a, hi, contacts, j) == []
    decreases |a| - j
  {
    if j < |a| {
      Untouched(taskId, a, hi, contacts, j + 1);
      assert !Changes(a, hi, contacts, j);
      assert a[j..] == [a[j]] + a[j + 1..];
    }
  }

  /** What one visit of the loop does to the list, when the list is still as loaded up to
      and including index i. */
  function Visit(arr: seq<Contact>, i: nat, contacts: seq<Contact>): seq<Contact>
    requires i < |arr|
  {
    var f := FindContact(contacts, arr[i].id);
    if f == -1 then arr[..i] + arr[i + 1..]
    else if CompareContact(arr[i], contacts) then arr[i := contacts[f]]
    else arr
  }

  /** One visit at a scanned index turns the invariant at i + 1 into the invariant at i. */
  lemma Step(taskId: string, a: seq<Contact>, hi: int, contacts: seq<Contact>, i: nat, arr: seq<Contact>)
    requires i < |a| && i <= hi
    requires arr == a[..i + 1] + Fix(a, hi, contacts, i + 1)
    ensures Visit(arr, i, contacts) == a[..i] + Fix(a, hi, contacts, i)
    ensures RepairWrites(taskId, a, hi, contacts, i)
      == RepairWrites(taskId, a, hi, contacts, i + 1)
         + (if Changes(a, hi, contacts, i) then [Put(TaskAssignees(taskId), Assignees(Visit(arr, i, contacts)))] else [])
  {
    VisitFix(a, hi, contacts, i, arr);
  }

  lemma VisitFix(a: seq<Contact>, hi: int, contacts: seq<Contact>, i: nat, arr: seq<Contact>)
    requires i < |a| && i <= hi
    requires arr == a[..i + 1] + Fix(a, hi, contacts, i + 1)
    ensures Visit(arr, i, contacts) == a[..i] + Fix(a, hi, contacts, i)
  {
    var rest := Fix(a, hi, contacts, i + 1);
    TakeOneMore(a, i);
    VisitParts(a[..i], a[i], rest, contacts);
    assert Fix(a, hi, contacts, i) == Repair(a[i], contacts) + rest;
    ConcatAssoc(a[..i], Repair(a[i], contacts), rest);
  }

  /** Visiting the element between two parts replaces it by what `Repair` makes of it. */
  lemma VisitParts(pre: seq<Contact>, x: Contact, post: seq<Contact>, contacts: seq<Contact>)
    ensures Visit(pre + [x] + post, |pre|, contacts) == pre + Repair(x, contacts) + post
  {
    var s := pre + [x] + post;
    Around(s, pre, x, post);
  }

  lemma TakeOneMore<T>(s: seq<T>, i: nat)
    requires i < |s|
    ensures s[..i + 1] == s[..i] + [s[i]]
  {
  }

  /** The parts of a list cut around one element, and that element replaced. */
  lemma Around<T>(s: seq<T>, pre: seq<T>, x: T, post: seq<T>)
    requires s == pre + [x] + post
    ensures s[|pre|] == x && s[..|pre|] == pre && s[|pre| + 1..] == post
    ensures forall y :: s[|pre| := y] == pre + [y] + post
  {
    forall y ensures s[|pre| := y] == pre + [y] + post {
      assert s[|pre| := y] == pre + [y] + post;
    }
  }

  /** `checkContactChange`: walk the task's assignee copies downward from index `highestId`
      to 0; prune a copy whose id is not cached, replace one whose compared fields differ,
      and write the whole list after each such repair. Indices past the end are skipped. */
  method CheckContactChange(task: Task, highestId: int, contacts: seq<Contact>)
    returns (updated: Task, writes: seq<Request>)
    requires task.assignedTo.Some?
    ensures updated == task.(assignedTo := Some(Fix(task.assignedTo.value, highestId, contacts, 0)))
    ensures writes == RepairWrites(task.id, task.assignedTo.value, highestId, contacts, 0)
  {
    ghost var a := task.assignedTo.value;
    var arr := task.assignedTo.value;
    writes := [];
    var i := highestId;
    ScanStart(task.id, a, highestId, contacts);
    while i >= 0
      invariant i <= highestId
      invariant arr == a[..Lo(i, |a|)] + Fix(a, highestId, contacts, Lo(i, |a|))
      invariant writes == RepairWrites(task.id, a, highestId, contacts, Lo(i, |a|))
      decreases i + 1
    {
      arr, writes := VisitAt(task.id, a, highestId, contacts, i, arr, writes);
      i := i - 1;
    }
    assert Lo(i, |a|) == 0 && a[..0] == [];
    assert arr == Fix(a, highestId, contacts, 0);
    updated := task.(assignedTo := Some(arr));
  }

  /** Before the loop, the list is as loaded and nothing has been written. */
  lemma ScanStart(taskId: string, a: seq<Contact>, hi: int, contacts: seq<Contact>)
    ensures a == a[..Lo(hi, |a|)] + Fix(a, hi, contacts, Lo(hi, |a|))
    ensures RepairWrites(taskId, a, hi, contacts, Lo(hi, |a|)) == []
  {
    if hi < 0 {
      Untouched(taskId, a, hi, contacts, 0);
    } else if hi + 1 < |a| {
      Untouched(taskId, a, hi, contacts, hi + 1);
    }
    assert a[|a|..] == [];
  }

  /** One pass of the `checkContactChange` loop, at index i. */
  method VisitAt(taskId: string, ghost a: seq<Contact>, highestId: int, contacts: seq<Contact>, i: int,
                 arr0: seq<Contact>, writes0: seq<Request>)
    returns (arr: seq<Contact>, writes: seq<Request>)
    requires 0 <= i <= highestId
    requires arr0 == a[..Lo(i, |a|)] + Fix(a, highestId, contacts, Lo(i, |a|))
    requires writes0 == RepairWrites(taskId, a, highestId, contacts, Lo(i, |a|))
    ensures arr == a[..Lo(i - 1, |a|)] + Fix(a, highestId, contacts, Lo(i - 1, |a|))
    ensures writes == RepairWrites(taskId, a, highestId, contacts, Lo(i - 1, |a|))
  {
    arr, writes := arr0, writes0;
    if i < |arr| {
      Step(taskId, a, highestId, contacts, i, arr);
      var c := arr[i];
      var f := FindContact(contacts, c.id);
      if f == -1 {
        arr := arr[..i] + arr[i + 1..];
        writes := writes + [Put(TaskAssignees(taskId), Assignees(arr))];
      } else if CompareContact(c, contacts) {
        arr := arr[i := contacts[f]];
        writes := writes + [Put(TaskAssignees(taskId), Assignees(arr))];
      }
    }
  }

  // ---------------------------------------------------------------------------------------
  // What the reconciler guarantees

  /** The cached record for a cached id is itself up to date. */
  lemma CachedUpToDate(contacts: seq<Contact>, x: Contact)
    requires FindContact(contacts, x.id) >= 0
    ensures UpToDate(contacts[FindContact(contacts, x.id)], contacts)
  {
  }

  /** A visited copy ends in one of three states: removed because its id is not cached,
      replaced by the cached record with its id, or kept because it is already up to date. */
  lemma RepairStates(x: Contact, contacts: seq<Contact>)
    ensures var f := FindContact(contacts, x.id); var r := Repair(x, contacts);
      && (r == [] <==> f == -1)
      && (r == [x] <==> UpToDate(x, contacts))
      && (f >= 0 && !UpToDate(x, contacts) ==> r == [contacts[f]] && ShownOf(x) != ShownOf(contacts[f]))
  {
  }

  /** After a scan that reaches every index, every copy left is up to date. */
  lemma {:induction false} FixUpToDate(a: seq<Contact>, hi: int, contacts: seq<Contact>, j: nat)
    requires j <= |a| && hi >= |a| - 1
    ensures forall k :: 0 <= k < |Fix(a, hi, contacts, j)| ==> UpToDate(Fix(a, hi, contacts, j)[k], contacts)
    decreases |a| - j
  {
    if j < |a| {
      FixUpToDate(a, hi, contacts, j + 1);
      var x := a[j];
      if FindContact(contacts, x.id) >= 0 {
        CachedUpToDate(contacts, x);
      }
      var p := Piece(a, hi, contacts, j);
      var rest := Fix(a, hi, contacts, j + 1);
      assert Fix(a, hi, contacts, j) == p + rest;
      forall k | 0 <= k < |p + rest| ensures UpToDate((p + rest)[k], contacts) {
        if k >= |p| {
          assert (p + rest)[k] == rest[k - |p|];
        }
      }
    }
  }

  /** A list whose copies are all up to date is left as it is and causes no write, whatever
      the bound: reconciling is idempotent. */
  lemma {:induction false} FixStable(taskId: string, a: seq<Contact>, hi: int, contacts: seq<Contact>, j: nat)
    requires j <= |a|
    requires forall k :: j <= k < |a| ==> UpToDate(a[k], contacts)
    ensures Fix(a, hi, contacts, j) == a[j..]
    ensures RepairWrites(taskId, a, hi, contacts, j) == []
    decreases |a| - j
  {
    if j < |a| {
      FixStable(taskId, a, hi, contacts, j + 1);
      assert !Changes(a, hi, contacts, j);
      assert a[j..] == [a[j]] + a[j + 1..];
    }
  }

  /** Indices above the bound are never examined: the reconciled list is the reconciled
      prefix up to the bound followed by the copies above it, as they were. */
  lemma {:induction false} FixSplit(a: seq<Contact>, hi: int, contacts: seq<Contact>, j: nat, m: nat)
    requires j <= m <= |a|
    ensures Fix(a, hi, contacts, j) == Fix(a[..m], hi, contacts, j) + Fix(a, hi, contacts, m)
    decreases m - j
  {
    if j < m {
      FixSplit(a, hi, contacts, j + 1, m);
      PrefixPiece(a, hi, contacts, j, m);
      ConcatAssoc(Piece(a, hi, contacts, j), Fix(a[..m], hi, contacts, j + 1), Fix(a, hi, contacts, m));
    }
  }

  /** Below m, the prefix up to m contributes the same pieces as the whole list. */
  lemma PrefixPiece(a: seq<Contact>, hi: int, contacts: seq<Contact>, j: nat, m: nat)
    requires j < m <= |a|
    ensures Fix(a[..m], hi, contacts, j) == Piece(a, hi, contacts, j) + Fix(a[..m], hi, contacts, j + 1)
    ensures Fix(a, hi, contacts, j) == Piece(a, hi, contacts, j) + Fix(a, hi, contacts, j + 1)
  {
    assert a[..m][j] == a[j];
  }

  lemma UnderScan(a: seq<Contact>, hi: int, contacts: seq<Contact>)
    requires 0 <= hi + 1 <= |a|
    ensures Fix(a, hi, contacts, 0) == Fix(a[..hi + 1], hi, contacts, 0) + a[hi + 1..]
  {
    FixSplit(a, hi, contacts, 0, hi + 1);
    Untouched("", a, hi, contacts, hi + 1);
  }

  /** Each write carries the whole list as it then stands, so the last write holds the final
      reconciled list. */
  lemma {:induction false} LastWrite(taskId: string, a: seq<Contact>, hi: int, contacts: seq<Contact>, j: nat)
    requires j <= |a|
    requires RepairWrites(taskId, a, hi, contacts, j) != []
    ensures var w := RepairWrites(taskId, a, hi, contacts, j);
      w[|w| - 1] == Put(TaskAssignees(taskId), Assignees(a[..j] + Fix(a, hi, contacts, j)))
    decreases |a| - j
  {
    if !Changes(a, hi, contacts, j) {
      assert RepairWrites(taskId, a, hi, contacts, j) == RepairWrites(taskId, a, hi, contacts, j + 1);
      LastWrite(taskId, a, hi, contacts, j + 1);
      assert Piece(a, hi, contacts, j) == [a[j]];
      assert Fix(a, hi, contacts, j) == [a[j]] + Fix(a, hi, contacts, j + 1);
      assert a[..j + 1] == a[..j] + [a[j]];
      assert a[..j + 1] + Fix(a, hi, contacts, j + 1) == a[..j] + Fix(a, hi, contacts, j);
    }
  }

  /** The ids of the copies a full scan keeps: those of the copies whose id is cached. */
  function CachedIds(a: seq<Contact>, contacts: seq<Contact>): seq<int> {
    if a == [] then []
    else (if FindContact(contacts, a[0].id) >= 0 then [a[0].id] else []) + CachedIds(a[1..], contacts)
  }

  function Ids(a: seq<Contact>): (r: seq<int>)
    ensures |r| == |a| && forall k :: 0 <= k < |a| ==> r[k] == a[k].id
  {
    if a == [] then [] else [a[0].id] + Ids(a[1..])
  }

  /** A full scan removes exactly the copies of contacts that are no longer cached: a deleted
      contact disappears from every assignee list and every other copy keeps its place. */
  lemma {:induction false} FixIds(a: seq<Contact>, hi: int, contacts: seq<Contact>, j: nat)
    requires j <= |a| && hi >= |a| - 1
    ensures Ids(Fix(a, hi, contacts, j)) == CachedIds(a[j..], contacts)
    decreases |a| - j
  {
    if j < |a| {
      FixIds(a, hi, contacts, j + 1);
      var p := Piece(a, hi, contacts, j);
      var rest := Fix(a, hi, contacts, j + 1);
      IdsAppend(p, rest);
      PieceIds(a, hi, contacts, j);
      DropOne(a, j);
      assert CachedIds(a[j..], contacts) == Ids(p) + CachedIds(a[j + 1..], contacts);
    }
  }

  /** The id a visited copy leaves behind: its own when it is cached, none otherwise. */
  lemma PieceIds(a: seq<Contact>, hi: int, contacts: seq<Contact>, j: nat)
    requires j < |a| && j <= hi
    ensures Ids(Piece(a, hi, contacts, j)) == if FindContact(contacts, a[j].id) >= 0 then [a[j].id] else []
  {
  }

  lemma DropOne<T>(s: seq<T>, j: nat)
    requires j < |s|
    ensures s[j..] != [] && s[j..][0] == s[j] && s[j..][1..] == s[j + 1..]
  {
  }

  lemma {:induction false} IdsAppend(u: seq<Contact>, v: seq<Contact>)
    ensures Ids(u + v) == Ids(u) + Ids(v)
  {
    if u == [] {
      assert u + v == v;
    } else {
      assert (u + v)[0] == u[0];
      assert (u + v)[1..] == u[1..] + v;
      IdsAppend(u[1..], v);
    }
  }

  // ---------------------------------------------------------------------------------------
  // checkDeletedUser

  /** `reduce((maxId, user) => Math.max(maxId, user.id), -Infinity)`; None is -Infinity. */
  function HighestId(a: seq<Contact>): (r: Option<int>)
    ensures r.None? <==> a == []
    ensures r.Some? ==> forall k :: 0 <= k < |a| ==> a[k].id <= r.value
    ensures r.Some? ==> exists k :: 0 <= k < |a| && a[k].id == r.value
  {
    if a == [] then None
    else
      var last := a[|a| - 1];
      match HighestId(a[..|a| - 1])
      case None => Some(last.id)
      case Some(m) => if m < last.id then Some(last.id) else Some(m)
  }

  /** The loop start: the highest id, and for -Infinity any negative number serves. */
  function Bound(a: seq<Contact>): int {
    match HighestId(a)
    case None => -1
    case Some(m) => m
  }

  /** Ids that are distinct and non-negative make the bound reach the last index, so the
      scan visits every copy. */
  lemma DistinctBound(a: seq<Contact>)
    requires forall i, j :: 0 <= i < j < |a| ==> a[i].id != a[j].id
    requires forall k :: 0 <= k < |a| ==> a[k].id >= 0
    ensures Bound(a) >= |a| - 1
  {
    if a != [] {
      var m := Bound(a);
      var ids := set k | 0 <= k < |a| :: a[k].id;
      IdsCard(a, |a|);
      SmallSet(ids, m);
    }
  }

  /** Distinct ids make as many ids as copies. */
  lemma {:induction false} IdsCard(a: seq<Contact>, n: nat)
    requires n <= |a|
    requires forall i, j :: 0 <= i < j < |a| ==> a[i].id != a[j].id
    ensures |set k | 0 <= k < n :: a[k].id| == n
  {
    if n > 0 {
      IdsCard(a, n - 1);
      var s := set k | 0 <= k < n - 1 :: a[k].id;
      assert (set k | 0 <= k < n :: a[k].id) == s + {a[n - 1].id};
      assert a[n - 1].id !in s;
    }
  }

  /** A set of integers between 0 and m has at most m + 1 elements. */
  lemma {:induction false} SmallSet(s: set<int>, m: int)
    requires m >= -1
    requires forall x :: x in s ==> 0 <= x <= m
    ensures |s| <= m + 1
    decreases m + 1
  {
    if m == -1 {
      assert forall x :: x !in s;
      assert s == {};
    } else {
      SmallSet(s - {m}, m - 1);
    }
  }

  /** What `checkDeletedUser` makes of a task against a cache: a task without assignees is
      returned as it is; otherwise its list is scanned from the highest id. */
  function Reconciled(t: Task, contacts: seq<Contact>): Task {
    match t.assignedTo
    case None => t
    case Some(a) => t.(assignedTo := Some(Fix(a, Bound(a), contacts, 0)))
  }

  /** Reconciling touches the assignee list only, and keeps it present iff it was. */
  lemma ReconciledFields(t: Task, contacts: seq<Contact>)
    ensures var r := Reconciled(t, contacts);
      && r.(assignedTo := t.assignedTo) == t
      && (r.assignedTo.None? <==> t.assignedTo.None?)
  {
  }

  /** The writes `checkDeletedUser` issues for a task against a cache. */
  function ReconcileWrites(t: Task, contacts: seq<Contact>): seq<Request> {
    match t.assignedTo
    case None => []
    case Some(a) => RepairWrites(t.id, a, Bound(a), contacts, 0)
  }

  /** A task without assignees, or with an empty list, is left unchanged and written nowhere. */
  lemma ReconcileEmpty(t: Task, contacts: seq<Contact>)
    requires t.assignedTo.None? || t.assignedTo == Some([])
    ensures Reconciled(t, contacts) == t && ReconcileWrites(t, contacts) == []
  {
  }

  /** With distinct non-negative assignee ids every copy is reconciled, and reconciling again
      against the same cache changes nothing and writes nothing. */
  lemma ReconcileIdempotent(t: Task, contacts: seq<Contact>)
    requires t.assignedTo.Some?
    requires var a := t.assignedTo.value;
      && (forall i, j :: 0 <= i < j < |a| ==> a[i].id != a[j].id)
      && (forall k :: 0 <= k < |a| ==> a[k].id >= 0)
    ensures var r := Reconciled(t, contacts).assignedTo.value;
      forall k :: 0 <= k < |r| ==> UpToDate(r[k], contacts)
    ensures Reconciled(Reconciled(t, contacts), contacts) == Reconciled(t, contacts)
    ensures ReconcileWrites(Reconciled(t, contacts), contacts) == []
  {
    var a := t.assignedTo.value;
    DistinctBound(a);
    FixUpToDate(a, Bound(a), contacts, 0);
    var r := Fix(a, Bound(a), contacts, 0);
    FixStable(t.id, r, Bound(r), contacts, 0);
  }

  /** Once a contact is deleted from the cache, reconciling a task whose assignee ids are
      distinct and non-negative drops the copies of that contact and no other. */
  lemma ReconcileAfterDelete(t: Task, contacts: seq<Contact>, id: int)
    requires t.assignedTo.Some?
    requires var a := t.assignedTo.value;
      && (forall i, j :: 0 <= i < j < |a| ==> a[i].id != a[j].id)
      && (forall k :: 0 <= k < |a| ==> a[k].id >= 0)
    requires DistinctIds(contacts) && FindContact(contacts, id) >= 0
    requires forall k :: 0 <= k < |t.assignedTo.value| ==> FindContact(contacts, t.assignedTo.value[k].id) >= 0
    ensures var after := SpliceOne(contacts, FindContact(contacts, id));
      var r := Reconciled(t, after).assignedTo.value;
      Ids(r) == Filtered(Ids(t.assignedTo.value), id)
  {
    var a := t.assignedTo.value;
    var after := SpliceOne(contacts, FindContact(contacts, id));
    DeleteCached(contacts, id);
    DistinctBound(a);
    FixIds(a, Bound(a), after, 0);
    assert a[0..] == a;
    CachedIdsAfterDelete(a, contacts, id);
  }

  /** The ids with every occurrence of `id` removed. */
  function Filtered(ids: seq<int>, id: int): seq<int> {
    if ids == [] then [] else (if ids[0] == id then [] else [ids[0]]) + Filtered(ids[1..], id)
  }

  lemma {:induction false} CachedIdsAfterDelete(a: seq<Contact>, contacts: seq<Contact>, id: int)
    requires DistinctIds(contacts) && FindContact(contacts, id) >= 0
    requires forall k :: 0 <= k < |a| ==> FindContact(contacts, a[k].id) >= 0
    ensures CachedIds(a, SpliceOne(contacts, FindContact(contacts, id))) == Filtered(Ids(a), id)
  {
    if a != [] {
      var after := SpliceOne(contacts, FindContact(contacts, id));
      DeleteCached(contacts, id);
      var x := a[0];
      if x.id != id {
        var f := FindContact(contacts, x.id);
        assert contacts[f] in after;
      }
      CachedIdsAfterDelete(a[1..], contacts, id);
    }
  }

  /** `checkDeletedUser`: load the cache when it is empty, then reconcile the task's
      assignees and send the repair writes. */
  method CheckDeletedUser(app: App, task: Task, load: seq<Option<StoredContact>>) returns (updated: Task)
    requires app.Valid()
    modifies app`contacts, app`session, app`log
    ensures app.Valid()
    ensures app.contacts == Loaded(old(app.contacts), load)
    ensures app.session == LoadedSession(old(app.session), old(app.contacts), load)
    ensures updated == Reconciled(task, app.contacts)
    ensures app.log == old(app.log) + ReconcileWrites(task, app.contacts)
  {
    if |app.contacts| == 0 {
      GetContactsData(app, load);
    }
    updated := task;
    if task.assignedTo.Some? {
      var highestId := Bound(task.assignedTo.value);
      var writes;
      updated, writes := CheckContactChange(updated, highestId, app.contacts);
      app.log := app.log + writes;
    }
  }

  /** Distinct non-negative assignee ids. */
  predicate WellFormedAssignees(t: Task) {
    t.assignedTo.Some? ==>
      var a := t.assignedTo.value;
      && (forall i, j :: 0 <= i < j < |a| ==> a[i].id != a[j].id)
      && (forall k :: 0 <= k < |a| ==> a[k].id >= 0)
  }

  // ---------------------------------------------------------------------------------------
  // Rebuilding the task list

  /** `createTaskArray`: the stored fields under the key they are stored at. */
  function CreateTaskArray(key: string, d: TaskData): (t: Task)
    ensures t.id == key && Data(t) == d
  {
    Task(key, d.assignedTo, d.category, d.date, d.description, d.prio, d.status, d.subtasks, d.title)
  }

  /** Taking a task apart into its key and stored fields and building it again gives the
      same task. */
  lemma CreateTaskArrayRoundTrip(t: Task)
    ensures CreateTaskArray(t.id, Data(t)) == t
  {
  }

  /** Every task of a list reconciled against one cache. */
  function ReconcileAll(ts: seq<Task>, contacts: seq<Contact>): (r: seq<Task>)
    ensures |r| == |ts| && forall k :: 0 <= k < |ts| ==> r[k] == Reconciled(ts[k], contacts)
  {
    seq(|ts|, k requires 0 <= k < |ts| => Reconciled(ts[k], contacts))
  }

  /** The writes of reconciling the tasks one after the other. */
  function AllWrites(ts: seq<Task>, contacts: seq<Contact>): seq<Request> {
    if ts == [] then [] else AllWrites(ts[..|ts| - 1], contacts) + ReconcileWrites(ts[|ts| - 1], contacts)
  }

  /** Reconciling a list that is already reconciled changes nothing and writes nothing. */
  lemma {:induction false} ReconcileAllIdempotent(ts: seq<Task>, contacts: seq<Contact>)
    requires forall k :: 0 <= k < |ts| ==> WellFormedAssignees(ts[k])
    ensures ReconcileAll(ReconcileAll(ts, contacts), contacts) == ReconcileAll(ts, contacts)
    ensures AllWrites(ReconcileAll(ts, contacts), contacts) == []
  {
    var r := ReconcileAll(ts, contacts);
    forall k | 0 <= k < |ts|
      ensures Reconciled(r[k], contacts) == r[k] && ReconcileWrites(r[k], contacts) == []
    {
      if ts[k].assignedTo.Some? {
        ReconcileIdempotent(ts[k], contacts);
      }
    }
    NoWrites(r, contacts);
  }

  lemma {:induction false} NoWrites(ts: seq<Task>, contacts: seq<Contact>)
    requires forall k :: 0 <= k < |ts| ==> ReconcileWrites(ts[k], contacts) == []
    ensures AllWrites(ts, contacts) == []
  {
    if ts != [] {
      NoWrites(ts[..|ts| - 1], contacts);
    }
  }

  /** One key of the loaded `tasks` object: an entry that is null is skipped. */
  datatype Entry = Entry(key: string, data: Option<TaskData>)

  /** The list `pushDataToArray` builds: one reconciled task per non-null entry, in order. */
  function Rebuilt(entries: seq<Entry>, contacts: seq<Contact>): seq<Task> {
    if entries == [] then []
    else
      var e := entries[|entries| - 1];
      Rebuilt(entries[..|entries| - 1], contacts)
      + (if e.data.Some? then [Reconciled(CreateTaskArray(e.key, e.data.value), contacts)] else [])
  }

  /** The writes `pushDataToArray` issues. */
  function RebuiltWrites(entries: seq<Entry>, contacts: seq<Contact>): seq<Request> {
    if entries == [] then []
    else
      var e := entries[|entries| - 1];
      RebuiltWrites(entries[..|entries| - 1], contacts)
      + (if e.data.Some? then ReconcileWrites(CreateTaskArray(e.key, e.data.value), contacts) else [])
  }

  predicate HasEntry(entries: seq<Entry>) {
    exists k :: 0 <= k < |entries| && entries[k].data.Some?
  }

  /** The keys of the non-null entries, in order. */
  function EntryKeys(entries: seq<Entry>): seq<string> {
    if entries == [] then []
    else
      var e := entries[|entries| - 1];
      EntryKeys(entries[..|entries| - 1]) + (if e.data.Some? then [e.key] else [])
  }

  function TaskIds(ts: seq<Task>): (r: seq<string>)
    ensures |r| == |ts| && forall k :: 0 <= k < |ts| ==> r[k] == ts[k].id
  {
    seq(|ts|, k requires 0 <= k < |ts| => ts[k].id)
  }

  /** The key of every non-null entry is listed. */
  lemma {:induction false} EntryKeyListed(entries: seq<Entry>, k: nat)
    requires k < |entries| && entries[k].data.Some?
    ensures entries[k].key in EntryKeys(entries)
  {
    var n := |entries| - 1;
    if k < n {
      assert entries[..n][k] == entries[k];
      EntryKeyListed(entries[..n], k);
    }
  }

  /** The rebuilt list holds one task per non-null entry, in entry order, under the entry's key. */
  lemma {:induction false} RebuiltKeys(entries: seq<Entry>, contacts: seq<Contact>)
    ensures TaskIds(Rebuilt(entries, contacts)) == EntryKeys(entries)
  {
    if entries != [] {
      var n := |entries| - 1;
      RebuiltKeys(entries[..n], contacts);
      var front := Rebuilt(entries[..n], contacts);
      var e := entries[n];
      var tail := if e.data.Some? then [Reconciled(CreateTaskArray(e.key, e.data.value), contacts)] else [];
      assert TaskIds(front + tail) == TaskIds(front) + TaskIds(tail);
    }
  }

  /** One more entry extends the rebuilt list, its writes and the presence of an entry. */
  lemma RebuiltStep(entries: seq<Entry>, i: nat, c: seq<Contact>)
    requires i < |entries|
    ensures var e := entries[i];
      && Rebuilt(entries[..i + 1], c) == Rebuilt(entries[..i], c)
           + (if e.data.Some? then [Reconciled(CreateTaskArray(e.key, e.data.value), c)] else [])
      && RebuiltWrites(entries[..i + 1], c) == RebuiltWrites(entries[..i], c)
           + (if e.data.Some? then ReconcileWrites(CreateTaskArray(e.key, e.data.value), c) else [])
      && (HasEntry(entries[..i + 1]) <==> HasEntry(entries[..i]) || e.data.Some?)
  {
    assert entries[..i + 1][..i] == entries[..i];
    assert entries[..i + 1][i] == entries[i];
    if HasEntry(entries[..i + 1]) {
      var k :| 0 <= k < i + 1 && entries[..i + 1][k].data.Some?;
      if k < i {
        assert entries[..i][k] == entries[..i + 1][k];
      }
    }
    if HasEntry(entries[..i]) {
      var k :| 0 <= k < i && entries[..i][k].data.Some?;
      assert entries[..i + 1][k] == entries[..i][k];
    }
  }

  /** `pushDataToArray`: start from an empty list and push, for every non-null entry, the task
      built from it and reconciled (loading the cache the first time it is found empty). */
  method PushDataToArray(app: App, entries: seq<Entry>, load: seq<Option<StoredContact>>)
    requires app.Valid()
    modifies app`tasks, app`contacts, app`session, app`log
    ensures app.Valid()
    ensures app.contacts == if HasEntry(entries) then Loaded(old(app.contacts), load) else old(app.contacts)
    ensures app.session ==
      if HasEntry(entries) then LoadedSession(old(app.session), old(app.contacts), load) else old(app.session)
    ensures app.tasks == Rebuilt(entries, Loaded(old(app.contacts), load))
    ensures app.log == old(app.log) + RebuiltWrites(entries, Loaded(old(app.contacts), load))
  {
    ghost var c := Loaded(app.contacts, load);
    app.tasks := [];
    var i := 0;
    while i < |entries|
      invariant 0 <= i <= |entries|
      invariant app.Valid()
      invariant app.contacts == if HasEntry(entries[..i]) then c else old(app.contacts)
      invariant app.session ==
        if HasEntry(entries[..i]) then LoadedSession(old(app.session), old(app.contacts), load) else old(app.session)
      invariant app.tasks == Rebuilt(entries[..i], c)
      invariant app.log == old(app.log) + RebuiltWrites(entries[..i], c)
    {
      PushAt(app, entries, load, c, i, old(app.contacts), old(app.session), old(app.log));
      i := i + 1;
    }
    assert entries[..i] == entries;
  }

  /** One pass of the `pushDataToArray` loop: a non-null entry i is built, reconciled and
      pushed. */
  method PushAt(app: App, entries: seq<Entry>, load: seq<Option<StoredContact>>, ghost c: seq<Contact>, i: nat,
                ghost contacts0: seq<Contact>, ghost session0: map<string, Stored>, ghost log0: seq<Request>)
    requires app.Valid() && i < |entries| && c == Loaded(contacts0, load)
    requires app.contacts == if HasEntry(entries[..i]) then c else contacts0
    requires app.session == if HasEntry(entries[..i]) then LoadedSession(session0, contacts0, load) else session0
    requires app.tasks == Rebuilt(entries[..i], c)
    requires app.log == log0 + RebuiltWrites(entries[..i], c)
    modifies app`tasks, app`contacts, app`session, app`log
    ensures app.Valid()
    ensures app.contacts == if HasEntry(entries[..i + 1]) then c else contacts0
    ensures app.session == if HasEntry(entries[..i + 1]) then LoadedSession(session0, contacts0, load) else session0
    ensures app.tasks == Rebuilt(entries[..i + 1], c)
    ensures app.log == log0 + RebuiltWrites(entries[..i + 1], c)
  {
    RebuiltStep(entries, i, c);
    LoadedTwice(contacts0, session0, load);
    var singleTask := entries[i].data;
    if singleTask.Some? {
      var task := CreateTaskArray(entries[i].key, singleTask.value);
      task := CheckDeletedUser(app, task, load);
      app.tasks := app.tasks + [task];
    }
  }

  /** The loop of `initCheckData` over a non-empty list: each task replaced by its
      reconciled self. */
  method ReconcileTasks(app: App, load: seq<Option<StoredContact>>)
    requires app.Valid() && app.tasks != []
    modifies app`tasks, app`contacts, app`session, app`log
    ensures app.Valid()
    ensures app.contacts == Loaded(old(app.contacts), load)
    ensures app.session == LoadedSession(old(app.session), old(app.contacts), load)
    ensures app.tasks == ReconcileAll(old(app.tasks), app.contacts)
    ensures app.log == old(app.log) + AllWrites(old(app.tasks), app.contacts)
  {
    ghost var ts := app.tasks;
    ghost var c := Loaded(app.contacts, load);
    var i := 0;
    while i < |app.tasks|
      invariant 0 <= i <= |app.tasks| && |app.tasks| == |ts|
      invariant app.Valid()
      invariant app.contacts == if i == 0 then old(app.contacts) else c
      invariant app.session == if i == 0 then old(app.session) else LoadedSession(old(app.session), old(app.contacts), load)
      invariant app.tasks == ReconcileAll(ts[..i], c) + ts[i..]
      invariant app.log == old(app.log) + AllWrites(ts[..i], c)
    {
      ReconcileAt(app, load, ts, c, i, old(app.contacts), old(app.session), old(app.log));
      i := i + 1;
    }
    assert ts[..i] == ts;
  }

  /** One pass of the `initCheckData` loop: task i is replaced by its reconciled self. */
  method ReconcileAt(app: App, load: seq<Option<StoredContact>>, ghost ts: seq<Task>, ghost c: seq<Contact>, i: nat,
                     ghost contacts0: seq<Contact>, ghost session0: map<string, Stored>, ghost log0: seq<Request>)
    requires app.Valid() && i < |ts| == |app.tasks| && c == Loaded(contacts0, load)
    requires app.contacts == if i == 0 then contacts0 else c
    requires app.session == if i == 0 then session0 else LoadedSession(session0, contacts0, load)
    requires app.tasks == ReconcileAll(ts[..i], c) + ts[i..]
    requires app.log == log0 + AllWrites(ts[..i], c)
    modifies app`tasks, app`contacts, app`session, app`log
    ensures app.Valid() && |app.tasks| == |ts| && app.contacts == c
    ensures app.session == LoadedSession(session0, contacts0, load)
    ensures app.tasks == ReconcileAll(ts[..i + 1], c) + ts[i + 1..]
    ensures app.log == log0 + AllWrites(ts[..i + 1], c)
  {
    ReconcileAllStep(ts, i, c);
    AllWritesStep(ts, i, c, log0);
    LoadedAgain(contacts0, session0, load, i == 0);
    var before := app.tasks;
    var t := CheckDeletedUser(app, app.tasks[i], load);
    assert app.contacts == c;
    assert app.session == LoadedSession(session0, contacts0, load);
    app.tasks := before[i := t];
  }

  /** Loading the contact cache after the first task changes nothing further. */
  lemma LoadedAgain(contacts0: seq<Contact>, session0: map<string, Stored>, load: seq<Option<StoredContact>>, first: bool)
    ensures var cc := if first then contacts0 else Loaded(contacts0, load);
      var ss := if first then session0 else LoadedSession(session0, contacts0, load);
      && Loaded(cc, load) == Loaded(contacts0, load)
      && LoadedSession(ss, cc, load) == LoadedSession(session0, contacts0, load)
  {
    LoadedTwice(contacts0, session0, load);
  }

  lemma ReconcileAllStep(ts: seq<Task>, i: nat, c: seq<Contact>)
    requires i < |ts|
    ensures (ReconcileAll(ts[..i], c) + ts[i..])[i] == ts[i]
    ensures (ReconcileAll(ts[..i], c) + ts[i..])[i := Reconciled(ts[i], c)] == ReconcileAll(ts[..i + 1], c) + ts[i + 1..]
  {
    assert ts[i..] == [ts[i]] + ts[i + 1..];
  }

  lemma AllWritesStep(ts: seq<Task>, i: nat, c: seq<Contact>, log0: seq<Request>)
    requires i < |ts|
    ensures AllWrites(ts[..i + 1], c) == AllWrites(ts[..i], c) + ReconcileWrites(ts[i], c)
    ensures log0 + AllWrites(ts[..i], c) + ReconcileWrites(ts[i], c) == log0 + AllWrites(ts[..i + 1], c)
  {
    assert ts[..i + 1][..i] == ts[..i];
  }

  /** Whether `initCheckData` reconciles at least one task, and so loads an empty cache: it
      does when tasks are cached, or when the store holds a task. */
  predicate Reconciles(tasks: seq<Task>, entries: seq<Entry>) {
    tasks != [] || HasEntry(entries)
  }

  /** The list `initCheckData` leaves: the cached tasks reconciled when there are any,
      otherwise the list rebuilt from the store. */
  function Checked(tasks: seq<Task>, c: seq<Contact>, entries: seq<Entry>): seq<Task> {
    if tasks != [] then ReconcileAll(tasks, c) else Rebuilt(entries, c)
  }

  /** The writes `initCheckData` issues on the way. */
  function CheckedWrites(tasks: seq<Task>, c: seq<Contact>, entries: seq<Entry>): seq<Request> {
    if tasks != [] then AllWrites(tasks, c) else RebuiltWrites(entries, c)
  }

  /** `initCheckData`: reconcile the cached tasks in place when there are any, otherwise
      rebuild the list from the store. The contact cache is loaded (and stored in the
      session) only if it is empty and some task is reconciled. */
  method InitCheckData(app: App, entries: seq<Entry>, load: seq<Option<StoredContact>>)
    requires app.Valid()
    modifies app`tasks, app`contacts, app`session, app`log
    ensures app.Valid()
    ensures app.tasks == Checked(old(app.tasks), Loaded(old(app.contacts), load), entries)
    ensures app.log == old(app.log) + CheckedWrites(old(app.tasks), Loaded(old(app.contacts), load), entries)
    ensures app.contacts ==
      if Reconciles(old(app.tasks), entries) then Loaded(old(app.contacts), load) else old(app.contacts)
    ensures app.session ==
      if Reconciles(old(app.tasks), entries) then LoadedSession(old(app.session), old(app.contacts), load)
      else old(app.session)
  {
    if |app.tasks| > 0 {
      ReconcileTasks(app, load);
    } else {
      PushDataToArray(app, entries, load);
    }
  }

  /** `initBoard`: default the add-task column, bring the list up to date and store it. */
  method InitBoard(app: App, entries: seq<Entry>, load: seq<Option<StoredContact>>)
    requires app.Valid()
    modifies app`tasks, app`contacts, app`session, app`log
    ensures app.Valid()
    ensures app.tasks == Checked(old(app.tasks), Loaded(old(app.contacts), load), entries)
    ensures app.log == old(app.log) + CheckedWrites(old(app.tasks), Loaded(old(app.contacts), load), entries)
    ensures app.contacts ==
      if Reconciles(old(app.tasks), entries) then Loaded(old(app.contacts), load) else old(app.contacts)
    ensures app.session ==
      (if Reconciles(old(app.tasks), entries)
       then LoadedSession(InitSession(old(app.session)), old(app.contacts), load)
       else InitSession(old(app.session)))["tasks" := TasksJson(app.tasks)]
  {
    Init(app);
    InitCheckData(app, entries, load);
    app.session := app.session["tasks" := TasksJson(app.tasks)];
  }

  /** `deleteTaskSure` (script.js): delete the task remotely, keep every cached task of
      another id and store that list, then run `initCheckData` on it: the remaining tasks
      are reconciled, or, when none remain, the list is rebuilt from the store. */
  method DeleteTaskSure(app: App, id: string, entries: seq<Entry>, load: seq<Option<StoredContact>>)
    requires app.Valid()
    modifies app`tasks, app`contacts, app`session, app`log
    ensures app.Valid()
    ensures var rest := Without(old(app.tasks), id); var c := Loaded(old(app.contacts), load);
      && app.tasks == Checked(rest, c, entries)
      && app.log == old(app.log) + [Delete(TaskAt(id))] + CheckedWrites(rest, c, entries)
      && app.contacts == (if Reconciles(rest, entries) then c else old(app.contacts))
      && app.session ==
           (if Reconciles(rest, entries)
            then LoadedSession(old(app.session)["tasks" := TasksJson(rest)], old(app.contacts), load)
            else old(app.session)["tasks" := TasksJson(rest)])
  {
    app.log := app.log + [Delete(TaskAt(id))];
    app.tasks := Without(app.tasks, id);
    app.session := app.session["tasks" := TasksJson(app.tasks)];
    InitCheckData(app, entries, load);
  }

  /** Deleting the last cached task reloads the list from the store: every task still stored
      under another key comes back, also one that was never cached. */
  lemma DeleteLastReloads(tasks: seq<Task>, id: string, c: seq<Contact>, entries: seq<Entry>, k: nat)
    requires forall j :: 0 <= j < |tasks| ==> tasks[j].id == id
    requires k < |entries| && entries[k].data.Some?
    ensures entries[k].key in TaskIds(Checked(Without(tasks, id), c, entries))
  {
    assert Without(tasks, id) == [];
    RebuiltKeys(entries, c);
    EntryKeyListed(entries, k);
  }

  // ---------------------------------------------------------------------------------------
  // Columns

  /** `tasks.filter(task => task.status === status)`. */
  function ColumnTasks(tasks: seq<Task>, status: string): (r: seq<Task>)
    ensures |r| <= |tasks|
    ensures forall k :: 0 <= k < |r| ==> r[k].status == status && r[k] in tasks
    ensures forall t :: t in tasks && t.status == status ==> t in r
  {
    if tasks == [] then []
    else (if tasks[0].status == status then [tasks[0]] else []) + ColumnTasks(tasks[1..], status)
  }

  /** The filter keeps list order: it distributes over concatenation. */
  lemma {:induction false} ColumnAppend(a: seq<Task>, b: seq<Task>, status: string)
    ensures ColumnTasks(a + b, status) == ColumnTasks(a, status) + ColumnTasks(b, status)
  {
    if a == [] {
      assert a + b == b;
    } else {
      assert (a + b)[0] == a[0];
      assert (a + b)[1..] == a[1..] + b;
      ColumnAppend(a[1..], b, status);
    }
  }

  /** The four board columns with their placeholders. */
  const Columns: seq<string> := ["toDo", "inProgress", "awaitFeedback", "done"]

  /** When every status is one of the four columns, every task is shown in exactly one. */
  lemma {:induction false} ColumnsPartition(tasks: seq<Task>)
    requires forall k :: 0 <= k < |tasks| ==> tasks[k].status in Columns
    ensures |ColumnTasks(tasks, "toDo")| + |ColumnTasks(tasks, "inProgress")|
          + |ColumnTasks(tasks, "awaitFeedback")| + |ColumnTasks(tasks, "done")| == |tasks|
  {
    if tasks != [] {
      assert tasks[0].status in Columns;
      ColumnsPartition(tasks[1..]);
    }
  }

  /** What a column shows: its placeholder message, or the cards of its tasks in list order. */
  datatype ColumnView = Placeholder(message: string) | Cards(tasks: seq<Task>)

  /** `updateTaskCategories`: the placeholder iff no task has the column's status. */
  function UpdateTaskCategories(tasks: seq<Task>, status: string, noTaskMessage: string): (v: ColumnView)
    ensures v.Placeholder? <==> forall k :: 0 <= k < |tasks| ==> tasks[k].status != status
    ensures v.Placeholder? ==> v.message == noTaskMessage
    ensures v.Cards? ==> v.tasks == ColumnTasks(tasks, status) != []
    ensures v.Cards? ==> forall k :: 0 <= k < |v.tasks| ==> v.tasks[k].status == status
  {
    var col := ColumnTasks(tasks, status);
    if |col| > 0 then
      assert col[0] in tasks;
      Cards(col)
    else
      assert forall k :: 0 <= k < |tasks| ==> tasks[k].status != status by {
        forall k | 0 <= k < |tasks| ensures tasks[k].status != status {
          assert tasks[k] in tasks;
        }
      }
      Placeholder(noTaskMessage)
  }

  /** `subtasks.filter(subtask => subtask.status === "checked").length`. */
  function CheckedCount(subtasks: seq<Subtask>): (n: nat)
    ensures n <= |subtasks|
    ensures n == |subtasks| <==> forall k :: 0 <= k < |subtasks| ==> subtasks[k].status == "checked"
    ensures n == 0 <==> forall k :: 0 <= k < |subtasks| ==> subtasks[k].status != "checked"
  {
    if subtasks == [] then 0
    else
      var rest := CheckedCount(subtasks[1..]);
      assert forall k :: 1 <= k < |subtasks| ==> subtasks[k] == subtasks[1..][k - 1];
      (if subtasks[0].status == "checked" then 1 else 0) + rest
  }

  /** The progress text of a card: checked subtasks over all subtasks. */
  datatype Progress = Progress(checked: nat, total: nat)

  /** `updateSubtasksProgressBar` without the rounded percentage. */
  function SubtasksProgress(subtasks: seq<Subtask>): (p: Progress)
    ensures p.checked == CheckedCount(subtasks) && p.total == |subtasks|
    ensures p.checked <= p.total
  {
    Progress(CheckedCount(subtasks), |subtasks|)
  }

  // ---------------------------------------------------------------------------------------
  // Drag and drop

  /** `startDragging`: remember the id of the dragged card. */
  method StartDragging(app: App, id: string)
    modifies app`currentDraggedElement
    ensures app.currentDraggedElement == id
  {
    app.currentDraggedElement := id;
  }

  /** `moveTo`: when the dragged task is found and the target is not empty, set its status,
      write the task to `tasks/{id}`, put it back at its index and store the list; otherwise
      nothing changes. */
  method MoveTo(app: App, status: string)
    requires app.Valid()
    modifies app`tasks, app`session, app`log
    ensures app.Valid()
    ensures var i := FindTask(old(app.tasks), app.currentDraggedElement);
      if i >= 0 && status != "" then
        var moved := old(app.tasks)[i].(status := status);
        && app.tasks == old(app.tasks)[i := moved]
        && app.log == old(app.log) + [Put(TaskAt(moved.id), TaskRecord(moved))]
        && app.session == old(app.session)["tasks" := TasksJson(app.tasks)]
      else
        app.tasks == old(app.tasks) && app.log == old(app.log) && app.session == old(app.session)
  {
    var i := FindTask(app.tasks, app.currentDraggedElement);
    if i >= 0 && status != "" {
      var task := app.tasks[i].(status := status);
      app.tasks := app.tasks[i := task];
      app.log := app.log + [Put(TaskAt(task.id), TaskRecord(task))];
      var taskIndex := FindTask(app.tasks, task.id);
      assert taskIndex == i by {
        assert app.tasks[i].id == task.id;
        assert forall k :: 0 <= k < i ==> app.tasks[k].id != task.id;
      }
      CreateTaskArrayRoundTrip(task);
      assert app.tasks[..i] + [task] + app.tasks[i + 1..] == app.tasks;
      app.tasks := app.tasks[..taskIndex] + [CreateTaskArray(task.id, Data(task))] + app.tasks[taskIndex + 1..];
      app.session := app.session["tasks" := TasksJson(app.tasks)];
    }
  }

  /** A move takes the task out of its old column and into the new one, and leaves every
      other column as long as it was. */
  lemma {:induction false} MoveColumns(tasks: seq<Task>, i: nat, target: string, column: string)
    requires i < |tasks|
    ensures |ColumnTasks(tasks[i := tasks[i].(status := target)], column)|
      == |ColumnTasks(tasks, column)| - (if tasks[i].status == column then 1 else 0)
                                      + (if target == column then 1 else 0)
  {
    var moved := tasks[i := tasks[i].(status := target)];
    assert tasks == tasks[..i] + [tasks[i]] + tasks[i + 1..];
    assert moved == tasks[..i] + [tasks[i].(status := target)] + tasks[i + 1..];
    ColumnAppend(tasks[..i] + [tasks[i]], tasks[i + 1..], column);
    ColumnAppend(tasks[..i], [tasks[i]], column);
    ColumnAppend(tasks[..i] + [tasks[i].(status := target)], tasks[i + 1..], column);
    ColumnAppend(tasks[..i], [tasks[i].(status := target)], column);
  }

  // ---------------------------------------------------------------------------------------
  // Search

  /** The text contents of a rendered card's title and description. */
  datatype Card = Card(title: string, description: string)

  /** A card matches when its trimmed, lower-cased title or description contains the query. */
  predicate Matches(card: Card, query: string) {
    Includes(SearchText(card.title), query) || Includes(SearchText(card.description), query)
  }

  /** `textContent.trim().toLowerCase()`. */
  function SearchText(text: string): string {
    LowerStr(Trim(text))
  }

  /** `searchForTitleOrDescription`: show exactly the matching cards and report whether any
      is shown. */
  method SearchForTitleOrDescription(cards: seq<Card>, query: string) returns (visible: seq<bool>, any: bool)
    ensures |visible| == |cards|
    ensures forall k :: 0 <= k < |cards| ==> (visible[k] <==> Matches(cards[k], query))
    ensures any <==> exists k :: 0 <= k < |cards| && Matches(cards[k], query)
  {
    visible := [];
    any := false;
    var i := 0;
    while i < |cards|
      invariant 0 <= i <= |cards| && visible == VisibleCards(cards[..i], query)
      invariant any <==> true in visible
    {
      VisibleCardsStep(cards, i, query);
      visible, any := VisitCard(cards[i], query, visible, any);
      i := i + 1;
    }
    assert cards[..i] == cards;
    forall k | 0 <= k < |cards|
      ensures visible[k] <==> Matches(cards[k], query)
    {
      VisibleCardsMatch(cards, query, k);
    }
    ShownIffMatch(visible, cards, query);
  }

  /** The visibility of each card, in order: shown exactly when it matches. */
  function VisibleCards(cards: seq<Card>, query: string): (r: seq<bool>)
    ensures |r| == |cards|
  {
    if cards == [] then [] else VisibleCards(cards[..|cards| - 1], query) + [Matches(cards[|cards| - 1], query)]
  }

  lemma {:induction false} VisibleCardsMatch(cards: seq<Card>, query: string, k: nat)
    requires k < |cards|
    ensures VisibleCards(cards, query)[k] <==> Matches(cards[k], query)
  {
    if k < |cards| - 1 {
      VisibleCardsMatch(cards[..|cards| - 1], query, k);
    }
  }

  lemma VisibleCardsStep(cards: seq<Card>, i: nat, query: string)
    requires i < |cards|
    ensures VisibleCards(cards[..i + 1], query) == VisibleCards(cards[..i], query) + [Matches(cards[i], query)]
  {
    assert cards[..i + 1][..i] == cards[..i];
  }

  /** Some card is shown exactly when some card matches. */
  lemma ShownIffMatch(visible: seq<bool>, cards: seq<Card>, query: string)
    requires |visible| == |cards| && forall k :: 0 <= k < |cards| ==> (visible[k] <==> Matches(cards[k], query))
    ensures (true in visible) <==> exists k :: 0 <= k < |cards| && Matches(cards[k], query)
  {
    if true in visible {
      var k :| 0 <= k < |visible| && visible[k];
      assert Matches(cards[k], query);
    }
  }

  /** One card of the search: its visibility is appended, and a shown card is reported. */
  method VisitCard(card: Card, query: string, visible: seq<bool>, any: bool) returns (visible': seq<bool>, any': bool)
    ensures visible' == visible + [Matches(card, query)]
    ensures any' <==> any || Matches(card, query)
  {
    var isVisible := CardMatches(card, query);
    visible' := visible + [isVisible];
    any' := any;
    if isVisible {
      any' := true;
    }
  }

  /** The test for one card: its title or its description, trimmed and lower-cased,
      contains the query. */
  method CardMatches(card: Card, query: string) returns (isVisible: bool)
    ensures isVisible <==> Matches(card, query)
  {
    var title := SearchText(card.title);
    var description := SearchText(card.description);
    isVisible := Includes(title, query) || Includes(description, query);
  }

  /** The empty query matches every card. */
  lemma EmptyQueryMatches(card: Card)
    ensures Matches(card, "")
  {
    assert [] <= SearchText(card.title);
  }

  /** `searchTasks`: remember the lower-cased input and filter the cards with it; the column
      placeholders are hidden iff the input is not empty. */
  method SearchTasks(app: App, input: string, cards: seq<Card>)
    returns (visible: seq<bool>, any: bool, placeholdersHidden: bool)
    modifies app`searchInput
    ensures app.searchInput == LowerStr(input)
    ensures placeholdersHidden <==> input != ""
    ensures |visible| == |cards|
    ensures forall k :: 0 <= k < |cards| ==> (visible[k] <==> Matches(cards[k], LowerStr(input)))
    ensures any <==> exists k :: 0 <= k < |cards| && Matches(cards[k], LowerStr(input))
  {
    placeholdersHidden := input != "";
    app.searchInput := LowerStr(input);
    visible, any := SearchForTitleOrDescription(cards, app.searchInput);
  }
}
