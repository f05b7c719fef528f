# Join kanban board: a verified model of the client-side bookkeeping

Join is a browser kanban board. A user keeps contacts and tasks in a realtime database, and every page holds two in-memory caches of them: `tasks` and `contacts`. This project models the bookkeeping the pages do over those caches in Dafny and proves what it guarantees:

- the reconciler that brings a task's copied assignees up to date with the contact cache;
- the contact cache: the deduplicating load, the duplicate check, the two record shapes, initials, the choice of new ids, and deletion by `findIndex`/`splice`;
- the task list: the status columns, drag-and-drop moves, subtask toggles, edits, new tasks, the assignee list of the form, and deletion;
- the decisions the card templates make: truncation, badge counts, icons and checkboxes;
- the summary page's counters, its urgent panel and its greeting;
- the sign-up validators and the sign-up flow;
- the log-in page: the password-visibility counters, the account lookup, "remember me" and the guest log-in.

The modules follow the source files:

| module | file |
|---|---|
| `Text` | the JavaScript string operations the pages use: `trim`, `toLowerCase`, `split(' ')`, `includes` |
| `Model` | the shared records |
| `Script` | `script.js` |
| `Contacts` | `contacts.js` and `contactsTemplate.js` |
| `Board` | `board.js` |
| `Board2` | `board2.js` |
| `AddTask` | `addTask.js` |
| `BoardTemplate` | `boardtemplate.js` |
| `Summary` | `summary.js` and `miscTemplate.js` |
| `Register` | `register.js` |
| `Login` | `login.js` |

State that the source changes in place is modelled as classes with field-granular `modifies` clauses:

- `Script.App` holds the page globals, the session and local storage maps, and a ghost log of remote calls.
- `Summary.Page` holds the summary page's globals.
- `Register.Toggles` holds the sign-up page's two click counters.
- `Login.LoginPage` holds the log-in page's state.

Every remote write (`updateData`, `postData`, `deleteData`) is appended to the ghost `log` as a `Put`, `Post` or `Delete` of a path and a body. So "one write per repair" and "no write when rejected" are statements about the log. Every remote read is a parameter holding the snapshot the read would return: `entries` for the `tasks` object, `load` for the `contacts` object, and `users` on the log-in and sign-up pages. Each async function runs to completion.

Contact ids are integers and task ids are strings. Under that typing the source's loose `==` and strict `===` comparisons of ids coincide. Case mapping (`toLowerCase`, `toUpperCase`) is restricted to ASCII.

## Model

| member | source | states |
|---|---|---|
| Text.Trim | script/addTask.js:190 | `trim()` returns a slice of the text that neither starts nor ends with whitespace, and everything cut off on either side is whitespace |
| Text.TrimEmpty | script/addTask.js:189-191 | the trimmed input is empty exactly when every character is whitespace, so a whitespace-only subtask is ignored |
| Text.TrimIdempotent | script/addTask.js:189-190 | trimming an already trimmed text changes nothing |
| Text.LowerStrIdempotent | script/login.js:89 | lower-casing the already lower-cased address again changes nothing |
| Text.SplitCount | script/contacts.js:292 | `split(' ')` yields one more piece than the text has spaces |
| Text.SplitJoin | script/contacts.js:292 | splitting `a + " " + b` gives the pieces of `a` followed by the pieces of `b` |
| Text.IncludesAt | script/board.js:361 | `includes` holds exactly when the query occurs at some position of the text |
| Model.FindContact | script/contacts.js:277 | `findIndex` on contacts: -1 when the id is absent, otherwise the first position holding the id |
| Model.FindTask | script/board.js:297 | `findIndex` on tasks: -1 when the id is absent, otherwise the first position holding the id |
| Model.FindContactAt | script/contacts.js:277 | in a cache without repeated ids, `findIndex` of a contact's id is that contact's own position |
| Script.App.constructor | script.js:2-6 | the page globals as loaded: user from local storage, else session storage, else none; active tab or ""; tasks or []; priority "medium"; contacts read from the key "contact", which no writer uses, so the cache starts empty |
| Script.Init | script.js:13-20 | "taskCategory" becomes "toDo" when it is unset or empty, and the session is left alone otherwise |
| Script.ChangeActive | script.js:56-63 | the active tab becomes the link text lower-cased, and it is stored in the session |
| Script.Capitalize | script.js:319-321 | same length; the first character upper-cased and the rest unchanged; "" maps to "" |
| Script.CapitalizeIdempotent | script.js:319-321 | capitalising twice is the same as capitalising once |
| Script.Without | script.js:305 | the filter keeps exactly the tasks of other ids: none of that id is kept and every task of another id stays |
| Script.WithoutAppend | script.js:305 | the filter keeps list order: it distributes over concatenation |
| Script.WithoutAbsent | script.js:305 | a list without a task of that id comes back unchanged |
| Board.DeleteTaskSure | script.js:300-310 | one delete of `tasks/{id}`, then the filtered list is stored and checked against the store: the cache, the session and the further writes are those of `initCheckData` on the filtered list |
| Board.DeleteLastReloads | script.js:300-310 | deleting the last cached task empties the cache, so the check rebuilds it and every stored task is shown again |
| Contacts.Initial | script/contacts.js:292 | at most one character: the upper-cased first character, or nothing for an empty word |
| Contacts.FilterFirstLetters | script/contacts.js:291-293 | no more initials than space-separated words |
| Contacts.FirstLettersJoin | script/contacts.js:291-293 | the initials of "first last" are those of "first" followed by those of "last" |
| Contacts.FirstLettersOneWord | script/contacts.js:291-293 | a name without spaces has its first letter upper-cased as its initials |
| Contacts.Avatar | script/contacts.js:304-309 | the generated picture is never empty |
| Contacts.PushToContacts | script/contacts.js:190-200 | the cached record carries the stored id, name, mail as email, number as phone and user flag, the initials of the name, and the stored picture when there is one (a generated avatar otherwise) |
| Contacts.PushToContactsRoundTrip | script/contacts.js:190-200 | a stored record with a picture and with the initials of its name survives the trip to the cache and back unchanged |
| Contacts.StoredOfRoundTrip | script/contacts.js:190-200 | a cached record with a picture and with its name's initials survives the trip to the stored shape and back |
| Contacts.NewRecord | script/contactsTemplate.js:171-181 | id, name, mail, number and the boolean isUser are copied; the initials are those of the name; a non-empty picture is kept and an empty one replaced by a generated one |
| Contacts.NewRecordCached | script/contactsTemplate.js:171-181 | a new record reaches the cache with the e-mail, phone and initials it was given |
| Contacts.ChooseId | script/contactsTemplate.js:174 | a non-zero id is kept; a zero id becomes the last cached id plus one, and there is none when the cache is empty |
| Contacts.ChosenIdFresh | script/contactsTemplate.js:174 | while ids rise along the cache, the chosen id is not taken, and the cache still rises after it is appended |
| Contacts.ChosenIdTaken | script/contactsTemplate.js:174 | with ids 1, 2, 0 the chosen id is 1, which is already taken: the rule uses the last id, not the largest |
| Contacts.AbsorbDistinct | script/contacts.js:36-43 | loading never repeats an id |
| Contacts.AbsorbPrefix | script/contacts.js:36-43 | the load only appends: what was cached stays, in place |
| Contacts.AbsorbCovers | script/contacts.js:36-43 | every id in the load ends up cached |
| Contacts.GetContactsData | script/contacts.js:21-27 | the cache is reset, the load is absorbed, and the cache is stored under "contacts" |
| Contacts.SetContactsArray | script/contacts.js:36-43 | the cache becomes the old cache with the load absorbed: null entries and cached ids are skipped |
| Contacts.CheckAlreadyExists | script/contacts.js:157-168 | true exactly when no contact of another id has the candidate's name, or an e-mail equal to its `mail` |
| Contacts.CachedCandidateNameOnly | script/contacts.js:228-244 | a candidate built from a cached record has no `mail`, so only a name clash rejects it |
| Contacts.CreateContact | script/contactsTemplate.js:171-181 | the record is built under the chosen id; the cache is loaded only when the id is zero and the cache is empty |
| Contacts.AddContacts | script/contacts.js:136-148 | on success, one put of the record under `contacts/{id}`, the cache extended and stored; when rejected or when building fails, no write and the cache unchanged; the session changes only by the load for id 0 and by that store |
| Contacts.EditContacts | script/contacts.js:228-244 | the cached fields are overwritten before the check; only a passing check writes, and the picture is regenerated then; the session is never touched |
| Contacts.EditedPicture | script/contacts.js:232-239 | an accepted edit regenerates the picture exactly when the name changed (or there was none) |
| Contacts.SpliceOne | script/contacts.js:278 | `splice(i, 1)` removes one element of a non-empty list, and -1 removes the last |
| Contacts.DeleteCached | script/contacts.js:276-282 | deleting a cached id removes exactly that contact; the others stay, in order, with distinct ids |
| Contacts.DeleteAbsent | script/contacts.js:276-282 | deleting an id that is not cached removes the last contact |
| Contacts.DeleteContacts | script/contacts.js:276-282 | splice at `findIndex`; one delete of `contacts/{id}`; the cache is stored; the page logs out exactly when the id is the current user's |
| Contacts.OpenAddContacts | script/contacts.js:118-128 | the id offered to the add form is the last cached id plus one; nothing is offered when the cache is empty |
| Contacts.YouMarker | script/contactsTemplate.js:52 | "(you)" is shown exactly when the contact's id is the current user's id |
| Board.CompareContact | script/board.js:126-134 | true exactly when one of name, email, phone, picture or initials differs from the cached contact with that id |
| Board.CheckContactChange | script/board.js:98-111 | the downward walk from `highestId` gives the reconciled list and exactly the writes of its repairs, each carrying the whole list as it then stands |
| Board.Untouched | script/board.js:99 | indices above `highestId` are never examined and cause no write |
| Board.RepairStates | script/board.js:101-108 | a visited copy is either removed (its id is not cached), or kept (it is up to date), or replaced by the cached record it differs from |
| Board.CachedUpToDate | script/board.js:104-105 | the cached record that replaces a copy is itself up to date |
| Board.FixUpToDate | script/board.js:98-111 | after a scan that reaches every index, every copy left is up to date |
| Board.FixStable | script/board.js:102-108 | copies that are all up to date are kept and cause no write |
| Board.UnderScan | script/board.js:99 | with a bound below the last index, the copies above the bound come through as they were |
| Board.LastWrite | script/board.js:102-108 | the last write holds the final reconciled list |
| Board.FixIds | script/board.js:101-103 | a full scan keeps exactly the copies whose ids are cached, in order |
| Board.HighestId | script/board.js:76-78 | the reduce gives -Infinity for an empty list, and otherwise the largest id, which some copy has |
| Board.DistinctBound | script/board.js:76-78 | with distinct non-negative ids, the largest id is at least the last index, so every index is visited |
| Board.ReconciledFields | script/board.js:72-82 | reconciling touches the assignee list only, and the list is present exactly when it was |
| Board.ReconcileEmpty | script/board.js:75-81 | a missing or empty assignee list leaves the task unchanged and causes no write |
| Board.ReconcileIdempotent | script/board.js:72-111 | with distinct non-negative ids every copy ends up to date; reconciling again changes nothing and writes nothing |
| Board.ReconcileAfterDelete | script/board.js:98-111 | once a contact is deleted from the cache, reconciling removes exactly the copies of that contact |
| Board.CheckDeletedUser | script/board.js:72-82 | the cache is loaded when it is empty; the task is reconciled against it, and the log gains exactly its writes |
| Board.CreateTaskArray | script/board.js:156-169 | the task carries the key as its id and exactly the stored fields |
| Board.CreateTaskArrayRoundTrip | script/board.js:156-169 | splitting a task into key and fields and building it again gives the task back |
| Board.ReconcileAll | script/board.js:33-36 | every task is reconciled against the same cache, in place |
| Board.ReconcileAllIdempotent | script/board.js:29-39 | reconciling a reconciled list changes nothing and writes nothing |
| Board.RebuiltKeys | script/board.js:47-61 | the rebuilt list holds one task per non-null entry, in entry order, under the entry's key |
| Contacts.LoadedTwice | script/board.js:73 | loading the contact cache a second time changes neither the cache nor the session |
| Board.PushDataToArray | script/board.js:47-61 | the list is rebuilt from the non-null entries, each one reconciled; the cache is loaded only when there is an entry |
| Board.ReconcileTasks | script/board.js:31-36 | the loop over a non-empty cache replaces each task by its reconciled version and logs their writes |
| Board.InitCheckData | script/board.js:29-39 | reconcile in place when tasks are cached, otherwise rebuild from the store; states the new list, the writes, the contact cache and the session |
| Board.InitBoard | script/board.js:11-21 | the default column is set, the list is brought up to date and stored in the session; states the writes and the contact cache as well |
| Board.ColumnTasks | script/board.js:180-191 | a column holds exactly the tasks of its status |
| Board.ColumnAppend | script/board.js:180-191 | the column filter keeps list order |
| Board.ColumnsPartition | script/board.js:140-145 | when every status is one of the four columns, the column sizes add up to the number of tasks |
| Board.UpdateTaskCategories | script/board.js:179-193 | the placeholder is shown exactly when no task has the column's status; otherwise the column shows exactly the tasks of that status, in list order |
| Board.CheckedCount | script/board.js:203-212 | at most the number of subtasks; equal to it exactly when all are checked, and zero exactly when none is |
| Board.SubtasksProgress | script/board.js:202-213 | the progress shows the number of checked subtasks over the number of all subtasks |
| Board.StartDragging | script/board.js:247-252 | the dragged id is remembered |
| Board.MoveTo | script/board.js:288-302 | only when the task is found and the status is non-empty: only that task's status changes, at the same index, with one put of the task |
| Board.MoveColumns | script/board.js:292-299 | a move takes the task out of its old column and into the new one, and leaves every other column's size alone |
| Board.SearchForTitleOrDescription | script/board.js:353-369 | exactly the cards whose trimmed, lower-cased title or description contains the query are shown, and the result says whether any is |
| Board.EmptyQueryMatches | script/board.js:353-369 | the empty query shows every card |
| Board.SearchTasks | script/board.js:332-338 | the lower-cased input is remembered and the cards are filtered with it; the placeholders are hidden exactly while the input is non-empty |
| Board2.ToggleStatus | script/board2.js:123 | "checked" becomes "unchecked" and any other value becomes "checked" |
| Board2.ToggleTwice | script/board2.js:123 | on the two values the app writes, toggling twice gives the status back |
| Board2.FlipSubtask | script/board2.js:122-123 | only subtask k's status changes; every other field and every other subtask stays |
| Board2.ToggleProgress | script/board2.js:97-105 | a toggle moves the checked count by exactly one, down when the subtask was checked and up otherwise |
| Board2.UpdateSubtaskStatus | script/board2.js:97-110 | as written: a missing task or subtask changes nothing, and a task without a subtask list fails; otherwise the flip happens in the cache and the method fails before any write |
| Board2.ToggleNotStored | script/board2.js:122-124 | after the failing click, the cached task differs from the stored one |
| Board2.FlipChangesTask | script/board2.js:122 | flipping any subtask of any task yields a different task, so every such click leaves cache and store apart |
| Board2.UpdateSubtaskStatusCorrected | script/board2.js:97-110 | the flipped task is put to `tasks/{id}`, spliced in at its index and stored; a missing task or subtask changes nothing |
| Board2.SubtaskTexts | script/board2.js:165-167 | the edit form lists the subtask texts in order |
| Board2.OpenOverlay | script/board2.js:63-69 | the overlay starts with a fresh, unshared assignee list |
| Board2.EnableTaskEdit | script/board2.js:140-151 | as written: the assignee list becomes the task's own array (shared), and the status and subtask texts are captured, but the priority is not |
| Board2.EnableTaskEditCorrected | script/board2.js:140-151 | the same, and the task's priority becomes the form's priority |
| Board2.CarriedStatus | script/board2.js:168-171 | an item takes the status of the original subtask at its position when that exists and is non-empty, otherwise "unchecked" |
| Board2.EditedSubtasks | script/board2.js:165-173 | one subtask per listed text, in order, each with the carried status |
| Board2.CreateEditedTaskReturn | script/board2.js:185-196 | the category comes from the original task; the status is the captured one and the priority the current one; the subtasks, assignees and form fields are the given ones |
| Board2.CreateEditedTask | script/board2.js:162-175 | nothing when the id is not found; otherwise the record built from the listed items |
| Board2.UnchangedEdit | script/board2.js:162-196 | with the state captured by the corrected edit start, an edit that changes nothing gives the task's own fields back |
| Board2.EditDropsPriority | script/board2.js:190 | with the priority left at "medium", an unchanged edit of an urgent task saves a different record |
| Board2.SaveEditedTask | script/board2.js:206-216 | one put of the edited record to `tasks/{id}`; the task is replaced at its index and the list is stored; the form's list is reset; for an id that is not cached, only the `undefined` write happens |
| Board2.SavedInPlace | script/board2.js:210-211 | the saved task stays at its index and is found there; every other task is unchanged |
| AddTask.Unassign | script/addTask.js:90-91 | the first assigned copy with that id is removed, and -1 removes the last entry |
| AddTask.AssignUnassign | script/addTask.js:86-92 | checking a contact that is not assigned, then unchecking it, gives the list back |
| AddTask.UnassignFirstCopy | script/addTask.js:90-91 | unchecking a contact assigned twice drops the earlier copy |
| AddTask.ContactAssign | script/addTask.js:83-94 | checking appends the cached contact with that id; unchecking splices at `findIndex`; a task that shares the array sees the same change |
| AddTask.RenderAssignedContacts | script/addTask.js:102-114 | as written: up to six pictures, and for more than six a badge of length minus 5 |
| AddTask.RenderOvercounts | script/addTask.js:105-112 | with seven or more assignees the row stands for one more assignee than there are |
| AddTask.RenderAssignedContactsCorrected | script/addTask.js:102-114 | up to six pictures of the first assignees; a badge exactly when there are more; the row stands for exactly the assignees |
| AddTask.SetPrio | script/addTask.js:122-126 | the clicked priority becomes the current one |
| AddTask.SaveSubtask | script/addTask.js:188-200 | the trimmed input is appended, unless it is empty |
| AddTask.SavedSubtaskStable | script/addTask.js:189-191 | a listed subtask is already trimmed and starts with a visible character |
| AddTask.SaveEditedSubtask | script/addTask.js:225-229 | the item's text becomes the trimmed input |
| AddTask.DeleteSubtask | script/addTask.js:237-240 | the item is removed, and the others keep their order |
| AddTask.ClearSubtaskList | script/addTask.js:246-248 | the list becomes empty |
| AddTask.Unchecked | script/addTask.js:256-261 | one subtask per listed text, in order, all "unchecked" |
| AddTask.GetSubtasks | script/addTask.js:256-261 | the loop builds exactly the unchecked subtasks of the listed texts |
| AddTask.NewSubtasks | script/addTask.js:256-261 | a new task's subtasks give back the same texts with none checked, and an unchanged edit keeps them |
| AddTask.CreateNewtask | script/addTask.js:285-296 | the form's fields; the current priority; the status from the stored "taskCategory"; unchecked subtasks; the assignee array itself |
| AddTask.PushNewTask | script/addTask.js:272-277 | the first new log entry is a post of the new record to the task collection; on the add-task page the cache is emptied and the board tab opened, on the board the further writes, list, contacts and session are those of `initCheckData` |
| AddTask.CloseAddTaskModal | script/addTask.js:304-317 | as written: on the add-task page the cache is emptied and the board tab opened; on the board, cached tasks are only reconciled; states the whole new state in both branches |
| AddTask.NewTaskNotShown | script/addTask.js:313-315 | a key that was not cached is still not shown after the reconcile |
| AddTask.CloseAddTaskModalCorrected | script/addTask.js:304-317 | on the board the cache is emptied first, so the list, writes and session are those of a rebuild from the store |
| AddTask.StoredTaskShown | script/board.js:47-61 | every stored task, the posted one included, is in the rebuilt list |
| AddTask.FormValidation | script/addTask.js:349-362 | as written: every blank required input is flagged, and the result is always true |
| AddTask.FormValidationCorrected | script/addTask.js:349-375 | the result is true exactly when no required input is blank; every blank input is flagged |
| BoardTemplate.Shorten | script/boardtemplate.js:66-70 | a text shorter than the limit is shown whole; otherwise its first `keep` characters plus "..." |
| BoardTemplate.TitleBounds | script/boardtemplate.js:64-72 | titles under 20 characters are shown whole; longer ones are shown as their first 20 characters plus "..." (23 characters) |
| BoardTemplate.DescriptionBounds | script/boardtemplate.js:81-89 | a shown description is under 60 characters: 59 stay whole, and 60 are cut to 43 |
| BoardTemplate.CategoryOf | script/boardtemplate.js:47-55 | only exactly "User Story" gets the user-story badge |
| BoardTemplate.PrioIconOf | script/boardtemplate.js:142-152 | "urgent" and "medium" get their own icons, and every other value the low icon |
| BoardTemplate.CardBadges | script/boardtemplate.js:120-133 | at most four pictures, and a "+n" badge exactly when there are more than four; nothing for a missing list |
| BoardTemplate.CardBadgesCount | script/boardtemplate.js:120-133 | the card row stands for exactly the assignees |
| BoardTemplate.SubtasksBlock | script/boardtemplate.js:99-111 | a progress block exactly for a non-empty subtask list, starting at 0 of its length |
| BoardTemplate.NewTaskBlockExact | script/boardtemplate.js:99-111 | for a new task the initial block already is the true progress |
| BoardTemplate.ModalSubtasksOf | script/boardtemplate.js:216-233 | one row per subtask, checked exactly when the status is "checked"; "No subtasks available!" exactly for a missing list |
| BoardTemplate.ModalToggle | script/boardtemplate.js:216-233 | clicking row i toggles row i's checkbox and no other, and every row keeps its index |
| Summary.ObjectTemplateNumberOfBoard | script/miscTemplate.js:33-45 | the key becomes the id, and the eight stored fields are copied unchanged |
| Summary.Bump | script/summary.js:148-149 | one increment touches only its own key and adds the key when it is missing |
| Summary.CountAll | script/summary.js:147-150 | counting keeps every counter it started with |
| Summary.Page.constructor | script/summary.js:1-12 | empty lists, and the four counters at zero |
| Summary.Page.LoadCategory | script/summary.js:114-126 | every non-null entry is appended to the board list, and the urgent ones also to the urgent list |
| Summary.Page.GetTaskCounts | script/summary.js:146-151 | the increments are added to the counters as they stand |
| Summary.Page.TaskAssignment | script/summary.js:133-140 | the four counters and the number of loaded tasks are shown |
| Summary.Greeting | script/summary.js:54-64 | "Good morning," before 12, "Good afternoon," before 18, "Good evening," after that |
| Summary.ShowUrgentTask | script/summary.js:174-186 | the count is the number of urgent tasks; a date is shown exactly when there is one |
| Summary.InitSummary | script/summary.js:19-25 | a freshly loaded page shows the greeting, the counts from zero, the total and the urgent panel of the entries |
| Summary.CountColumn | script/summary.js:147-150 | a counter present as a number is raised by the number of tasks with its status |
| Summary.SummaryCounts | script/summary.js:146-151 | from zero, with every status a column, each counter is its column's size, and the four add up to the number of tasks |
| Summary.CountTwice | script/summary.js:146-151 | counting the same tasks a second time doubles every counter |
| Summary.UnknownStatus | script/summary.js:148-149 | an unknown status gets a counter only through a task that has it, and that counter is NaN |
| Summary.BoardKeys | script/summary.js:114-126 | the summary lists the same tasks under the same keys, in the same order, as the board |
| Summary.UrgentOfBoard | script/summary.js:116-125 | the urgent list holds exactly the urgent tasks of the board list, in order |
| Register.IsValidPassword | script/register.js:190-193 | an accepted password has at least eight characters and no whitespace |
| Register.PasswordExtend | script/register.js:190-193 | appending admitted characters to an accepted password keeps it accepted |
| Register.PasswordExamples | script/register.js:190-193 | an all-capital password with a digit and a special character passes; a password with no special character, or with a space, fails |
| Register.IsValidEmail | script/register.js:206-209 | an accepted address has at least five characters, contains "@" and does not start with it |
| Register.EmailRuleExact | script/register.js:206-209 | the regular expression accepts exactly: a non-empty local part, one "@", no whitespace, and a domain ending in "." and letters |
| Register.EmailShapeRule | script/register.js:206-209 | a match of the expression satisfies the rule |
| Register.EmailExists | script/register.js:222-237 | as written: the answer is `false` exactly when an account has the address, and `undefined` otherwise; it is never truthy |
| Register.EmailExistsCorrected | script/register.js:222-237 | true exactly when a user account has the address, compared in lower case |
| Register.ValidateForm | script/register.js:148-164 | the checks run in order (privacy, e-mail, exists, password, confirmation); the message is that of the first failure, and none when all pass |
| Register.TakenAddressPasses | script/register.js:148-164 | with the as-written lookup, a valid address and password pass the form even when the address is taken |
| Register.SubmitDataErrorHandling | script/register.js:295-301 | only "auth/email-already-in-use" gets the exists message |
| Register.SubmitData | script/register.js:102-115 | name and address are trimmed, the passwords are not; a failed check rejects; otherwise sign-up or the mapped error |
| Register.SubmitDataCorrected | script/register.js:102-115 | the same with the corrected lookup: a taken valid address is rejected with the exists message |
| Register.Toggles.constructor | script/register.js:9-10 | both counters start at 0 |
| Register.Toggles.TogglePassword | script/register.js:49-58 | the text is shown exactly when the counter was 1; the counter alternates between 0 and 1, and the other field's counter is kept |
| Register.Toggles.ResetState | script/register.js:85-89 | blur resets that field's counter to 0 |
| Register.FirstTwoClicks | script/register.js:49-58 | after a blur, the first click keeps the field hidden and the second shows it |
| Login.LoginPage.constructor | script/login.js:8-9 | the counter starts at -1, hidden |
| Login.LoginPage.Focus | script/login.js:34 | a focus adds one to the counter |
| Login.LoginPage.TogglePasswordVisibility | script/login.js:72-77 | the type follows the flag's old value, then the flag flips |
| Login.LoginPage.ChangeVisibility | script/login.js:44-55 | a click toggles only at 0 (which becomes 1) or 1 (which becomes 0); at any other value nothing changes |
| Login.LoginPage.ResetState | script/login.js:61-66 | blur makes the field hidden, the counter -1 and the flag false |
| Login.FocusAndTwoClicks | script/login.js:34-77 | the first click after focus leaves the password hidden, and the second shows it |
| Login.FirstAccount | script/login.js:119-126 | the first non-null entry that is a user account with the lower-cased address, or -1 |
| Login.LoginPage.SetCurrentUser | script/login.js:116-130 | the current user becomes that first account; with no match the lookup fails, the user is left alone and the signed-in account is marked deleted |
| Login.LoginMatchesSignUp | script/login.js:89 | log-in finds an account for the trimmed address exactly when the corrected sign-up check would call it taken |
| Login.LoginPage.HandleRememberMe | script/login.js:138-149 | the current user is always stored; with "remember me" the address, the password and the flag are stored, otherwise all three are removed |
| Login.LoginPage.EnterSummary | script/login.js:138-158 | local storage becomes exactly what `handleRememberMe` leaves, what it remembers is what the next visit fills in, and the session's active tab becomes "summary" |
| Login.Prefill | script/login.js:15-26 | the form is prefilled exactly when "rememberMe" is "true" |
| Login.RememberThenPrefill | script/login.js:15-26 | what "remember me" stores is what the next visit fills in; without it nothing is filled in |
| Login.ShowError | script/login.js:167-171 | a message containing "auth/invalid-credential" becomes the fixed hint, and any other message is shown as it is |
| Login.LoginPage.HandleGuestLogin | script/login.js:177-182 | the guest is stored in the session, local storage is cleared, and the summary tab is opened |
| Login.LoginButtonClick | script/login.js:87-100 | a service error is shown mapped; otherwise a found account becomes the user, local storage becomes exactly what `handleRememberMe` leaves, and the summary opens; no account shows the "no user found" message and marks the signed-in account deleted; on every error both storages are untouched |

## Left out

- The markup itself: DOM updates, CSS classes, modals, `includeHTML`, drag-and-drop wiring, animations and timers. The templates are modelled as view records (`AssignedRow`, `ModalSubtasks`, `ColumnView`).
- The REST and Firebase calls: they are the write log and the input snapshots. Network errors and `try`/`catch` failure paths are not modelled.
- Firebase authentication: `signInWithEmailAndPassword` and `createUserWithEmailAndPassword` are an `authError` parameter. `deleteUser` is the page's `accountDeleted` flag. Account creation (`signUp`, `createNewContact`) is the `SignedUp` outcome.
- Contacts.Avatar: the random fill colour and the SVG geometry are not modelled. The avatar is a deterministic non-empty text.
- Board.SubtasksProgress: the `Math.round` percentage is not modelled. Only the integer counts are.
- Summary.ShowUrgentTask: the date sorting and the locale date text are not modelled. The panel records only whether a date is shown.
- `setActualDate` and the clock: the greeting takes the hour as a parameter.
- Text.LowerStr: `toLowerCase` and `toUpperCase` are modelled on ASCII letters only. There is no Unicode case mapping.
- Board.SearchForTitleOrDescription: `textContent` and `innerText` whitespace normalisation is not modelled. The texts are taken as given.
- `null` entries inside a stored `assignedTo` list are not modelled: assignee copies are always records.
- AddTask.ContactAssign: checking an id that is not cached pushes `undefined` in the source. The model reports `failed` and leaves the list unchanged.
- AddTask.ContactAssign: the aliasing between the form's assignee list and a task's `assignedTo` is tracked by `assignedOwner`, the id of the task whose array it is. It is not tracked by object identity.
- AddTask.CreateNewtask: a missing session `taskCategory` is modelled as the status "".
- Register.IsValidPassword: its own contract states only consequences of the expression (length and no whitespace). The full reading is the predicate's body, pinned by PasswordExtend and PasswordExamples.
- Register.IsValidEmail: its own contract states only consequences of the expression. The exact rule is proved separately in EmailRuleExact.
- Board2.SaveEditedTask: for a task id that is not cached, the source writes `undefined` and then fails inside `createTaskArray`. The model logs the write and leaves the list, the session and the form's assignee list unchanged.
- Board2.UpdateSubtaskStatus: the progress-bar repaint is not modelled.
- `generateModalAssignedToHTML` and `generateOpenOverlayHTML` are not modelled: they only lay out fields the model already carries.
- The assignment of a `forEach` result at script/boardtemplate.js:312 is not modelled: `enableTaskEdit` overwrites it.
- The summary page's `init()`, user check and navigation are not modelled.
- `logOut`, `checkCurrentUser`, the outside-click handlers and the checkbox images are not modelled.
- Async interleaving between awaits is not modelled: every operation runs to completion. `deleteTaskSure` does not await `initCheckData`; the model runs it to the end.
- The stored `number` of a contact is copied verbatim. A "+" prefix shown in the source's documentation is not produced by the code, and the model follows the code.

## Findings

| source | as written | input that shows it | evidently intended | confidence | as-written member | corrected member |
|---|---|---|---|---|---|---|
| script/addTask.js:105-112 | six pictures are shown, then a badge of "+(length − 5)" | seven assignees: six pictures and "+2" | the badge counts the hidden assignees: "+(length − 6)" | not executed | AddTask.RenderAssignedContacts, AddTask.RenderOvercounts | AddTask.RenderAssignedContactsCorrected |
| script/board2.js:122-124 | `updateSubtaskStatusDom` reads `subtaskIndex`, which is not in its scope, right after flipping the status | any click on a subtask checkbox: the flip happens in the cache, and the error stops the write and the session store | the flipped task is written, spliced in and stored | not executed | Board2.UpdateSubtaskStatus, Board2.ToggleNotStored, Board2.FlipChangesTask | Board2.UpdateSubtaskStatusCorrected |
| script/board2.js:140-151, 190 | `enableTaskEdit` highlights the task's priority button but never sets `currentPrio`, and the edit saves `currentPrio` | opening the edit form of an "urgent" task on a fresh page and saving unchanged stores "medium" | the edit starts from the task's own priority | not executed | Board2.EnableTaskEdit, Board2.EditDropsPriority | Board2.EnableTaskEditCorrected, Board2.UnchangedEdit |
| script/addTask.js:304-316 | after a task is added from the board, a non-empty cache is only reconciled, so the posted task is not loaded | add a task on the board while other tasks are cached: its key is not among the tasks shown | the board shows the new task | not executed | AddTask.CloseAddTaskModal, AddTask.NewTaskNotShown | AddTask.CloseAddTaskModalCorrected, AddTask.StoredTaskShown |
| script/addTask.js:349-375 | `formValidation` returns its local `isValid`, which is never set to false: `formValidationTrue` assigns a global of the same name | a blank title: the input is flagged but the function returns true | false when a required input is blank | not executed | AddTask.FormValidation | AddTask.FormValidationCorrected |
| script/register.js:222-237 | `emailExists` returns `false` when it finds the address, and `undefined` otherwise | sign up with the address of an existing user account: the "exists" check passes | the answer is true when an account has the address | not executed | Register.EmailExists, Register.TakenAddressPasses | Register.EmailExistsCorrected, Register.SubmitDataCorrected |
