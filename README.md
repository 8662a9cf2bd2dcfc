# TaskHub-Todo client logic in Dafny

TaskHub-Todo is a React task manager that runs on a hosted database. This project models
the logic that lives in the browser:

- **The three task pages:** the dashboard, "My Tasks" and "Shared with me". Each covers
  building its task list from the store's rows, its search, filters and sort, its
  pagination, and its handlers. A handler sends a write to the store and then patches its
  local list.
- **The task card:** the status cycle, the button label and colours, and which controls the
  card offers.
- **The task form dialog.**
- **The statistics cards and the sidebar counters.**
- **The sharing dialog:** the e-mail check, the duplicate check and the share it inserts.
- **The notifications dialog:** read state, badges and invitation answers. The frame
  never opens this dialog (see "Where the code differs").
- **The application frame:** its own task read, the counters it derives from that read,
  and the avatar address.
- **The sidebar menu.**
- **The profile page.**

The store is not modelled. A handler receives the store's reply as a parameter: `Reply` for
a write, `ReadReply` for a read. It records the write it sends in a `sent` log, oldest
first, so its contract states both what was asked of the store and what the page shows
afterwards.

## How it is organised

Each component that holds state is a `class`. The class's fields are the component's
`useState` variables. Its methods are the component's handlers; their `modifies` clauses
name the component, and their `ensures` state its whole new state.

- **Task list storage.** The pages keep their task list in an `array<Task>`. A handler
  replaces it with a fresh array. `FilteredTasks` sorts the array in place when no filter
  is active, because there `filtered === tasks`.
- **Pure logic** is functions over datatypes, with lemmas:
  - `TaskCard`, `TaskViews`, `TaskQuery`, `TaskSort`, `StableSort`, `Paging`, `Counters`;
  - the helpers of `Sharing`, `Notifications`, `Layout`, `Gravatar`, `SidebarMenu` and
    `ProfilePage`;
  - the JavaScript string built-ins in `Text`.
- **Sort.** `Array.prototype.sort` is modelled as a stable insertion sort (`StableSort.SortBy`)
  with an in-place implementation proved against it (`StableSort.SortInPlace`). Its stability
  is proved (`StableSort.SortByStable`).
- **Nondeterminism is a parameter.** The clock and the calendar-day function are a `Clock`.
  `localeCompare` is a relation `leq`.

## Model

| member | source | states |
|---|---|---|
| TaskCard.ParsePriority | src/components/TaskCard.tsx:10-20 | the unchecked cast keeps the stored spelling, and an unrecognised value never spells a recognised one |
| TaskCard.ParseStatus | src/components/TaskCard.tsx:10-20 | the same for the status |
| TaskCard.ParseName | src/components/TaskCard.tsx:10-20 | parsing a canonical value's name returns the value |
| TaskCard.StatusNameInjective | src/components/TaskCard.tsx:10-20 | two statuses are equal exactly when their strings are, so comparing the enum is comparing the strings the source compares |
| TaskCard.NextStatus | src/components/TaskCard.tsx:61-68 | the status button always moves to a recognised status |
| TaskCard.NextStatusCycle | src/components/TaskCard.tsx:61-68 | on the recognised statuses the button walks a cycle of length exactly three |
| TaskCard.StatusLabelMeaning | src/components/TaskCard.tsx:70-77 | the label is "Start" exactly on a pending task, "Update" exactly for unrecognised statuses, "Complete" exactly when the next step completes, "Reopen" exactly on a completed task |
| TaskCard.StatusLabel | src/components/TaskCard.tsx:70-77 | no contract; `getStatusLabel` by status, whose meaning `TaskCard.StatusLabelMeaning` states |
| TaskCard.HueFallbacks | src/components/TaskCard.tsx:43-59 | both colour maps are total; unrecognised values are gray, recognised priorities never are, and a status is gray exactly when pending or unrecognised |
| TaskCard.PriorityHue | src/components/TaskCard.tsx:43-50 | no contract; `getPriorityColor` by colour family, stated by `TaskCard.HueFallbacks` |
| TaskCard.StatusHue | src/components/TaskCard.tsx:52-59 | no contract; `getStatusColor` by colour family, stated by `TaskCard.HueFallbacks` |
| TaskCard.EarlierDayIsPast | src/components/TaskCard.tsx:94-95 | with days monotone in time, a due date on an earlier day is past and not today |
| TaskCard.DueToneCases | src/components/TaskCard.tsx:196 | the due line is red exactly when overdue; a completed task due today is orange; a plain line is neither due today nor overdue |
| TaskCard.DueDateTone | src/components/TaskCard.tsx:194-196 | no contract; red when overdue, else orange when due today, else gray, stated by `TaskCard.DueToneCases` |
| TaskCard.CardControlsGate | src/components/TaskCard.tsx:94-175 | a view-only card (`canEdit === false`) has a disabled checkbox, the view-only badge and no status button, Edit, Share or Delete; an editable one has all, Share only with `onShare` and the status button only with `onStatusChange` |
| TaskCard.CardControls | src/components/TaskCard.tsx:96-175 | no contract; which controls a card renders, stated by `TaskCard.CardControlsGate` |
| TaskCard.CardCanEdit | src/components/TaskCard.tsx:96 | no contract; `task.canEdit !== false`, compared with the handlers' check by `TaskViews.CardAndHandlerDisagree` |
| TaskCard.StatusButtonCall | src/components/TaskCard.tsx:87-92 | the callback, when present, gets the task's id and a recognised next status different from the current one |
| TaskViews.FromRow | src/pages/Dashboard.tsx:94-104 | the casts of priority and status lose nothing: the stored spelling reads back from the parsed value; a present description is kept as stored |
| TaskViews.OwnedViews | src/pages/MyTasks.tsx:55-65 | one editable, unshared task per owned row, in order |
| TaskViews.SharedViews | src/pages/SharedTasks.tsx:60-76 | one shared task per share row, in order, editable exactly with the "edit" permission |
| TaskViews.MergeViewsShape | src/pages/Dashboard.tsx:81-104 | the dashboard's list has one entry per owned row then one per share row, owned entries editable and unshared, shared ones shared and editable exactly with "edit" |
| TaskViews.MergeViews | src/pages/Dashboard.tsx:81-104 | no contract; the owned views then the shared views, whose shape `TaskViews.MergeViewsShape` states |
| TaskViews.FirstIndex | src/pages/Dashboard.tsx:194 | `findIndex`: -1 exactly when no task has the id, else the first index with it |
| TaskViews.FindById | src/pages/Dashboard.tsx:194 | `find`: none exactly when no task has the id, else a listed task with that id |
| TaskViews.CardAndHandlerDisagree | src/pages/Dashboard.tsx:195 | the handlers' `!task.canEdit` and the card's `canEdit !== false` agree on present flags, and on an absent flag the card offers what the handlers refuse |
| TaskViews.MayEdit | src/pages/Dashboard.tsx:195 | no contract; the handlers' `!task.canEdit` test, compared with the card's by `TaskViews.CardAndHandlerDisagree` |
| TaskViews.Toggled | src/pages/Dashboard.tsx:193-199 | a completed task reopens as pending, any other one completes |
| TaskViews.WithStatus | src/pages/Dashboard.tsx:201-232 | the status patch changes the status of the tasks with that id and nothing else |
| TaskViews.WithStatusFacts | src/pages/Dashboard.tsx:201-232 | patching to the current status changes nothing; two patches of the same id are the last one |
| TaskViews.Edited | src/pages/Dashboard.tsx:236-267 | the edit patch gives the tasks with that id the form's five fields, keeps id and creation time, and keeps or forces the flags; other tasks are unchanged |
| TaskViews.ApplyDraft | src/pages/Dashboard.tsx:252-262 | no contract; the edited task of the `map`, whose effect on the list `TaskViews.Edited` and `TaskViews.EditedUntouched` state |
| TaskViews.EditedUntouched | src/pages/Dashboard.tsx:236-267 | saving a task's own fields with the flags kept leaves the list as it is |
| TaskViews.Removed | src/pages/Dashboard.tsx:328-355 | the delete filter removes every task with that id and keeps every copy of every other task |
| TaskViews.RemovedFacts | src/pages/Dashboard.tsx:328-355 | removing an absent id changes nothing; removing twice is removing once |
| TaskViews.Replaced | src/pages/Dashboard.tsx:362-366 | the dialog's update replaces exactly the tasks with its id |
| TaskQuery.SearchFilteredIsOneFilter | src/pages/MyTasks.tsx:80-99 | the successive search, priority and status filters select, in order, exactly the tasks passing all active predicates |
| TaskQuery.FilteredIsOneFilter | src/pages/Dashboard.tsx:130-164 | the same for the dashboard's four filters |
| TaskQuery.UntouchedIsIdentity | src/pages/Dashboard.tsx:130-164 | with no active filter the chain returns the list itself |
| TaskQuery.SearchUntouchedIsIdentity | src/pages/MyTasks.tsx:80-99 | the same on the pages without a sidebar filter |
| TaskQuery.FilteredSelects | src/pages/Dashboard.tsx:130-164 | the selection holds every copy of each passing task and none of a failing one |
| TaskQuery.MatchesSearch | src/pages/Dashboard.tsx:134-139 | no contract; the lower-cased query occurs in the lower-cased title or description; `TaskQuery.SearchIgnoresCase` states its case blindness |
| TaskQuery.SearchFiltered | src/pages/MyTasks.tsx:80-96 | no contract; the search, priority and status filters in the page's order, specified by `TaskQuery.SearchFilteredIsOneFilter` |
| TaskQuery.Filtered | src/pages/Dashboard.tsx:130-164 | no contract; those three then the sidebar filter, specified by `TaskQuery.FilteredIsOneFilter` and `TaskQuery.FilteredSelects` |
| TaskQuery.SearchIgnoresCase | src/pages/Dashboard.tsx:134-139 | a query and its lower- or upper-cased spelling select the same tasks |
| TaskSort.PriorityRank | src/pages/Dashboard.tsx:172-173 | a priority has a rank exactly when it is recognised |
| TaskSort.KeysConsistent | src/pages/Dashboard.tsx:167-181 | due date always, priority with recognised priorities, status and title with a total-preorder `localeCompare`, and unknown keys give a consistent comparator |
| TaskSort.SortTasksOrders | src/pages/Dashboard.tsx:167-181 | the sort is a permutation, and orders by due date ascending, priority high to low, or status or title in `localeCompare` order |
| TaskSort.Before | src/pages/Dashboard.tsx:167-181 | no contract; `comparator(a, b) <= 0` per sort key, a NaN rank counting as 0 and an unknown key as always 0; its order is stated by `TaskSort.SortTasksOrders` |
| TaskSort.Comparator | src/pages/Dashboard.tsx:167-181 | no contract; `TaskSort.Before` of a key as the relation handed to the sort |
| TaskSort.UnrankedPriorityIsInconsistent | src/pages/Dashboard.tsx:172-173 | with an unranked priority (NaN comparison) the priority comparator is not transitive |
| TaskSort.UnknownKeyKeepsOrder | src/pages/Dashboard.tsx:180 | an unknown sort key compares everything equal, so the sort leaves the list as it is |
| TaskSort.SortTasks | src/pages/Dashboard.tsx:167-181 | the in-place sort leaves the array holding the stable sort of its old contents |
| StableSort.SortBy | src/pages/Dashboard.tsx:167-181 | the stable sort is a permutation of its input |
| StableSort.SortBySorted | src/pages/Dashboard.tsx:167-181 | with a consistent comparator the result is sorted |
| StableSort.SortBySortedIsIdentity | src/pages/Dashboard.tsx:167-181 | an already sorted list is unchanged |
| StableSort.SortByStable | src/pages/Dashboard.tsx:167-181 | with a consistent comparator, the elements that compare equal to any one element come out in the order they went in |
| StableSort.SortByKeepsTiesIn | src/pages/Dashboard.tsx:167-181 | a class of elements any two of which may stay in front of each other keeps its order through the sort |
| StableSort.SortInPlace | src/pages/Dashboard.tsx:167-181 | the insertion sort on the array computes exactly `SortBy` of the old contents |
| StableSort.InsertInPlace | src/pages/Dashboard.tsx:167-181 | one step of the in-place sort: the first i + 1 cells become the insertion of the old `a[i]` into the old first i cells, and the cells behind are unchanged |
| Paging.TotalPages | src/pages/Dashboard.tsx:187 | `Math.ceil(n / 10)`: the least page count that covers n items |
| Paging.JsSlice | src/pages/Dashboard.tsx:188-191 | `slice` returns the elements from the normalised start on, in order; in-range bounds give exactly `s[start..end]`; an end past the list is clipped to it; a negative start counts from the end; a start at or past the end, or an end at or before the start, gives nothing |
| Paging.SliceIndex | src/pages/Dashboard.tsx:188-191 | an index in range is kept, one past the end becomes the length, a negative one counts from the end, and one before the start becomes 0 |
| Paging.PageContents | src/pages/Dashboard.tsx:188-191 | page p holds items `[(p-1)*10, p*10)` clipped to the list; past the last page it is empty, up to it non-empty, before it full |
| Paging.PageBound | src/pages/Dashboard.tsx:188-191 | any page, for any page number, holds at most ten items |
| Paging.FirstPage | src/pages/Dashboard.tsx:188-191 | page 1 is empty only for an empty list, and is the whole list when it has at most ten items |
| Paging.Page | src/pages/Dashboard.tsx:188-191 | no contract; the `slice` of page p, stated by `Paging.PageContents`, `Paging.PageBound` and `Paging.FirstPage` |
| Paging.PagesCover | src/pages/Dashboard.tsx:187-191 | the pages in order are the whole list |
| Paging.ItemOnOnePage | src/pages/Dashboard.tsx:187-191 | item i is on page `i/10 + 1` at position `i%10`, and on no other page |
| Paging.PrevNextClamp | src/pages/Dashboard.tsx:528-560 | while the page is in range, previous and next keep it in `[1, totalPages]`, move by one and stay put at the ends |
| Counters.Counts | src/pages/Dashboard.tsx:120-127 | the page's `taskCounts`, which nothing reads: "all" is the list length, and today plus completed, and overdue plus completed, never exceed it |
| Counters.TodayAndOverdueOverlap | src/pages/Dashboard.tsx:120-127 | an open task due earlier today is counted as both today and overdue |
| Counters.CountsIgnoreOrder | src/pages/Dashboard.tsx:120-127 | the counters depend only on the multiset of tasks, so the in-place sort changes none |
| Counters.ComputeStats | src/components/DashboardStats.tsx:12-20 | the total is the list length, and the due-today/completed and overdue/completed pairs and "shared with me" never exceed it |
| Counters.StatusCountsPartition | src/components/DashboardStats.tsx:12-29 | the three status counts never exceed the total and add up to it exactly when all statuses are recognised; "active" is then total minus completed |
| Counters.ActiveCount | src/components/DashboardStats.tsx:29 | no contract; pending plus in progress, related to the total by `Counters.StatusCountsPartition` |
| Counters.SharedWithMe | src/components/DashboardStats.tsx:19 | no contract; `task.isShared` is true, counted by `Counters.ComputeStats` and zero on owned lists by `Counters.NothingSharedAmongOwned` |
| Counters.StatsAgreeWithCounts | src/components/DashboardStats.tsx:12-20 | the cards count total, completed, today and overdue exactly as the page's unused `taskCounts` does |
| Counters.NothingSharedAmongOwned | src/components/DashboardStats.tsx:19 | on a list of owned entries "shared with me" is 0 |
| DashboardPage.Dashboard.constructor | src/pages/Dashboard.tsx:25-39 | an empty list, all filters "all", sort by due date, page 1, nothing open, loading |
| DashboardPage.Dashboard.FetchTasks | src/pages/Dashboard.tsx:48-117 | with both reads the list is the merged owned-then-shared list; if either fails the list stays; loading ends |
| DashboardPage.Dashboard.StatusChange | src/pages/Dashboard.tsx:201-232 | an absent or non-editable task is ignored without a write; otherwise the update is sent, and on success only that task's status changes |
| DashboardPage.Dashboard.ToggleComplete | src/pages/Dashboard.tsx:193-199 | the same guard, then a status change to the toggled status |
| DashboardPage.Dashboard.SaveTask | src/pages/Dashboard.tsx:234-313 | with a task being edited the update is sent and on success that task takes the form's fields with its flags kept; else the insert is sent and on success the new row is prepended as owned; only success clears the edited task |
| DashboardPage.Dashboard.EditTask | src/pages/Dashboard.tsx:315-326 | refused with "Access Denied" unless editable; otherwise the form opens on the task |
| DashboardPage.Dashboard.DeleteTask | src/pages/Dashboard.tsx:328-355 | the same guard as a status change; on success exactly the tasks with the id leave |
| DashboardPage.Dashboard.ShareTask | src/pages/Dashboard.tsx:357-360 | the sharing dialog opens on the task, unchecked |
| DashboardPage.Dashboard.TaskUpdate | src/pages/Dashboard.tsx:362-366 | the dialog's task replaces the one with its id |
| DashboardPage.Dashboard.NewTask | src/pages/Dashboard.tsx:368-371 | the form opens with no task being edited |
| DashboardPage.Dashboard.CloseForm | src/pages/Dashboard.tsx:567 | the form closes, the edited task stays recorded |
| DashboardPage.Dashboard.CloseSharing | src/pages/Dashboard.tsx:574 | the sharing dialog closes |
| DashboardPage.Dashboard.SetQuery | src/pages/Dashboard.tsx:392-444 | the search and selects change; the sidebar filter and the page are kept |
| DashboardPage.Dashboard.FilteredTasks | src/pages/Dashboard.tsx:130-184 | the view is the stable sort of the filtered list; with no filter it is the state array itself, reordered; otherwise a fresh array and the state is untouched; the state keeps its tasks either way |
| DashboardPage.Dashboard.PaginatedTasks | src/pages/Dashboard.tsx:187-191 | the current page of the sorted, filtered list, at most ten tasks |
| DashboardPage.Dashboard.TotalPagesNow | src/pages/Dashboard.tsx:187 | no contract; `Paging.TotalPages` of the current filtered list, the bound the page controls keep |
| DashboardPage.Dashboard.PrevPage | src/pages/Dashboard.tsx:534 | the page becomes `max(1, p - 1)`, never rising |
| DashboardPage.Dashboard.NextPage | src/pages/Dashboard.tsx:553 | the page becomes `min(totalPages, p + 1)`, staying in range |
| DashboardPage.Dashboard.GoToPage | src/pages/Dashboard.tsx:539-542 | a page link sets the page |
| MyTasksPage.MyTasks.constructor | src/pages/MyTasks.tsx:24-35 | the initial page state |
| MyTasksPage.MyTasks.FetchMyTasks | src/pages/MyTasks.tsx:45-78 | the owner's rows become editable, unshared tasks in order; a failed read keeps the list |
| MyTasksPage.MyTasks.StatusChange | src/pages/MyTasks.tsx:131-160 | no guard: the update is always sent, and on success only that id's status changes |
| MyTasksPage.MyTasks.ToggleComplete | src/pages/MyTasks.tsx:123-129 | an absent task is ignored; otherwise a status change to the toggled status |
| MyTasksPage.MyTasks.SaveTask | src/pages/MyTasks.tsx:162-239 | as on the dashboard, except an edited task is forced editable and unshared |
| MyTasksPage.MyTasks.EditTask | src/pages/MyTasks.tsx:241-244 | no guard; the form opens on the task |
| MyTasksPage.MyTasks.DeleteTask | src/pages/MyTasks.tsx:246-271 | no guard; the delete is sent, and on success exactly that id's tasks leave |
| MyTasksPage.MyTasks.ShareTask | src/pages/MyTasks.tsx:273-276 | the sharing dialog opens on the task |
| MyTasksPage.MyTasks.TaskUpdate | src/pages/MyTasks.tsx:278-282 | the dialog's task replaces the one with its id |
| MyTasksPage.MyTasks.OpenFormAsWritten | src/pages/MyTasks.tsx:312 | the buttons as written open the form and leave the edited task as it was |
| MyTasksPage.MyTasks.NewTask | src/pages/MyTasks.tsx:394 | the corrected buttons open the form with no task being edited |
| MyTasksPage.MyTasks.CloseForm | src/pages/MyTasks.tsx:473 | the form closes, the edited task stays recorded |
| MyTasksPage.MyTasks.CloseSharing | src/pages/MyTasks.tsx:480 | the sharing dialog closes |
| MyTasksPage.MyTasks.SetQuery | src/pages/MyTasks.tsx:308-352 | the search and selects change; the page is kept |
| MyTasksPage.MyTasks.FilteredTasks | src/pages/MyTasks.tsx:80-115 | the view is the stable sort of the filtered list, the state array itself when no filter is active |
| MyTasksPage.MyTasks.PaginatedTasks | src/pages/MyTasks.tsx:117-121 | the current page of the sorted, filtered list, at most ten tasks |
| MyTasksPage.MyTasks.TotalPagesNow | src/pages/MyTasks.tsx:117 | no contract; the same for this page's filtered list |
| MyTasksPage.MyTasks.PrevPage | src/pages/MyTasks.tsx:440 | `max(1, p - 1)` |
| MyTasksPage.MyTasks.NextPage | src/pages/MyTasks.tsx:459 | `min(totalPages, p + 1)`, staying in range |
| MyTasksPage.MyTasks.GoToPage | src/pages/MyTasks.tsx:448 | a page link sets the page |
| MyTasksPage.NewTaskAfterCancelledEditAsWritten | src/pages/MyTasks.tsx:312 | edit, cancel, "New Task", save sends an update of the cancelled task |
| MyTasksPage.NewTaskAfterCancelledEdit | src/pages/MyTasks.tsx:394 | with the corrected button the same steps send an insert |
| SharedTasksPage.SharedTasks.constructor | src/pages/SharedTasks.tsx:21-28 | the initial page state |
| SharedTasksPage.SharedTasks.FetchSharedTasks | src/pages/SharedTasks.tsx:38-89 | one shared entry per share row in order, editable exactly with "edit"; a failed read keeps the list |
| SharedTasksPage.SharedTasks.StatusChange | src/pages/SharedTasks.tsx:149-187 | an absent or read-only task is refused with "Access Denied" and nothing is sent; otherwise the update, and on success only that status changes |
| SharedTasksPage.SharedTasks.ToggleComplete | src/pages/SharedTasks.tsx:134-147 | the same refusal, then the toggled status |
| SharedTasksPage.SharedTasks.EditTask | src/pages/SharedTasks.tsx:189-199 | refused for read-only, otherwise nothing happens |
| SharedTasksPage.SharedTasks.DeleteTask | src/pages/SharedTasks.tsx:201-212 | refused for an absent or read-only task, otherwise nothing happens; nothing is sent |
| SharedTasksPage.SharedTasks.ShareTask | src/pages/SharedTasks.tsx:214-219 | only an informational message |
| SharedTasksPage.SharedTasks.SetQuery | src/pages/SharedTasks.tsx:245-285 | the search and selects change; the page is kept |
| SharedTasksPage.SharedTasks.FilteredTasks | src/pages/SharedTasks.tsx:91-126 | the view is the stable sort of the filtered list, the state array itself when no filter is active |
| SharedTasksPage.SharedTasks.PaginatedTasks | src/pages/SharedTasks.tsx:128-132 | the current page of the sorted, filtered list, at most ten tasks |
| SharedTasksPage.SharedTasks.TotalPagesNow | src/pages/SharedTasks.tsx:128 | no contract; the same for this page's filtered list |
| SharedTasksPage.SharedTasks.PrevPage | src/pages/SharedTasks.tsx:369 | `max(1, p - 1)` |
| SharedTasksPage.SharedTasks.NextPage | src/pages/SharedTasks.tsx:388 | `min(totalPages, p + 1)`, staying in range |
| SharedTasksPage.SharedTasks.GoToPage | src/pages/SharedTasks.tsx:377 | a page link sets the page |
| TaskFormDialog.DraftOf | src/components/TaskForm.tsx:29-43 | the form's five fields of a task, which written back give the task itself |
| TaskFormDialog.TaskForm.constructor | src/components/TaskForm.tsx:23-27 | an empty form due now, medium, pending |
| TaskFormDialog.TaskForm.Draft | src/components/TaskForm.tsx:48-54 | no contract; the `taskData` the five fields form, through which the form's methods state their new state |
| TaskFormDialog.TaskForm.Reset | src/components/TaskForm.tsx:29-43 | the edited task's fields, or the defaults |
| TaskFormDialog.TaskForm.SetTitle | src/components/TaskForm.tsx:73 | only the title changes |
| TaskFormDialog.TaskForm.SetDescription | src/components/TaskForm.tsx:84 | only the description changes |
| TaskFormDialog.TaskForm.SetPriority | src/components/TaskForm.tsx:93 | only the priority changes |
| TaskFormDialog.TaskForm.SetStatus | src/components/TaskForm.tsx:107 | only the status changes |
| TaskFormDialog.TaskForm.SelectDate | src/components/TaskForm.tsx:133 | a selected date replaces the due date, a cleared one keeps it |
| TaskFormDialog.TaskForm.Submit | src/components/TaskForm.tsx:45-58 | with a title, save with the draft then close; with none (the input is required) nothing |
| TaskFormDialog.TaskForm.Cancel | src/components/TaskForm.tsx:141 | only the close callback |
| TaskFormDialog.SubmitUntouched | src/components/TaskForm.tsx:29-58 | an untouched edit form saves the task's own fields, which leave any consistent list unchanged |
| TaskFormDialog.SubmitNew | src/components/TaskForm.tsx:29-58 | a new form cannot be submitted before a title is typed, and then saves it with the defaults |
| Sharing.ValidateEmail | src/components/TaskSharingModal.tsx:193-196 | a valid address has no white space, an `@`, and does not start with it |
| Sharing.ValidateEmailIsPattern | src/components/TaskSharingModal.tsx:193-196 | the check is exactly the pattern `^[^\s@]+@[^\s@]+\.[^\s@]+$`, both directions |
| Sharing.Normalized | src/components/TaskSharingModal.tsx:94 | normalising never lengthens the address |
| Sharing.NormalizedIdempotent | src/components/TaskSharingModal.tsx:94 | normalising is idempotent, and trimming and lower-casing commute |
| Sharing.EmailFieldStates | src/components/TaskSharingModal.tsx:202-256 | a field is blank, invalid (message, no submit) or valid (button unless loading, Enter even while loading) |
| Sharing.IsValidEmail | src/components/TaskSharingModal.tsx:202 | no contract; the trimmed field is non-empty and passes the check; `Sharing.EmailFieldStates` states the field's three states |
| Sharing.ShareButtonEnabled | src/components/TaskSharingModal.tsx:256 | no contract; not loading and a valid address, stated by `Sharing.EmailFieldStates` |
| Sharing.EnterSubmits | src/components/TaskSharingModal.tsx:233 | no contract; a valid address, the loading flag not consulted, stated by `Sharing.EmailFieldStates` |
| Sharing.ShowsEmailError | src/components/TaskSharingModal.tsx:236-237 | no contract; a non-blank invalid address, stated by `Sharing.EmailFieldStates` |
| Sharing.FindShareByEmail | src/components/TaskSharingModal.tsx:120-131 | none exactly when no listed share has the address, else a listed one with it |
| Sharing.DecideShare | src/components/TaskSharingModal.tsx:91-131 | nothing exactly without a task or with a blank field; past that, a failed lookup exactly when the read fails, "user not found" exactly when it finds no profile, "already shared" exactly when a listed share has the normalised address, and an insert of the found user exactly otherwise |
| Sharing.NoSelfShareCheck | src/components/TaskSharingModal.tsx:99-141 | a first share goes through whatever the profile's id, the sharer's own included |
| Sharing.SecondShareRefused | src/components/TaskSharingModal.tsx:120-131 | once the list holds the address, sharing it again is refused |
| Sharing.SharingModal.constructor | src/components/TaskSharingModal.tsx:37-41 | an empty field, "view", nothing loading, no shares |
| Sharing.SharingModal.SetTask | src/components/TaskSharingModal.tsx:31-41 | the page passes another task: only the prop changes, and the field, the permission and the listed shares carry over |
| Sharing.StaleSharesAfterFailedRead | src/components/TaskSharingModal.tsx:79-131 | reopened on another task whose share read fails, the dialog refuses an address listed only for the previous task as already shared |
| Sharing.SharingModal.SetEmail | src/components/TaskSharingModal.tsx:198-200 | only the field changes |
| Sharing.SharingModal.SetPermission | src/components/TaskSharingModal.tsx:243 | only the permission changes |
| Sharing.SharingModal.FetchTaskShares | src/components/TaskSharingModal.tsx:50-89 | with a task the list becomes the rows read, or stays on failure; without one nothing happens |
| Sharing.SharingModal.ShareTask | src/components/TaskSharingModal.tsx:91-166 | the step is `DecideShare`; only an insert sends a write, and its success resets field and permission; the loading flag ends false past the early return |
| Sharing.SharingModal.RemoveShare | src/components/TaskSharingModal.tsx:168-191 | the delete is sent; the outcome follows the reply |
| Notifications.UnreadCount | src/components/NotificationModal.tsx:157-161 | never above the list length, and 0 exactly when all are read |
| Notifications.BadgeAndMarkAllAgree | src/components/NotificationModal.tsx:157-168 | the badge and "Mark all read" appear together |
| Notifications.ItemButtons | src/components/NotificationModal.tsx:209-243 | no item shows both kinds of buttons; read items never show "Mark as read"; an answered invitation still shows Accept and Decline |
| Notifications.ShowsInvitationButtons | src/components/NotificationModal.tsx:209-236 | no contract; Accept and Decline on an invitation with data, stated by `Notifications.ItemButtons` |
| Notifications.ShowsMarkAsRead | src/components/NotificationModal.tsx:238-247 | no contract; "Mark as read" on an unread item that is not an invitation, stated by `Notifications.ItemButtons` |
| Notifications.MarkedRead | src/components/NotificationModal.tsx:62-77 | exactly the notifications with the id become read |
| Notifications.MarkedReadFacts | src/components/NotificationModal.tsx:62-77 | idempotent, nothing with the id stays unread, and the unread count drops by the unread copies of that id |
| Notifications.AllRead | src/components/NotificationModal.tsx:79-102 | every notification becomes read, nothing else changes |
| Notifications.AllReadFacts | src/components/NotificationModal.tsx:79-102 | nothing is unread afterwards, both controls disappear, and it is idempotent |
| Notifications.NotificationCenter.constructor | src/components/NotificationModal.tsx:29-30 | no notifications, not loading |
| Notifications.NotificationCenter.FetchNotifications | src/components/NotificationModal.tsx:38-60 | the rows read replace the list; a failed read keeps it |
| Notifications.NotificationCenter.MarkAsRead | src/components/NotificationModal.tsx:62-77 | the update is sent; on success the id's notifications become read |
| Notifications.NotificationCenter.MarkAllAsRead | src/components/NotificationModal.tsx:79-102 | one update for the user; on success every loaded notification is read |
| Notifications.NotificationCenter.AnswerInvitation | src/components/NotificationModal.tsx:104-132 | the status and the client's time are sent; only on success the notification is marked read too |
| Layout.NonNull | src/components/ResponsiveLayout.tsx:57 | `filter(Boolean)` keeps exactly the present rows, each as many times as it was joined |
| Layout.NonNullAppend | src/components/ResponsiveLayout.tsx:57 | the filter works part by part, so the kept rows stay in their order |
| Layout.NonNullSingle | src/components/ResponsiveLayout.tsx:57 | a null join is dropped and a present one kept |
| Layout.Combined | src/components/ResponsiveLayout.tsx:57-58 | the owned rows (none on failure) followed by the filtered joined rows, which hold each present row as many times as it was joined |
| Layout.RowCounts | src/components/ResponsiveLayout.tsx:65-72 | the frame's counters: "all" is the length, and the same bounds as the dashboard's |
| Layout.ViewCounts | src/components/ResponsiveLayout.tsx:65-72 | on rows and a task list built from them, the frame's and the dashboard's counters agree |
| Layout.CountersAgree | src/components/ResponsiveLayout.tsx:32-72 | on the same rows read at the same time, with both reads succeeding and no null join, the frame's counters equal the page's `taskCounts` |
| Layout.CardsAgreeWithSidebar | src/components/ResponsiveLayout.tsx:65-72 | on the same rows read at the same time, with both reads succeeding and no null join, the dashboard's cards show the total, completed, today and overdue figures the sidebar shows |
| Layout.ResponsiveLayout.constructor | src/components/ResponsiveLayout.tsx:21-23 | no tasks, both panels closed |
| Layout.ResponsiveLayout.FetchTasks | src/components/ResponsiveLayout.tsx:32-63 | the list becomes the combined rows |
| Layout.ResponsiveLayout.OpenSidebar | src/components/ResponsiveLayout.tsx:89 | the sidebar opens |
| Layout.ResponsiveLayout.CloseSidebar | src/components/ResponsiveLayout.tsx:79 | the sidebar closes |
| Layout.ResponsiveLayout.CloseNotifications | src/components/ResponsiveLayout.tsx:201 | the dialog's `onClose` closes it and changes nothing else; no method opens it, so from the constructor on it stays closed |
| Gravatar.SextetRoundTrip | src/components/ResponsiveLayout.tsx:75 | an alphabet character determines its 6-bit value |
| Gravatar.EncodeLength | src/components/ResponsiveLayout.tsx:75 | `btoa` of n units has `4 * ceil(n / 3)` characters |
| Gravatar.EncodeDecode | src/components/ResponsiveLayout.tsx:75 | decoding the encoding gives the code units back |
| Gravatar.Encode | src/components/ResponsiveLayout.tsx:75 | no contract; `btoa` on code units, stated by `Gravatar.EncodeLength` and `Gravatar.EncodeDecode` |
| Gravatar.Latin1 | src/components/ResponsiveLayout.tsx:75 | the code units exist exactly when every character is below 256 |
| Gravatar.Substitute | src/components/ResponsiveLayout.tsx:75 | the result has no `+`, `/` or `=` |
| Gravatar.UnpaddedLength | src/components/ResponsiveLayout.tsx:75 | dropping the padding leaves `ceil(4n / 3)` characters |
| Gravatar.GravatarHash | src/components/ResponsiveLayout.tsx:74-77 | a hash has no `+`, `/` or `=` |
| Gravatar.HashLength | src/components/ResponsiveLayout.tsx:74-77 | a hash exists exactly when the normalised address is Latin-1, and then has `ceil(4n / 3)` characters |
| Gravatar.GravatarUrl | src/components/Sidebar.tsx:79-82 | the address exists exactly when the hash does, with the fixed prefix and query |
| Gravatar.HashCollision | src/components/Sidebar.tsx:80 | two different addresses, "û" and "ÿ", get the same hash "_w" |
| SidebarMenu.MenuItems | src/components/Sidebar.tsx:27-56 | four entries with distinct paths "/", "/tasks", "/shared", "/profile" |
| SidebarMenu.BadgeRule | src/components/Sidebar.tsx:124 | only "My Tasks" can carry a badge, exactly when the list is not empty |
| SidebarMenu.ActiveIsUnique | src/components/Sidebar.tsx:75-77 | at most one entry is active, none for another path |
| SidebarMenu.IsActive | src/components/Sidebar.tsx:75-77 | no contract; the path is the entry's, stated by `SidebarMenu.ActiveIsUnique` |
| SidebarMenu.ShowsBadge | src/components/Sidebar.tsx:124 | no contract; a count that is present and positive, stated by `SidebarMenu.BadgeRule` |
| SidebarMenu.DisplayName | src/components/Sidebar.tsx:149 | never empty: the name, else the part before `@` with no `@` in it, else "User" |
| SidebarMenu.AvatarLetter | src/components/Sidebar.tsx:144 | exactly one character: the upper-cased first of the address, or "U" |
| ProfilePage.Firsts | src/pages/Profile.tsx:177 | at most one character per piece |
| ProfilePage.FirstsOfSplit | src/pages/Profile.tsx:177 | splitting on spaces and taking first characters picks exactly the word starts |
| ProfilePage.Initials | src/pages/Profile.tsx:176-179 | the upper-cased word starts of the name, else the upper-cased first of the address, else "U" |
| ProfilePage.InitialsBound | src/pages/Profile.tsx:177 | no more letters than characters, none for a name of spaces, and no space among them |
| ProfilePage.Username | src/pages/Profile.tsx:223 | never empty: the prefix of the address before its first `@`, or "Not available" when that is empty |
| ProfilePage.WithField | src/pages/Profile.tsx:90-95 | the named field reads back the new value and every other field reads what it read before |
| ProfilePage.Profile.constructor | src/pages/Profile.tsx:15-24 | an empty record, not editing, loading, not saving |
| ProfilePage.Profile.FetchProfile | src/pages/Profile.tsx:32-58 | each column falls back to "", the address first to the signed-in one; a failed read keeps the record; loading ends |
| ProfilePage.Profile.InputChange | src/pages/Profile.tsx:90-95 | only the named field changes |
| ProfilePage.Profile.StartEditing | src/pages/Profile.tsx:159 | editing starts, nothing else changes |
| ProfilePage.Profile.Cancel | src/pages/Profile.tsx:145-148 | editing ends and the record is read again: on a successful read all four fields take the stored values with their fallbacks, on a failed one the record is kept |
| ProfilePage.Profile.SaveProfile | src/pages/Profile.tsx:60-88 | only the name and the time are sent; editing ends only on success; saving ends false either way |
| Text.Trim | src/components/TaskSharingModal.tsx:94 | `trim()`: the input with its leading and trailing white space cut off: it occurs in the input with only white space before and after it, neither of its ends is white space, and it is empty exactly for an all-blank input |
| Text.TrimDetermined | src/components/TaskSharingModal.tsx:94 | those properties have one solution: any part of the input with white space all around it and none at its ends is the trim |
| Text.TrimIdempotent | src/components/TaskSharingModal.tsx:94 | trimming twice is trimming once |
| Text.LowerTrimCommute | src/components/ResponsiveLayout.tsx:75 | `toLowerCase().trim()` equals `trim().toLowerCase()` |
| Text.Contains | src/pages/Dashboard.tsx:136-137 | `includes` holds exactly when the needle occurs at some position |
| Text.PrefixBefore | src/components/Sidebar.tsx:149 | `split(c)[0]`: a prefix with no `c`, followed by `c` or the end |
| Text.Split | src/pages/Profile.tsx:177 | at least one piece, and no piece contains the separator |
| Text.SplitJoin | src/pages/Profile.tsx:177 | joining the pieces with the separator gives the string back |
| Text.SplitFirstPiece | src/pages/Profile.tsx:223 | the first piece of a split is the prefix before the separator |

## Left out

- **The hosted store.** Its queries, row-level security, the joins it performs and its
  error messages are not modelled. Each reply is a parameter, and each write is recorded
  as a value.
- **Async timing.**
  - The timing of `async` handlers and their interleaving is not modelled.
  - A refresh that a handler starts without awaiting it is a separate call the caller
    makes. Examples: `fetchTaskShares` after a share, and `fetchNotifications` after an
    invitation is answered.
  - The card's 500 ms completion timeout is not modelled.
  - The `useEffect` triggers are not modelled. While no user is signed in a page's loading
    flag stays true; the model simply does not call the fetch then.
- **Joins the store returns null.**
  - On the dashboard (src/pages/Dashboard.tsx:81-85) and "Shared with me"
    (src/pages/SharedTasks.tsx:60-64), a share row whose task join is null still becomes an
    object: spreading null adds nothing, so it holds only `canEdit` and `isShared`, and
    `filter(Boolean)` keeps it.
  - The row transform (src/pages/Dashboard.tsx:94-104, src/pages/SharedTasks.tsx:66-76)
    turns it into an entry with no id, no title, an empty description and invalid dates.
    Nothing fails there. A search (src/pages/Dashboard.tsx:136, src/pages/SharedTasks.tsx:96)
    or the status or title sort (src/pages/Dashboard.tsx:175-177) throws on it later.
  - Such an entry counts in the dashboard's "all". The frame's `filter(Boolean)`
    (src/components/ResponsiveLayout.tsx:57) drops the null, so the frame does not count it.
    So a null join makes the two sets of counters disagree even on the same rows read at
    the same time.
  - The pages' fetch methods take share rows whose task is present, so these title-less
    entries are not modelled. The frame's filter is modelled (`Layout.NonNull`), and
    `Layout.CountersAgree` and `Layout.CardsAgreeWithSidebar` are stated for the same rows read
    at the same time with no null join.
  - The two sets of counters also differ when they are not computed from the same read: the
    frame reads only when the signed-in user changes (src/components/ResponsiveLayout.tsx:26-30),
    so its counts are stale after a page creates, deletes or changes a task, and a failed
    dashboard read keeps the page's old list.
  - The sharing dialog reads each share with the join `profiles!shared_with_user_id`
    (src/components/TaskSharingModal.tsx:61-64) and uses `share.profiles.email` with no null
    check, in the duplicate check (src/components/TaskSharingModal.tsx:121) and in the list
    (src/components/TaskSharingModal.tsx:273). A share whose profile join is null makes the
    duplicate check throw, which ends in the "Error" toast, and makes the list fail to render.
    `Sharing.ShareEntry.email` is a plain string, so the model assumes the profile is present.
- **Sort order under an inconsistent comparator.** Which order JavaScript's sort produces
  when the comparator is inconsistent is not modelled. `TaskSort.SortTasksOrders` promises
  an order only for consistent keys, and `TaskSort.UnrankedPriorityIsInconsistent` shows
  where consistency fails.
- **Notification reads.** The order, the limit of 20 and the user filter of the
  notification read are the store's. The model takes the rows as given.
- **Rendering.**
  - JSX layout, icons, toasts and their texts are not modelled.
  - `viewMode` only chooses between two layouts of the same cards.
  - Date formatting is not modelled.
  - Sign-out and navigation are not modelled.
  - The footer is not modelled.
- Counters.StatsAgreeWithCounts relates the cards to the page's `taskCounts`, which is never
  shown. The agreement of the cards with the sidebar the user sees is
  `Layout.CardsAgreeWithSidebar`, and it holds only for the same rows read at the same time.
- **Text.Lower / Text.Upper** map ASCII letters only. JavaScript's full Unicode case mapping
  is not modelled.
- **Text.IsSpace** follows the white-space and line-terminator set of `String.prototype.trim`.
- **The `onTaskUpdate` callback.** The pages pass it to the sharing dialog, which never calls
  it. `TaskUpdate` is modelled as the handler, for completeness.
- **ProfilePage.Profile.InputChange** takes one of the four record fields. The source's
  `handleInputChange` accepts any key, but its only caller passes `full_name`.
- **Restricted selects.**
  - TaskFormDialog.TaskForm.SetPriority and TaskFormDialog.TaskForm.SetStatus require the
    three recognised values, because the selects offer only those.
  - Sharing.SharingModal.SetPermission likewise requires "view" or "edit".
- **Gravatar.GravatarHash** is the base 64 encoding of the address, not an MD5 digest, so the
  address it builds never names a real avatar. The model follows the code.
  `Gravatar.HashCollision` shows that the `_` substitution also merges distinct addresses.

### Where the code differs from its description

The model follows the code in each case:

- "Due today" and "overdue" overlap: an open task due earlier today counts in both
  (`Counters.TodayAndOverdueOverlap`).
- The sharing dialog does not stop a user from sharing a task with themselves
  (`Sharing.NoSelfShareCheck`).
- The dashboard's sidebar filter is never set by any control of the page, so it stays
  "all". `DashboardPage.Dashboard.SetQuery` keeps it.
- Enter in the sharing field submits even while a share is in progress
  (`Sharing.EmailFieldStates`).
- The card treats an absent `canEdit` as editable, but the page handlers refuse it
  (`TaskViews.CardAndHandlerDisagree`).
- The dashboard's `taskCounts` (src/pages/Dashboard.tsx:120-127) is never shown: the page
  renders its statistics cards and no sidebar, and the sidebar shows the frame's counts.
  `Counters.Counts` models it as computed.
- The notifications dialog can never be opened: the frame only ever sets its open flag to
  false (src/components/ResponsiveLayout.tsx:22, :201), and the dialog renders nothing and
  reads nothing while closed (src/components/NotificationModal.tsx:32-36, :147). The
  `Notifications` module models a component that is never shown;
  `Layout.ResponsiveLayout.CloseNotifications` keeps it closed.
- Each page mounts a single sharing dialog and changes only its `task` prop, so the listed
  shares of the previous task remain until the new read returns, and stay if it fails
  (`Sharing.StaleSharesAfterFailedRead`).

## Findings

| source | as written | input that shows it | evidently intended | confidence | as-written member | corrected member |
|---|---|---|---|---|---|---|
| src/pages/MyTasks.tsx:312 | the "New Task" and "Create Task" buttons only open the form. A cancelled edit leaves `editingTask` set (its `onClose` at line 473 does not clear it) | edit task t, cancel, press "New Task", save. The page sends an update of t instead of inserting a new task | open the form with no task being edited, as the dashboard's `handleNewTask` does | not executed | MyTasksPage.NewTaskAfterCancelledEditAsWritten | MyTasksPage.NewTaskAfterCancelledEdit |
