/** The dashboard page: the merged list of owned and shared tasks, its query and pagination,
    and the handlers that write to the store and then patch the list. */
module DashboardPage {
  import opened Wrappers
  import opened Seqs
  import opened Store
  import opened TaskCard
  import opened TaskViews
  import opened TaskQuery
  import opened StableSort
  import opened TaskSort
  import opened Paging
  import opened PageState

  class Dashboard {
    /** The `tasks` state; the handlers replace it with a new array, and the query sorts it
        in place when no filter is active. */
    var tasks: array<Task>
    var query: Query
    var ui: PageUi
    /** The writes sent to the store so far, oldest first. */
    var sent: seq<Write>
    /** `user?.id`. */
    const userId: Option<string>

    constructor(userId: Option<string>)
      ensures this.userId == userId && fresh(tasks) && tasks[..] == []
      ensures query == Query([], "all", "all", "all", "dueDate")
      ensures ui == InitialUi && sent == []
    {
      this.userId := userId;
      tasks := new Task[0];
      query := Query([], "all", "all", "all", "dueDate");
      ui := InitialUi;
      sent := [];
    }

    /** `fetchTasks`: the owned rows, then the share rows; either read failing leaves the list
        as it was. Loading ends either way. */
    method FetchTasks(owned: ReadReply<seq<TaskRow>>, shared: ReadReply<seq<ShareRow>>)
      modifies this
      ensures owned.Rows? && shared.Rows? ==>
        fresh(tasks) && tasks[..] == MergeViews(owned.value, shared.value)
      ensures !(owned.Rows? && shared.Rows?) ==> tasks == old(tasks)
      ensures ui == old(ui).(loading := false)
      ensures query == old(query) && sent == old(sent)
    {
      if owned.Rows? && shared.Rows? {
        tasks := ArrayOf(MergeViews(owned.value, shared.value));
      }
      ui := ui.(loading := false);
    }

    /** `handleStatusChange`: an absent task or one the viewer may not edit is ignored;
        otherwise the status update is sent, and on success only that task's status changes. */
    method StatusChange(id: string, s: Status, reply: Reply, at: int) returns (o: Outcome)
      modifies this
      ensures var t := FindById(old(tasks[..]), id);
        if t.None? || !MayEdit(t.value) then
          o == Ignored && tasks == old(tasks) && sent == old(sent)
        else
          && sent == old(sent) + [UpdateStatus(id, StatusName(s), at)]
          && (reply.Ok? ==> o == Done && fresh(tasks) && tasks[..] == WithStatus(old(tasks[..]), id, s))
          && (reply.Err? ==> o == Failed && tasks == old(tasks))
      ensures ui == old(ui) && query == old(query)
    {
      var t := FindById(tasks[..], id);
      if t.None? || !MayEdit(t.value) {
        return Ignored;
      }
      sent := sent + [UpdateStatus(id, StatusName(s), at)];
      if reply.Err? {
        return Failed;
      }
      tasks := ArrayOf(WithStatus(tasks[..], id, s));
      o := Done;
    }

    /** `handleToggleComplete`: the same guard, then a status change to the toggled status. */
    method ToggleComplete(id: string, reply: Reply, at: int) returns (o: Outcome)
      modifies this
      ensures var t := FindById(old(tasks[..]), id);
        if t.None? || !MayEdit(t.value) then
          o == Ignored && tasks == old(tasks) && sent == old(sent)
        else
          var s := Toggled(t.value.status);
          && sent == old(sent) + [UpdateStatus(id, StatusName(s), at)]
          && (reply.Ok? ==> o == Done && fresh(tasks) && tasks[..] == WithStatus(old(tasks[..]), id, s))
          && (reply.Err? ==> o == Failed && tasks == old(tasks))
      ensures ui == old(ui) && query == old(query)
    {
      var t := FindById(tasks[..], id);
      if t.None? || !MayEdit(t.value) {
        return Ignored;
      }
      o := StatusChange(id, Toggled(t.value.status), reply, at);
    }

    /** `handleSaveTask`: with a task being edited, the update is sent and on success that task
        takes the form's fields, keeping its id, creation time and flags; without one, the
        insert is sent and on success the returned row is prepended as an owned task. Only a
        success ends the editing. No guard is applied. */
    method SaveTask(d: TaskDraft, updated: Reply, created: ReadReply<TaskRow>, at: int) returns (o: Outcome)
      modifies this
      ensures old(ui.editing).Some? ==>
        var e := old(ui.editing).value;
        && sent == old(sent) + [UpdateTask(e.id, d.title, d.description, d.due,
                                           PriorityName(d.priority), StatusName(d.status), at)]
        && (updated.Ok? ==> o == Done && fresh(tasks) && tasks[..] == Edited(old(tasks[..]), e.id, d, true))
        && (updated.Err? ==> o == Failed && tasks == old(tasks))
      ensures old(ui.editing).None? ==>
        && sent == old(sent) + [InsertTask(d.title, d.description, d.due,
                                           PriorityName(d.priority), StatusName(d.status), userId)]
        && (created.Rows? ==>
              o == Done && fresh(tasks) && tasks[..] == [FromRow(created.value, true, false)] + old(tasks[..]))
        && (created.ReadErr? ==> o == Failed && tasks == old(tasks))
      ensures o == Done ==> ui == old(ui).(editing := None)
      ensures o == Failed ==> ui == old(ui)
      ensures o == Done || o == Failed
      ensures query == old(query)
    {
      if ui.editing.Some? {
        var e := ui.editing.value;
        sent := sent + [UpdateTask(e.id, d.title, d.description, d.due,
                                   PriorityName(d.priority), StatusName(d.status), at)];
        if updated.Err? {
          return Failed;
        }
        tasks := ArrayOf(Edited(tasks[..], e.id, d, true));
      } else {
        sent := sent + [InsertTask(d.title, d.description, d.due,
                                   PriorityName(d.priority), StatusName(d.status), userId)];
        if created.ReadErr? {
          return Failed;
        }
        tasks := ArrayOf([FromRow(created.value, true, false)] + tasks[..]);
      }
      ui := ui.(editing := None);
      o := Done;
    }

    /** `handleEditTask`: refused unless the task is editable; otherwise the form opens on it. */
    method EditTask(t: Task) returns (o: Outcome)
      modifies this
      ensures !MayEdit(t) ==> o == Denied && ui == old(ui)
      ensures MayEdit(t) ==> o == Done && ui == old(ui).(editing := Some(t), formOpen := true)
      ensures tasks == old(tasks) && query == old(query) && sent == old(sent)
    {
      if !MayEdit(t) {
        return Denied;
      }
      ui := ui.(editing := Some(t), formOpen := true);
      o := Done;
    }

    /** `handleDeleteTask`: the same guard as a status change; on success exactly the tasks
        with that id leave the list. */
    method DeleteTask(id: string, reply: Reply) returns (o: Outcome)
      modifies this
      ensures var t := FindById(old(tasks[..]), id);
        if t.None? || !MayEdit(t.value) then
          o == Ignored && tasks == old(tasks) && sent == old(sent)
        else
          && sent == old(sent) + [Write.DeleteTask(id)]
          && (reply.Ok? ==> o == Done && fresh(tasks) && tasks[..] == Removed(old(tasks[..]), id))
          && (reply.Err? ==> o == Failed && tasks == old(tasks))
      ensures ui == old(ui) && query == old(query)
    {
      var t := FindById(tasks[..], id);
      if t.None? || !MayEdit(t.value) {
        return Ignored;
      }
      sent := sent + [Write.DeleteTask(id)];
      if reply.Err? {
        return Failed;
      }
      tasks := ArrayOf(Removed(tasks[..], id));
      o := Done;
    }

    /** `handleShareTask`: the sharing dialog opens on the task; nothing is checked. */
    method ShareTask(t: Task)
      modifies this
      ensures ui == old(ui).(sharing := Some(t), sharingOpen := true)
      ensures tasks == old(tasks) && query == old(query) && sent == old(sent)
    {
      ui := ui.(sharing := Some(t), sharingOpen := true);
    }

    /** `handleTaskUpdate`: the dialog's updated task replaces the one with its id. */
    method TaskUpdate(u: Task)
      modifies this
      ensures fresh(tasks) && tasks[..] == Replaced(old(tasks[..]), u)
      ensures ui == old(ui) && query == old(query) && sent == old(sent)
    {
      tasks := ArrayOf(Replaced(tasks[..], u));
    }

    /** `handleNewTask`: the form opens empty. */
    method NewTask()
      modifies this
      ensures ui == old(ui).(editing := None, formOpen := true)
      ensures tasks == old(tasks) && query == old(query) && sent == old(sent)
    {
      ui := ui.(editing := None, formOpen := true);
    }

    /** The form's `onClose`: it closes, and the task being edited stays recorded. */
    method CloseForm()
      modifies this
      ensures ui == old(ui).(formOpen := false)
      ensures tasks == old(tasks) && query == old(query) && sent == old(sent)
    {
      ui := ui.(formOpen := false);
    }

    /** The sharing dialog's `onClose`: it closes, and the shared task stays recorded. */
    method CloseSharing()
      modifies this
      ensures ui == old(ui).(sharingOpen := false)
      ensures tasks == old(tasks) && query == old(query) && sent == old(sent)
    {
      ui := ui.(sharingOpen := false);
    }

    /** A change of the search box or of a select. The page has no control that sets the
        sidebar filter, so it keeps its initial "all"; the current page is kept too. */
    method SetQuery(search: string, priorityFilter: string, statusFilter: string, sortBy: string)
      modifies this
      ensures query == Query(search, priorityFilter, statusFilter, old(query.sidebar), sortBy)
      ensures ui == old(ui) && tasks == old(tasks) && sent == old(sent)
    {
      query := Query(search, priorityFilter, statusFilter, query.sidebar, sortBy);
    }

    /** `filteredTasks`: the filters, then the in-place sort. With no active filter the array
        sorted is the state array itself, which is then reordered; otherwise a fresh array is
        sorted and the state array is left alone. */
    method FilteredTasks(c: Clock, leq: (string, string) -> bool) returns (view: array<Task>)
      modifies tasks
      ensures view[..] == SortBy(Comparator(query.sortBy, leq), Filtered(c, query, old(tasks[..])))
      ensures Untouched(query) ==> view == tasks
      ensures !Untouched(query) ==> fresh(view) && tasks[..] == old(tasks[..])
      ensures multiset(tasks[..]) == multiset(old(tasks[..]))
    {
      if Untouched(query) {
        UntouchedIsIdentity(c, query, tasks[..]);
        view := tasks;
      } else {
        view := ArrayOf(Filtered(c, query, tasks[..]));
      }
      SortTasks(view, query.sortBy, leq);
    }

    /** `paginatedTasks`: the current page of the filtered, sorted list. */
    method PaginatedTasks(c: Clock, leq: (string, string) -> bool) returns (page: seq<Task>)
      modifies tasks
      ensures page == Page(SortBy(Comparator(query.sortBy, leq), Filtered(c, query, old(tasks[..]))), ui.currentPage)
      ensures |page| <= PageSize
      ensures multiset(tasks[..]) == multiset(old(tasks[..]))
    {
      var view := FilteredTasks(c, leq);
      page := Page(view[..], ui.currentPage);
      PageBound(view[..], ui.currentPage);
    }

    /** The number of pages of the current filtered list. */
    function TotalPagesNow(c: Clock): nat
      reads this, tasks
    {
      TotalPages(|Filtered(c, query, tasks[..])|)
    }

    /** The "previous" control. */
    method PrevPage()
      modifies this
      ensures ui == old(ui).(currentPage := Paging.PrevPage(old(ui.currentPage)))
      ensures old(ui.currentPage) >= 1 ==> 1 <= ui.currentPage <= old(ui.currentPage)
      ensures tasks == old(tasks) && query == old(query) && sent == old(sent)
    {
      ui := ui.(currentPage := Paging.PrevPage(ui.currentPage));
    }

    /** The "next" control. */
    method NextPage(c: Clock)
      modifies this
      ensures ui == old(ui).(currentPage := Paging.NextPage(TotalPagesNow(c), old(ui.currentPage)))
      ensures ShowsPagination(TotalPagesNow(c)) && 1 <= old(ui.currentPage) <= TotalPagesNow(c) ==>
        1 <= ui.currentPage <= TotalPagesNow(c)
      ensures tasks == old(tasks) && query == old(query) && sent == old(sent)
    {
      ui := ui.(currentPage := Paging.NextPage(TotalPagesNow(c), ui.currentPage));
    }

    /** A page-number link. */
    method GoToPage(p: int)
      modifies this
      ensures ui == old(ui).(currentPage := p)
      ensures tasks == old(tasks) && query == old(query) && sent == old(sent)
    {
      ui := ui.(currentPage := p);
    }
  }
}
