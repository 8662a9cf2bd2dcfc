/** The "My Tasks" page: the owner's own tasks only, the same query without the sidebar
    filter, and handlers that apply no capability guard. */
module MyTasksPage {
  import opened Wrappers
  import opened Seqs
  import opened Store
  import opened TaskCard
  import opened TaskViews
  import opened TaskQuery
  import opened StableSort
  import opened TaskSort
  import opened Paging
  import opened PageState

  class MyTasks {
    var tasks: array<Task>
    var query: Query
    var ui: PageUi
    /** The writes sent to the store so far, oldest first. */
    var sent: seq<Write>
    /** `user?.id`. */
    const userId: Option<string>

    constructor(userId: Option<string>)
      ensures this.userId == userId && fresh(tasks) && tasks[..] == []
      ensures query == Query([], "all", "all", "all", "dueDate")
      ensures ui == InitialUi && sent == []
    {
      this.userId := userId;
      tasks := new Task[0];
      query := Query([], "all", "all", "all", "dueDate");
      ui := InitialUi;
      sent := [];
    }

    /** `fetchMyTasks`: every row becomes an editable, unshared task, in store order; a failed
        read leaves the list as it was. */
    method FetchMyTasks(rows: ReadReply<seq<TaskRow>>)
      modifies this
      ensures rows.Rows? ==> fresh(tasks) && tasks[..] == OwnedViews(rows.value)
      ensures rows.ReadErr? ==> tasks == old(tasks)
      ensures ui == old(ui).(loading := false)
      ensures query == old(query) && sent == old(sent)
    {
      if rows.Rows? {
        tasks := ArrayOf(OwnedViews(rows.value));
      }
      ui := ui.(loading := false);
    }

    /** `handleStatusChange`: no guard at all; the update is sent, and on success only the
        status of the tasks with that id changes. */
    method StatusChange(id: string, s: Status, reply: Reply, at: int) returns (o: Outcome)
      modifies this
      ensures sent == old(sent) + [UpdateStatus(id, StatusName(s), at)]
      ensures reply.Ok? ==> o == Done && fresh(tasks) && tasks[..] == WithStatus(old(tasks[..]), id, s)
      ensures reply.Err? ==> o == Failed && tasks == old(tasks)
      ensures ui == old(ui) && query == old(query)
    {
      sent := sent + [UpdateStatus(id, StatusName(s), at)];
      if reply.Err? {
        return Failed;
      }
      tasks := ArrayOf(WithStatus(tasks[..], id, s));
      o := Done;
    }

    /** `handleToggleComplete`: only the task's existence is checked, not its flag. */
    method ToggleComplete(id: string, reply: Reply, at: int) returns (o: Outcome)
      modifies this
      ensures var t := FindById(old(tasks[..]), id);
        if t.None? then
          o == Ignored && tasks == old(tasks) && sent == old(sent)
        else
          var s := Toggled(t.value.status);
          && sent == old(sent) + [UpdateStatus(id, StatusName(s), at)]
          && (reply.Ok? ==> o == Done && fresh(tasks) && tasks[..] == WithStatus(old(tasks[..]), id, s))
          && (reply.Err? ==> o == Failed && tasks == old(tasks))
      ensures ui == old(ui) && query == old(query)
    {
      var t := FindById(tasks[..], id);
      if t.None? {
        return Ignored;
      }
      o := StatusChange(id, Toggled(t.value.status), reply, at);
    }

    /** `handleSaveTask`: as on the dashboard, except that an edited task is forced to be
        editable and unshared. */
    method SaveTask(d: TaskDraft, updated: Reply, created: ReadReply<TaskRow>, at: int) returns (o: Outcome)
      modifies this
      ensures old(ui.editing).Some? ==>
        var e := old(ui.editing).value;
        && sent == old(sent) + [UpdateTask(e.id, d.title, d.description, d.due,
                                           PriorityName(d.priority), StatusName(d.status), at)]
        && (updated.Ok? ==> o == Done && fresh(tasks) && tasks[..] == Edited(old(tasks[..]), e.id, d, false))
        && (updated.Err? ==> o == Failed && tasks == old(tasks))
      ensures old(ui.editing).None? ==>
        && sent == old(sent) + [InsertTask(d.title, d.description, d.due,
                                           PriorityName(d.priority), StatusName(d.status), userId)]
        && (created.Rows? ==>
              o == Done && fresh(tasks) && tasks[..] == [FromRow(created.value, true, false)] + old(tasks[..]))
        && (created.ReadErr? ==> o == Failed && tasks == old(tasks))
      ensures o == Done ==> ui == old(ui).(editing := None)
      ensures o == Failed ==> ui == old(ui)
      ensures o == Done || o == Failed
      ensures query == old(query)
    {
      if ui.editing.Some? {
        var e := ui.editing.value;
        sent := sent + [UpdateTask(e.id, d.title, d.description, d.due,
                                   PriorityName(d.priority), StatusName(d.status), at)];
        if updated.Err? {
          return Failed;
        }
        tasks := ArrayOf(Edited(tasks[..], e.id, d, false));
      } else {
        sent := sent + [InsertTask(d.title, d.description, d.due,
                                   PriorityName(d.priority), StatusName(d.status), userId)];
        if created.ReadErr? {
          return Failed;
        }
        tasks := ArrayOf([FromRow(created.value, true, false)] + tasks[..]);
      }
      ui := ui.(editing := None);
      o := Done;
    }

    /** `handleEditTask`: no guard; the form opens on the task. */
    method EditTask(t: Task)
      modifies this
      ensures ui == old(ui).(editing := Some(t), formOpen := true)
      ensures tasks == old(tasks) && query == old(query) && sent == old(sent)
    {
      ui := ui.(editing := Some(t), formOpen := true);
    }

    /** `handleDeleteTask`: no guard; the delete is sent, and on success exactly the tasks with
        that id leave the list. */
    method DeleteTask(id: string, reply: Reply) returns (o: Outcome)
      modifies this
      ensures sent == old(sent) + [Write.DeleteTask(id)]
      ensures reply.Ok? ==> o == Done && fresh(tasks) && tasks[..] == Removed(old(tasks[..]), id)
      ensures reply.Err? ==> o == Failed && tasks == old(tasks)
      ensures ui == old(ui) && query == old(query)
    {
      sent := sent + [Write.DeleteTask(id)];
      if reply.Err? {
        return Failed;
      }
      tasks := ArrayOf(Removed(tasks[..], id));
      o := Done;
    }

    /** `handleShareTask`: the sharing dialog opens on the task. */
    method ShareTask(t: Task)
      modifies this
      ensures ui == old(ui).(sharing := Some(t), sharingOpen := true)
      ensures tasks == old(tasks) && query == old(query) && sent == old(sent)
    {
      ui := ui.(sharing := Some(t), sharingOpen := true);
    }

    /** `handleTaskUpdate`: the dialog's updated task replaces the one with its id. */
    method TaskUpdate(u: Task)
      modifies this
      ensures fresh(tasks) && tasks[..] == Replaced(old(tasks[..]), u)
      ensures ui == old(ui) && query == old(query) && sent == old(sent)
    {
      tasks := ArrayOf(Replaced(tasks[..], u));
    }

    /** The "New Task" and "Create Task" buttons as written: `setIsTaskFormOpen(true)` only,
        so a task left in `editingTask` by a cancelled or failed edit stays the form's target. */
    method OpenFormAsWritten()
      modifies this
      ensures ui == old(ui).(formOpen := true)
      ensures tasks == old(tasks) && query == old(query) && sent == old(sent)
    {
      ui := ui.(formOpen := true);
    }

    /** The buttons as evidently intended, like the dashboard's `handleNewTask`: the form
        opens with no task being edited. */
    method NewTask()
      modifies this
      ensures ui == old(ui).(editing := None, formOpen := true)
      ensures tasks == old(tasks) && query == old(query) && sent == old(sent)
    {
      ui := ui.(editing := None, formOpen := true);
    }

    /** The form's `onClose`: it closes, and the task being edited stays recorded. */
    method CloseForm()
      modifies this
      ensures ui == old(ui).(formOpen := false)
      ensures tasks == old(tasks) && query == old(query) && sent == old(sent)
    {
      ui := ui.(formOpen := false);
    }

    /** The sharing dialog's `onClose`: it closes, and the shared task stays recorded. */
    method CloseSharing()
      modifies this
      ensures ui == old(ui).(sharingOpen := false)
      ensures tasks == old(tasks) && query == old(query) && sent == old(sent)
    {
      ui := ui.(sharingOpen := false);
    }

    /** A change of the search box or of a select. The current page is kept. */
    method SetQuery(search: string, priorityFilter: string, statusFilter: string, sortBy: string)
      modifies this
      ensures query == Query(search, priorityFilter, statusFilter, old(query.sidebar), sortBy)
      ensures ui == old(ui) && tasks == old(tasks) && sent == old(sent)
    {
      query := Query(search, priorityFilter, statusFilter, query.sidebar, sortBy);
    }

    /** `filteredTasks`: search, priority and status filters, then the in-place sort; with no
        active filter the state array itself is reordered. */
    method FilteredTasks(leq: (string, string) -> bool) returns (view: array<Task>)
      modifies tasks
      ensures view[..] == SortBy(Comparator(query.sortBy, leq), SearchFiltered(query, old(tasks[..])))
      ensures SearchUntouched(query) ==> view == tasks
      ensures !SearchUntouched(query) ==> fresh(view) && tasks[..] == old(tasks[..])
      ensures multiset(tasks[..]) == multiset(old(tasks[..]))
    {
      if SearchUntouched(query) {
        SearchUntouchedIsIdentity(query, tasks[..]);
        view := tasks;
      } else {
        view := ArrayOf(SearchFiltered(query, tasks[..]));
      }
      SortTasks(view, query.sortBy, leq);
    }

    /** `paginatedTasks`: the current page of the filtered, sorted list. */
    method PaginatedTasks(leq: (string, string) -> bool) returns (page: seq<Task>)
      modifies tasks
      ensures page == Page(SortBy(Comparator(query.sortBy, leq), SearchFiltered(query, old(tasks[..]))), ui.currentPage)
      ensures |page| <= PageSize
      ensures multiset(tasks[..]) == multiset(old(tasks[..]))
    {
      var view := FilteredTasks(leq);
      page := Page(view[..], ui.currentPage);
      PageBound(view[..], ui.currentPage);
    }

    /** The number of pages of the current filtered list. */
    function TotalPagesNow(): nat
      reads this, tasks
    {
      TotalPages(|SearchFiltered(query, tasks[..])|)
    }

    /** The "previous" control. */
    method PrevPage()
      modifies this
      ensures ui == old(ui).(currentPage := Paging.PrevPage(old(ui.currentPage)))
      ensures old(ui.currentPage) >= 1 ==> 1 <= ui.currentPage <= old(ui.currentPage)
      ensures tasks == old(tasks) && query == old(query) && sent == old(sent)
    {
      ui := ui.(currentPage := Paging.PrevPage(ui.currentPage));
    }

    /** The "next" control. */
    method NextPage()
      modifies this
      ensures ui == old(ui).(currentPage := Paging.NextPage(TotalPagesNow(), old(ui.currentPage)))
      ensures ShowsPagination(TotalPagesNow()) && 1 <= old(ui.currentPage) <= TotalPagesNow() ==>
        1 <= ui.currentPage <= TotalPagesNow()
      ensures tasks == old(tasks) && query == old(query) && sent == old(sent)
    {
      ui := ui.(currentPage := Paging.NextPage(TotalPagesNow(), ui.currentPage));
    }

    /** A page-number link. */
    method GoToPage(p: int)
      modifies this
      ensures ui == old(ui).(currentPage := p)
      ensures tasks == old(tasks) && query == old(query) && sent == old(sent)
    {
      ui := ui.(currentPage := p);
    }
  }

  /** A cancelled edit followed by "New Task", as written: the form opens still bound to the
      cancelled task, and saving it sends an update of that task instead of an insert. */
  method NewTaskAfterCancelledEditAsWritten(t: Task, d: TaskDraft, at: int) returns (w: Write)
    ensures w == UpdateTask(t.id, d.title, d.description, d.due,
                            PriorityName(d.priority), StatusName(d.status), at)
  {
    var page := new MyTasks(None);
    page.EditTask(t);
    page.CloseForm();
    page.OpenFormAsWritten();
    var o := page.SaveTask(d, Ok, ReadErr, at);
    w := page.sent[|page.sent| - 1];
  }

  /** The same steps with the corrected button: saving sends an insert of a new task. */
  method NewTaskAfterCancelledEdit(t: Task, d: TaskDraft, at: int, user: Option<string>) returns (w: Write)
    ensures w == InsertTask(d.title, d.description, d.due,
                            PriorityName(d.priority), StatusName(d.status), user)
  {
    var page := new MyTasks(user);
    page.EditTask(t);
    page.CloseForm();
    page.NewTask();
    var o := page.SaveTask(d, Ok, ReadErr, at);
    w := page.sent[|page.sent| - 1];
  }
}
