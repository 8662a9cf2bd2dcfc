/** The "Shared with me" page: the tasks other users shared with the viewer, the same query as
    "My Tasks", and handlers that refuse every change the share's permission does not allow.
    Editing, deleting and re-sharing are not implemented on this page. */
module SharedTasksPage {
  import opened Wrappers
  import opened Seqs
  import opened Store
  import opened TaskCard
  import opened TaskViews
  import opened TaskQuery
  import opened StableSort
  import opened TaskSort
  import opened Paging

  class SharedTasks {
    var tasks: array<Task>
    var query: Query
    var currentPage: int
    var loading: bool
    /** The writes sent to the store so far, oldest first. */
    var sent: seq<Write>

    constructor()
      ensures fresh(tasks) && tasks[..] == []
      ensures query == Query([], "all", "all", "all", "dueDate")
      ensures currentPage == 1 && loading && sent == []
    {
      tasks := new Task[0];
      query := Query([], "all", "all", "all", "dueDate");
      currentPage := 1;
      loading := true;
      sent := [];
    }

    /** `fetchSharedTasks`: one shared, read-only or editable entry per share row, in store
        order; a failed read leaves the list as it was. */
    method FetchSharedTasks(rows: ReadReply<seq<ShareRow>>)
      modifies this
      ensures rows.Rows? ==> fresh(tasks) && tasks[..] == SharedViews(rows.value)
      ensures rows.ReadErr? ==> tasks == old(tasks)
      ensures !loading && currentPage == old(currentPage)
      ensures query == old(query) && sent == old(sent)
    {
      if rows.Rows? {
        tasks := ArrayOf(SharedViews(rows.value));
      }
      loading := false;
    }

    /** `handleStatusChange`: an absent task or one shared read-only is refused with "Access
        Denied"; otherwise the update is sent and on success only that task's status changes. */
    method StatusChange(id: string, s: Status, reply: Reply, at: int) returns (o: Outcome)
      modifies this
      ensures var t := FindById(old(tasks[..]), id);
        if t.None? || !MayEdit(t.value) then
          o == Denied && tasks == old(tasks) && sent == old(sent)
        else
          && sent == old(sent) + [UpdateStatus(id, StatusName(s), at)]
          && (reply.Ok? ==> o == Done && fresh(tasks) && tasks[..] == WithStatus(old(tasks[..]), id, s))
          && (reply.Err? ==> o == Failed && tasks == old(tasks))
      ensures currentPage == old(currentPage) && loading == old(loading) && query == old(query)
    {
      var t := FindById(tasks[..], id);
      if t.None? || !MayEdit(t.value) {
        return Denied;
      }
      sent := sent + [UpdateStatus(id, StatusName(s), at)];
      if reply.Err? {
        return Failed;
      }
      tasks := ArrayOf(WithStatus(tasks[..], id, s));
      o := Done;
    }

    /** `handleToggleComplete`: the same refusal, then a change to the toggled status. */
    method ToggleComplete(id: string, reply: Reply, at: int) returns (o: Outcome)
      modifies this
      ensures var t := FindById(old(tasks[..]), id);
        if t.None? || !MayEdit(t.value) then
          o == Denied && tasks == old(tasks) && sent == old(sent)
        else
          var s := Toggled(t.value.status);
          && sent == old(sent) + [UpdateStatus(id, StatusName(s), at)]
          && (reply.Ok? ==> o == Done && fresh(tasks) && tasks[..] == WithStatus(old(tasks[..]), id, s))
          && (reply.Err? ==> o == Failed && tasks == old(tasks))
      ensures currentPage == old(currentPage) && loading == old(loading) && query == old(query)
    {
      var t := FindById(tasks[..], id);
      if t.None? || !MayEdit(t.value) {
        return Denied;
      }
      o := StatusChange(id, Toggled(t.value.status), reply, at);
    }

    /** `handleEditTask`: refused for a read-only share; for an editable one nothing happens. */
    method EditTask(t: Task) returns (o: Outcome)
      ensures o == (if MayEdit(t) then Ignored else Denied)
    {
      o := if MayEdit(t) then Ignored else Denied;
    }

    /** `handleDeleteTask`: refused for an absent task or a read-only share; otherwise nothing
        happens, and in no case is anything sent. */
    method DeleteTask(id: string) returns (o: Outcome)
      ensures var t := FindById(tasks[..], id);
        o == (if t.Some? && MayEdit(t.value) then Ignored else Denied)
    {
      var t := FindById(tasks[..], id);
      o := if t.Some? && MayEdit(t.value) then Ignored else Denied;
    }

    /** `handleShareTask`: only an informational message; a shared task cannot be re-shared. */
    method ShareTask(t: Task) returns (o: Outcome)
      ensures o == Informed
    {
      o := Informed;
    }

    /** A change of the search box or of a select. The current page is kept. */
    method SetQuery(search: string, priorityFilter: string, statusFilter: string, sortBy: string)
      modifies this
      ensures query == Query(search, priorityFilter, statusFilter, old(query.sidebar), sortBy)
      ensures currentPage == old(currentPage) && loading == old(loading)
      ensures tasks == old(tasks) && sent == old(sent)
    {
      query := Query(search, priorityFilter, statusFilter, query.sidebar, sortBy);
    }

    /** `filteredTasks`: search, priority and status filters, then the in-place sort; with no
        active filter the state array itself is reordered. */
    method FilteredTasks(leq: (string, string) -> bool) returns (view: array<Task>)
      modifies tasks
      ensures view[..] == SortBy(Comparator(query.sortBy, leq), SearchFiltered(query, old(tasks[..])))
      ensures SearchUntouched(query) ==> view == tasks
      ensures !SearchUntouched(query) ==> fresh(view) && tasks[..] == old(tasks[..])
      ensures multiset(tasks[..]) == multiset(old(tasks[..]))
    {
      if SearchUntouched(query) {
        SearchUntouchedIsIdentity(query, tasks[..]);
        view := tasks;
      } else {
        view := ArrayOf(SearchFiltered(query, tasks[..]));
      }
      SortTasks(view, query.sortBy, leq);
    }

    /** `paginatedTasks`: the current page of the filtered, sorted list. */
    method PaginatedTasks(leq: (string, string) -> bool) returns (page: seq<Task>)
      modifies tasks
      ensures page == Page(SortBy(Comparator(query.sortBy, leq), SearchFiltered(query, old(tasks[..]))), currentPage)
      ensures |page| <= PageSize
      ensures multiset(tasks[..]) == multiset(old(tasks[..]))
    {
      var view := FilteredTasks(leq);
      page := Page(view[..], currentPage);
      PageBound(view[..], currentPage);
    }

    /** The number of pages of the current filtered list. */
    function TotalPagesNow(): nat
      reads this, tasks
    {
      TotalPages(|SearchFiltered(query, tasks[..])|)
    }

    /** The "previous" control. */
    method PrevPage()
      modifies this
      ensures currentPage == Paging.PrevPage(old(currentPage))
      ensures old(currentPage) >= 1 ==> 1 <= currentPage <= old(currentPage)
      ensures loading == old(loading) && tasks == old(tasks) && query == old(query) && sent == old(sent)
    {
      currentPage := Paging.PrevPage(currentPage);
    }

    /** The "next" control. */
    method NextPage()
      modifies this
      ensures currentPage == Paging.NextPage(TotalPagesNow(), old(currentPage))
      ensures ShowsPagination(TotalPagesNow()) && 1 <= old(currentPage) <= TotalPagesNow() ==>
        1 <= currentPage <= TotalPagesNow()
      ensures loading == old(loading) && tasks == old(tasks) && query == old(query) && sent == old(sent)
    {
      currentPage := Paging.NextPage(TotalPagesNow(), currentPage);
    }

    /** A page-number link. */
    method GoToPage(p: int)
      modifies this
      ensures currentPage == p
      ensures loading == old(loading) && tasks == old(tasks) && query == old(query) && sent == old(sent)
    {
      currentPage := p;
    }
  }
}
