/** The list query the three task pages share: text search, priority and status filters, and
    (on the dashboard) the sidebar filter, applied one after another. */
module TaskQuery {
  import opened Seqs
  import opened Text
  import opened TaskCard

  /** The page's query state. `priorityFilter`, `statusFilter` and `sidebar` hold the selected
      strings, with "all" meaning no filter; `sortBy` is the selected sort key. */
  datatype Query = Query(
    search: string,
    priorityFilter: string,
    statusFilter: string,
    sidebar: string,
    sortBy: string)

  /** The lower-cased query occurs in the lower-cased title or description. */
  predicate MatchesSearch(search: string, t: Task) {
    Contains(Lower(t.title), Lower(search)) || Contains(Lower(t.description), Lower(search))
  }

  predicate MatchesPriority(f: string, t: Task) {
    PriorityName(t.priority) == f
  }

  predicate MatchesStatus(f: string, t: Task) {
    StatusName(t.status) == f
  }

  /** The dashboard's today/overdue/completed views; any other value filters nothing. */
  predicate MatchesSidebar(c: Clock, f: string, t: Task) {
    if f == "today" then IsToday(c, t.due) && t.status != Completed
    else if f == "overdue" then IsPast(c, t.due) && t.status != Completed
    else if f == "completed" then t.status == Completed
    else true
  }

  /** Search, priority and status filters in the pages' order; each runs only when active. */
  function SearchFiltered(q: Query, ts: seq<Task>): seq<Task> {
    var a := if q.search != [] then FilterBy(ts, (t: Task) => MatchesSearch(q.search, t)) else ts;
    var b := if q.priorityFilter != "all" then FilterBy(a, (t: Task) => MatchesPriority(q.priorityFilter, t)) else a;
    if q.statusFilter != "all" then FilterBy(b, (t: Task) => MatchesStatus(q.statusFilter, t)) else b
  }

  /** The dashboard's filter: the three filters above, then the sidebar's. */
  function Filtered(c: Clock, q: Query, ts: seq<Task>): seq<Task> {
    var b := SearchFiltered(q, ts);
    if q.sidebar in {"today", "overdue", "completed"} then
      FilterBy(b, (t: Task) => MatchesSidebar(c, q.sidebar, t))
    else b
  }

  /** A task passes the search, priority and status filters of `q`. */
  predicate PassesSearch(q: Query, t: Task) {
    && (q.search != [] ==> MatchesSearch(q.search, t))
    && (q.priorityFilter != "all" ==> MatchesPriority(q.priorityFilter, t))
    && (q.statusFilter != "all" ==> MatchesStatus(q.statusFilter, t))
  }

  /** A task passes every dashboard filter of `q`. */
  predicate Passes(c: Clock, q: Query, t: Task) {
    PassesSearch(q, t) && MatchesSidebar(c, q.sidebar, t)
  }

  /** The successive filters select, in the original order, exactly the tasks that pass all
      the active predicates at once. */
  lemma {:induction false} SearchFilteredIsOneFilter(q: Query, ts: seq<Task>)
    ensures SearchFiltered(q, ts) == FilterBy(ts, (t: Task) => PassesSearch(q, t))
  {
    var ps := (t: Task) => q.search != [] ==> MatchesSearch(q.search, t);
    var pp := (t: Task) => q.priorityFilter != "all" ==> MatchesPriority(q.priorityFilter, t);
    var pt := (t: Task) => q.statusFilter != "all" ==> MatchesStatus(q.statusFilter, t);
    var psp := (t: Task) => ps(t) && pp(t);
    var all := (t: Task) => PassesSearch(q, t);
    var a := FilterBy(ts, ps);
    if q.search != [] {
      FilterByCongruent(ts, (t: Task) => MatchesSearch(q.search, t), ps);
    } else {
      FilterByKeepsAll(ts, ps);
    }
    var b := FilterBy(a, pp);
    if q.priorityFilter != "all" {
      FilterByCongruent(a, (t: Task) => MatchesPriority(q.priorityFilter, t), pp);
    } else {
      FilterByKeepsAll(a, pp);
    }
    FilterByCompose(ts, ps, pp, psp);
    if q.statusFilter != "all" {
      FilterByCongruent(b, (t: Task) => MatchesStatus(q.statusFilter, t), pt);
    } else {
      FilterByKeepsAll(b, pt);
    }
    FilterByCompose(ts, psp, pt, all);
  }

  /** The same for the dashboard's four filters. */
  lemma {:induction false} FilteredIsOneFilter(c: Clock, q: Query, ts: seq<Task>)
    ensures Filtered(c, q, ts) == FilterBy(ts, (t: Task) => Passes(c, q, t))
  {
    SearchFilteredIsOneFilter(q, ts);
    var ps := (t: Task) => PassesSearch(q, t);
    var pd := (t: Task) => MatchesSidebar(c, q.sidebar, t);
    var b := FilterBy(ts, ps);
    if !(q.sidebar in {"today", "overdue", "completed"}) {
      FilterByKeepsAll(b, pd);
    }
    FilterByCompose(ts, ps, pd, (t: Task) => Passes(c, q, t));
  }

  /** No filter is active: the pages then sort their own state array (`filtered === tasks`). */
  predicate Untouched(q: Query) {
    q.search == [] && q.priorityFilter == "all" && q.statusFilter == "all" &&
    !(q.sidebar in {"today", "overdue", "completed"})
  }

  /** No search, priority or status filter is active: the pages without a sidebar filter
      then sort their own state array. */
  predicate SearchUntouched(q: Query) {
    q.search == [] && q.priorityFilter == "all" && q.statusFilter == "all"
  }

  /** With no active search, priority or status filter the chain returns the list itself. */
  lemma SearchUntouchedIsIdentity(q: Query, ts: seq<Task>)
    ensures SearchUntouched(q) ==> SearchFiltered(q, ts) == ts
  {
  }

  /** With no active filter the dashboard's chain returns the list itself. */
  lemma UntouchedIsIdentity(c: Clock, q: Query, ts: seq<Task>)
    ensures Untouched(q) ==> Filtered(c, q, ts) == ts
  {
  }

  /** A filter's selection is a sub-multiset of the list, holding every copy of each task
      that passes and none of a task that fails. */
  lemma FilteredSelects(c: Clock, q: Query, ts: seq<Task>)
    ensures forall t :: multiset(Filtered(c, q, ts))[t] ==
                        (if Passes(c, q, t) then multiset(ts)[t] else 0)
    ensures forall t :: multiset(SearchFiltered(q, ts))[t] ==
                        (if PassesSearch(q, t) then multiset(ts)[t] else 0)
  {
    FilteredIsOneFilter(c, q, ts);
    SearchFilteredIsOneFilter(q, ts);
  }

  /** The search ignores the case of the query: a query and its upper- or lower-cased
      spelling select the same tasks. */
  lemma SearchIgnoresCase(search: string, t: Task)
    ensures MatchesSearch(Lower(search), t) == MatchesSearch(search, t)
    ensures MatchesSearch(Upper(search), t) == MatchesSearch(search, t)
  {
    LowerIsLower(search);
    assert Lower(Upper(search)) == Lower(search);
  }
}
