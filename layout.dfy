/** The application frame: the rows it reads only to feed the sidebar's counters, those
    counters, and the open/closed state of the mobile sidebar and the notifications dialog. */
module Layout {
  import opened Wrappers
  import opened Seqs
  import opened Store
  import opened TaskCard
  import opened TaskViews
  import opened Counters

  /** `.filter(Boolean)` on the joined tasks: the non-null ones, in order, each as often
      as it was joined. */
  function NonNull(joined: seq<Option<TaskRow>>): (r: seq<TaskRow>)
    ensures |r| <= |joined|
    ensures forall x :: x in r <==> Some(x) in joined
    ensures forall x :: multiset(r)[x] == multiset(joined)[Some(x)]
  {
    if |joined| == 0 then []
    else
      var rest := NonNull(joined[1..]);
      assert joined == [joined[0]] + joined[1..];
      assert forall x :: Some(x) in joined <==> joined[0] == Some(x) || Some(x) in joined[1..];
      if joined[0].Some? then [joined[0].value] + rest else rest
  }

  /** `filter(Boolean)` works element by element: on two parts joined it is the two
      results joined, so the surviving tasks keep their relative order. */
  lemma {:induction false} NonNullAppend(a: seq<Option<TaskRow>>, b: seq<Option<TaskRow>>)
    ensures NonNull(a + b) == NonNull(a) + NonNull(b)
  {
    if |a| == 0 {
      assert a + b == b;
    } else {
      assert (a + b)[0] == a[0];
      assert (a + b)[1..] == a[1..] + b;
      NonNullAppend(a[1..], b);
    }
  }

  /** A null join is dropped and a present one kept. */
  lemma NonNullSingle(o: Option<TaskRow>)
    ensures NonNull([o]) == if o.Some? then [o.value] else []
  {
    assert [o][1..] == [];
  }

  /** A read whose error is not looked at: its data, or nothing. */
  function DataOr<T>(reply: ReadReply<seq<T>>): seq<T> {
    if reply.Rows? then reply.value else []
  }

  /** `[...(ownedTasks || []), ...sharedTasks]`: a failed read counts as an empty one. */
  function Combined(owned: ReadReply<seq<TaskRow>>, shared: ReadReply<seq<Option<TaskRow>>>): (r: seq<TaskRow>)
    ensures |DataOr(owned)| <= |r| <= |DataOr(owned)| + |DataOr(shared)|
    ensures r[..|DataOr(owned)|] == DataOr(owned)
    ensures forall x :: x in r[|DataOr(owned)|..] <==> Some(x) in DataOr(shared)
    ensures r[|DataOr(owned)|..] == NonNull(DataOr(shared))
    ensures forall x :: multiset(r[|DataOr(owned)|..])[x] == multiset(DataOr(shared))[Some(x)]
  {
    var a := DataOr(owned);
    var b := NonNull(DataOr(shared));
    assert (a + b)[|a|..] == b;
    a + b
  }

  /** The frame's counters on raw rows. */
  predicate RowOpenToday(c: Clock, r: TaskRow) {
    IsToday(c, r.dueDate) && r.status != "completed"
  }

  predicate RowOpenOverdue(c: Clock, r: TaskRow) {
    IsPast(c, r.dueDate) && r.status != "completed"
  }

  predicate RowCompleted(r: TaskRow) {
    r.status == "completed"
  }

  /** The frame's `taskCounts`, passed to the sidebar. */
  function RowCounts(c: Clock, rows: seq<TaskRow>): (k: TaskCounts)
    ensures k.all == |rows|
    ensures k.today + k.completed <= k.all && k.overdue + k.completed <= k.all
  {
    FilterByDisjoint(rows, (r: TaskRow) => RowOpenToday(c, r), RowCompleted);
    FilterByDisjoint(rows, (r: TaskRow) => RowOpenOverdue(c, r), RowCompleted);
    TaskCounts(|rows|,
               |FilterBy(rows, (r: TaskRow) => RowOpenToday(c, r))|,
               |FilterBy(rows, (r: TaskRow) => RowOpenOverdue(c, r))|,
               |FilterBy(rows, RowCompleted)|)
  }

  /** A task list built from rows, entry by entry. */
  predicate ViewsOf(rows: seq<TaskRow>, views: seq<Task>) {
    |rows| == |views| &&
    forall i :: 0 <= i < |rows| ==> views[i].due == rows[i].dueDate && views[i].status == ParseStatus(rows[i].status)
  }

  lemma ViewCounts(c: Clock, rows: seq<TaskRow>, views: seq<Task>)
    requires ViewsOf(rows, views)
    ensures RowCounts(c, rows) == Counts(c, views)
  {
    var rt, vt := (r: TaskRow) => RowOpenToday(c, r), (t: Task) => OpenDueToday(c, t);
    var ro, vo := (r: TaskRow) => RowOpenOverdue(c, r), (t: Task) => OpenOverdue(c, t);
    forall i | 0 <= i < |rows|
      ensures rt(rows[i]) == vt(views[i]) && ro(rows[i]) == vo(views[i])
      ensures RowCompleted(rows[i]) == IsCompleted(views[i])
    {
      CompletedSpelling(rows[i].status);
    }
    FilterByAligned(rows, views, rt, vt);
    FilterByAligned(rows, views, ro, vo);
    FilterByAligned(rows, views, RowCompleted, IsCompleted);
  }

  lemma CompletedSpelling(raw: string)
    ensures ParseStatus(raw) == Completed <==> raw == "completed"
  {
  }

  /** When both reads succeed and no join is null, the frame's counters and the dashboard's
      count the same tasks the same way, although one works on raw rows and the other on the
      annotated list. */
  lemma CountersAgree(c: Clock, owned: seq<TaskRow>, shares: seq<ShareRow>)
    ensures RowCounts(c, Combined(Rows(owned), Rows(MapSeq(shares, (s: ShareRow) => Some(s.task))))) ==
            Counts(c, MergeViews(owned, shares))
  {
    AllJoined(shares);
    MergedViewsOf(owned, shares);
    ViewCounts(c, owned + MapSeq(shares, (s: ShareRow) => s.task), MergeViews(owned, shares));
  }

  /** The dashboard's statistics cards and the frame's sidebar counters agree when both are
      computed from the same rows read at the same time with no null join. */
  lemma CardsAgreeWithSidebar(c: Clock, owned: seq<TaskRow>, shares: seq<ShareRow>)
    ensures var k := RowCounts(c, Combined(Rows(owned), Rows(MapSeq(shares, (s: ShareRow) => Some(s.task)))));
            var r := ComputeStats(c, MergeViews(owned, shares));
            r.total == k.all && r.completed == k.completed && r.dueToday == k.today && r.overdue == k.overdue
  {
    CountersAgree(c, owned, shares);
    StatsAgreeWithCounts(c, MergeViews(owned, shares));
  }

  lemma MergedViewsOf(owned: seq<TaskRow>, shares: seq<ShareRow>)
    ensures ViewsOf(owned + MapSeq(shares, (s: ShareRow) => s.task), MergeViews(owned, shares))
  {
    var tasks := MapSeq(shares, (s: ShareRow) => s.task);
    assert ViewsOf(owned, OwnedViews(owned));
    assert ViewsOf(tasks, SharedViews(shares));
    ViewsOfConcat(owned, OwnedViews(owned), tasks, SharedViews(shares));
  }

  lemma ViewsOfConcat(r1: seq<TaskRow>, v1: seq<Task>, r2: seq<TaskRow>, v2: seq<Task>)
    requires ViewsOf(r1, v1) && ViewsOf(r2, v2)
    ensures ViewsOf(r1 + r2, v1 + v2)
  {
    var rows, views := r1 + r2, v1 + v2;
    forall i | 0 <= i < |rows|
      ensures views[i].due == rows[i].dueDate && views[i].status == ParseStatus(rows[i].status)
    {
      if i < |r1| {
        assert views[i] == v1[i] && rows[i] == r1[i];
      } else {
        assert views[i] == v2[i - |r1|] && rows[i] == r2[i - |r1|];
      }
    }
  }

  /** With no null join, `filter(Boolean)` keeps every joined task. */
  lemma {:induction false} AllJoined(shares: seq<ShareRow>)
    ensures NonNull(MapSeq(shares, (s: ShareRow) => Some(s.task))) == MapSeq(shares, (s: ShareRow) => s.task)
  {
    if |shares| > 0 {
      AllJoined(shares[1..]);
      assert MapSeq(shares, (s: ShareRow) => Some(s.task))[1..] == MapSeq(shares[1..], (s: ShareRow) => Some(s.task));
      assert MapSeq(shares, (s: ShareRow) => s.task) ==
             [shares[0].task] + MapSeq(shares[1..], (s: ShareRow) => s.task);
    }
  }

  /** The frame's state. Nothing in the frame ever sets `notificationsOpen` to true: the
      constructor starts it false and every method either keeps it or sets it false, so the
      notifications dialog stays closed. */
  class ResponsiveLayout {
    var tasks: seq<TaskRow>
    var sidebarOpen: bool
    var notificationsOpen: bool

    constructor()
      ensures tasks == [] && !sidebarOpen && !notificationsOpen
    {
      tasks := [];
      sidebarOpen := false;
      notificationsOpen := false;
    }

    /** `fetchTasks`: both reads, with their errors ignored, then the combined list. */
    method FetchTasks(owned: ReadReply<seq<TaskRow>>, shared: ReadReply<seq<Option<TaskRow>>>)
      modifies this
      ensures tasks == Combined(owned, shared)
      ensures sidebarOpen == old(sidebarOpen) && notificationsOpen == old(notificationsOpen)
    {
      tasks := Combined(owned, shared);
    }

    /** The menu button. */
    method OpenSidebar()
      modifies this
      ensures sidebarOpen && tasks == old(tasks) && notificationsOpen == old(notificationsOpen)
    {
      sidebarOpen := true;
    }

    /** `closeSidebar`: the overlay, the close button, and the sidebar's own callbacks. */
    method CloseSidebar()
      modifies this
      ensures !sidebarOpen && tasks == old(tasks) && notificationsOpen == old(notificationsOpen)
    {
      sidebarOpen := false;
    }

    /** The dialog's `onClose`, the only place the frame changes `isNotificationOpen`. */
    method CloseNotifications()
      modifies this
      ensures !notificationsOpen && tasks == old(tasks) && sidebarOpen == old(sidebarOpen)
    {
      notificationsOpen := false;
    }
  }
}
