/** The derived counters on a task list: the dashboard's `taskCounts`, which the page
    computes but never shows, and the figures of the statistics cards. Each is the length
    of a filter of the task list. */
module Counters {
  import opened Wrappers
  import opened Seqs
  import opened TaskCard

  /** `isToday(task.dueDate) && task.status !== 'completed'`. */
  predicate OpenDueToday(c: Clock, t: Task) {
    IsToday(c, t.due) && t.status != Completed
  }

  /** `isPast(task.dueDate) && task.status !== 'completed'`. */
  predicate OpenOverdue(c: Clock, t: Task) {
    IsPast(c, t.due) && t.status != Completed
  }

  predicate IsCompleted(t: Task) {
    t.status == Completed
  }

  predicate IsInProgress(t: Task) {
    t.status == InProgress
  }

  predicate IsPending(t: Task) {
    t.status == Pending
  }

  /** The dashboard's `taskCounts`: computed on the page's list and passed nowhere. */
  datatype TaskCounts = TaskCounts(all: nat, today: nat, overdue: nat, completed: nat)

  function Counts(c: Clock, ts: seq<Task>): (r: TaskCounts)
    ensures r.all == |ts|
    ensures r.today + r.completed <= r.all && r.overdue + r.completed <= r.all
  {
    var completed := FilterBy(ts, IsCompleted);
    var today := FilterBy(ts, (t: Task) => OpenDueToday(c, t));
    var overdue := FilterBy(ts, (t: Task) => OpenOverdue(c, t));
    FilterByDisjoint(ts, (t: Task) => OpenDueToday(c, t), IsCompleted);
    FilterByDisjoint(ts, (t: Task) => OpenOverdue(c, t), IsCompleted);
    TaskCounts(|ts|, |today|, |overdue|, |completed|)
  }

  /** "Today" and "overdue" are not exclusive: an open task due earlier today is counted by
      both, so the two counters and the completed one can add up to more than the list. */
  lemma TodayAndOverdueOverlap(c: Clock, t: Task)
    requires t.status != Completed && t.due < c.now && c.dayOf(t.due) == c.dayOf(c.now)
    ensures OpenDueToday(c, t) && OpenOverdue(c, t)
    ensures var k := Counts(c, [t]); k.today == 1 && k.overdue == 1 && k.today + k.overdue > k.all
  {
    assert [t][1..] == [];
  }

  /** The counters depend only on which tasks the list holds, not on their order: sorting the
      state array in place changes none of them. */
  lemma CountsIgnoreOrder(c: Clock, a: seq<Task>, b: seq<Task>)
    requires multiset(a) == multiset(b)
    ensures Counts(c, a) == Counts(c, b)
  {
    assert |a| == |multiset(a)| == |multiset(b)| == |b|;
    FilterByPermutation(a, b, IsCompleted);
    FilterByPermutation(a, b, (t: Task) => OpenDueToday(c, t));
    FilterByPermutation(a, b, (t: Task) => OpenOverdue(c, t));
  }

  /** The statistics cards' figures. */
  datatype Stats = Stats(
    total: nat,
    completed: nat,
    inProgress: nat,
    pending: nat,
    dueToday: nat,
    overdue: nat,
    sharedWithMe: nat)

  /** `task.isShared` is truthy. */
  predicate SharedWithMe(t: Task) {
    t.isShared == Some(true)
  }

  /** The `stats` object of the statistics cards. */
  function ComputeStats(c: Clock, ts: seq<Task>): (r: Stats)
    ensures r.total == |ts|
    ensures r.dueToday + r.completed <= r.total && r.overdue + r.completed <= r.total
    ensures r.sharedWithMe <= r.total
  {
    FilterByDisjoint(ts, (t: Task) => OpenDueToday(c, t), IsCompleted);
    FilterByDisjoint(ts, (t: Task) => OpenOverdue(c, t), IsCompleted);
    Stats(
      |ts|,
      |FilterBy(ts, IsCompleted)|,
      |FilterBy(ts, IsInProgress)|,
      |FilterBy(ts, IsPending)|,
      |FilterBy(ts, (t: Task) => OpenDueToday(c, t))|,
      |FilterBy(ts, (t: Task) => OpenOverdue(c, t))|,
      |FilterBy(ts, SharedWithMe)|)
  }

  /** The "active" figure of the Total card. */
  function ActiveCount(s: Stats): nat {
    s.pending + s.inProgress
  }

  /** The three status counts never exceed the total, and add up to it exactly when every
      status is one of the three recognised ones; "active" is then the non-completed rest. */
  lemma StatusCountsPartition(c: Clock, ts: seq<Task>)
    ensures var r := ComputeStats(c, ts); r.completed + r.inProgress + r.pending <= r.total
    ensures (forall i :: 0 <= i < |ts| ==> KnownStatus(ts[i].status)) ==>
      var r := ComputeStats(c, ts);
      && r.completed + r.inProgress + r.pending == r.total
      && ActiveCount(r) == r.total - r.completed
  {
    StatusFilters(ts);
  }

  lemma {:induction false} StatusFilters(ts: seq<Task>)
    ensures |FilterBy(ts, IsCompleted)| + |FilterBy(ts, IsInProgress)| + |FilterBy(ts, IsPending)| <= |ts|
    ensures (forall i :: 0 <= i < |ts| ==> KnownStatus(ts[i].status)) ==>
      |FilterBy(ts, IsCompleted)| + |FilterBy(ts, IsInProgress)| + |FilterBy(ts, IsPending)| == |ts|
  {
    if |ts| > 0 {
      StatusFilters(ts[1..]);
      FilterByCons(ts, IsCompleted);
      FilterByCons(ts, IsInProgress);
      FilterByCons(ts, IsPending);
      if forall i :: 0 <= i < |ts| ==> KnownStatus(ts[i].status) {
        KnownTail(ts);
      }
    }
  }

  /** A recognised status is exactly one of the three. */
  lemma KnownTail(ts: seq<Task>)
    requires |ts| > 0 && forall i :: 0 <= i < |ts| ==> KnownStatus(ts[i].status)
    ensures forall i :: 0 <= i < |ts[1..]| ==> KnownStatus(ts[1..][i].status)
    ensures (if IsCompleted(ts[0]) then 1 else 0) + (if IsInProgress(ts[0]) then 1 else 0) +
            (if IsPending(ts[0]) then 1 else 0) == 1
  {
    assert KnownStatus(ts[0].status);
  }

  /** The cards count the same things as the page's unused `taskCounts`. They agree with
      the sidebar, which shows the frame's counts, only through `Layout.CardsAgreeWithSidebar`
      on the same rows. */
  lemma StatsAgreeWithCounts(c: Clock, ts: seq<Task>)
    ensures var r := ComputeStats(c, ts); var k := Counts(c, ts);
      r.total == k.all && r.completed == k.completed && r.dueToday == k.today && r.overdue == k.overdue
  {
  }

  /** Every entry the dashboard built from the owner's rows is unshared, so on a list of
      such entries "shared with me" is 0. */
  lemma NothingSharedAmongOwned(c: Clock, ts: seq<Task>)
    requires forall i :: 0 <= i < |ts| ==> ts[i].isShared == Some(false)
    ensures ComputeStats(c, ts).sharedWithMe == 0
  {
    FilterByDropsAll(ts, SharedWithMe);
  }
}
