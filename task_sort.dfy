/** The pages' `filtered.sort(comparator)`: the comparator of each sort key, the stable sort
    it induces (JavaScript's `Array.prototype.sort` is stable), and the in-place sort of an
    array of tasks. */
module TaskSort {
  import opened Wrappers
  import opened TaskCard
  import opened StableSort

  /** `priorityOrder[p]` of `{ high: 3, medium: 2, low: 1 }`; `undefined` for any other value. */
  function PriorityRank(p: Priority): (r: Option<int>)
    ensures r.Some? <==> KnownPriority(p)
  {
    match p
    case High => Some(3)
    case Medium => Some(2)
    case Low => Some(1)
    case OtherPriority(_) => None
  }

  /** `comparator(a, b) <= 0`: `a` may stay in front of `b`. `leq(x, y)` stands for
      `x.localeCompare(y) <= 0`. A comparator that returns NaN (an undefined priority rank)
      counts as 0, and an unknown key's comparator returns 0. */
  predicate Before(key: string, leq: (string, string) -> bool, a: Task, b: Task) {
    if key == "dueDate" then a.due <= b.due
    else if key == "priority" then
      (PriorityRank(a.priority).Some? && PriorityRank(b.priority).Some? ==>
         PriorityRank(b.priority).value <= PriorityRank(a.priority).value)
    else if key == "status" then leq(StatusName(a.status), StatusName(b.status))
    else if key == "title" then leq(a.title, b.title)
    else true
  }

  /** The comparator of `key` as a "may stay in front of" relation. */
  function Comparator(key: string, leq: (string, string) -> bool): (Task, Task) -> bool {
    (a: Task, b: Task) => Before(key, leq, a, b)
  }

  /** `localeCompare` orders strings as a total preorder. */
  ghost predicate StringOrder(leq: (string, string) -> bool) {
    && (forall x, y :: leq(x, y) || leq(y, x))
    && (forall x, y, z :: leq(x, y) && leq(y, z) ==> leq(x, z))
  }

  /** Which keys give a consistent comparator: due date always; priority when every
      priority is recognised; status and title when `localeCompare` is a total preorder;
      and an unknown key, whose comparator is constantly 0. */
  lemma KeysConsistent(key: string, leq: (string, string) -> bool, s: seq<Task>)
    requires key == "priority" ==> forall i :: 0 <= i < |s| ==> KnownPriority(s[i].priority)
    requires key == "status" || key == "title" ==> StringOrder(leq)
    ensures ConsistentOn(Comparator(key, leq), s)
  {
  }

  /** Sorting by any key keeps the tasks (a permutation) and, whenever the key's comparator
      is consistent, puts them in order: due date ascending, priority from high to low,
      status or title in `localeCompare` order. */
  lemma SortTasksOrders(key: string, leq: (string, string) -> bool, s: seq<Task>)
    requires key == "priority" ==> forall i :: 0 <= i < |s| ==> KnownPriority(s[i].priority)
    requires key == "status" || key == "title" ==> StringOrder(leq)
    ensures var r := SortBy(Comparator(key, leq), s);
      && multiset(r) == multiset(s)
      && (key == "dueDate" ==> forall i, j :: 0 <= i < j < |r| ==> r[i].due <= r[j].due)
      && (key == "priority" ==> forall i, j :: 0 <= i < j < |r| ==>
            PriorityRank(r[j].priority).GetOr(0) <= PriorityRank(r[i].priority).GetOr(0))
      && (key == "title" ==> forall i, j :: 0 <= i < j < |r| ==> leq(r[i].title, r[j].title))
      && (key == "status" ==> forall i, j :: 0 <= i < j < |r| ==>
            leq(StatusName(r[i].status), StatusName(r[j].status)))
  {
    KeysConsistent(key, leq, s);
    SortBySorted(Comparator(key, leq), s);
    var r := SortBy(Comparator(key, leq), s);
    if key == "priority" {
      forall i | 0 <= i < |r| ensures KnownPriority(r[i].priority) {
        assert r[i] in multiset(s);
      }
    }
  }

  /** An unknown key leaves the list as it is. */
  lemma UnknownKeyKeepsOrder(key: string, leq: (string, string) -> bool, s: seq<Task>)
    requires key !in {"dueDate", "priority", "status", "title"}
    ensures SortBy(Comparator(key, leq), s) == s
  {
    SortBySortedIsIdentity(Comparator(key, leq), s);
  }

  /** With an unrecognised priority the comparator is not transitive: a low task may stay in
      front of an unranked one, and that one in front of a high task, but the low task may
      not stay in front of the high one. */
  lemma UnrankedPriorityIsInconsistent(leq: (string, string) -> bool, low: Task, odd: Task, high: Task)
    requires low.priority == Low && high.priority == High && !KnownPriority(odd.priority)
    ensures Before("priority", leq, low, odd) && Before("priority", leq, odd, high)
    ensures !Before("priority", leq, low, high)
    ensures !ConsistentOn(Comparator("priority", leq), [low, odd, high])
  {
    assert low in [low, odd, high] && odd in [low, odd, high] && high in [low, odd, high];
  }

  /** `filtered.sort(comparator)` on the array itself. */
  method SortTasks(a: array<Task>, key: string, leq: (string, string) -> bool)
    modifies a
    ensures a[..] == SortBy(Comparator(key, leq), old(a[..]))
  {
    SortInPlace(a, Comparator(key, leq));
  }
}
