/** Turning store rows into the pages' task list, and the local patches the pages apply to
    that list after a successful write. */
module TaskViews {
  import opened Wrappers
  import opened Seqs
  import opened Store
  import opened TaskCard

  /** The pages' row transform: `description || ''`, the casts of priority and status, and
      the two capability flags chosen by the caller. The casts lose nothing: the stored
      spelling of priority and status reads back from the parsed values. */
  function FromRow(r: TaskRow, canEdit: bool, isShared: bool): (t: Task)
    ensures PriorityName(t.priority) == r.priority && StatusName(t.status) == r.status
    ensures r.description.Some? ==> t.description == r.description.value
  {
    Task(r.id, r.title, r.description.GetOr([]), r.dueDate, ParsePriority(r.priority),
         ParseStatus(r.status), Some(r.createdAt), Some(isShared), Some(canEdit))
  }

  /** The owner's own rows: editable, not shared, same order and length. */
  function OwnedViews(rows: seq<TaskRow>): (r: seq<Task>)
    ensures |r| == |rows|
    ensures forall i :: 0 <= i < |r| ==> r[i] == FromRow(rows[i], true, false)
  {
    MapSeq(rows, (row: TaskRow) => FromRow(row, true, false))
  }

  /** Rows shared with the viewer: shared, and editable exactly when the permission is "edit". */
  function SharedViews(shares: seq<ShareRow>): (r: seq<Task>)
    ensures |r| == |shares|
    ensures forall i :: 0 <= i < |r| ==>
      r[i] == FromRow(shares[i].task, shares[i].permission == "edit", true)
  {
    MapSeq(shares, (s: ShareRow) => FromRow(s.task, s.permission == "edit", true))
  }

  /** The dashboard's combined list: every owned row in store order, then every share row. */
  function MergeViews(owned: seq<TaskRow>, shares: seq<ShareRow>): seq<Task> {
    OwnedViews(owned) + SharedViews(shares)
  }

  /** The merged list has one entry per owned row and one per share row (the `filter(Boolean)`
      after `map` drops nothing); owned entries come first and are editable and unshared;
      shared entries are marked shared and editable exactly with the "edit" permission. */
  lemma MergeViewsShape(owned: seq<TaskRow>, shares: seq<ShareRow>)
    ensures var m := MergeViews(owned, shares);
      && |m| == |owned| + |shares|
      && (forall i :: 0 <= i < |owned| ==>
            m[i].id == owned[i].id && m[i].canEdit == Some(true) && m[i].isShared == Some(false))
      && (forall j :: 0 <= j < |shares| ==>
            m[|owned| + j].id == shares[j].task.id &&
            m[|owned| + j].isShared == Some(true) &&
            (m[|owned| + j].canEdit == Some(true) <==> shares[j].permission == "edit"))
  {
  }

  /** The index of the first task with this id, or -1: `Array.prototype.findIndex`. */
  function FirstIndex(ts: seq<Task>, id: string): (k: int)
    ensures -1 <= k < |ts|
    ensures k == -1 <==> forall i :: 0 <= i < |ts| ==> ts[i].id != id
    ensures k >= 0 ==> ts[k].id == id && forall i :: 0 <= i < k ==> ts[i].id != id
  {
    if |ts| == 0 then -1
    else if ts[0].id == id then 0
    else
      var k := FirstIndex(ts[1..], id);
      if k == -1 then -1 else k + 1
  }

  /** `tasks.find(t => t.id === id)`: the first task with that id. */
  function FindById(ts: seq<Task>, id: string): (r: Option<Task>)
    ensures r.None? <==> forall i :: 0 <= i < |ts| ==> ts[i].id != id
    ensures r.Some? ==> r.value.id == id && r.value in ts
  {
    var k := FirstIndex(ts, id);
    if k == -1 then None else Some(ts[k])
  }

  /** The capability check `!task.canEdit` of the page handlers: only an explicit `true`
      passes. */
  predicate MayEdit(t: Task) {
    t.canEdit == Some(true)
  }

  /** The card and the page handlers disagree on a task whose flag is absent: the card
      offers its controls, the handlers refuse them. On present flags they agree. */
  lemma CardAndHandlerDisagree(t: Task)
    ensures MayEdit(t) ==> CardCanEdit(t)
    ensures t.canEdit.Some? ==> (MayEdit(t) <==> CardCanEdit(t))
    ensures t.canEdit == None ==> CardCanEdit(t) && !MayEdit(t)
  {
    if t.canEdit.Some? {
      var b := t.canEdit.value;
      assert t.canEdit == Some(b);
    }
  }

  /** The toggle handler's target: a completed task reopens, anything else completes. */
  function Toggled(s: Status): (r: Status)
    ensures r == Pending <==> s == Completed
    ensures r == Completed <==> s != Completed
  {
    if s == Completed then Pending else Completed
  }

  /** `prev.map(t => t.id === id ? { ...t, status } : t)`. */
  function WithStatus(ts: seq<Task>, id: string, s: Status): (r: seq<Task>)
    ensures |r| == |ts|
    ensures forall i :: 0 <= i < |ts| ==> ts[i].id != id ==> r[i] == ts[i]
    ensures forall i :: 0 <= i < |ts| ==> ts[i].id == id ==>
      r[i].status == s && r[i].(status := ts[i].status) == ts[i]
  {
    MapSeq(ts, (t: Task) => if t.id == id then t.(status := s) else t)
  }

  /** The edited task: the five form fields, the original id and creation time, and the
      capability flags either kept (`keepFlags`) or forced to "owned". */
  function ApplyDraft(t: Task, d: TaskDraft, id: string, keepFlags: bool): Task {
    Task(id, d.title, d.description, d.due, d.priority, d.status, t.createdAt,
         if keepFlags then t.isShared else Some(false),
         if keepFlags then t.canEdit else Some(true))
  }

  /** `prev.map(task => task.id === id ? { ...draft, id, createdAt: task.createdAt, ... } : task)`. */
  function Edited(ts: seq<Task>, id: string, d: TaskDraft, keepFlags: bool): (r: seq<Task>)
    ensures |r| == |ts|
    ensures forall i :: 0 <= i < |ts| ==> ts[i].id != id ==> r[i] == ts[i]
    ensures forall i :: 0 <= i < |ts| ==> ts[i].id == id ==>
      && r[i].id == id && r[i].createdAt == ts[i].createdAt
      && TaskDraft(r[i].title, r[i].description, r[i].due, r[i].priority, r[i].status) == d
      && (keepFlags ==> r[i].canEdit == ts[i].canEdit && r[i].isShared == ts[i].isShared)
      && (!keepFlags ==> r[i].canEdit == Some(true) && r[i].isShared == Some(false))
  {
    MapSeq(ts, (t: Task) => if t.id == id then ApplyDraft(t, d, id, keepFlags) else t)
  }

  /** `prev.filter(t => t.id !== id)`. */
  function Removed(ts: seq<Task>, id: string): (r: seq<Task>)
    ensures forall i :: 0 <= i < |r| ==> r[i].id != id
    ensures forall t: Task :: t.id != id ==> multiset(r)[t] == multiset(ts)[t]
    ensures |r| <= |ts|
  {
    FilterBy(ts, (t: Task) => t.id != id)
  }

  /** Removing an id that is not in the list changes nothing, and removing it twice is the
      same as removing it once. */
  lemma RemovedFacts(ts: seq<Task>, id: string)
    ensures (forall i :: 0 <= i < |ts| ==> ts[i].id != id) ==> Removed(ts, id) == ts
    ensures Removed(Removed(ts, id), id) == Removed(ts, id)
  {
    var p := (t: Task) => t.id != id;
    if forall i :: 0 <= i < |ts| ==> ts[i].id != id {
      FilterByKeepsAll(ts, p);
    }
    FilterByKeepsAll(Removed(ts, id), p);
  }

  /** `prev.map(task => task.id === u.id ? u : task)`. */
  function Replaced(ts: seq<Task>, u: Task): (r: seq<Task>)
    ensures |r| == |ts|
    ensures forall i :: 0 <= i < |ts| ==> r[i] == (if ts[i].id == u.id then u else ts[i])
  {
    MapSeq(ts, (t: Task) => if t.id == u.id then u else t)
  }

  /** A status patch with the status a task already has leaves the list as it is, and two
      status patches of the same id are the last one. */
  lemma WithStatusFacts(ts: seq<Task>, id: string, s: Status, s2: Status)
    ensures (forall i :: 0 <= i < |ts| ==> ts[i].id == id ==> ts[i].status == s) ==>
      WithStatus(ts, id, s) == ts
    ensures WithStatus(WithStatus(ts, id, s), id, s2) == WithStatus(ts, id, s2)
  {
  }

  /** An edit that writes back a task's own fields leaves the list as it is, when the flags
      are kept: saving an untouched edit form changes nothing locally. */
  lemma EditedUntouched(ts: seq<Task>, t: Task)
    requires forall i :: 0 <= i < |ts| ==> ts[i].id == t.id ==> ts[i] == t
    ensures Edited(ts, t.id, TaskDraft(t.title, t.description, t.due, t.priority, t.status), true) == ts
  {
  }
}
