/** The task record shared by every page, and the pure logic of the task card: the status
    cycle, the button label, the badge colours, and which controls a card offers. */
module TaskCard {
  import opened Wrappers

  /** A task priority. The store hands back a string which the code casts without checking,
      so an unrecognised string survives as `OtherPriority`. */
  datatype Priority = Low | Medium | High | OtherPriority(name: string)

  /** A task status, with the same escape hatch for unrecognised strings. */
  datatype Status = Pending | InProgress | Completed | OtherStatus(name: string)

  function PriorityName(p: Priority): string {
    match p
    case Low => "low"
    case Medium => "medium"
    case High => "high"
    case OtherPriority(n) => n
  }

  function StatusName(s: Status): string {
    match s
    case Pending => "pending"
    case InProgress => "in-progress"
    case Completed => "completed"
    case OtherStatus(n) => n
  }

  predicate KnownPriority(p: Priority) {
    !p.OtherPriority?
  }

  predicate KnownStatus(s: Status) {
    !s.OtherStatus?
  }

  /** An `Other` value never spells one of the recognised names. */
  predicate CanonicalPriority(p: Priority) {
    p.OtherPriority? ==> p.name != "low" && p.name != "medium" && p.name != "high"
  }

  predicate CanonicalStatus(s: Status) {
    s.OtherStatus? ==> s.name != "pending" && s.name != "in-progress" && s.name != "completed"
  }

  /** `raw as 'low' | 'medium' | 'high'`: the value keeps its spelling. */
  function ParsePriority(raw: string): (p: Priority)
    ensures PriorityName(p) == raw && CanonicalPriority(p)
  {
    if raw == "low" then Low
    else if raw == "medium" then Medium
    else if raw == "high" then High
    else OtherPriority(raw)
  }

  /** `raw as 'pending' | 'in-progress' | 'completed'`: the value keeps its spelling. */
  function ParseStatus(raw: string): (s: Status)
    ensures StatusName(s) == raw && CanonicalStatus(s)
  {
    if raw == "pending" then Pending
    else if raw == "in-progress" then InProgress
    else if raw == "completed" then Completed
    else OtherStatus(raw)
  }

  /** Parsing a canonical value's name gives the value back. */
  lemma ParseName(p: Priority, s: Status)
    requires CanonicalPriority(p) && CanonicalStatus(s)
    ensures ParsePriority(PriorityName(p)) == p
    ensures ParseStatus(StatusName(s)) == s
  {
  }

  /** Two canonical statuses are equal exactly when their strings are: comparing the enum is
      comparing the strings the source compares with `===`. */
  lemma StatusNameInjective(a: Status, b: Status)
    requires CanonicalStatus(a) && CanonicalStatus(b)
    ensures a == b <==> StatusName(a) == StatusName(b)
  {
    if StatusName(a) == StatusName(b) {
      ParseName(Low, a);
      ParseName(Low, b);
    }
  }

  /** The task as the pages hold it. `due` and `createdAt` are instants; the three optional
      fields are optional in the source's interface. */
  datatype Task = Task(
    id: string,
    title: string,
    description: string,
    due: int,
    priority: Priority,
    status: Status,
    createdAt: Option<int>,
    isShared: Option<bool>,
    canEdit: Option<bool>)

  /** What the task form produces: the task without an id or any of the optional fields. */
  datatype TaskDraft = TaskDraft(
    title: string,
    description: string,
    due: int,
    priority: Priority,
    status: Status)

  /** The current instant and the calendar day (in the viewer's time zone) of any instant. */
  datatype Clock = Clock(now: int, dayOf: int -> int)

  /** date-fns `isToday`. */
  predicate IsToday(c: Clock, t: int) {
    c.dayOf(t) == c.dayOf(c.now)
  }

  /** date-fns `isPast`: strictly before now. */
  predicate IsPast(c: Clock, t: int) {
    t < c.now
  }

  /** A later instant never falls on an earlier day. */
  ghost predicate DaysMonotone(c: Clock) {
    forall a, b :: a <= b ==> c.dayOf(a) <= c.dayOf(b)
  }

  /** A due date on an earlier calendar day than today is in the past and not today. */
  lemma EarlierDayIsPast(c: Clock, t: int)
    requires DaysMonotone(c)
    requires c.dayOf(t) < c.dayOf(c.now)
    ensures IsPast(c, t) && !IsToday(c, t)
  {
    assert c.now <= t ==> c.dayOf(c.now) <= c.dayOf(t);
  }

  /** `getNextStatus`: the status the card's button moves to. */
  function NextStatus(s: Status): (r: Status)
    ensures KnownStatus(r)
  {
    match s
    case Pending => InProgress
    case InProgress => Completed
    case Completed => Pending
    case OtherStatus(_) => Pending
  }

  /** On the three recognised statuses the button walks a cycle of length three. */
  lemma NextStatusCycle(s: Status)
    requires KnownStatus(s)
    ensures NextStatus(s) != s && NextStatus(NextStatus(s)) != s
    ensures NextStatus(NextStatus(NextStatus(s))) == s
  {
  }

  /** `getStatusLabel`: the caption of the status button. */
  function StatusLabel(s: Status): string {
    match s
    case Pending => "Start"
    case InProgress => "Complete"
    case Completed => "Reopen"
    case OtherStatus(_) => "Update"
  }

  /** The label is the generic "Update" exactly for unrecognised statuses, and names the
      step the button takes otherwise. */
  lemma StatusLabelMeaning(s: Status)
    ensures StatusLabel(s) == "Start" <==> s == Pending
    ensures StatusLabel(s) == "Update" <==> !KnownStatus(s)
    ensures StatusLabel(s) == "Complete" <==> NextStatus(s) == Completed
    ensures StatusLabel(s) == "Reopen" <==> s == Completed
  {
  }

  /** The colour families the badges use. */
  datatype Hue = Red | Yellow | Green | Blue | Gray

  /** The badge class string of a colour family. */
  function BadgeClasses(h: Hue): string {
    match h
    case Red => "bg-red-100 text-red-800 border-red-200"
    case Yellow => "bg-yellow-100 text-yellow-800 border-yellow-200"
    case Green => "bg-green-100 text-green-800 border-green-200"
    case Blue => "bg-blue-100 text-blue-800 border-blue-200"
    case Gray => "bg-gray-100 text-gray-800 border-gray-200"
  }

  /** `getPriorityColor`, by colour family. */
  function PriorityHue(p: Priority): Hue {
    match p
    case High => Red
    case Medium => Yellow
    case Low => Green
    case OtherPriority(_) => Gray
  }

  /** `getStatusColor`, by colour family. */
  function StatusHue(s: Status): Hue {
    match s
    case Completed => Green
    case InProgress => Blue
    case Pending => Gray
    case OtherStatus(_) => Gray
  }

  /** Both colour mappings are total; unrecognised values are gray, and the recognised
      priorities get pairwise different colours. */
  lemma HueFallbacks(p: Priority, s: Status)
    ensures !KnownPriority(p) ==> PriorityHue(p) == Gray
    ensures !KnownStatus(s) ==> StatusHue(s) == Gray
    ensures KnownPriority(p) ==> PriorityHue(p) != Gray
    ensures StatusHue(s) == Gray <==> (s == Pending || !KnownStatus(s))
  {
  }

  /** `task.canEdit !== false`: an absent flag counts as editable on the card. */
  predicate CardCanEdit(t: Task) {
    t.canEdit != Some(false)
  }

  /** `isPast(task.dueDate) && task.status !== 'completed'`. */
  predicate IsOverdue(c: Clock, t: Task) {
    IsPast(c, t.due) && t.status != Completed
  }

  /** `isToday(task.dueDate)`: the status plays no part here. */
  predicate IsDueToday(c: Clock, t: Task) {
    IsToday(c, t.due)
  }

  /** The colour of the due-date line: red when overdue, else orange when due today. */
  datatype DueTone = OverdueTone | TodayTone | PlainTone

  function DueDateTone(c: Clock, t: Task): DueTone {
    if IsOverdue(c, t) then OverdueTone else if IsDueToday(c, t) then TodayTone else PlainTone
  }

  /** A completed task due today shows the "today" tone although it is not open; an open
      task due earlier today shows the overdue tone. */
  lemma DueToneCases(c: Clock, t: Task)
    ensures t.status == Completed && IsDueToday(c, t) ==> DueDateTone(c, t) == TodayTone
    ensures DueDateTone(c, t) == OverdueTone <==> IsOverdue(c, t)
    ensures DueDateTone(c, t) == PlainTone ==> !IsDueToday(c, t) && !IsOverdue(c, t)
  {
  }

  /** What a card offers, in either layout. */
  datatype Controls = Controls(
    checked: bool,
    checkboxEnabled: bool,
    statusButton: Option<string>,
    editItem: bool,
    shareItem: bool,
    deleteItem: bool,
    viewOnlyBadge: bool,
    sharedIcon: bool)

  /** The controls of a card for `t`, given which optional callbacks the page passed. */
  function CardControls(t: Task, hasOnShare: bool, hasOnStatusChange: bool): Controls {
    var edit := CardCanEdit(t);
    Controls(
      t.status == Completed,
      edit,
      if edit && hasOnStatusChange then Some(StatusLabel(t.status)) else None,
      edit,
      hasOnShare && edit,
      edit,
      !edit,
      t.isShared == Some(true))
  }

  /** A view-only card has a disabled checkbox, no status button and no Edit, Share or Delete
      item; an editable one has all of them, except that Share needs an `onShare` callback and
      the status button an `onStatusChange` callback. */
  lemma CardControlsGate(t: Task, hasOnShare: bool, hasOnStatusChange: bool)
    ensures var k := CardControls(t, hasOnShare, hasOnStatusChange);
      && (!CardCanEdit(t) ==>
            !k.checkboxEnabled && k.statusButton == None && !k.editItem && !k.shareItem &&
            !k.deleteItem && k.viewOnlyBadge)
      && (CardCanEdit(t) ==>
            k.checkboxEnabled && k.editItem && k.deleteItem && !k.viewOnlyBadge &&
            (k.shareItem <==> hasOnShare) &&
            (k.statusButton.Some? <==> hasOnStatusChange))
      && (k.statusButton.Some? ==> k.statusButton.value == StatusLabel(t.status))
  {
  }

  /** A call a card makes to the page that rendered it. */
  datatype CardEvent =
    | ToggleRequested(taskId: string)
    | StatusChangeRequested(taskId: string, next: Status)
    | EditRequested(task: Task)
    | ShareRequested(task: Task)
    | DeleteRequested(taskId: string)

  /** The card's `handleStatusChange`: the callback, when there is one, is given the task's id
      and the next status of the cycle. */
  function StatusButtonCall(t: Task, hasOnStatusChange: bool): (e: Option<CardEvent>)
    ensures e.Some? <==> hasOnStatusChange
    ensures e.Some? ==> e.value.StatusChangeRequested? && e.value.taskId == t.id
    ensures e.Some? ==> KnownStatus(e.value.next) && e.value.next != t.status
  {
    if hasOnStatusChange then Some(StatusChangeRequested(t.id, NextStatus(t.status))) else None
  }
}
