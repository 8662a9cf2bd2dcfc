/** The task form dialog: the five fields it edits, the reset that fills them from the task
    being edited (or the defaults of a new one), and what a submit or a cancel hands back to
    the page. */
module TaskFormDialog {
  import opened Wrappers
  import opened TaskCard
  import opened TaskViews

  /** The callbacks the dialog invokes, in order. */
  datatype FormCall = OnSave(draft: TaskDraft) | OnClose

  /** The five form fields of a task: what an unchanged form hands back. */
  function DraftOf(t: Task): (d: TaskDraft)
    ensures ApplyDraft(t, d, t.id, true) == t
  {
    TaskDraft(t.title, t.description, t.due, t.priority, t.status)
  }

  class TaskForm {
    var title: string
    var description: string
    var due: int
    var priority: Priority
    var status: Status

    /** The draft the fields currently hold. */
    function Draft(): TaskDraft
      reads this
    {
      TaskDraft(title, description, due, priority, status)
    }

    /** The initial state; `now` is the instant of `new Date()`. */
    constructor(now: int)
      ensures Draft() == TaskDraft([], [], now, Medium, Pending)
    {
      title := [];
      description := [];
      due := now;
      priority := Medium;
      status := Pending;
    }

    /** The effect run whenever the edited task or the open flag changes: the task's own
        fields, or an empty form due now with medium priority and pending status. */
    method Reset(editing: Option<Task>, now: int)
      modifies this
      ensures editing.Some? ==> Draft() == DraftOf(editing.value)
      ensures editing.None? ==> Draft() == TaskDraft([], [], now, Medium, Pending)
    {
      if editing.Some? {
        title := editing.value.title;
        description := editing.value.description;
        due := editing.value.due;
        priority := editing.value.priority;
        status := editing.value.status;
      } else {
        title := [];
        description := [];
        due := now;
        priority := Medium;
        status := Pending;
      }
    }

    method SetTitle(v: string)
      modifies this
      ensures Draft() == old(Draft()).(title := v)
    {
      title := v;
    }

    method SetDescription(v: string)
      modifies this
      ensures Draft() == old(Draft()).(description := v)
    {
      description := v;
    }

    /** The priority select offers only the three recognised values. */
    method SetPriority(p: Priority)
      requires KnownPriority(p)
      modifies this
      ensures Draft() == old(Draft()).(priority := p)
    {
      priority := p;
    }

    /** The status select offers only the three recognised values. */
    method SetStatus(s: Status)
      requires KnownStatus(s)
      modifies this
      ensures Draft() == old(Draft()).(status := s)
    {
      status := s;
    }

    /** The calendar's `onSelect`: a cleared selection keeps the date. */
    method SelectDate(d: Option<int>)
      modifies this
      ensures d.Some? ==> Draft() == old(Draft()).(due := d.value)
      ensures d.None? ==> Draft() == old(Draft())
    {
      if d.Some? {
        due := d.value;
      }
    }

    /** `handleSubmit`: the page's save callback with the draft, then its close callback.
        The title input is `required`, so with an empty title the form is not submitted and
        nothing is called. */
    method Submit() returns (calls: seq<FormCall>)
      ensures title == [] ==> calls == []
      ensures title != [] ==> calls == [OnSave(Draft()), OnClose]
    {
      if title == [] {
        calls := [];
      } else {
        calls := [OnSave(Draft()), OnClose];
      }
    }

    /** "Cancel", and closing the dialog any other way: only the close callback. */
    method Cancel() returns (calls: seq<FormCall>)
      ensures calls == [OnClose]
    {
      calls := [OnClose];
    }
  }

  /** Opening the dialog on a task and submitting it untouched saves that task's own fields,
      which leave the page's list as it is. */
  method SubmitUntouched(t: Task, now: int) returns (calls: seq<FormCall>)
    ensures t.title != [] ==> calls == [OnSave(DraftOf(t)), OnClose]
    ensures t.title == [] ==> calls == []
    ensures forall ts: seq<Task> :: (forall i :: 0 <= i < |ts| ==> ts[i].id == t.id ==> ts[i] == t) ==>
      Edited(ts, t.id, DraftOf(t), true) == ts
  {
    var form := new TaskForm(now);
    form.Reset(Some(t), now);
    calls := form.Submit();
    forall ts: seq<Task> | forall i :: 0 <= i < |ts| ==> ts[i].id == t.id ==> ts[i] == t
      ensures Edited(ts, t.id, DraftOf(t), true) == ts
    {
      EditedUntouched(ts, t);
    }
  }

  /** A new task's dialog cannot be submitted before a title is typed; once one is, it saves
      that title with the defaults. */
  method SubmitNew(now: int, typed: string) returns (before: seq<FormCall>, after: seq<FormCall>)
    ensures before == []
    ensures typed != [] ==> after == [OnSave(TaskDraft(typed, [], now, Medium, Pending)), OnClose]
    ensures typed == [] ==> after == []
  {
    var form := new TaskForm(now);
    form.Reset(None, now);
    before := form.Submit();
    form.SetTitle(typed);
    after := form.Submit();
  }
}
